/**
  The handful of Rust `str` operations the scraper's text handling relies on:
  `trim`, `trim_matches(char)`, `starts_with(char)`, `split(char)`, `lines()`
  and `to_ascii_lowercase()`, each with the characterisation that fixes its
  result, and the round trips that relate splitting to joining.
*/
module RustStr {

  /** Rust's `char::is_whitespace`: the Unicode White_Space property. */
  predicate IsWhitespace(c: char) {
    || ('\t' <= c <= '\r')
    || c == ' ' || c == '\U{85}' || c == '\U{A0}' || c == '\U{1680}'
    || ('\U{2000}' <= c <= '\U{200A}')
    || c == '\U{2028}' || c == '\U{2029}' || c == '\U{202F}' || c == '\U{205F}' || c == '\U{3000}'
  }

  /** What a trim removes: whitespace (`trim`) or one given character (`trim_matches`). */
  datatype CharPattern = Whitespace | Exactly(c: char)

  predicate Matches(p: CharPattern, x: char) {
    match p
    case Whitespace => IsWhitespace(x)
    case Exactly(c) => x == c
  }

  /** Drops the longest prefix of characters matching `p`. */
  function TrimStartMatches(s: string, p: CharPattern): (r: string)
    ensures |r| <= |s| && r == s[|s| - |r|..]
    ensures r == [] || !Matches(p, r[0])
    ensures forall i :: 0 <= i < |s| - |r| ==> Matches(p, s[i])
  {
    if s != [] && Matches(p, s[0]) then TrimStartMatches(s[1..], p) else s
  }

  /** Drops the longest suffix of characters matching `p`. */
  function TrimEndMatches(s: string, p: CharPattern): (r: string)
    ensures |r| <= |s| && r == s[..|r|]
    ensures r == [] || !Matches(p, r[|r| - 1])
    ensures forall i :: |r| <= i < |s| ==> Matches(p, s[i])
  {
    if s != [] && Matches(p, s[|s| - 1]) then TrimEndMatches(s[..|s| - 1], p) else s
  }

  /** A trim from the front keeps exactly the suffix after the matching prefix. */
  lemma TrimStartAt(s: string, p: CharPattern, n: nat)
    requires n <= |s|
    requires forall i :: 0 <= i < n ==> Matches(p, s[i])
    requires n == |s| || !Matches(p, s[n])
    ensures TrimStartMatches(s, p) == s[n..]
  {
  }

  /** A trim from the back keeps exactly the prefix before the matching suffix. */
  lemma TrimEndAt(s: string, p: CharPattern, n: nat)
    requires n <= |s|
    requires forall i :: n <= i < |s| ==> Matches(p, s[i])
    requires n == 0 || !Matches(p, s[n - 1])
    ensures TrimEndMatches(s, p) == s[..n]
  {
  }

  /** The length of the longest prefix of `s` whose characters all match `p`. */
  function PrefixMatching(s: string, p: CharPattern): (n: nat)
    ensures n <= |s|
    ensures forall i :: 0 <= i < n ==> Matches(p, s[i])
    ensures n == |s| || !Matches(p, s[n])
  {
    if s != [] && Matches(p, s[0]) then 1 + PrefixMatching(s[1..], p) else 0
  }

  /** A front trim drops exactly the longest matching prefix. */
  lemma TrimStartDropsPrefix(s: string, p: CharPattern)
    ensures TrimStartMatches(s, p) == s[PrefixMatching(s, p)..]
  {
    TrimStartAt(s, p, PrefixMatching(s, p));
  }

  /** Trimming the back of the suffix after a matching prefix leaves a piece of `s` followed only by matching characters. */
  lemma TrimPiece(s: string, p: CharPattern, a: nat, t: string, r: string)
    requires a <= |s| && t == s[a..] && (a == |s| || !Matches(p, s[a]))
    requires r == TrimEndMatches(t, p)
    ensures a + |r| <= |s| && r == s[a..a + |r|]
    ensures forall i :: a + |r| <= i < |s| ==> Matches(p, s[i])
    ensures r == [] || (!Matches(p, r[0]) && !Matches(p, r[|r| - 1]))
    ensures r == [] <==> a == |s|
    ensures r != [] ==> r[0] == s[a]
    ensures forall x :: x in r ==> x in s
  {
    forall i | a + |r| <= i < |s| ensures Matches(p, s[i]) {
      assert s[i] == t[i - a];
    }
    if r != [] {
      assert r[0] == t[0] == s[a];
    }
    if a < |s| {
      assert t[0] == s[a];
    }
    SliceChars(s, a, a + |r|);
  }

  /** A piece of a text holds only characters of that text. */
  lemma SliceChars(s: string, a: nat, b: nat)
    requires a <= b <= |s|
    ensures forall x :: x in s[a..b] ==> x in s
  {
    forall x | x in s[a..b] ensures x in s {
      var i :| 0 <= i < b - a && s[a..b][i] == x;
      assert s[a + i] == x;
    }
  }

  /**
    `str::trim_matches(c)` (and, with `Whitespace`, `str::trim`): empty exactly when
    every character matches, otherwise starting at the first character that does not
    match; neither end matches, and every character comes from `s`.
  */
  function TrimMatches(s: string, p: CharPattern): (r: string)
    ensures r == [] <==> PrefixMatching(s, p) == |s|
    ensures r != [] ==> r[0] == s[PrefixMatching(s, p)]
    ensures r == [] || (!Matches(p, r[0]) && !Matches(p, r[|r| - 1]))
    ensures forall x :: x in r ==> x in s
  {
    var a := PrefixMatching(s, p);
    TrimStartDropsPrefix(s, p);
    var t := TrimStartMatches(s, p);
    var r := TrimEndMatches(t, p);
    TrimPiece(s, p, a, t, r);
    r
  }

  /** `str::trim`: empty exactly when `s` is all whitespace, otherwise starting at its first other character. */
  function Trim(s: string): (r: string)
    ensures r == [] <==> forall i :: 0 <= i < |s| ==> IsWhitespace(s[i])
    ensures r != [] ==> r[0] == s[PrefixMatching(s, Whitespace)]
    ensures r == [] || (!IsWhitespace(r[0]) && !IsWhitespace(r[|r| - 1]))
    ensures forall x :: x in r ==> x in s
  {
    var r := TrimMatches(s, Whitespace);
    assert forall c :: Matches(Whitespace, c) == IsWhitespace(c);
    r
  }

  /**
    Where the trim cuts: `r`, the trim of `s`, is the piece of `s` that starts after
    the longest matching prefix `a`, and every character after that piece matches.
    With the ends of `TrimMatches`, this fixes the result.
  */
  lemma TrimMatchesPiece(s: string, p: CharPattern, a: nat, r: string)
    requires a == PrefixMatching(s, p) && r == TrimMatches(s, p)
    ensures a + |r| <= |s| && r == s[a..a + |r|]
    ensures forall i :: a + |r| <= i < |s| ==> Matches(p, s[i])
  {
    TrimMatchesCut(s, p);
    TrimPiece(s, p, a, s[a..], r);
  }

  /** The same for `trim`: the piece after the leading whitespace, followed only by whitespace. */
  lemma TrimPieceOf(s: string, a: nat, r: string)
    requires a == PrefixMatching(s, Whitespace) && r == Trim(s)
    ensures a + |r| <= |s| && r == s[a..a + |r|]
    ensures forall i :: a + |r| <= i < |s| ==> IsWhitespace(s[i])
  {
    TrimMatchesPiece(s, Whitespace, a, r);
    assert forall c :: Matches(Whitespace, c) == IsWhitespace(c);
  }

  /** `trim_matches` trims the back of what is left after the longest matching prefix. */
  lemma TrimMatchesCut(s: string, p: CharPattern)
    ensures TrimMatches(s, p) == TrimEndMatches(s[PrefixMatching(s, p)..], p)
  {
    TrimStartDropsPrefix(s, p);
  }

  /** `str::starts_with(c)` for a character pattern: the first occurrence of `c` is at the front. */
  predicate StartsWith(s: string, c: char)
    ensures StartsWith(s, c) <==> c in s && IndexOf(s, c) == 0
  {
    s != [] && s[0] == c
  }

  /** Position of the first occurrence of `c`. */
  function IndexOf(s: string, c: char): (i: nat)
    requires c in s
    ensures i < |s| && s[i] == c && c !in s[..i]
  {
    if s[0] == c then 0 else IndexOf(s[1..], c) + 1
  }

  /** The first occurrence is the one with no occurrence before it. */
  lemma IndexOfFirst(s: string, c: char, j: nat)
    requires j < |s| && s[j] == c && c !in s[..j]
    ensures IndexOf(s, c) == j
  {
  }

  /** Number of occurrences of `c` in `s`. */
  function Count(s: string, c: char): nat {
    if s == [] then 0 else (if s[0] == c then 1 else 0) + Count(s[1..], c)
  }

  /** `str::split(c)` collected into a vector: never empty, one more part than separators. */
  function Split(s: string, sep: char): (parts: seq<string>)
    ensures |parts| >= 1
    decreases |s|
  {
    if sep in s then
      var i := IndexOf(s, sep);
      [s[..i]] + Split(s[i + 1..], sep)
    else
      [s]
  }

  /** Joins parts with `sep` between them: the inverse of `Split`. */
  function Join(parts: seq<string>, sep: char): string
    requires |parts| >= 1
  {
    if |parts| == 1 then parts[0] else parts[0] + [sep] + Join(parts[1..], sep)
  }

  /** The text before the first `sep`, or all of `s`: what `split(sep).next()` yields. */
  function FirstSegment(s: string, sep: char): (r: string)
    ensures r == Split(s, sep)[0]
    ensures sep !in r
    ensures r == s || (|r| < |s| && s[..|r| + 1] == r + [sep])
  {
    if sep in s then s[..IndexOf(s, sep)] else s
  }

  /**
    The first segment is `seg` (which holds no separator) exactly when the text is `seg`
    itself or begins with `seg` and a separator, whatever follows.
  */
  lemma FirstSegmentIff(s: string, sep: char, seg: string)
    requires sep !in seg
    ensures FirstSegment(s, sep) == seg <==> s == seg || (|s| > |seg| && s[..|seg| + 1] == seg + [sep])
  {
    if |s| > |seg| && s[..|seg| + 1] == seg + [sep] {
      assert s[|seg|] == sep;
      assert s[..|seg|] == seg;
      IndexOfFirst(s, sep, |seg|);
    }
  }

  lemma {:induction false} CountSplit(s: string, c: char, i: nat)
    requires i < |s| && s[i] == c
    ensures Count(s, c) == Count(s[..i], c) + 1 + Count(s[i + 1..], c)
    decreases i
  {
    if i > 0 {
      CountSplit(s[1..], c, i - 1);
      assert s[1..][..i - 1] == s[..i][1..];
      assert s[1..][i..] == s[i + 1..];
    }
  }

  lemma {:induction false} CountAbsent(s: string, c: char)
    ensures c !in s <==> Count(s, c) == 0
    decreases |s|
  {
    if s != [] {
      CountAbsent(s[1..], c);
      assert s == [s[0]] + s[1..];
    }
  }

  /** No part of a split contains the separator. */
  lemma {:induction false} SplitPartsFree(s: string, sep: char)
    ensures forall k :: 0 <= k < |Split(s, sep)| ==> sep !in Split(s, sep)[k]
    decreases |s|
  {
    if sep in s {
      SplitPartsFree(s[IndexOf(s, sep) + 1..], sep);
    }
  }

  /** A split has exactly one part more than `s` has separators. */
  lemma {:induction false} SplitCount(s: string, sep: char)
    ensures |Split(s, sep)| == Count(s, sep) + 1
    decreases |s|
  {
    if sep in s {
      var i := IndexOf(s, sep);
      SplitCount(s[i + 1..], sep);
      CountSplit(s, sep, i);
      CountAbsent(s[..i], sep);
    } else {
      CountAbsent(s, sep);
    }
  }

  /** Joining the parts of a split gives back the original text. */
  lemma {:induction false} JoinSplit(s: string, sep: char)
    ensures Join(Split(s, sep), sep) == s
    decreases |s|
  {
    if sep in s {
      var i := IndexOf(s, sep);
      var head, rest := s[..i], s[i + 1..];
      SplitAt(s, sep, i);
      JoinCons(head, Split(rest, sep), sep);
      JoinSplit(rest, sep);
      assert s == head + [sep] + rest;
    }
  }

  /** Joining a part in front of at least one more part puts a separator between them. */
  lemma JoinCons(head: string, parts: seq<string>, sep: char)
    requires |parts| >= 1
    ensures Join([head] + parts, sep) == head + [sep] + Join(parts, sep)
  {
    assert ([head] + parts)[1..] == parts;
  }

  /** A split cuts at the first separator and goes on after it. */
  lemma SplitAt(s: string, sep: char, i: nat)
    requires i < |s| && s[i] == sep && sep !in s[..i]
    ensures Split(s, sep) == [s[..i]] + Split(s[i + 1..], sep)
  {
    IndexOfFirst(s, sep, i);
  }

  /** Splitting a join of separator-free parts gives back the parts. */
  lemma {:induction false} SplitJoin(parts: seq<string>, sep: char)
    requires |parts| >= 1
    requires forall k :: 0 <= k < |parts| ==> sep !in parts[k]
    ensures Split(Join(parts, sep), sep) == parts
    decreases |parts|
  {
    if |parts| > 1 {
      var head := parts[0];
      var rest := parts[1..];
      var tail := Join(rest, sep);
      var s := head + [sep] + tail;
      assert parts == [head] + rest;
      JoinCons(head, rest, sep);
      assert s[..|head|] == head;
      assert s[|head| + 1..] == tail;
      SplitAt(s, sep, |head|);
      assert forall k :: 0 <= k < |rest| ==> rest[k] == parts[k + 1];
      SplitJoin(rest, sep);
    }
  }

  /** Drops one trailing carriage return, as `lines()` does before a line feed. */
  function StripCarriageReturn(line: string): string {
    if line != [] && line[|line| - 1] == '\r' then line[..|line| - 1] else line
  }

  /**
    `str::lines()`: lines end at `\n` or `\r\n`; the final line ending is optional,
    so a trailing `\n` does not produce an empty last line, and a `\r` on a last line
    with no line feed after it is kept.
  */
  function Lines(s: string): (ls: seq<string>)
    ensures ls == [] <==> s == []
    ensures forall k :: 0 <= k < |ls| ==> '\n' !in ls[k]
    decreases |s|
  {
    if s == [] then []
    else if '\n' in s then
      var i := IndexOf(s, '\n');
      [StripCarriageReturn(s[..i])] + Lines(s[i + 1..])
    else [s]
  }

  /** Each line followed by a line feed: a text `Lines` reads back line for line. */
  function UnLines(ls: seq<string>): string {
    if ls == [] then [] else ls[0] + "\n" + UnLines(ls[1..])
  }

  /** Each line with its trailing carriage return dropped. */
  function StripAll(ls: seq<string>): (r: seq<string>)
    ensures |r| == |ls| && forall k :: 0 <= k < |ls| ==> r[k] == StripCarriageReturn(ls[k])
  {
    seq(|ls|, k requires 0 <= k < |ls| => StripCarriageReturn(ls[k]))
  }

  /**
    The lines `lines()` reads from the parts of `split('\n')`: each part that a line feed
    ends loses one trailing carriage return, and the last part is dropped when empty.
  */
  function LinesOfParts(ps: seq<string>): seq<string>
    requires |ps| >= 1
  {
    StripAll(ps[..|ps| - 1]) + (if ps[|ps| - 1] == [] then [] else [ps[|ps| - 1]])
  }

  lemma LinesOfPartsCons(x: string, ps: seq<string>)
    requires |ps| >= 1
    ensures LinesOfParts([x] + ps) == [StripCarriageReturn(x)] + LinesOfParts(ps)
  {
    var xs := [x] + ps;
    assert xs[..|xs| - 1] == [x] + ps[..|ps| - 1];
    assert StripAll([x] + ps[..|ps| - 1]) == [StripCarriageReturn(x)] + StripAll(ps[..|ps| - 1]);
  }

  /** `lines()` is `split('\n')` read line by line. */
  lemma {:induction false} LinesSplit(s: string)
    ensures Lines(s) == LinesOfParts(Split(s, '\n'))
    decreases |s|
  {
    if s != [] && '\n' in s {
      var i := IndexOf(s, '\n');
      SplitAt(s, '\n', i);
      LinesSplit(s[i + 1..]);
      LinesOfPartsCons(s[..i], Split(s[i + 1..], '\n'));
    }
  }

  /** Round trip: lines without line feeds and without a trailing `\r` survive `UnLines` then `Lines`. */
  lemma {:induction false} LinesUnLines(ls: seq<string>)
    requires forall k :: 0 <= k < |ls| ==> '\n' !in ls[k]
    requires forall k :: 0 <= k < |ls| ==> StripCarriageReturn(ls[k]) == ls[k]
    ensures Lines(UnLines(ls)) == ls
    decreases |ls|
  {
    if ls != [] {
      var s := UnLines(ls);
      var n := |ls[0]|;
      assert s == ls[0] + "\n" + UnLines(ls[1..]);
      assert s[n] == '\n';
      assert s[..n] == ls[0];
      IndexOfFirst(s, '\n', n);
      assert s[n + 1..] == UnLines(ls[1..]);
      LinesUnLines(ls[1..]);
    }
  }

  /** `char::to_ascii_lowercase`: only `A`..`Z` change. */
  function AsciiLower(c: char): (r: char)
    ensures 'A' <= c <= 'Z' ==> r as int == c as int + 32
    ensures !('A' <= c <= 'Z') ==> r == c
    ensures !('A' <= r <= 'Z')
  {
    if 'A' <= c <= 'Z' then (c as int + 32) as char else c
  }

  /** `str::to_ascii_lowercase`. */
  function ToAsciiLowercase(s: string): (r: string)
    ensures |r| == |s|
    ensures forall i :: 0 <= i < |s| ==> r[i] == AsciiLower(s[i])
  {
    seq(|s|, i requires 0 <= i < |s| => AsciiLower(s[i]))
  }

  /** A string with no ASCII capital letters. */
  predicate IsAsciiLower(s: string) {
    forall i :: 0 <= i < |s| ==> !('A' <= s[i] <= 'Z')
  }

  /** Lowercasing leaves no capital, is idempotent and preserves every other character. */
  lemma AsciiLowerProperties(s: string)
    ensures IsAsciiLower(ToAsciiLowercase(s))
    ensures ToAsciiLowercase(ToAsciiLowercase(s)) == ToAsciiLowercase(s)
    ensures IsAsciiLower(s) ==> ToAsciiLowercase(s) == s
  {
  }

  /** A character that is no ASCII letter is the lowercase image of itself only. */
  predicate IsAsciiLetter(c: char) {
    ('A' <= c <= 'Z') || ('a' <= c <= 'z')
  }

  /** Lowercasing neither creates nor removes a character that is no ASCII letter. */
  lemma LowerKeepsChar(s: string, c: char)
    requires !IsAsciiLetter(c)
    ensures c in s <==> c in ToAsciiLowercase(s)
  {
    if c in s {
      var i :| 0 <= i < |s| && s[i] == c;
      assert ToAsciiLowercase(s)[i] == c;
    }
    if c in ToAsciiLowercase(s) {
      var i :| 0 <= i < |s| && ToAsciiLowercase(s)[i] == c;
      assert AsciiLower(s[i]) == c;
    }
  }
}
