/**
  `AstroportScraper::fetch_deployment_address` (src/dexes/astroport.rs): picks the
  published address document of the chain, fetches it, and reads it with a
  permissive line-by-line key/value scan instead of a JSON parser.

  The HTTP request is a parameter: `fetch` maps a URL to the response text or to the
  transport error.
*/
module AstroportDeployment {
  import opened Wrappers
  import opened RustStr

  const PhoenixAddrs: string :=
    "https://raw.githubusercontent.com/astroport-fi/astroport-changelog/main/terra-2/phoenix-1/core_phoenix.json"
  const PiscoAddrs: string :=
    "https://raw.githubusercontent.com/astroport-fi/astroport-changelog/main/terra-2/pisco-1/core_pisco.json"

  /** A transport failure of the HTTP request. */
  datatype HttpError = HttpError(message: string)

  /**
    How `fetch_deployment_address` ends without an address. `NetworkNotSupported` and
    `KeyNotFound` are the two panics of the Rust code.
  */
  datatype DeploymentError =
    | NetworkNotSupported(chainId: string)
    | Http(cause: HttpError)
    | KeyNotFound(key: string)

  /** The address document of a chain that has one. */
  function DeploymentUrl(chainId: string): (r: Option<string>)
    ensures r.Some? <==> chainId == "phoenix-1" || chainId == "pisco-1"
    ensures chainId == "phoenix-1" ==> r == Some(PhoenixAddrs)
    ensures chainId == "pisco-1" ==> r == Some(PiscoAddrs)
  {
    match chainId
    case "phoenix-1" => Some(PhoenixAddrs)
    case "pisco-1" => Some(PiscoAddrs)
    case _ => None
  }

  /** `i` is the position of the first character of `line` that is not whitespace. */
  predicate FirstNonWhitespace(line: string, i: int) {
    && 0 <= i < |line| && !IsWhitespace(line[i])
    && forall j :: 0 <= j < i ==> IsWhitespace(line[j])
  }

  /**
    A line the scan passes over: blank after trimming, or an opening or closing brace
    line, that is, a line whose first non-whitespace character, if any, is a brace.
  */
  predicate IsSkipped(line: string)
    ensures IsSkipped(line) <==>
              forall i :: FirstNonWhitespace(line, i) ==> line[i] == '{' || line[i] == '}'
  {
    var t := Trim(line);
    assert forall c :: Matches(Whitespace, c) == IsWhitespace(c);
    var n := PrefixMatching(line, Whitespace);
    assert forall i :: FirstNonWhitespace(line, i) ==> i == n;
    assert n < |line| ==> FirstNonWhitespace(line, n);
    t == [] || StartsWith(t, '{') || StartsWith(t, '}')
  }

  /** `trim` then `trim_matches('"')`: how a key is cleaned. It keeps only characters of `part`. */
  function CleanKey(part: string): (r: string)
    ensures forall x :: x in r ==> x in part
    ensures NotQuoted(r)
  {
    TrimMatches(Trim(part), Exactly('"'))
  }

  /** `trim`, `trim_matches(',')`, then `trim_matches('"')`: how a value is cleaned. It keeps only characters of `part`. */
  function CleanValue(part: string): (r: string)
    ensures forall x :: x in r ==> x in part
    ensures NotQuoted(r)
  {
    TrimMatches(TrimMatches(Trim(part), Exactly(',')), Exactly('"'))
  }

  /** Neither the first nor the last character is a double quote. */
  predicate NotQuoted(s: string) {
    s == [] || (s[0] != '"' && s[|s| - 1] != '"')
  }

  /**
    The body of the scan for one line: an entry exactly when the line is not skipped
    and splitting it on `:` gives two parts, that is, when it holds exactly one colon.
  */
  function ParseLine(line: string): (r: Option<(string, string)>)
    ensures r.Some? <==> !IsSkipped(line) && Count(line, ':') == 1
  {
    if IsSkipped(line) then None
    else
      var parts := Split(line, ':');
      SplitCount(line, ':');
      if |parts| == 2 then Some((CleanKey(parts[0]), CleanValue(parts[1]))) else None
  }

  /** An entry's key and value hold no colon, and neither begins nor ends with a quote. */
  lemma ParseLineClean(line: string)
    requires ParseLine(line).Some?
    ensures ':' !in ParseLine(line).value.0 && ':' !in ParseLine(line).value.1
    ensures NotQuoted(ParseLine(line).value.0) && NotQuoted(ParseLine(line).value.1)
  {
    var parts := Split(line, ':');
    SplitCount(line, ':');
    SplitPartsFree(line, ':');
    assert ':' !in parts[0] && ':' !in parts[1];
  }

  /** The entry (or nothing) each line yields. */
  function ParsedLines(lines: seq<string>): (r: seq<Option<(string, string)>>)
    ensures |r| == |lines| && forall i :: 0 <= i < |lines| ==> r[i] == ParseLine(lines[i])
  {
    seq(|lines|, i requires 0 <= i < |lines| => ParseLine(lines[i]))
  }

  /** Inserts the entries in order into an empty map, so a later key overwrites an earlier one. */
  function InsertAll(entries: seq<Option<(string, string)>>): map<string, string>
    decreases |entries|
  {
    if entries == [] then map[]
    else
      var m := InsertAll(entries[..|entries| - 1]);
      match entries[|entries| - 1]
      case None => m
      case Some((k, v)) => m[k := v]
  }

  /**
    The map the scan builds from `lines`: each entry line inserts its key, in line
    order. Every binding in it is the entry of one of the lines.
  */
  function Entries(lines: seq<string>): (r: map<string, string>)
    ensures forall k :: k in r ==> exists i :: 0 <= i < |lines| && ParseLine(lines[i]) == Some((k, r[k]))
    decreases |lines|
  {
    if lines == [] then map[]
    else
      var m := Entries(lines[..|lines| - 1]);
      match ParseLine(lines[|lines| - 1])
      case None => m
      case Some((k, v)) => m[k := v]
  }

  /** Scanning the lines is inserting the entries they yield. */
  lemma {:induction false} EntriesInsertAll(lines: seq<string>)
    ensures Entries(lines) == InsertAll(ParsedLines(lines))
    decreases |lines|
  {
    if lines != [] {
      var n := |lines| - 1;
      var es := ParsedLines(lines);
      EntriesInsertAll(lines[..n]);
      assert es[..n] == ParsedLines(lines[..n]);
      assert es[n] == ParseLine(lines[n]);
    }
  }

  /**
    The map read from a whole document. No key or value holds a colon, and none begins
    or ends with a double quote.
  */
  function DocumentEntries(text: string): (r: map<string, string>)
    ensures forall k :: k in r ==> ':' !in k && ':' !in r[k] && NotQuoted(k) && NotQuoted(r[k])
  {
    var lines := Lines(text);
    var r := Entries(lines);
    assert forall k :: k in r ==> ':' !in k && ':' !in r[k] && NotQuoted(k) && NotQuoted(r[k]) by {
      forall k | k in r
        ensures ':' !in k && ':' !in r[k] && NotQuoted(k) && NotQuoted(r[k])
      {
        var i :| 0 <= i < |lines| && ParseLine(lines[i]) == Some((k, r[k]));
        ParseLineClean(lines[i]);
      }
    }
    r
  }

  /** Entry `e` is present and has key `key`. */
  predicate HasKey(e: Option<(string, string)>, key: string) {
    e.Some? && e.value.0 == key
  }

  /** Entry `i` is the last one with key `key`. */
  predicate IsLastFor(entries: seq<Option<(string, string)>>, key: string, i: int) {
    && 0 <= i < |entries| && HasKey(entries[i], key)
    && forall i' :: i < i' < |entries| ==> !HasKey(entries[i'], key)
  }

  /** A key is in the map exactly when some entry has it. */
  lemma {:induction false} InsertAllKeys(entries: seq<Option<(string, string)>>, key: string)
    ensures key in InsertAll(entries) <==> exists i :: 0 <= i < |entries| && HasKey(entries[i], key)
    decreases |entries|
  {
    if entries != [] {
      var n := |entries| - 1;
      var init := entries[..n];
      InsertAllKeys(init, key);
      assert forall i :: 0 <= i < n ==> entries[i] == init[i];
    }
  }

  /** The value of a key is the one of the last entry with that key. */
  lemma {:induction false} InsertAllLastWins(entries: seq<Option<(string, string)>>, key: string)
    requires key in InsertAll(entries)
    ensures exists i :: IsLastFor(entries, key, i) && entries[i].value.1 == InsertAll(entries)[key]
    decreases |entries|
  {
    var n := |entries| - 1;
    var init := entries[..n];
    if HasKey(entries[n], key) {
      assert IsLastFor(entries, key, n);
    } else {
      assert InsertAll(entries)[key] == InsertAll(init)[key];
      InsertAllLastWins(init, key);
      var i :| IsLastFor(init, key, i) && init[i].value.1 == InsertAll(init)[key];
      assert entries[i] == init[i];
      assert IsLastFor(entries, key, i);
    }
  }

  /**
    Read on lines: a key is in the map exactly when some line defines it, and its value
    is the one of the last line that does.
  */
  lemma EntriesLastWins(lines: seq<string>, key: string)
    ensures key in Entries(lines) <==> exists i :: 0 <= i < |lines| && HasKey(ParseLine(lines[i]), key)
    ensures key in Entries(lines) ==>
              exists i :: IsLastFor(ParsedLines(lines), key, i) && ParseLine(lines[i]) == Some((key, Entries(lines)[key]))
  {
    var es := ParsedLines(lines);
    EntriesInsertAll(lines);
    InsertAllKeys(es, key);
    if key in Entries(lines) {
      InsertAllLastWins(es, key);
    }
  }

  /** One step of the scan: the map of one more line is the previous map with that line's entry inserted. */
  lemma EntriesStep(lines: seq<string>, i: nat)
    requires i < |lines|
    ensures Entries(lines[..i + 1]) == match ParseLine(lines[i])
                                      case None => Entries(lines[..i])
                                      case Some((k, v)) => Entries(lines[..i])[k := v]
  {
    assert lines[..i + 1][..i] == lines[..i];
  }

  /** The step of the scan in the terms of its own tests: skip, no single colon, or insert. */
  lemma ScanStep(lines: seq<string>, i: nat)
    requires i < |lines|
    ensures IsSkipped(lines[i]) ==> Entries(lines[..i + 1]) == Entries(lines[..i])
    ensures !IsSkipped(lines[i]) && |Split(lines[i], ':')| != 2 ==> Entries(lines[..i + 1]) == Entries(lines[..i])
    ensures !IsSkipped(lines[i]) && |Split(lines[i], ':')| == 2 ==>
              Entries(lines[..i + 1])
              == Entries(lines[..i])[CleanKey(Split(lines[i], ':')[0]) := CleanValue(Split(lines[i], ':')[1])]
  {
    EntriesStep(lines, i);
  }

  /**
    The scan of `fetch_deployment_address` over the response text: skips blank and
    brace lines, keeps the lines with exactly one colon, and inserts each cleaned
    key/value pair into the map.
  */
  method ParseDeploymentDocument(responseText: string) returns (jsonMap: map<string, string>)
    ensures jsonMap == DocumentEntries(responseText)
  {
    var lines := Lines(responseText);
    jsonMap := map[];
    var i := 0;
    while i < |lines|
      invariant 0 <= i <= |lines|
      invariant jsonMap == Entries(lines[..i])
    {
      var line := lines[i];
      ScanStep(lines, i);
      if IsSkipped(line) {
        i := i + 1;
        continue;
      }
      var parts := Split(line, ':');
      if |parts| == 2 {
        var key := CleanKey(parts[0]);
        var value := CleanValue(parts[1]);
        jsonMap := jsonMap[key := value];
      }
      i := i + 1;
    }
    assert lines[..i] == lines;
  }

  /**
    `fetch_deployment_address(chain_id, key)`: the address under `key` in the chain's
    published document, or the reason there is none.
  */
  method FetchDeploymentAddress(chainId: string, key: string, fetch: string -> Result<string, HttpError>)
    returns (r: Result<string, DeploymentError>)
    ensures DeploymentUrl(chainId).None? ==> r == Err(NetworkNotSupported(chainId))
    ensures DeploymentUrl(chainId).Some? && fetch(DeploymentUrl(chainId).value).Err? ==>
              r == Err(Http(fetch(DeploymentUrl(chainId).value).error))
    ensures DeploymentUrl(chainId).Some? && fetch(DeploymentUrl(chainId).value).Ok? ==>
              var entries := DocumentEntries(fetch(DeploymentUrl(chainId).value).value);
              r == if key in entries then Ok(entries[key]) else Err(KeyNotFound(key))
  {
    var url := DeploymentUrl(chainId);
    if url.None? {
      return Err(NetworkNotSupported(chainId));
    }
    var response := fetch(url.value);
    if response.Err? {
      return Err(Http(response.error));
    }
    var jsonMap := ParseDeploymentDocument(response.value);
    if key !in jsonMap {
      return Err(KeyNotFound(key));
    }
    r := Ok(jsonMap[key]);
  }

  /** A well-formed entry line as the published documents write it: `  "key": "value",`. */
  function EntryLine(key: string, value: string): string {
    "  \"" + key + "\": \"" + value + "\","
  }

  /** `trim_matches('"')` removes exactly one pair of quotes around a quote-free text. */
  lemma UnquoteQuoted(k: string)
    requires '"' !in k
    ensures TrimMatches("\"" + k + "\"", Exactly('"')) == k
  {
    var q := "\"" + k + "\"";
    if k == [] {
      TrimStartAt(q, Exactly('"'), 2);
    } else {
      TrimStartAt(q, Exactly('"'), 1);
      assert q[1..] == k + "\"";
      TrimEndAt(k + "\"", Exactly('"'), |k|);
      assert (k + "\"")[..|k|] == k;
    }
  }

  /** The two halves of an entry line around its only colon. */
  function KeyPart(key: string): string { "  \"" + key + "\"" }
  function ValuePart(value: string): string { " \"" + value + "\"," }

  lemma EntryLineSplits(key: string, value: string)
    requires ':' !in key && ':' !in value
    ensures Split(EntryLine(key, value), ':') == [KeyPart(key), ValuePart(value)]
  {
    assert EntryLine(key, value) == Join([KeyPart(key), ValuePart(value)], ':');
    SplitJoin([KeyPart(key), ValuePart(value)], ':');
  }

  lemma EntryLineNotSkipped(key: string, value: string)
    ensures !IsSkipped(EntryLine(key, value))
  {
    var line := EntryLine(key, value);
    var n := |line|;
    TrimStartAt(line, Whitespace, 2);
    TrimEndAt(line[2..], Whitespace, n - 2);
    assert line[2..][..n - 2] == line[2..];
    assert line[2] == '"';
  }

  lemma KeyPartCleans(key: string)
    requires '"' !in key
    ensures CleanKey(KeyPart(key)) == key
  {
    var a := KeyPart(key);
    TrimStartAt(a, Whitespace, 2);
    assert a[2..] == "\"" + key + "\"";
    TrimEndAt(a[2..], Whitespace, |a| - 2);
    assert a[2..][..|a| - 2] == a[2..];
    UnquoteQuoted(key);
  }

  lemma ValuePartCleans(value: string)
    requires '"' !in value
    ensures CleanValue(ValuePart(value)) == value
  {
    var b := ValuePart(value);
    var qv := "\"" + value + "\"";
    TrimStartAt(b, Whitespace, 1);
    assert b[1..] == qv + ",";
    TrimEndAt(qv + ",", Whitespace, |qv| + 1);
    assert (qv + ",")[..|qv| + 1] == qv + ",";
    TrimStartAt(qv + ",", Exactly(','), 0);
    assert (qv + ",")[0..] == qv + ",";
    TrimEndAt(qv + ",", Exactly(','), |qv|);
    assert (qv + ",")[..|qv|] == qv;
    UnquoteQuoted(value);
  }

  /** Round trip: a well-formed entry line is read back as its own key and value. */
  lemma ParseEntryLine(key: string, value: string)
    requires ':' !in key && '"' !in key
    requires ':' !in value && '"' !in value
    ensures ParseLine(EntryLine(key, value)) == Some((key, value))
  {
    EntryLineSplits(key, value);
    EntryLineNotSkipped(key, value);
    KeyPartCleans(key);
    ValuePartCleans(value);
  }
}
