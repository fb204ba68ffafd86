/**
  The Astroport scraper (src/dexes/astroport.rs): it loads every pair of the Astroport
  factory contract page by page and caches them, flattens their asset identifiers into
  the cw-asset form, and turns each pair whose assets all have an ANS name into a pool
  entry.

  The factory contract is an oracle: a total function from the pagination cursor to
  the page the `pairs` query answers, or the query's error. The chain does not change
  while the scraper runs, so asking twice with one cursor gives one answer.
*/
module Astroport {
  import opened Wrappers

  /** The identifier of this DEX in pool metadata. */
  const AstroportDex: string := "astroport"

  /** Astroport's own asset identifier. */
  datatype AstroportAssetInfo = Token(contractAddr: string) | NativeToken(denom: string)

  /** Astroport's pair types. */
  datatype PairType = Xyk | Stable | Concentrated | Custom(name: string)

  /** One trading pair as the factory lists it. */
  datatype PairInfo = PairInfo(
    assetInfos: seq<AstroportAssetInfo>,
    contractAddr: string,
    liquidityToken: string,
    pairType: PairType)

  /** `start_after` of the `pairs` query: the asset identifiers of the last pair seen. */
  type Cursor = Option<seq<AstroportAssetInfo>>

  /** An error of a factory query. */
  datatype QueryError = QueryError(message: string)

  /** The factory's `pairs` query (with the default page limit) as a function of the cursor. */
  type Factory = Cursor -> Result<seq<PairInfo>, QueryError>

  /** The cw-asset identifier the scraper reports. */
  datatype AssetInfo = Native(denom: string) | Cw20(addr: string)

  /** The ANS pool types the scraper produces. */
  datatype PoolType = ConstantProduct | Stable | Weighted

  /** The ANS pool address; Astroport pools are always addressed by their pair contract. */
  datatype PoolAddress = Contract(addr: string)

  /** The ANS metadata of one pool. */
  datatype PoolMetadata = PoolMetadata(dex: string, poolType: PoolType, assets: seq<string>)

  /** A pool entry as `fetch_dex_pools` returns it. */
  type PoolEntry = (PoolAddress, PoolMetadata)

  /** How `fetch_dex_pools` fails: a factory query error, or the panic on a custom pair type. */
  datatype ScrapeError = Query(cause: QueryError) | CustomPairTypeNotSupported

  // ---------------------------------------------------------------------------
  // Pagination
  // ---------------------------------------------------------------------------

  /**
    The cursor after `pairs` have been accumulated: none exactly when nothing has been
    accumulated, then the asset identifiers of the last pair.
  */
  function CursorOf(pairs: seq<PairInfo>): (r: Cursor)
    ensures r.None? <==> pairs == []
    ensures r.Some? ==> r.value == pairs[|pairs| - 1].assetInfos
  {
    if pairs == [] then None else Some(pairs[|pairs| - 1].assetInfos)
  }

  /** After a non-empty page the cursor depends on that page only. */
  lemma CursorAfterPage(acc: seq<PairInfo>, page: seq<PairInfo>)
    requires page != []
    ensures CursorOf(acc + page) == CursorOf(page)
  {
  }

  /**
    The loop of `load_pairs` from the accumulated pairs `acc`, allowed at most `fuel`
    queries: `None` when the fuel runs out first, otherwise the error of the first
    failing query or everything accumulated when a page comes back empty.
  */
  function Paginate(factory: Factory, acc: seq<PairInfo>, fuel: nat): (r: Option<Result<seq<PairInfo>, QueryError>>)
    ensures fuel == 0 ==> r.None?
    ensures r.Some? && r.value.Ok? ==> acc <= r.value.value
    decreases fuel
  {
    if fuel == 0 then None
    else match factory(CursorOf(acc))
      case Err(e) => Some(Err(e))
      case Ok(page) => if page == [] then Some(Ok(acc)) else Paginate(factory, acc + page, fuel - 1)
  }

  /** The factory ends the pagination: some number of queries reaches an empty page or an error. */
  ghost predicate Terminates(factory: Factory) {
    exists fuel: nat :: Paginate(factory, [], fuel).Some?
  }

  /**
    What a complete pagination over `factory` yields: the answer of some run of
    non-empty pages ended by an empty page or an error.
  */
  ghost function AllPairs(factory: Factory): (r: Result<seq<PairInfo>, QueryError>)
    requires Terminates(factory)
    ensures exists pages :: RunEndsIn(factory, pages, r)
  {
    var fuel: nat :| Paginate(factory, [], fuel).Some?;
    assert Concat([]) == [];
    assert IsPageRun(factory, []);
    PaginateHasRun(factory, [], fuel);
    Paginate(factory, [], fuel).value
  }

  /** More fuel does not change a pagination that has finished. */
  lemma {:induction false} PaginateMoreFuel(factory: Factory, acc: seq<PairInfo>, fuel: nat, more: nat)
    requires Paginate(factory, acc, fuel).Some?
    requires fuel <= more
    ensures Paginate(factory, acc, more) == Paginate(factory, acc, fuel)
    decreases fuel
  {
    match factory(CursorOf(acc))
    case Err(_) =>
    case Ok(page) =>
      if page != [] {
        PaginateMoreFuel(factory, acc + page, fuel - 1, more - 1);
      }
  }

  /** Every finished pagination gives the same answer: `AllPairs` does not depend on the fuel. */
  lemma AllPairsOfAnyFuel(factory: Factory, fuel: nat)
    requires Paginate(factory, [], fuel).Some?
    ensures Terminates(factory)
    ensures AllPairs(factory) == Paginate(factory, [], fuel).value
  {
    var f: nat :| Paginate(factory, [], f).Some? && AllPairs(factory) == Paginate(factory, [], f).value;
    if f <= fuel {
      PaginateMoreFuel(factory, [], f, fuel);
    } else {
      PaginateMoreFuel(factory, [], fuel, f);
    }
  }

  /** The pages joined in order. */
  function Concat(pages: seq<seq<PairInfo>>): seq<PairInfo>
    decreases |pages|
  {
    if pages == [] then [] else Concat(pages[..|pages| - 1]) + pages[|pages| - 1]
  }

  /**
    `pages` is what the factory answers to the loop, page by page: each page is
    non-empty and answers the cursor of the pages before it (the first, no cursor).
  */
  ghost predicate IsPageRun(factory: Factory, pages: seq<seq<PairInfo>>) {
    forall i :: 0 <= i < |pages| ==> pages[i] != [] && factory(CursorOf(Concat(pages[..i]))) == Ok(pages[i])
  }

  /** The cursors the loop asks with, one before each page of `pages`. */
  function Asked(pages: seq<seq<PairInfo>>): (r: seq<Cursor>)
    ensures |r| == |pages| && forall k :: 0 <= k < |pages| ==> r[k] == CursorOf(Concat(pages[..k]))
  {
    seq(|pages|, k requires 0 <= k < |pages| => CursorOf(Concat(pages[..k])))
  }

  /** One more page adds the cursor of the pages before it. */
  lemma AskedExtend(pages: seq<seq<PairInfo>>, page: seq<PairInfo>)
    ensures Asked(pages + [page]) == Asked(pages) + [CursorOf(Concat(pages))]
  {
    var ext := pages + [page];
    assert ext[..|pages|] == pages;
    forall k | 0 <= k < |pages|
      ensures Asked(ext)[k] == Asked(pages)[k]
    {
      assert ext[..k] == pages[..k];
    }
  }

  /** A log of the run's cursors and the final one extends the earlier log, and its first new cursor is none. */
  lemma QueryLog(before: seq<Cursor>, pages: seq<seq<PairInfo>>, after: seq<Cursor>)
    requires after == before + Asked(pages) + [CursorOf(Concat(pages))]
    ensures |after| > |before| && after[..|before|] == before && after[|before|] == None
  {
    assert Concat([]) == [];
    if pages != [] {
      assert pages[..0] == [];
    }
  }

  /**
    A run of pages followed by the query that ends the loop: an empty page (the result
    is every page concatenated) or an error (the result is that error).
  */
  ghost predicate RunEndsIn(factory: Factory, pages: seq<seq<PairInfo>>, r: Result<seq<PairInfo>, QueryError>) {
    && IsPageRun(factory, pages)
    && match factory(CursorOf(Concat(pages)))
       case Err(e) => r == Err(e)
       case Ok(last) => last == [] && r == Ok(Concat(pages))
  }

  lemma PageRunExtend(factory: Factory, pages: seq<seq<PairInfo>>, page: seq<PairInfo>)
    requires IsPageRun(factory, pages)
    requires page != [] && factory(CursorOf(Concat(pages))) == Ok(page)
    ensures IsPageRun(factory, pages + [page])
    ensures Concat(pages + [page]) == Concat(pages) + page
  {
    var ext := pages + [page];
    assert ext[..|pages|] == pages;
    forall i | 0 <= i < |ext|
      ensures ext[i] != [] && factory(CursorOf(Concat(ext[..i]))) == Ok(ext[i])
    {
      if i < |pages| {
        assert ext[..i] == pages[..i];
      }
    }
  }

  /** Soundness: a finished pagination from a run so far extends it to a run that ends in its result. */
  lemma {:induction false} PaginateHasRun(factory: Factory, done: seq<seq<PairInfo>>, fuel: nat)
    requires IsPageRun(factory, done)
    requires Paginate(factory, Concat(done), fuel).Some?
    ensures exists pages :: RunEndsIn(factory, pages, Paginate(factory, Concat(done), fuel).value)
    decreases fuel
  {
    match factory(CursorOf(Concat(done)))
    case Err(_) =>
      assert RunEndsIn(factory, done, Paginate(factory, Concat(done), fuel).value);
    case Ok(page) =>
      if page == [] {
        assert RunEndsIn(factory, done, Paginate(factory, Concat(done), fuel).value);
      } else {
        PageRunExtend(factory, done, page);
        PaginateHasRun(factory, done + [page], fuel - 1);
      }
  }

  /** Completeness: the loop walks through a run, whatever fuel remains after it. */
  lemma {:induction false} PaginateFollowsRun(factory: Factory, pages: seq<seq<PairInfo>>, j: nat, fuel: nat)
    requires IsPageRun(factory, pages)
    requires j <= |pages|
    ensures Paginate(factory, Concat(pages[..j]), fuel + |pages| - j) == Paginate(factory, Concat(pages), fuel)
    decreases |pages| - j
  {
    if j < |pages| {
      var acc := Concat(pages[..j]);
      assert pages[..j + 1][..j] == pages[..j];
      assert Concat(pages[..j + 1]) == acc + pages[j];
      assert factory(CursorOf(acc)) == Ok(pages[j]);
      PaginateFollowsRun(factory, pages, j + 1, fuel);
    } else {
      assert pages[..j] == pages;
    }
  }

  /**
    `AllPairs` is exactly the answer of a run of non-empty pages in query order, each
    asked with the cursor of the last pair accumulated so far (none for the first),
    which ends at the first empty page or the first query error.
  */
  lemma AllPairsIsPageRun(factory: Factory, pages: seq<seq<PairInfo>>, r: Result<seq<PairInfo>, QueryError>)
    requires RunEndsIn(factory, pages, r)
    ensures Terminates(factory) && AllPairs(factory) == r
  {
    PaginateFollowsRun(factory, pages, 0, 1);
    assert pages[..0] == [];
    AllPairsOfAnyFuel(factory, 1 + |pages|);
  }

  /** An empty first page ends the loop at once with no pairs; a failing first query fails it. */
  lemma AllPairsFirstQuery(factory: Factory)
    requires factory(None).Err? || factory(None) == Ok([])
    ensures Terminates(factory)
    ensures factory(None).Err? ==> AllPairs(factory) == Err(factory(None).error)
    ensures factory(None).Ok? ==> AllPairs(factory) == Ok([])
  {
    assert Concat([]) == [];
    assert IsPageRun(factory, []);
    AllPairsIsPageRun(factory, [], if factory(None).Err? then Err(factory(None).error) else Ok([]));
  }

  // ---------------------------------------------------------------------------
  // Asset identifiers
  // ---------------------------------------------------------------------------

  /**
    `Token{contract_addr}` becomes `cw20(contract_addr)`, `NativeToken{denom}` becomes
    `native(denom)`: a conversion `FromCwAssetInfo` undoes.
  */
  function ToCwAssetInfo(a: AstroportAssetInfo): (r: AssetInfo)
    ensures FromCwAssetInfo(r) == a
    ensures r.Cw20? <==> a.Token?
  {
    match a
    case Token(addr) => Cw20(addr)
    case NativeToken(denom) => Native(denom)
  }

  /** The Astroport identifier a cw-asset identifier stands for. */
  function FromCwAssetInfo(a: AssetInfo): AstroportAssetInfo {
    match a
    case Cw20(addr) => Token(addr)
    case Native(denom) => NativeToken(denom)
  }

  /** The conversion is a bijection: it loses nothing and never conflates a token with a denomination. */
  lemma CwAssetInfoRoundTrip(a: AstroportAssetInfo, c: AssetInfo)
    ensures FromCwAssetInfo(ToCwAssetInfo(a)) == a
    ensures ToCwAssetInfo(FromCwAssetInfo(c)) == c
  {
  }

  /** The converted asset identifiers of one pair, in order. */
  function ToCwAssetInfos(infos: seq<AstroportAssetInfo>): (r: seq<AssetInfo>)
    ensures |r| == |infos| && forall j :: 0 <= j < |infos| ==> r[j] == ToCwAssetInfo(infos[j])
  {
    seq(|infos|, j requires 0 <= j < |infos| => ToCwAssetInfo(infos[j]))
  }

  /** The number of asset identifiers over all pairs. */
  function TotalAssets(pairs: seq<PairInfo>): nat {
    if pairs == [] then 0 else |pairs[0].assetInfos| + TotalAssets(pairs[1..])
  }

  /** The `flat_map`/`map` chain of `fetch_asset_infos`. */
  function FlattenAssetInfos(pairs: seq<PairInfo>): (r: seq<AssetInfo>)
    ensures |r| == TotalAssets(pairs)
  {
    if pairs == [] then [] else ToCwAssetInfos(pairs[0].assetInfos) + FlattenAssetInfos(pairs[1..])
  }

  /** Flattening distributes over concatenation of pair lists. */
  lemma {:induction false} FlattenAppend(a: seq<PairInfo>, b: seq<PairInfo>)
    ensures FlattenAssetInfos(a + b) == FlattenAssetInfos(a) + FlattenAssetInfos(b)
    ensures TotalAssets(a + b) == TotalAssets(a) + TotalAssets(b)
    decreases |a|
  {
    if a != [] {
      assert (a + b)[0] == a[0];
      assert (a + b)[1..] == a[1..] + b;
      FlattenAppend(a[1..], b);
    } else {
      assert a + b == b;
    }
  }

  /**
    Position by position: asset `j` of pair `i` lands right after the assets of the
    pairs before `i`, converted. No identifier is dropped, merged or reordered.
  */
  lemma {:induction false} FlattenAt(pairs: seq<PairInfo>, i: nat, j: nat)
    requires i < |pairs| && j < |pairs[i].assetInfos|
    ensures TotalAssets(pairs[..i]) + j < |FlattenAssetInfos(pairs)|
    ensures FlattenAssetInfos(pairs)[TotalAssets(pairs[..i]) + j] == ToCwAssetInfo(pairs[i].assetInfos[j])
    decreases i
  {
    if i == 0 {
      assert pairs[..0] == [];
    } else {
      assert pairs[1..][..i - 1] == pairs[..i][1..];
      FlattenAt(pairs[1..], i - 1, j);
    }
  }

  /** Every flattened identifier comes from some asset of some pair. */
  lemma {:induction false} FlattenFrom(pairs: seq<PairInfo>, k: nat)
    requires k < |FlattenAssetInfos(pairs)|
    ensures exists i, j :: 0 <= i < |pairs| && 0 <= j < |pairs[i].assetInfos|
                        && FlattenAssetInfos(pairs)[k] == ToCwAssetInfo(pairs[i].assetInfos[j])
    decreases |pairs|
  {
    var n := |pairs[0].assetInfos|;
    if k < n {
      assert FlattenAssetInfos(pairs)[k] == ToCwAssetInfo(pairs[0].assetInfos[k]);
    } else {
      FlattenFrom(pairs[1..], k - n);
      var i, j :| 0 <= i < |pairs[1..]| && 0 <= j < |pairs[1..][i].assetInfos|
                  && FlattenAssetInfos(pairs[1..])[k - n] == ToCwAssetInfo(pairs[1..][i].assetInfos[j]);
      assert FlattenAssetInfos(pairs)[k] == ToCwAssetInfo(pairs[i + 1].assetInfos[j]);
    }
  }

  // ---------------------------------------------------------------------------
  // Pools
  // ---------------------------------------------------------------------------

  /** The pair type table: `Custom` has no pool type. */
  function PoolTypeOf(t: PairType): (r: Option<PoolType>)
    ensures r.None? <==> t.Custom?
  {
    match t
    case Stable => Some(PoolType.Stable)
    case Xyk => Some(ConstantProduct)
    case Concentrated => Some(Weighted)
    case Custom(_) => None
  }

  /** The pair type each pool type comes from. */
  function PairTypeOf(t: PoolType): PairType {
    match t
    case Stable => PairType.Stable
    case ConstantProduct => Xyk
    case Weighted => Concentrated
  }

  /** The table is one-to-one, and onto the three pool types. */
  lemma PoolTypeTableInverse(p: PairType, t: PoolType)
    ensures PoolTypeOf(PairTypeOf(t)) == Some(t)
    ensures PoolTypeOf(p).Some? ==> PairTypeOf(PoolTypeOf(p).value) == p
  {
  }

  /** Every asset identifier has an ANS name. */
  predicate AllNamed(infos: seq<AstroportAssetInfo>, names: map<AstroportAssetInfo, string>) {
    forall j :: 0 <= j < |infos| ==> infos[j] in names
  }

  /** The names of the assets, in the same order, if all of them have one. */
  function AssetNames(infos: seq<AstroportAssetInfo>, names: map<AstroportAssetInfo, string>): (r: Option<seq<string>>)
    ensures r.Some? <==> AllNamed(infos, names)
    ensures r.Some? ==> |r.value| == |infos| && forall j :: 0 <= j < |infos| ==> r.value[j] == names[infos[j]]
  {
    if infos == [] then Some([])
    else if infos[0] !in names then None
    else match AssetNames(infos[1..], names)
      case None => None
      case Some(rest) => Some([names[infos[0]]] + rest)
  }

  /** The pool entry of a pair whose type and assets are supported. */
  function PoolOf(pair: PairInfo, poolType: PoolType, assetNames: seq<string>): PoolEntry {
    (Contract(pair.contractAddr), PoolMetadata(AstroportDex, poolType, assetNames))
  }

  /**
    The pool list `fetch_dex_pools` builds from the pairs: a custom pair type anywhere
    aborts; otherwise each pair whose assets all have a name yields its pool, in order.
  */
  function BuildPools(pairs: seq<PairInfo>, names: map<AstroportAssetInfo, string>): (r: Result<seq<PoolEntry>, ScrapeError>)
    ensures r.Ok? ==> |r.value| <= |pairs|
    ensures r.Ok? ==> forall k :: 0 <= k < |r.value| ==> r.value[k].1.dex == AstroportDex
    ensures r.Err? ==> r.error == CustomPairTypeNotSupported
    decreases |pairs|
  {
    if pairs == [] then Ok([])
    else
      var n := |pairs| - 1;
      var init := BuildPools(pairs[..n], names);
      if init.Err? then init
      else match PoolTypeOf(pairs[n].pairType)
        case None => Err(CustomPairTypeNotSupported)
        case Some(t) =>
          match AssetNames(pairs[n].assetInfos, names)
          case None => init
          case Some(ns) => Ok(init.value + [PoolOf(pairs[n], t, ns)])
  }

  /** One more pair: a supported pair with all names adds its pool, one with a missing name adds nothing. */
  lemma BuildPoolsStep(pairs: seq<PairInfo>, names: map<AstroportAssetInfo, string>, i: nat)
    requires i < |pairs| && BuildPools(pairs[..i], names).Ok? && !pairs[i].pairType.Custom?
    ensures !AllNamed(pairs[i].assetInfos, names) ==> BuildPools(pairs[..i + 1], names) == BuildPools(pairs[..i], names)
    ensures AllNamed(pairs[i].assetInfos, names) ==>
              BuildPools(pairs[..i + 1], names)
              == Ok(BuildPools(pairs[..i], names).value
                    + [PoolOf(pairs[i], PoolTypeOf(pairs[i].pairType).value, AssetNames(pairs[i].assetInfos, names).value)])
  {
    assert pairs[..i + 1][..i] == pairs[..i] && pairs[..i + 1][i] == pairs[i];
  }

  /** The whole call aborts exactly when some pair has a custom type, wherever it stands. */
  lemma {:induction false} BuildPoolsAborts(pairs: seq<PairInfo>, names: map<AstroportAssetInfo, string>)
    ensures BuildPools(pairs, names).Err? <==> exists i :: 0 <= i < |pairs| && pairs[i].pairType.Custom?
    decreases |pairs|
  {
    if pairs != [] {
      var n := |pairs| - 1;
      BuildPoolsAborts(pairs[..n], names);
      assert forall i :: 0 <= i < n ==> pairs[..n][i] == pairs[i];
    }
  }

  /** `idx` lists, in increasing order, exactly the positions of the pairs whose assets all have a name. */
  ghost predicate SelectsNamed(pairs: seq<PairInfo>, names: map<AstroportAssetInfo, string>, idx: seq<nat>) {
    && (forall k :: 0 <= k < |idx| ==> idx[k] < |pairs|)
    && (forall k, k' :: 0 <= k < k' < |idx| ==> idx[k] < idx[k'])
    && (forall i :: 0 <= i < |pairs| ==> (i in idx <==> AllNamed(pairs[i].assetInfos, names)))
  }

  /** Pool `k` is the pool of pair `idx[k]`: same contract, the Astroport tag, its type and its names in order. */
  ghost predicate PoolsOfPairs(pools: seq<PoolEntry>, pairs: seq<PairInfo>, names: map<AstroportAssetInfo, string>, idx: seq<nat>)
    requires forall k :: 0 <= k < |idx| ==> idx[k] < |pairs|
  {
    && |pools| == |idx|
    && forall k :: 0 <= k < |idx| ==>
         var pair := pairs[idx[k]];
         && pools[k].0 == Contract(pair.contractAddr)
         && pools[k].1.dex == AstroportDex
         && Some(pools[k].1.poolType) == PoolTypeOf(pair.pairType)
         && Some(pools[k].1.assets) == AssetNames(pair.assetInfos, names)
  }

  /** The positions selected among all but the last pair, extended by the last one when it is named. */
  lemma SelectsNamedStep(pairs: seq<PairInfo>, names: map<AstroportAssetInfo, string>, idx0: seq<nat>)
    requires |pairs| > 0
    requires SelectsNamed(pairs[..|pairs| - 1], names, idx0)
    ensures AllNamed(pairs[|pairs| - 1].assetInfos, names) ==> SelectsNamed(pairs, names, idx0 + [|pairs| - 1])
    ensures !AllNamed(pairs[|pairs| - 1].assetInfos, names) ==> SelectsNamed(pairs, names, idx0)
  {
    var n := |pairs| - 1;
    assert forall i :: 0 <= i < n ==> pairs[..n][i] == pairs[i];
    assert forall k :: 0 <= k < |idx0| ==> idx0[k] < n;
    assert n !in idx0;
    var idx := idx0 + [n];
    forall i | 0 <= i < n
      ensures i in idx <==> i in idx0
    {
    }
  }

  /** The pools of all but the last pair are still pools of those pairs within the longer list. */
  lemma PoolsOfPairsWiden(pairs: seq<PairInfo>, names: map<AstroportAssetInfo, string>, idx0: seq<nat>, pools0: seq<PoolEntry>)
    requires |pairs| > 0
    requires forall k :: 0 <= k < |idx0| ==> idx0[k] < |pairs| - 1
    requires PoolsOfPairs(pools0, pairs[..|pairs| - 1], names, idx0)
    ensures PoolsOfPairs(pools0, pairs, names, idx0)
  {
    var n := |pairs| - 1;
    assert forall k :: 0 <= k < |idx0| ==> pairs[..n][idx0[k]] == pairs[idx0[k]];
  }

  /** The pools of all but the last pair, extended by the pool of the last one. */
  lemma PoolsOfPairsStep(pairs: seq<PairInfo>, names: map<AstroportAssetInfo, string>, idx0: seq<nat>, pools0: seq<PoolEntry>, entry: PoolEntry)
    requires |pairs| > 0
    requires forall k :: 0 <= k < |idx0| ==> idx0[k] < |pairs| - 1
    requires PoolsOfPairs(pools0, pairs[..|pairs| - 1], names, idx0)
    requires entry.0 == Contract(pairs[|pairs| - 1].contractAddr) && entry.1.dex == AstroportDex
    requires Some(entry.1.poolType) == PoolTypeOf(pairs[|pairs| - 1].pairType)
    requires Some(entry.1.assets) == AssetNames(pairs[|pairs| - 1].assetInfos, names)
    ensures PoolsOfPairs(pools0 + [entry], pairs, names, idx0 + [|pairs| - 1])
  {
    PoolsOfPairsWiden(pairs, names, idx0, pools0);
  }

  /**
    All or nothing per pool: without a custom pair, the pools are those of the pairs
    whose assets are all named, and only those, in pair order.
  */
  lemma {:induction false} BuildPoolsSelects(pairs: seq<PairInfo>, names: map<AstroportAssetInfo, string>)
    requires BuildPools(pairs, names).Ok?
    ensures exists idx :: SelectsNamed(pairs, names, idx) && PoolsOfPairs(BuildPools(pairs, names).value, pairs, names, idx)
    decreases |pairs|
  {
    if pairs == [] {
      assert SelectsNamed(pairs, names, []) && PoolsOfPairs([], pairs, names, []);
    } else {
      var n := |pairs| - 1;
      var init := pairs[..n];
      BuildPoolsSelects(init, names);
      var idx0: seq<nat> :| SelectsNamed(init, names, idx0) && PoolsOfPairs(BuildPools(init, names).value, init, names, idx0);
      var pools0 := BuildPools(init, names).value;
      var t := PoolTypeOf(pairs[n].pairType).value;
      SelectsNamedStep(pairs, names, idx0);
      var ns := AssetNames(pairs[n].assetInfos, names);
      if ns.Some? {
        PoolsOfPairsStep(pairs, names, idx0, pools0, PoolOf(pairs[n], t, ns.value));
        assert SelectsNamed(pairs, names, idx0 + [n]);
      } else {
        PoolsOfPairsWiden(pairs, names, idx0, pools0);
        assert SelectsNamed(pairs, names, idx0);
      }
    }
  }

  /** The empty name map `new` starts with. */
  const NoNames: map<AstroportAssetInfo, string> := map[]

  /**
    With no names at all, which is the map `new` starts with, only a pair without any
    asset could yield a pool: a pair list whose pairs all have assets yields none.
  */
  lemma NoNamesNoPools(pairs: seq<PairInfo>)
    requires BuildPools(pairs, NoNames).Ok?
    requires forall i :: 0 <= i < |pairs| ==> pairs[i].assetInfos != []
    ensures BuildPools(pairs, NoNames).value == []
  {
    BuildPoolsSelects(pairs, NoNames);
    var idx: seq<nat> :| SelectsNamed(pairs, NoNames, idx) && PoolsOfPairs(BuildPools(pairs, NoNames).value, pairs, NoNames, idx);
    assert forall i :: 0 <= i < |pairs| ==> pairs[i].assetInfos[0] !in NoNames;
  }

  // ---------------------------------------------------------------------------
  // The scraper
  // ---------------------------------------------------------------------------

  /** `AstroportScraper`: the factory, the memoised pair list and the asset names. */
  class AstroportScraper {
    const factory: Factory
    var loadedPairs: seq<PairInfo>
    var assetInfoToName: map<AstroportAssetInfo, string>
    /** The cursors the factory has been asked with, in order. */
    ghost var queries: seq<Cursor>

    /** The factory ends its pagination, and the memo is either empty or the full pair list. */
    ghost predicate Valid()
      reads this
    {
      Terminates(factory) && (loadedPairs == [] || AllPairs(factory) == Ok(loadedPairs))
    }

    /** A scraper over `factory` with no pairs loaded yet and the given asset names. */
    constructor (factory: Factory, assetInfoToName: map<AstroportAssetInfo, string>)
      requires Terminates(factory)
      ensures Valid()
      ensures this.factory == factory && this.assetInfoToName == assetInfoToName
      ensures loadedPairs == [] && queries == []
    {
      this.factory := factory;
      this.assetInfoToName := assetInfoToName;
      loadedPairs := [];
      queries := [];
    }

    /** `dex_id`: the tag every pool of this scraper carries. */
    function DexId(): (r: string)
      ensures r == AstroportDex
    {
      AstroportDex
    }

    /**
      The `loop` of `load_pairs`: query page after page with the last pair seen as the
      cursor, until a page comes back empty or a query fails; `pages` is the run walked.
    */
    method Paginated() returns (r: Result<seq<PairInfo>, QueryError>, ghost pages: seq<seq<PairInfo>>)
      requires Terminates(factory)
      modifies this`queries
      ensures RunEndsIn(factory, pages, r)
      ensures queries == old(queries) + Asked(pages) + [CursorOf(Concat(pages))]
    {
      pages := [];
      var allPairs: seq<PairInfo> := [];
      var startAfterPair: Cursor := None;
      ghost var fuel: nat :| Paginate(factory, [], fuel).Some?;
      assert Concat([]) == [];
      while true
        invariant |pages| <= fuel
        invariant IsPageRun(factory, pages) && allPairs == Concat(pages)
        invariant startAfterPair == CursorOf(allPairs)
        invariant Paginate(factory, allPairs, fuel - |pages|) == Paginate(factory, [], fuel)
        invariant queries == old(queries) + Asked(pages)
        decreases fuel - |pages|
      {
        var response := factory(startAfterPair);
        queries := queries + [startAfterPair];
        if response.Err? {
          return Err(response.error), pages;
        }
        var pairs := response.value;
        if pairs == [] {
          return Ok(allPairs), pages;
        }
        AskedExtend(pages, pairs);
        PageRunExtend(factory, pages, pairs);
        allPairs := allPairs + pairs;
        startAfterPair := Some(allPairs[|allPairs| - 1].assetInfos);
        pages := pages + [pairs];
      }
    }

    /**
      `load_pairs`: the memoised pair list when there is one, otherwise a full
      pagination; only a successful pagination is stored.
    */
    method LoadPairs() returns (r: Result<seq<PairInfo>, QueryError>)
      requires Valid()
      modifies this`loadedPairs, this`queries
      ensures Valid()
      ensures r == AllPairs(factory)
      ensures old(loadedPairs) != [] ==> loadedPairs == old(loadedPairs) && queries == old(queries)
      ensures old(loadedPairs) == [] ==> loadedPairs == (if r.Ok? then r.value else [])
      ensures old(loadedPairs) == [] ==>
                |queries| > |old(queries)| && queries[..|old(queries)|] == old(queries) && queries[|old(queries)|] == None
      ensures old(loadedPairs) == [] ==>
                exists pages :: RunEndsIn(factory, pages, r)
                             && queries == old(queries) + Asked(pages) + [CursorOf(Concat(pages))]
    {
      if loadedPairs != [] {
        return Ok(loadedPairs);
      }
      ghost var before := queries;
      ghost var pages;
      r, pages := Paginated();
      AllPairsIsPageRun(factory, pages, r);
      QueryLog(before, pages, queries);
      if r.Ok? {
        loadedPairs := r.value;
      }
    }

    /** `fetch_asset_infos`: every asset identifier of every pair, converted, in pair then asset order. */
    method FetchAssetInfos() returns (r: Result<seq<AssetInfo>, QueryError>)
      requires Valid()
      modifies this`loadedPairs, this`queries
      ensures Valid()
      ensures r == match AllPairs(factory)
                   case Ok(pairs) => Ok(FlattenAssetInfos(pairs))
                   case Err(e) => Err(e)
      ensures old(loadedPairs) != [] ==> loadedPairs == old(loadedPairs) && queries == old(queries)
      ensures old(loadedPairs) == [] ==> loadedPairs == (if AllPairs(factory).Ok? then AllPairs(factory).value else [])
    {
      var loaded := LoadPairs();
      if loaded.Err? {
        return Err(loaded.error);
      }
      r := Ok(FlattenAssetInfos(loaded.value));
    }

    /**
      `fetch_dex_pools`: one pool per pair whose assets all have a name, in pair order;
      a custom pair type aborts the whole call.
    */
    method FetchDexPools() returns (r: Result<seq<PoolEntry>, ScrapeError>)
      requires Valid()
      modifies this`loadedPairs, this`queries
      ensures Valid()
      ensures r == match AllPairs(factory)
                   case Ok(pairs) => BuildPools(pairs, assetInfoToName)
                   case Err(e) => Err(Query(e))
      ensures r.Ok? ==> forall k :: 0 <= k < |r.value| ==> r.value[k].1.dex == DexId()
      ensures old(loadedPairs) != [] ==> loadedPairs == old(loadedPairs) && queries == old(queries)
      ensures old(loadedPairs) == [] ==> loadedPairs == (if AllPairs(factory).Ok? then AllPairs(factory).value else [])
    {
      var loaded := LoadPairs();
      if loaded.Err? {
        return Err(Query(loaded.error));
      }
      r := CollectPools(loaded.value);
    }

    /**
      The `for pair in ...` loop of `fetch_dex_pools` over the loaded pairs: the pool of
      each supported pair whose assets all have a name, and the panic on a custom pair type.
    */
    method CollectPools(pairs: seq<PairInfo>) returns (r: Result<seq<PoolEntry>, ScrapeError>)
      ensures r == BuildPools(pairs, assetInfoToName)
    {
      var ansPoolsToAdd: seq<PoolEntry> := [];
      var skippedAnsPools: seq<PoolAddress> := [];
      var i := 0;
      while i < |pairs|
        invariant 0 <= i <= |pairs|
        invariant BuildPools(pairs[..i], assetInfoToName) == Ok(ansPoolsToAdd)
      {
        var pair := pairs[i];
        var poolId := Contract(pair.contractAddr);
        var poolType: PoolType;
        match pair.pairType {
          case Stable => poolType := PoolType.Stable;
          case Xyk => poolType := ConstantProduct;
          case Concentrated => poolType := Weighted;
          case Custom(_) =>
            assert pairs[i].pairType.Custom?;
            BuildPoolsAborts(pairs, assetInfoToName);
            return Err(CustomPairTypeNotSupported);
        }
        BuildPoolsStep(pairs, assetInfoToName, i);
        var assets: seq<string> := [];
        var missingAsset := false;
        var j := 0;
        while j < |pair.assetInfos|
          invariant 0 <= j <= |pair.assetInfos|
          invariant !missingAsset
          invariant forall k :: 0 <= k < j ==> pair.assetInfos[k] in assetInfoToName
          invariant |assets| == j && forall k :: 0 <= k < j ==> assets[k] == assetInfoToName[pair.assetInfos[k]]
        {
          var assetInfo := pair.assetInfos[j];
          if assetInfo in assetInfoToName {
            assets := assets + [assetInfoToName[assetInfo]];
          } else {
            missingAsset := true;
            break;
          }
          j := j + 1;
        }
        if missingAsset {
          skippedAnsPools := skippedAnsPools + [poolId];
          i := i + 1;
          continue;
        }
        assert AllNamed(pair.assetInfos, assetInfoToName);
        assert AssetNames(pair.assetInfos, assetInfoToName).value == assets;
        ansPoolsToAdd := ansPoolsToAdd + [(poolId, PoolMetadata(AstroportDex, poolType, assets))];
        i := i + 1;
      }
      assert pairs[..i] == pairs;
      r := Ok(ansPoolsToAdd);
    }
  }
}
