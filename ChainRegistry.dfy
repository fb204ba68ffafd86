/**
  The in-memory chain registry (src/helpers/chain_registry.rs): the asset lists of
  every known chain, and the two read-only searches over them, `asset_by_denom` and
  the registry half of `resolve_native_asset`.

  The registry is a value: nothing here can change `assetLists`, which is what the
  Rust code's `&self` receivers and iteration over a clone guarantee.
*/
module ChainRegistry {
  import opened Wrappers
  import opened RustStr

  /** One unit of an asset (`uatom`, `atom`, ...); only `denom` takes part in the search. */
  datatype DenomUnit = DenomUnit(denom: string, exponent: nat, aliases: seq<string>)

  /** One asset of a chain's asset list. */
  datatype Asset = Asset(
    description: string,
    denomUnits: seq<DenomUnit>,
    base: string,
    name: string,
    display: string,
    symbol: string)

  /** The asset list of one chain. */
  datatype AssetList = AssetList(chainName: string, assets: seq<Asset>)

  /** The answer of the IBC `denom_trace` query: transfer path and origin denomination. */
  datatype DenomTrace = DenomTrace(path: string, baseDenom: string)

  /** The port every accepted trace path must start with. */
  const TransferPort: string := "transfer"

  /** The separator between the chain part and the symbol part of an ANS name. */
  const AnsSeparator: char := '>'

  /** The `denom` field of each unit, in order. */
  function UnitDenoms(units: seq<DenomUnit>): (r: seq<string>)
    ensures |r| == |units| && forall u :: 0 <= u < |units| ==> r[u] == units[u].denom
  {
    seq(|units|, u requires 0 <= u < |units| => units[u].denom)
  }

  /**
    The `any` of the search: some denom unit of `asset` is exactly `denom`. The
    `aliases` are not consulted, and neither are `base` and `display`.
  */
  predicate HasDenom(asset: Asset, denom: string) {
    exists u :: 0 <= u < |asset.denomUnits| && asset.denomUnits[u].denom == denom
  }

  /** An asset carries `denom` exactly when `denom` is among the `denom` fields of its units. */
  lemma HasDenomIff(asset: Asset, denom: string)
    ensures HasDenom(asset, denom) <==> denom in UnitDenoms(asset.denomUnits)
  {
    var ds := UnitDenoms(asset.denomUnits);
    assert denom in ds ==> exists u :: 0 <= u < |ds| && ds[u] == denom;
  }

  /** No asset of any list has a denom unit equal to `denom`. */
  predicate NoMatch(lists: seq<AssetList>, denom: string) {
    forall i, j :: 0 <= i < |lists| && 0 <= j < |lists[i].assets| ==> !HasDenom(lists[i].assets[j], denom)
  }

  /**
    Asset `j` of list `i` carries `denom`, no asset of an earlier list does, and no
    earlier asset of list `i` does: the hit a scan in list order, then asset order, stops at.
  */
  predicate IsFirstMatch(lists: seq<AssetList>, denom: string, i: int, j: int) {
    && 0 <= i < |lists| && 0 <= j < |lists[i].assets|
    && HasDenom(lists[i].assets[j], denom)
    && (forall i', j' :: 0 <= i' < i && 0 <= j' < |lists[i'].assets| ==> !HasDenom(lists[i'].assets[j'], denom))
    && (forall j' :: 0 <= j' < j ==> !HasDenom(lists[i].assets[j'], denom))
  }

  /** `assets.iter().find(...)` with the `HasDenom` predicate. */
  function FindAsset(assets: seq<Asset>, denom: string): (r: Option<nat>)
    ensures r.None? <==> forall j :: 0 <= j < |assets| ==> !HasDenom(assets[j], denom)
    ensures r.Some? ==> r.value < |assets| && HasDenom(assets[r.value], denom)
    ensures r.Some? ==> forall j :: 0 <= j < r.value ==> !HasDenom(assets[j], denom)
  {
    if assets == [] then None
    else if HasDenom(assets[0], denom) then Some(0)
    else match FindAsset(assets[1..], denom)
      case None => None
      case Some(j) => Some(j + 1)
  }

  /** A hit of the scan over the lists: the list's chain name and the matching asset. */
  datatype Match = Match(chainName: string, asset: Asset)

  /**
    The `for asset_list in self.asset_lists` loop with its early return, shared by
    `resolve_native_asset` and `asset_by_denom`: the first match, or `None` when there is none.
  */
  function SearchLists(lists: seq<AssetList>, denom: string): (r: Option<Match>)
    ensures r.None? <==> NoMatch(lists, denom)
    ensures r.Some? ==> exists i, j :: IsFirstMatch(lists, denom, i, j)
                                    && r.value == Match(lists[i].chainName, lists[i].assets[j])
  {
    if lists == [] then None
    else match FindAsset(lists[0].assets, denom)
      case Some(j) => Some(Match(lists[0].chainName, lists[0].assets[j]))
      case None =>
        var rest := SearchLists(lists[1..], denom);
        NoMatchCons(lists, denom);
        if rest.Some? then
          ghost var i, j :| IsFirstMatch(lists[1..], denom, i, j)
                            && rest.value == Match(lists[1..][i].chainName, lists[1..][i].assets[j]);
          FirstMatchCons(lists, denom, i, j);
          rest
        else
          rest
  }

  /** With no match in the first list, there is no match in all lists exactly when there is none after it. */
  lemma NoMatchCons(lists: seq<AssetList>, denom: string)
    requires lists != []
    requires forall j :: 0 <= j < |lists[0].assets| ==> !HasDenom(lists[0].assets[j], denom)
    ensures NoMatch(lists, denom) <==> NoMatch(lists[1..], denom)
  {
    if NoMatch(lists[1..], denom) {
      forall i, j | 0 <= i < |lists| && 0 <= j < |lists[i].assets|
        ensures !HasDenom(lists[i].assets[j], denom)
      {
        if i > 0 {
          assert lists[i] == lists[1..][i - 1];
        }
      }
    }
  }

  /** With no match in the first list, the first match after it is the first match of all lists. */
  lemma FirstMatchCons(lists: seq<AssetList>, denom: string, i: int, j: int)
    requires lists != []
    requires forall j' :: 0 <= j' < |lists[0].assets| ==> !HasDenom(lists[0].assets[j'], denom)
    requires IsFirstMatch(lists[1..], denom, i, j)
    ensures IsFirstMatch(lists, denom, i + 1, j)
  {
    forall i', j' | 0 <= i' < i + 1 && 0 <= j' < |lists[i'].assets|
      ensures !HasDenom(lists[i'].assets[j'], denom)
    {
      if i' > 0 {
        assert lists[i'] == lists[1..][i' - 1];
      }
    }
  }

  /**
    The path's first `/`-segment is exactly the transfer port, that is, the path is
    `transfer` or begins with `transfer/`; later segments are not looked at.
  */
  predicate PortAccepted(path: string)
    ensures PortAccepted(path) <==> path == TransferPort || (|path| > 8 && path[..9] == TransferPort + "/")
  {
    assert '/' !in TransferPort;
    FirstSegmentIff(path, '/', TransferPort);
    FirstSegment(path, '/') == TransferPort
  }

  /**
    `lowercase(chain_name) + ">" + lowercase(symbol)`: a name with no ASCII capital that
    splits back at the separator into the lowercased chain name and the lowercased symbol;
    when the chain name holds no `>`, its first `>`-segment is that chain name.
  */
  function AnsName(chainName: string, symbol: string): (r: string)
    ensures IsAsciiLower(r)
    ensures |r| == |chainName| + 1 + |symbol|
    ensures r[..|chainName|] == ToAsciiLowercase(chainName) && r[|chainName|] == AnsSeparator
    ensures r[|chainName| + 1..] == ToAsciiLowercase(symbol)
    ensures AnsSeparator !in chainName ==> FirstSegment(r, AnsSeparator) == ToAsciiLowercase(chainName)
  {
    var c := ToAsciiLowercase(chainName);
    var r := c + [AnsSeparator] + ToAsciiLowercase(symbol);
    assert r[..|c|] == c;
    assert r[|c| + 1..] == ToAsciiLowercase(symbol);
    AsciiLowerProperties(chainName);
    AsciiLowerProperties(symbol);
    assert AnsSeparator !in chainName ==> FirstSegment(r, AnsSeparator) == c by {
      if AnsSeparator !in chainName {
        LowerKeepsChar(chainName, AnsSeparator);
        IndexOfFirst(r, AnsSeparator, |c|);
      }
    }
    r
  }

  /** `ChainRegistry { asset_lists }`. */
  datatype ChainRegistry = ChainRegistry(assetLists: seq<AssetList>) {

    /** `get_asset_lists`: the lists in registry order. */
    function GetAssetLists(): (r: seq<AssetList>)
      ensures r == assetLists
    {
      assetLists
    }

    /**
      `resolve_native_asset` after the trace lookup: `trace` is the lookup's answer,
      `None` when the lookup failed.
    */
    function ResolveNativeAsset(trace: Option<DenomTrace>): (r: Option<string>)
      ensures trace.None? ==> r.None?
      ensures trace.Some? && !PortAccepted(trace.value.path) ==> r.None?
      ensures trace.Some? && PortAccepted(trace.value.path) ==>
                (r.None? <==> NoMatch(assetLists, trace.value.baseDenom))
      ensures r.Some? ==> exists i, j :: IsFirstMatch(assetLists, trace.value.baseDenom, i, j)
                                      && r.value == AnsName(assetLists[i].chainName, assetLists[i].assets[j].symbol)
    {
      match trace
      case None => None
      case Some(t) =>
        if !PortAccepted(t.path) then None
        else match SearchLists(assetLists, t.baseDenom)
          case None => None
          case Some(m) => Some(AnsName(m.chainName, m.asset.symbol))
    }

    /** `asset_by_denom`: the first asset, in list then asset order, with a denom unit equal to `denom`. */
    function AssetByDenom(denom: string): (r: Option<Asset>)
      ensures r.None? <==> NoMatch(assetLists, denom)
      ensures r.Some? ==> exists i, j :: IsFirstMatch(assetLists, denom, i, j) && r.value == assetLists[i].assets[j]
    {
      match SearchLists(assetLists, denom)
      case None => None
      case Some(m) => Some(m.asset)
    }
  }

  /** There is only one first match, so both searches are determined by the lists. */
  lemma FirstMatchUnique(lists: seq<AssetList>, denom: string, i1: int, j1: int, i2: int, j2: int)
    requires IsFirstMatch(lists, denom, i1, j1) && IsFirstMatch(lists, denom, i2, j2)
    ensures i1 == i2 && j1 == j2
  {
  }

  /** An empty path, or one whose first segment is another port, is refused. */
  lemma PortRejectedExamples(rest: string)
    ensures !PortAccepted("")
    ensures !PortAccepted("icahost/" + rest)
    ensures PortAccepted("transfer/channel-4/icahost/" + rest)
  {
    assert ("transfer/channel-4/icahost/" + rest)[..9] == "transfer/";
  }

  /**
    The two searches agree: for an accepted trace, `resolve_native_asset` finds a name
    exactly when `asset_by_denom` of the base denomination finds an asset, and the name
    is built from that asset's symbol.
  */
  lemma ResolveAgreesWithAssetByDenom(registry: ChainRegistry, trace: DenomTrace)
    requires PortAccepted(trace.path)
    ensures registry.ResolveNativeAsset(Some(trace)).Some? <==> registry.AssetByDenom(trace.baseDenom).Some?
    ensures registry.AssetByDenom(trace.baseDenom).Some? ==>
              exists i, j :: IsFirstMatch(registry.assetLists, trace.baseDenom, i, j)
                          && registry.AssetByDenom(trace.baseDenom) == Some(registry.assetLists[i].assets[j])
                          && registry.ResolveNativeAsset(Some(trace))
                             == Some(AnsName(registry.assetLists[i].chainName, registry.assetLists[i].assets[j].symbol))
  {
    var lists := registry.assetLists;
    var d := trace.baseDenom;
    if registry.AssetByDenom(d).Some? {
      var i1, j1 :| IsFirstMatch(lists, d, i1, j1)
                   && registry.ResolveNativeAsset(Some(trace)).value == AnsName(lists[i1].chainName, lists[i1].assets[j1].symbol);
      var i2, j2 :| IsFirstMatch(lists, d, i2, j2) && registry.AssetByDenom(d).value == lists[i2].assets[j2];
      FirstMatchUnique(lists, d, i1, j1, i2, j2);
      assert IsFirstMatch(lists, d, i1, j1)
             && registry.AssetByDenom(d) == Some(lists[i1].assets[j1])
             && registry.ResolveNativeAsset(Some(trace)) == Some(AnsName(lists[i1].chainName, lists[i1].assets[j1].symbol));
    }
  }

  /** The XPRT asset of the persistence chain, as its registry entry lists it. */
  const ExampleXprt: Asset :=
    Asset("", [DenomUnit("uxprt", 0, []), DenomUnit("xprt", 6, [])], "uxprt", "Persistence", "xprt", "XPRT")

  lemma ExampleAnsName()
    ensures AnsName("persistence", "XPRT") == "persistence>xprt"
  {
    var chain := ToAsciiLowercase("persistence");
    assert chain == "persistence" by {
      assert chain[0] == 'p' && chain[1] == 'e' && chain[2] == 'r' && chain[3] == 's';
      assert chain[4] == 'i' && chain[5] == 's' && chain[6] == 't' && chain[7] == 'e';
      assert chain[8] == 'n' && chain[9] == 'c' && chain[10] == 'e';
    }
    var sym := ToAsciiLowercase("XPRT");
    assert sym == "xprt" by {
      assert sym[0] == 'x' && sym[1] == 'p' && sym[2] == 'r' && sym[3] == 't';
    }
  }

  lemma ExampleSearch(otherLists: seq<AssetList>)
    ensures SearchLists([AssetList("persistence", [ExampleXprt])] + otherLists, "uxprt")
            == Some(Match("persistence", ExampleXprt))
  {
    var lists := [AssetList("persistence", [ExampleXprt])] + otherLists;
    assert ExampleXprt.denomUnits[0].denom == "uxprt";
    assert HasDenom(ExampleXprt, "uxprt");
    assert lists[0].assets == [ExampleXprt];
    assert FindAsset(lists[0].assets, "uxprt") == Some(0);
  }

  /** Whatever the registry holds, a trace through the `icahost` port resolves to nothing. */
  lemma ResolveIcahostExample(registry: ChainRegistry, rest: string, baseDenom: string)
    ensures registry.ResolveNativeAsset(Some(DenomTrace("icahost/" + rest, baseDenom))).None?
  {
    PortRejectedExamples(rest);
  }

  /** Example: the trace path `transfer/channel-4` is accepted. */
  lemma ExamplePortAccepted()
    ensures PortAccepted("transfer/channel-4")
  {
    var path := "transfer/" + "channel-4";
    assert path[..9] == "transfer/";
    assert path == "transfer/channel-4";
  }

  /**
    Example: `uxprt` reached over `transfer/channel-4` resolves to
    `persistence>xprt` when the persistence list comes first.
  */
  lemma ResolvePersistenceExample(registry: ChainRegistry, trace: DenomTrace, otherLists: seq<AssetList>)
    requires registry.assetLists == [AssetList("persistence", [ExampleXprt])] + otherLists
    requires trace == DenomTrace("transfer/channel-4", "uxprt")
    ensures registry.ResolveNativeAsset(Some(trace)) == Some("persistence>xprt")
  {
    ExamplePortAccepted();
    ExampleSearch(otherLists);
    ExampleAnsName();
  }
}
