# ans-scraper-rs core, modelled in Dafny

This project models the two pieces of list and string processing in the ANS scraper
(AbstractSDK/ans-scraper-rs) that decide what is written to the Abstract Name Service.

- **The Astroport scraper** (`src/dexes/astroport.rs`), modelled in `Astroport.dfy` and
  `AstroportDeployment.dfy`. It covers:
  - the cursor-paginated, memoised loading of every pair of the Astroport factory;
  - the line-based key/value reading of the published deployment document;
  - the flattening of pair assets into cw-asset identifiers;
  - the conversion of pairs into ANS pools, where a pool is emitted only if all of its
    assets have a name.
- **The chain registry** (`src/helpers/chain_registry.rs`), modelled in `ChainRegistry.dfy`.
  It covers the first-match search of a denomination across the asset lists of all chains,
  the `transfer` port check on an IBC denom trace, and the `chain>symbol` ANS name format.

`RustStr.dfy` gives the Rust `str` operations these pieces rely on: `trim`,
`trim_matches`, `starts_with`, `split`, `lines` and `to_ascii_lowercase`. Each is written
as a recursive or sequence-building definition. Contracts and lemmas then tie it to a
plainer description:
- a trim keeps the piece after the longest matching prefix and drops a matching suffix;
- `split` is inverted by joining;
- `lines` is `split('\n')` in which each part that a line feed ends loses one trailing `\r`; the last part is kept as it is, and dropped when empty (`LinesSplit`).

`Wrappers.dfy` holds `Option` and `Result`.

The effects stay at the edges and become inputs:
- **Factory contract.** The `pairs` query is an oracle `factory: Cursor -> Result<seq<PairInfo>, QueryError>`, held by the scraper class.
- **Deployment document.** The HTTP request is a function from URL to response text.
- **Denom trace.** The gRPC `denom_trace` answer is an `Option<DenomTrace>`.
- **Asset lists.** They are a given sequence.

Panics in the Rust code become error values. These are the unsupported network, the
missing key in the deployment document, and the custom pair type.

`AstroportScraper` is a class, because `load_pairs` writes its `loaded_pairs` field. Its
ghost field `queries` records every cursor sent to the factory, so the contracts can say
which queries are issued, in which order, and when none is. The three loops of the source are `while` loops proved against
specification functions:
- pagination against `Paginate`/`AllPairs`;
- the deployment scan against `Entries`;
- pool building against `BuildPools`.

The properties the source is meant to have are proved about those functions:
- pages are concatenated in query order, and the loop stops at the first empty page;
- the cursor after each page is the asset list of the last pair, and the first query has no cursor;
- the first match wins;
- a pool is emitted only if all of its assets are named, and pair order is kept;
- a later duplicate key overwrites an earlier one.

The chain registry is an immutable value. Neither search can change `assetLists`, just as
both Rust methods take `&self` and iterate over a clone.

One feature of the code shapes `FetchDexPools`. Nothing in `src/dexes/astroport.rs`
outside the commented-out block at lines 116-154 inserts into `asset_info_to_name`. So
`new` leaves the map empty, and that scraper emits no pool for any pair that has assets
(`NoNamesNoPools`). The model takes the map as an input to the constructor, so its pool
theory describes every map.

## Model

| member | source | states |
|---|---|---|
| RustStr.TrimStartMatches | src/dexes/astroport.rs:97-102 | the result is a suffix of the input; every dropped character matches the pattern, and the first kept one does not |
| RustStr.TrimEndMatches | src/dexes/astroport.rs:97-102 | the result is a prefix of the input; every dropped character matches, and the last kept one does not |
| RustStr.TrimStartAt | src/dexes/astroport.rs:97-102 | a front trim keeps exactly the text after the longest matching prefix |
| RustStr.TrimEndAt | src/dexes/astroport.rs:97-102 | a back trim keeps exactly the text before the longest matching suffix |
| RustStr.PrefixMatching | src/dexes/astroport.rs:97-102 | the length of the longest matching prefix: every character before it matches the pattern, and the next one, if any, does not |
| RustStr.TrimStartDropsPrefix | src/dexes/astroport.rs:97-102 | a front trim drops exactly the longest matching prefix |
| RustStr.TrimPiece | src/dexes/astroport.rs:97-102 | trimming the back of what the front trim kept leaves a piece of the text, followed only by matching characters, with no matching character at either end; it is empty exactly when the whole text matches, and it starts at the first character that does not |
| RustStr.TrimMatches | src/dexes/astroport.rs:97-102 | `trim_matches` is empty exactly when every character matches, otherwise it starts at the first character that does not; neither end matches, and every character comes from the input |
| RustStr.Trim | src/dexes/astroport.rs:88-98 | `trim` is empty exactly when the text is all whitespace, otherwise it starts at the first other character; neither end is whitespace, and every character comes from the input |
| RustStr.TrimMatchesCut | src/dexes/astroport.rs:97-102 | `trim_matches` is `trim_end_matches` applied to what follows the matching prefix |
| RustStr.TrimMatchesPiece | src/dexes/astroport.rs:97-102 | `trim_matches` is the contiguous piece of the input that starts right after the matching prefix, and every character after that piece matches |
| RustStr.TrimPieceOf | src/dexes/astroport.rs:88-98 | `trim` is the contiguous piece of the input that starts right after the leading whitespace, and every character after that piece is whitespace |
| RustStr.StartsWith | src/dexes/astroport.rs:89-90 | a text starts with a character exactly when the character occurs and its first occurrence is at position 0 |
| RustStr.IndexOf | src/helpers/chain_registry.rs:65-67 | the position holds the character, and no earlier position does |
| RustStr.IndexOfFirst | src/helpers/chain_registry.rs:65-67 | an occurrence with none before it is the position found |
| RustStr.Split | src/dexes/astroport.rs:95 | a split never yields zero parts |
| RustStr.FirstSegment | src/helpers/chain_registry.rs:65-67 | the first split part holds no separator; it is either the whole text or is followed by the first separator |
| RustStr.FirstSegmentIff | src/helpers/chain_registry.rs:65-69 | the first segment is a given separator-free text exactly when the text is that one, or begins with it followed by the separator |
| RustStr.SplitCount | src/dexes/astroport.rs:95-96 | a split has exactly one part more than the text has separators, so two parts means exactly one colon |
| RustStr.SplitPartsFree | src/dexes/astroport.rs:95 | no part of a split contains the separator |
| RustStr.JoinSplit | src/dexes/astroport.rs:95 | joining the parts with the separator gives back the text |
| RustStr.SplitAt | src/dexes/astroport.rs:95 | a split cuts at the first separator and continues after it |
| RustStr.SplitJoin | src/dexes/astroport.rs:95 | splitting a join of separator-free parts gives back the parts |
| RustStr.Lines | src/dexes/astroport.rs:83 | there are no lines exactly when the text is empty, and no line contains a line feed |
| RustStr.LinesSplit | src/dexes/astroport.rs:83 | the lines are the parts of a split on line feeds: each part that a line feed ends loses one trailing carriage return; the last part is kept as it is, and dropped when empty |
| RustStr.LinesUnLines | src/dexes/astroport.rs:83 | lines without line feeds and without a trailing carriage return are read back one for one |
| RustStr.AsciiLower | src/helpers/chain_registry.rs:95-96 | only `A`..`Z` change, each to its lowercase letter, and the result is never a capital |
| RustStr.ToAsciiLowercase | src/helpers/chain_registry.rs:95-96 | same length, lowercased character by character |
| RustStr.AsciiLowerProperties | src/helpers/chain_registry.rs:95-96 | lowercasing leaves no capital, is idempotent, and leaves lowercase text unchanged |
| RustStr.LowerKeepsChar | src/helpers/chain_registry.rs:93-97 | lowercasing neither adds nor removes a character that is not an ASCII letter, such as `>` |
| ChainRegistry.FindAsset | src/helpers/chain_registry.rs:87-92 | `find` returns the first asset with a denom unit equal to the denomination, and `None` exactly when no asset has one |
| ChainRegistry.SearchLists | src/helpers/chain_registry.rs:82-101 | the scan over the lists returns the first match in list order, then asset order, and `None` exactly when nothing matches |
| ChainRegistry.ChainRegistry.GetAssetLists | src/helpers/chain_registry.rs:53-55 | returns the registry's own lists, in order |
| ChainRegistry.ChainRegistry.ResolveNativeAsset | src/helpers/chain_registry.rs:57-102 | a failed trace lookup or a first path segment other than `transfer` gives `None`, whatever the lists hold; otherwise `None` exactly when no asset carries the base denomination, else the lowercased chain name, `>`, and the lowercased symbol of the first match |
| ChainRegistry.ChainRegistry.AssetByDenom | src/helpers/chain_registry.rs:104-119 | the first asset in list order, then asset order, with a denom unit equal to the denomination; `None` exactly when there is none |
| ChainRegistry.FirstMatchUnique | src/helpers/chain_registry.rs:82-92 | the first match is unique, so both searches are determined by the lists |
| ChainRegistry.HasDenomIff | src/helpers/chain_registry.rs:87-92 | an asset matches exactly when the denomination is among the `denom` fields of its units; aliases are not consulted |
| ChainRegistry.PortAccepted | src/helpers/chain_registry.rs:64-69 | the port check accepts exactly `transfer` and every path beginning with `transfer/` |
| ChainRegistry.AnsName | src/helpers/chain_registry.rs:93-97 | the name has no ASCII capital; it is the lowercased chain name, `>`, then the lowercased symbol; when the chain name has no `>`, its first `>`-segment is the lowercased chain name |
| ChainRegistry.PortRejectedExamples | src/helpers/chain_registry.rs:64-76 | the empty path and an `icahost/` path are refused; `transfer/channel-4/icahost/...` passes, because later segments are not inspected |
| ChainRegistry.ResolveIcahostExample | src/helpers/chain_registry.rs:64-76 | a trace through another port resolves to nothing, whatever the registry holds |
| ChainRegistry.ResolveAgreesWithAssetByDenom | src/helpers/chain_registry.rs:82-98 | for an accepted path, resolution succeeds exactly when `asset_by_denom` of the base denomination does; then, for the first list and first asset that hold the denomination (the asset `asset_by_denom` returns), the name is that list's chain name and that asset's symbol |
| ChainRegistry.ExampleAnsName | src/helpers/chain_registry.rs:93-97 | `persistence` and `XPRT` give `persistence>xprt` |
| ChainRegistry.ExampleSearch | src/helpers/chain_registry.rs:82-92 | `uxprt` finds the XPRT asset of a leading persistence list, whatever lists follow |
| ChainRegistry.ExamplePortAccepted | src/helpers/chain_registry.rs:65-69 | `transfer/channel-4` passes the port check |
| ChainRegistry.ResolvePersistenceExample | src/helpers/chain_registry.rs:57-102 | the trace `(transfer/channel-4, uxprt)` resolves to `persistence>xprt` |
| AstroportDeployment.DeploymentUrl | src/dexes/astroport.rs:75-79 | a document exists exactly for `phoenix-1` and `pisco-1`, with their two fixed URLs |
| AstroportDeployment.IsSkipped | src/dexes/astroport.rs:88-93 | a line is passed over exactly when its first non-whitespace character, if it has one, is `{` or `}`; an all-whitespace line is passed over |
| AstroportDeployment.CleanKey | src/dexes/astroport.rs:97 | a cleaned key holds only characters of its part, so it adds none, and has no quote at either end |
| AstroportDeployment.CleanValue | src/dexes/astroport.rs:98-102 | a cleaned value holds only characters of its part, so it adds none, and has no quote at either end |
| AstroportDeployment.ParseLine | src/dexes/astroport.rs:87-104 | a line yields an entry exactly when, after trimming, it is neither blank nor starts with a brace, and it holds exactly one colon |
| AstroportDeployment.ParseLineClean | src/dexes/astroport.rs:95-102 | an entry's key and value hold no colon, and neither begins nor ends with a double quote |
| AstroportDeployment.ParsedLines | src/dexes/astroport.rs:87-104 | each line's entry, in line order |
| AstroportDeployment.EntriesInsertAll | src/dexes/astroport.rs:84-105 | the scan inserts, in line order, the entries the lines yield |
| AstroportDeployment.Entries | src/dexes/astroport.rs:87-105 | every binding of the map is the entry of one of the lines |
| AstroportDeployment.DocumentEntries | src/dexes/astroport.rs:83-105 | no key or value of the document's map holds a colon, and none begins or ends with a double quote |
| AstroportDeployment.InsertAllKeys | src/dexes/astroport.rs:103 | a key is in the map exactly when some entry has it |
| AstroportDeployment.InsertAllLastWins | src/dexes/astroport.rs:103 | a key's value is that of its last entry: later duplicates overwrite earlier ones |
| AstroportDeployment.EntriesLastWins | src/dexes/astroport.rs:83-105 | a key is in the document's map exactly when some line defines it, with the value from the last line that does |
| AstroportDeployment.ParseDeploymentDocument | src/dexes/astroport.rs:83-105 | the scan loop builds exactly the map of the document's lines |
| AstroportDeployment.FetchDeploymentAddress | src/dexes/astroport.rs:74-112 | an unsupported chain id fails, a transport error is passed on, and otherwise the result is the document's value for the key, or a missing-key failure |
| AstroportDeployment.UnquoteQuoted | src/dexes/astroport.rs:97 | stripping quotes removes exactly one pair around a quote-free text |
| AstroportDeployment.EntryLineSplits | src/dexes/astroport.rs:95-96 | a well-formed entry line splits into exactly its key half and its value half |
| AstroportDeployment.EntryLineNotSkipped | src/dexes/astroport.rs:88-93 | a well-formed entry line is not skipped |
| AstroportDeployment.KeyPartCleans | src/dexes/astroport.rs:97 | cleaning the key half gives back the key |
| AstroportDeployment.ValuePartCleans | src/dexes/astroport.rs:98-102 | cleaning the value half gives back the value |
| AstroportDeployment.ParseEntryLine | src/dexes/astroport.rs:87-104 | round trip: a line `  "key": "value",` is read back as that key and value |
| Astroport.PaginateMoreFuel | src/dexes/astroport.rs:59-66 | a finished pagination is not changed by allowing more queries |
| Astroport.CursorOf | src/dexes/astroport.rs:58-65 | there is no cursor exactly when nothing has been accumulated, otherwise it is the asset identifiers of the last pair |
| Astroport.CursorAfterPage | src/dexes/astroport.rs:64-65 | after a non-empty page the cursor depends only on that page |
| Astroport.Paginate | src/dexes/astroport.rs:59-66 | no query budget gives no result, and a successful result extends the pairs accumulated so far |
| Astroport.AllPairsOfAnyFuel | src/dexes/astroport.rs:56-70 | every finished pagination from no pairs gives the same result |
| Astroport.PageRunExtend | src/dexes/astroport.rs:64-65 | a non-empty page answering the current cursor extends a run, and is appended after the pairs so far |
| Astroport.PaginateHasRun | src/dexes/astroport.rs:59-66 | what the loop returns is the end of a run of non-empty pages, each asked with the cursor of the pairs before it |
| Astroport.PaginateFollowsRun | src/dexes/astroport.rs:59-66 | the loop walks through any run one query per page, appending each page |
| Astroport.AllPairsIsPageRun | src/dexes/astroport.rs:57-67 | a run that ends at an empty page gives all its pages concatenated in query order; one that ends at a query error gives that error |
| Astroport.AllPairs | src/dexes/astroport.rs:56-67 | the pagination result is always the end of such a run |
| Astroport.AllPairsFirstQuery | src/dexes/astroport.rs:58-63 | the first query has no cursor; an empty first page gives no pairs, and a failing first query gives its error |
| Astroport.ToCwAssetInfo | src/dexes/astroport.rs:163-168 | the conversion is undone by `FromCwAssetInfo`, and gives `cw20` exactly for a `Token` |
| Astroport.CwAssetInfoRoundTrip | src/dexes/astroport.rs:163-168 | `Token` maps to `cw20` and `NativeToken` to `native`, and the mapping has an inverse |
| Astroport.ToCwAssetInfos | src/dexes/astroport.rs:160-169 | one pair's identifiers are converted one for one, in order |
| Astroport.FlattenAssetInfos | src/dexes/astroport.rs:156-171 | the length is the sum of the pairs' asset counts: nothing is deduplicated |
| Astroport.FlattenAppend | src/dexes/astroport.rs:160 | flattening distributes over concatenation of pair lists |
| Astroport.FlattenAt | src/dexes/astroport.rs:157-170 | asset `j` of pair `i` appears, converted, right after the assets of the earlier pairs |
| Astroport.FlattenFrom | src/dexes/astroport.rs:157-170 | every flattened identifier is the conversion of some asset of some pair |
| Astroport.PoolTypeOf | src/dexes/astroport.rs:186-191 | only `Custom` has no pool type |
| Astroport.PoolTypeTableInverse | src/dexes/astroport.rs:186-191 | `Stable` to `Stable`, `Xyk` to `ConstantProduct`, `Concentrated` to `Weighted`: the table is one-to-one and onto the three pool types |
| Astroport.AssetNames | src/dexes/astroport.rs:193-203 | the names exist exactly when every asset has one, and then come in asset order |
| Astroport.BuildPools | src/dexes/astroport.rs:179-219 | the pool list is never longer than the pair list; every pool has the `astroport` tag; the only failure is the custom pair type |
| Astroport.BuildPoolsAborts | src/dexes/astroport.rs:186-191 | pool building fails exactly when some pair, anywhere in the list, has a custom type |
| Astroport.SelectsNamedStep | src/dexes/astroport.rs:196-208 | the selected positions extend by the last pair exactly when all its assets are named |
| Astroport.PoolsOfPairsWiden | src/dexes/astroport.rs:205-208 | a skipped pair leaves the pools already built unchanged |
| Astroport.PoolsOfPairsStep | src/dexes/astroport.rs:210-215 | an emitted pool extends the pools built so far |
| Astroport.BuildPoolsSelects | src/dexes/astroport.rs:183-216 | without a custom pair, the pools are those of the pairs whose assets are all named, and only those, in pair order; each has the pair's contract address, the `astroport` tag, the mapped type and the names in asset order |
| Astroport.NoNamesNoPools | src/dexes/astroport.rs:193-208 | with the empty name map, no pair that has assets yields a pool |
| Astroport.AstroportScraper.constructor | src/dexes/astroport.rs:46-51 | a scraper with no pairs loaded and no queries issued |
| Astroport.AstroportScraper.DexId | src/dexes/astroport.rs:27-31 | the identifier is `astroport`, the tag every pool carries |
| Astroport.AstroportScraper.Paginated | src/dexes/astroport.rs:57-66 | the loop walks a run of non-empty pages that ends in its result, and asks the factory exactly once per page plus once for the final query, each time with the cursor of the last pair seen so far (none at first) |
| Astroport.AstroportScraper.LoadPairs | src/dexes/astroport.rs:54-71 | returns the full pagination result; with a non-empty cache it issues no query and returns the cache; otherwise the queries issued are exactly that pagination's cursors in order, the first without a cursor, and only a successful result is stored, so an error or an all-empty result leaves the cache empty |
| Astroport.AstroportScraper.FetchAssetInfos | src/dexes/astroport.rs:156-171 | the flattened, converted asset identifiers of all pairs, or the query error |
| Astroport.AstroportScraper.FetchDexPools | src/dexes/astroport.rs:179-219 | the pool list built from all pairs, or the query error; every pool is tagged with `DexId` |
| Astroport.AstroportScraper.CollectPools | src/dexes/astroport.rs:183-216 | the pair loop computes exactly the pool list `BuildPools` gives for the pairs and the scraper's names |

## Left out

- HTTP fetch of the deployment document (`reqwest::get` and `text`): the response, or the transport error, is an input function.
- `AstroportScraper::new` and its address wiring: the deployment lookup of `factory_address`, the factory client and the `Daemon` chain handle. The constructor takes the factory query that results.
- The factory contract's own behaviour: its `pairs` query is an oracle, and its page limit is left at the query default.
- `fetch_staking_contracts`: it only returns an empty list.
- `skipped_ans_pools`: `CollectPools` fills it as the source does, but it is never returned, so no contract speaks of it.
- The commented-out `fetch_asset_infos` block. It is dead code, and it is the only code that would fill `asset_info_to_name`.
- `fetch_asset_lists` and `ChainRegistry::new`. They read and write the file cache, fetch from the chain registry and use serde; the asset lists are a given sequence.
- The gRPC `denom_trace` lookup and the `Ibc` client: their answer is an `Option<DenomTrace>` input.
- Logging calls: they have no effect on results.
- Astroport.AstroportScraper.constructor: it requires `Terminates(factory)`, while `AstroportScraper::new` builds a scraper over any factory. A factory whose pagination never ends is outside the model, for the reason on the next line.
- Astroport.AstroportScraper.LoadPairs: it requires that the factory's pagination ends, through `Terminates` on the class invariant. The Rust loop has no bound and would run forever against a factory that never returns an empty page or an error; the model does not describe that run.
- Astroport.AstroportScraper.FetchDexPools: pool asset names are the map's strings exactly as given. The conversion `AssetEntry::from` belongs to `abstract_core`, which is not part of this model.
- Astroport.AstroportScraper.FetchDexPools: the panic on a custom pair type is an error result. Pools built before that pair are discarded, which matches the panic's outcome of no result.
- The `Cw1155` variant of the cw-asset identifier: the scraper never produces it.
- Deduplication and name-collision policy: the code implements neither.
