# Plant database backend — a verified model of its core

This project models the core logic of a plant database backend written in
TypeScript and JavaScript. The backend stores plant records keyed by a
*slug* of the scientific name, for example `Monstera deliciosa` becomes
`monstera_deliciosa`. It also builds an index from lower-case aliases ("swiss
cheese plant", "monstera") to those slugs. Around that idea the model covers
these pieces:

- **Slugs** (`Slug`): the four copies of the slug function, in
  `plantService.ts`, `generate_aliases.js`, `generate_details.js` and
  `gbif_enrich.js` (the last one uses `-`). Each returns a well-formed slug
  and is idempotent, the three `_` variants are the same function, and the
  `-` variant is the `_` variant with its separators swapped.
- **The plant table** (`PlantStore`): a DynamoDB-like table modelled as a
  `map<string, Item>` inside a class. A batch write applies its Put and
  Delete requests in order. `putPlant`, `updatePlant` and `deletePlant`
  build their requests in loops and then write the batch. The lemmas show
  that after an update or a delete the alias rows of a plant are exactly
  the ones derived from its current aliases.
- **The alias index build** (`AliasIndex`, `BedrockRecord`):
  `generate_aliases.js` splits alias values, collects them per record, and
  merges them into an alias map that it updates in place (a class), with a
  counter of new entries.
- **The details map build** (`Details`): `generate_details.js` writes one
  detail card per slug, and later records win.
- **Search** (`Search`): the prefix lookup in one first-letter shard, and
  the projection of the hits to detail cards, sorted by popularity and capped
  at 50.
- **GBIF enrichment** (`GbifEnrich`): `processLine`'s detail-over-match
  precedence, its canonical-name fallback chain, its insertion-ordered alias
  set, and the `run` loop over NDJSON lines.
- **Smaller rules**:
  - `Pexels`: the guards, the query string, and the map/filter/slice of
    Pexels photos.
  - `Logger`: level priorities and filtering, configuration defaults, the
    metadata merge and child loggers, the fields of an output record, and
    routing to a stream.
  - `Auth`: the API-key check.
- **Support modules**:
  - `Js`: JSON values with JavaScript truthiness and the `||`, `&&` and
    `??` operators.
  - `Text`: ASCII lower-casing, trimming, splitting and joining.
  - `Seqs`: order-preserving dedup, filters and subsequences.
  - `Wrappers`: Option and Result.
  - `PlantModel`: `SoilType`.

Strings are ASCII `seq<char>`. Fetches, the clock, environment variables and
the precomputed data files (`details.json` and the alias shard map) are
parameters of the functions that use them.

Some behaviours of the code that the model follows:
- `updatePlant` issues the Deletes of all old alias rows, then the Puts of
  the main row and the new alias rows. It does not de-index, delete and
  recreate the plant.
- Metrics given in an update override the stored ones. Nothing is
  gap-filled.
- The GBIF alias dedup is exact and case-sensitive.
- `details.json` holds `{slug, popularity, species, commonName, image}`
  cards, not the declared `PlantCard` type. The model uses the card shape
  that the code writes.

## Model

| member | source | states |
|---|---|---|
| Slug.SlugifyName | src/services/plantService.ts:69-75 | the result is over `[a-z0-9_]`, has no leading or trailing `_`, and has no `__` |
| Slug.SlugifyNameIdempotent | src/services/plantService.ts:69-75 | slugifying a slug returns it unchanged |
| Slug.Slugify | scripts/generate_aliases.js:13-19 | the result is over `[a-z0-9_]`, has no leading or trailing `_`, and has no `__` |
| Slug.SlugifyIdempotent | scripts/generate_details.js:13-19 | the script slug function is idempotent |
| Slug.SlugifyAgreesWithSlugifyName | scripts/generate_details.js:13-19 | the script slug function (trim after lower-case, strip every edge `_`) equals the service's (strip one edge `_`) on every input, so detail keys, alias-map values and stored ids agree |
| Slug.SlugCoreIgnoresPadding | scripts/generate_aliases.js:16-18 | characters outside `[a-z0-9]` at either end do not change the slug, which is why the `trim` step makes no difference |
| Slug.SlugifyDash | scripts/gbif_enrich.js:16-21 | a falsy value gives `''`; otherwise the result is over `[a-z0-9-]` with no edge or doubled `-` |
| Slug.SlugifyDashIsSwapped | scripts/gbif_enrich.js:16-21 | the `-` slug of a string is the `_` slug with each `_` replaced by `-` |
| Slug.CollapseIdentity | src/services/plantService.ts:73 | collapsing repeated `_` changes nothing once runs were already replaced |
| Slug.ReplaceRunsIdentity | src/services/plantService.ts:72 | replacing runs of non-`[a-z0-9]` leaves a slug unchanged |
| PlantModel.SoilName | src/models/plant.ts:1-9 | parsing the string value of a soil type gives that soil type back |
| PlantModel.ParseSoilInverse | src/models/plant.ts:1-9 | a string that parses as a soil type is that type's string value |
| PlantStore.ApplyBatchValid | src/services/plantService.ts:106-123 | applying a well-formed batch keeps every row stored under its own key, and keeps plant rows under `PLANT#` keys |
| PlantStore.ApplyBatchAppend | src/services/plantService.ts:171-174 | applying two batches one after the other equals applying their concatenation |
| PlantStore.ApplyBatch | src/services/plantService.ts:171-174 | a `BatchWriteCommand` as the table after each Put or Delete in turn; its properties are `PlantStore.ApplyBatchValid` and `PlantStore.ApplyBatchAppend` |
| PlantStore.Table.GetItem | src/services/plantService.ts:129-131 | returns the row stored under the key, and nothing exactly when no row is stored; a `PLANT#` key holds a plant |
| PlantStore.Table.BatchWrite | src/services/plantService.ts:171-174 | the new rows are the old rows with the requests applied in order, and the table stays valid |
| PlantStore.NormalizePlantKey | src/services/plantService.ts:129 | the key starts with `PLANT#`; the prefix is added only when it is missing |
| PlantStore.NormalizePlantKeyIdempotent | src/services/plantService.ts:180 | normalising a normalised key changes nothing |
| PlantStore.StripNormalize | src/services/plantService.ts:78-80 | stripping the prefix of a normalised key gives back the bare id |
| PlantStore.PlantId | src/services/plantService.ts:78-80 | the id is `PK` without one leading `PLANT#` when that is non-empty, otherwise the slug of the scientific name, which defaults to `unnamed` |
| PlantStore.SciNameOf | src/services/plantService.ts:79 | the scientific name is the given one when it is non-empty, and is never empty |
| PlantStore.MainItem | src/services/plantService.ts:84-103 | the main row is keyed `PLANT#`+id, carries the aliases lower-cased in order, has `createdAt == updatedAt == now`, and stores no popularity or images |
| PlantStore.PlantIdStable | src/services/plantService.ts:78-80 | putting a body again with the stored `PK` derives the same id |
| PlantStore.AliasKey | src/services/plantService.ts:110-111 | an alias row key starts with `ALIAS#` and is never a plant key |
| PlantStore.AliasKeysLowerAll | src/services/plantService.ts:82 | lower-casing the aliases first derives the same alias row keys |
| PlantStore.SlugifyNameIgnoresCase | src/services/plantService.ts:69-75 | upper- and lower-case spellings of an alias give the same slug |
| PlantStore.PutBatch | src/services/plantService.ts:106-120 | the batch has 1 + the number of aliases requests, the main Put comes first, and every other request puts an alias row |
| PlantStore.BuildAliasPuts | src/services/plantService.ts:108-120 | the loop builds, in order, one Put per alias of the row `ALIAS#<id>#<slug>`, pointing at the main key with `GSI1PK = ALIAS` |
| PlantStore.BuildAliasDeletes | src/services/plantService.ts:147-153 | the loop builds, in order, one Delete per stored alias of its derived alias key |
| PlantStore.PutBatchEffect | src/services/plantService.ts:77-126 | after the put the main row is stored, every derived alias key points at it, and no other row changed; for a plant with no alias rows before, its alias rows are exactly the derived ones |
| PlantStore.PutPlant | src/services/plantService.ts:77-126 | returns the main item and writes exactly the put batch |
| PlantStore.MergePlant | src/services/plantService.ts:133-144 | the aliases are the update's, or else the existing ones, lower-cased; a given metric overrides; `updatedAt` is refreshed |
| PlantStore.MergeSpreadsUpdates | src/services/plantService.ts:133-136 | the spread: for the seven ranks, popularity, attributes and images, a property present in the update overrides the stored one, a nullish one included, and an absent one keeps the stored value; a given key, scientific name or `createdAt` overrides, and anything else keeps the stored one |
| PlantStore.MergeOverridesMetrics | src/services/plantService.ts:138-142 | each of watering, light, soil, humidity and temperature is the update's value when given and the stored one when the update's is absent or nullish (`??`: override, not gap fill) |
| PlantStore.MergeEmptyPatch | src/services/plantService.ts:133-144 | an empty update only lower-cases the aliases and refreshes `updatedAt` |
| PlantStore.MergeTwice | src/services/plantService.ts:133-144 | applying the same update twice gives the same record as applying it once |
| PlantStore.UpdateBatch | src/services/plantService.ts:147-173 | the batch has one Delete per old alias, one main Put, and one Put per merged alias |
| PlantStore.UpdateBatchRealigns | src/services/plantService.ts:147-174 | when the plant's alias rows were among those of its old aliases, afterwards they are exactly those of the merged aliases; unrelated rows are unchanged and the merged row is stored |
| PlantStore.UpdateKeepsIndexed | src/services/plantService.ts:128-177 | an update that keeps the key preserves the invariant that a plant's alias rows derive from its stored aliases |
| PlantStore.UpdatePlant | src/services/plantService.ts:128-177 | a missing record gives null and no write; otherwise it returns the merged record and writes exactly the update batch |
| PlantStore.DeleteBatch | src/services/plantService.ts:184-196 | the batch deletes every stored alias's row and ends with the main row's Delete |
| PlantStore.DeleteBatchEffect | src/services/plantService.ts:184-198 | the batch removes exactly the main row and the derived alias rows, so no alias row points at the plant afterwards |
| PlantStore.DeletePlant | src/services/plantService.ts:179-199 | returns true exactly when the record exists; then it writes the delete batch, otherwise it writes nothing |
| PlantStore.AliasQueryPKs | src/services/plantService.ts:16-34 | the target keys of the alias hits, without duplicates, each one present, in the order they are first seen |
| PlantStore.AliasQuerySoundComplete | src/services/plantService.ts:16-34 | a key is returned exactly when some stored alias row that matches the prefix points at it |
| PlantStore.Lookups | src/services/plantService.ts:36-46 | the fetched rows are exactly the stored rows under the requested keys, in the order of the keys; absent keys are dropped |
| PlantStore.SearchByPrefix | src/services/plantService.ts:48-57 | the plants found for a prefix are exactly the stored rows under the keys the alias query returns |
| AliasIndex.SplitAliasValue | scripts/generate_aliases.js:142-148 | a non-string gives `[]`; every segment is non-empty, trimmed and free of `,` |
| AliasIndex.SplitAliasValueMembers | scripts/generate_aliases.js:142-148 | a string is a segment exactly when it is the non-empty trim of one of the comma-separated parts |
| AliasIndex.SplitAliasValueJoin | scripts/generate_aliases.js:142-148 | splitting clean aliases joined by `,` gives the aliases back |
| AliasIndex.CollectAliases | scripts/generate_aliases.js:155-165 | the loop returns the split of every `aliases` entry, in order, followed by the split of `genus` and the split of `species` |
| AliasIndex.SplitAll | scripts/generate_aliases.js:157-161 | the loop concatenates the splits of the array entries in order |
| AliasIndex.MergeKey | scripts/generate_aliases.js:124-125 | a non-string or blank alias is skipped; otherwise the key is the trimmed lower-case alias |
| AliasIndex.MergeKeyNormal | scripts/generate_aliases.js:125 | a merge key is non-empty, trimmed and has no upper-case letter |
| AliasIndex.AliasMap.Insert | scripts/generate_aliases.js:126-132 | one loop step: a new key gets a list, and the slug is appended and counted only when the key's list lacks it |
| AliasIndex.AliasMap.MergeAliases | scripts/generate_aliases.js:121-135 | the loop changes the map and returns the count as the fold of the steps over the aliases' keys |
| AliasIndex.MergeAllShape | scripts/generate_aliases.js:126-131 | afterwards the keys are the old ones plus the merged ones; each merged list gets the slug appended at the end unless it held it, and every other list is unchanged |
| AliasIndex.MergeAllListsSlug | scripts/generate_aliases.js:121-133 | every alias that is not skipped lists the slug under its key afterwards |
| AliasIndex.MergeAllNoDuplicates | scripts/generate_aliases.js:129-131 | no list ever holds a slug twice |
| AliasIndex.MergeAllCount | scripts/generate_aliases.js:121-135 | the returned count is the number of (key, slug) pairs the merge added |
| AliasIndex.MergeAllIdempotent | scripts/generate_aliases.js:121-135 | merging the same aliases for the same slug again adds 0 and leaves the map unchanged |
| AliasIndex.ContributionKeys | scripts/generate_aliases.js:186-191 | a named record merges the lower-cased collected aliases |
| AliasIndex.IndexAllPairs | scripts/generate_aliases.js:186-191 | the running count is the number of (alias, slug) pairs in the index, and the pairs are those the named records contributed |
| AliasIndex.IndexAllNoDuplicates | scripts/generate_aliases.js:186-191 | the built index has no list with a repeated slug |
| AliasIndex.IndexRecord | scripts/generate_aliases.js:187-191 | a record without a truthy name changes nothing, a name that is not a string throws, and a named record merges its aliases under its slug |
| AliasIndex.IndexRecords | scripts/generate_aliases.js:186-196 | the per-record loop over one file folds the records into the map, or fails at the first record whose name slugify cannot take |
| AliasIndex.BuildAliasMap | scripts/generate_aliases.js:167-207 | over the files that are arrays, it succeeds exactly when every record can be slugified, returning the index, the processed count and the entry count, which equals the number of pairs; otherwise it names the failing file and record |
| BedrockRecord.RecordSlugCases | scripts/generate_aliases.js:188-190 | a falsy record or name is skipped, a non-empty string name gives its slug, and any other truthy name throws |
| Details.FirstUrlIndex | scripts/generate_details.js:128 | the index of the first string entry with non-blank content, with none before it |
| Details.ExtractImage | scripts/generate_details.js:126-134 | an array gives its first non-blank string untrimmed, or null; a string gives its trim or null when blank; any other value gives null |
| Details.PopularityOf | scripts/generate_details.js:146 | `popularity.value` when it is not nullish, otherwise null |
| Details.CardOf | scripts/generate_details.js:144-150 | the card carries the slug, and null for an absent popularity, species or common name |
| Details.Upsert | scripts/generate_details.js:140-151 | a missing record or name is a no-op, a non-string name throws, and otherwise only `details[slug]` is written |
| Details.UpsertAll | scripts/generate_details.js:165-168 | the details map after upserting a file's records in order; its keys, last-wins values and count are `Details.UpsertAllKeys`, `Details.UpsertAllLastWins` and `Details.UpsertAllCount` |
| Details.UpsertAllKeys | scripts/generate_details.js:166-169 | the keys of the built map are exactly the slugs of the named records |
| Details.UpsertAllLastWins | scripts/generate_details.js:144 | each slug holds the card of the last record with that slug |
| Details.UpsertAllCount | scripts/generate_details.js:178 | the number of entries is the number of distinct slugs |
| Details.UpsertRecords | scripts/generate_details.js:166-169 | the per-record loop over one file extends the upserts, or fails at the first record whose name slugify cannot take |
| Details.BuildDetails | scripts/generate_details.js:153-184 | succeeds exactly when every file is an array and every name can be slugified, returning the folded map and the processed count; a failure names the first file that is not an array, or a record whose name is not a string, in an array file preceded only by array files |
| Search.FirstNonBlank | src/services/searchPlantService.ts:9 | the first character of the trimmed value, which is not whitespace |
| Search.ResolveAliasShardKey | src/services/searchPlantService.ts:5-11 | the lower-cased first trimmed character when it is in `a`–`z`; otherwise, blank input included, the default key |
| Search.GetAliasShard | src/services/searchPlantService.ts:13-16 | the shard of the resolved key, else the default shard, else no entries; `Search.GetPlantPKsByAliasPrefix` states which keys a scan of it yields, and `Search.ShardInvariance` ties that to all aliases |
| Search.LookupSpec | src/services/searchPlantService.ts:29-42 | the result has no duplicates and holds exactly the keys listed under some shard alias that starts with the lower-cased prefix |
| Search.ScanShard | src/services/searchPlantService.ts:33-40 | the loop over shard entries collects the deduplicated keys of the matching aliases |
| Search.AddAll | src/services/searchPlantService.ts:37-39 | adding to the set keeps the first-insertion order without duplicates |
| Search.GetPlantPKsByAliasPrefix | src/services/searchPlantService.ts:18-45 | a blank prefix or one shorter than 3 gives `[]`; otherwise the result is sound, complete and duplicate-free for the selected shard |
| Search.PksByAliasPrefix | src/services/searchPlantService.ts:18-45 | the keys `getPlantPKsByAliasPrefix` returns; `Search.GetPlantPKsByAliasPrefix` is proved equal to it, and `Search.LookupSpec` states its soundness and completeness |
| Search.ResolveSharedPrefix | src/services/searchPlantService.ts:5-16 | every alias that starts with the lower-cased prefix resolves to the same shard as the prefix |
| Search.ShardInvariance | src/services/searchPlantService.ts:13-40 | if the shards partition all aliases by their shard key, one shard gives the same keys as scanning every alias |
| Search.CardsOfMembers | src/services/searchPlantService.ts:48-50 | a card is kept exactly when it is the card of a requested key present in the details |
| Search.CardsOf | src/services/searchPlantService.ts:48-50 | computes the cards of the requested keys present in the details, in key order; its contract bounds the count by the number of keys, and `Search.CardsOfMembers` states membership |
| Search.SortSorted | src/services/searchPlantService.ts:52 | the sort orders cards non-increasingly by popularity, with a null popularity read as 0 |
| Search.SortByPopularity | src/services/searchPlantService.ts:52 | computes a stable sort, most popular first; its contract keeps the length, and `Search.SortSorted`, `Search.SortPermutation` and `Search.SortStable` state the sort |
| Search.SortPermutation | src/services/searchPlantService.ts:52 | the sort is a permutation |
| Search.SortStable | src/services/searchPlantService.ts:52 | cards of equal popularity keep their relative order |
| Search.DetailsByPKsSpec | src/services/searchPlantService.ts:47-56 | the result is the first min(50, n) cards of the sorted list, sorted, and made only of requested, present cards |
| Search.GetPlantDetailsByPKs | src/services/searchPlantService.ts:47-56 | the first 50 cards of the sorted projection; see `Search.DetailsByPKsSpec` |
| Search.DetailsBySlug | src/services/searchPlantService.ts:49 | with details keyed by slug, each returned card's slug is a requested key |
| Search.BuiltDetailsKeyedBySlug | scripts/generate_details.js:143-144 | the details script stores each card under its own slug |
| GbifEnrich.NameOf | scripts/gbif_enrich.js:42 | the name prefers `scientific_name` over `scientificName` |
| GbifEnrich.UsageKeyRedundant | scripts/gbif_enrich.js:49 | the lookup key is truthy exactly when `usageKey` or `speciesKey` is, and then it is the first truthy one |
| GbifEnrich.DetailOf | scripts/gbif_enrich.js:49-50 | the fetched detail is used exactly when a key is truthy; otherwise detail is null |
| GbifEnrich.Canonical | scripts/gbif_enrich.js:53 | detail's canonical name, else the match's canonical name, else its scientific name, else the line's name; truthy whenever the name is |
| GbifEnrich.CanonicalFallback | scripts/gbif_enrich.js:53 | each step of the fallback chain is taken exactly when the earlier ones are falsy |
| GbifEnrich.Pick | scripts/gbif_enrich.js:56-60 | the result is undefined or truthy, and is a field of the detail or of the match |
| GbifEnrich.PickPrefersDetail | scripts/gbif_enrich.js:56-60 | a truthy own field of detail is chosen over the match's |
| GbifEnrich.PickFallsBack | scripts/gbif_enrich.js:56-60 | without a truthy own field in detail, the match's truthy field, else undefined |
| GbifEnrich.AddAllIsDedup | scripts/gbif_enrich.js:62-68 | the successive set adds equal the insertion-ordered dedup of the truthy candidates |
| GbifEnrich.AliasesSpec | scripts/gbif_enrich.js:62-70 | the aliases have no duplicates and are exactly the non-empty `String()` values of the truthy candidates (common name, slug, match names, detail names), in first-insertion order |
| GbifEnrich.Aliases | scripts/gbif_enrich.js:62-70 | the set of truthy candidates' strings, with `''` dropped; see `GbifEnrich.AliasesSpec` and `GbifEnrich.EmptyStringAliasDropped` |
| GbifEnrich.EmptyStringAliasDropped | scripts/gbif_enrich.js:62-70 | the empty string is never an alias |
| GbifEnrich.ProcessLine | scripts/gbif_enrich.js:39-86 | it skips blank, unparsable and unnamed lines, crashes on a parsed null, returns `{name, match: null}` exactly when the match is falsy, and otherwise yields a taxon with a truthy name and duplicate-free non-empty aliases |
| GbifEnrich.ProcessLineMerged | scripts/gbif_enrich.js:72-83 | each of the seven ranks is `pick` of that rank, with the canonical name, the images and the alias list |
| GbifEnrich.MergeTaxon | scripts/gbif_enrich.js:72-83 | the merged taxon of a matched line: the canonical name, the seven picked ranks, the images and the aliases; see `GbifEnrich.ProcessLineMerged` |
| GbifEnrich.DetailIgnoredWithoutUsageKey | scripts/gbif_enrich.js:49-50 | without a truthy usage or species key the detail fetch does not affect the result |
| GbifEnrich.CollectSuccess | scripts/gbif_enrich.js:88-103 | without a crash the run returns the processed records, in order, and the skipped lines are dropped |
| GbifEnrich.CollectFailure | scripts/gbif_enrich.js:88-103 | a failing run names the first crashing line |
| GbifEnrich.Run | scripts/gbif_enrich.js:88-103 | the loop computes the collection of the processed lines |
| Pexels.QueryParts | src/services/pexelsService.ts:20 | the query parts are the non-empty names |
| Pexels.QueryShape | src/services/pexelsService.ts:20-21 | the query is `"name" "common" plant`, `"name" plant` or `"common" plant`, depending on which names are given |
| Pexels.Query | src/services/pexelsService.ts:20-21 | the quoted, space-joined query parts followed by ` plant`, trimmed; its three shapes are `Pexels.QueryShape` |
| Pexels.ToImageFields | src/services/pexelsService.ts:48-53 | small and regular come from `src.medium` and `src.large`; author and source are `photographer ?? null` and `url ?? null` |
| Pexels.NormaliseSpec | src/services/pexelsService.ts:48-55 | the images are an order-preserving subsequence of the mapped photos, all with truthy small and regular, namely the first min(5, n) usable ones |
| Pexels.Normalise | src/services/pexelsService.ts:48-55 | the mapped photos that have a small and a regular picture, the first five of them; see `Pexels.NormaliseSpec` |
| Pexels.FetchPexelsImages | src/services/pexelsService.ts:9-60 | no API key, no name, a thrown or non-ok response, or a non-array `photos` gives `[]`; otherwise the result is the normalised photo list; at most 5 images are returned |
| Logger.LevelPriority | src/services/loggerService.ts:29-40 | fatal 0, error 1, warn 2, success 3, info 4, debug 5, trace 6; any other name 4 |
| Logger.LevelPriorityBijective | src/services/loggerService.ts:29-40 | the seven names have seven distinct priorities |
| Logger.ShouldLogFacts | src/services/loggerService.ts:54-56 | fatal always passes, trace passes only under trace, and an unknown level acts as info on either side |
| Logger.ShouldLog | src/services/loggerService.ts:54-56 | true exactly when the message level's priority is at most the configured level's; see `Logger.ShouldLogFacts`, `Logger.ShouldLogMonotone` and `Logger.ShouldLogSeverity` |
| Logger.ShouldLogMonotone | src/services/loggerService.ts:54-56 | a level that passes under a threshold passes under every higher one |
| Logger.ShouldLogSeverity | src/services/loggerService.ts:54-56 | when a level passes, every more severe level passes too |
| Logger.LevelLookupAsWritten | src/services/loggerService.ts:39 | as written, inherited object property names look up a non-number, and all other names look up the intended priority |
| Logger.AsWrittenAgrees | src/services/loggerService.ts:29-40 | away from inherited property names the code as written filters as intended |
| Logger.FatalSilencedAsWritten | src/services/loggerService.ts:29-56 | with the level `constructor` the code as written drops fatal messages, which the intended rule always emits |
| Logger.FirstPresent | src/services/loggerService.ts:48-51 | the first non-empty of the two settings |
| Logger.Level | src/services/loggerService.ts:48 | the lower-cased first of the option, `LOG_LEVEL` and `info` |
| Logger.Environment | src/services/loggerService.ts:51 | the option, else `ENVIRONMENT`, else `local`; never empty |
| Logger.CreateLogger | src/services/loggerService.ts:47-52 | the logger keeps the given context as its base context |
| Logger.MergeMeta | src/services/loggerService.ts:43-45 | a right-biased union of the keys, with a null argument read as empty |
| Logger.MergeMetaUnit | src/services/loggerService.ts:43-45 | merging with nothing returns the other argument |
| Logger.MergeMetaAssoc | src/services/loggerService.ts:43-45 | the merge is associative, so nested children compose |
| Logger.Child | src/services/loggerService.ts:124 | the child's base context is the parent's merged with the child's context |
| Logger.ChildKeepsSettings | src/services/loggerService.ts:124 | a child keeps the parent's level, service, source and environment, its context overrides the parent's, and a grandchild equals one child with the merged context |
| Logger.FormatOutput | src/services/loggerService.ts:88-100 | the record carries the timestamp, level and message; service and source only when set; `ddtags = env:<env>`; and meta only when non-empty |
| Logger.StreamFor | src/services/loggerService.ts:106-112 | fatal and error go to the error stream, warn to the warn stream, and everything else to the log stream |
| Logger.Emit | src/services/loggerService.ts:102-113 | nothing is emitted exactly when the level is filtered out; otherwise on the level's stream |
| Logger.EmitRecord | src/services/loggerService.ts:103-105 | the emitted meta is present exactly when base context or meta is non-empty, and then it is their merge |
| Auth.SentKey | src/utils/auth.ts:2 | the first truthy of the `x-api-key`, `X-Api-Key` and `x-api_key` headers |
| Auth.CheckApiKey | src/utils/auth.ts:1-7 | false without a non-empty `API_KEY` or without a header; otherwise true exactly when the header equals the key |
| Auth.FirstSpellingDecides | src/utils/auth.ts:2-6 | only the first truthy header spelling is compared |
| Auth.AcceptedCarriesKey | src/utils/auth.ts:1-7 | an accepted request sends the key under one of the three spellings |
| Auth.RequireApiKey | src/utils/auth.ts:9-15 | fails with `Unauthorized` and status 401 exactly when the check is false |

## Left out

- DynamoDB semantics: the 25-item batch limit, unprocessed items, rejection of duplicate keys within one batch, GSI `begins_with` indexing and `removeUndefinedValues` are not modelled. The table is a map, and a batch is applied in order.
- `getPlantsByPKs` uses `Promise.all`. It is modelled as a sequential lookup that drops absent items (`PlantStore.Lookups`).
- The Bedrock call in `src/services/aiPlantService.ts` is a foreign model call; src/services/aiPlantService.ts is not part of this model.
- The network, retry, sleep and file-reading scripts and the HTTP handlers are not part of this model. Reading and writing JSON files is replaced by values given as parameters.
- `details.json` and the alias shard map are parameters. The shard partitioning is an explicit hypothesis of `Search.ShardInvariance`.
- Timestamps are opaque inputs, and environment variables are an `EnvVars` value.
- `safeStringify`, JSON serialisation, key order and console output are left out, including the scripts' progress logs.
- `Logger.Emit` returns the stream and the record instead of writing a line.
- Unicode case mapping and JavaScript's whitespace classes are not modelled. Strings are ASCII, and `toLowerCase` and `trim` act on ASCII.
- Prototype-property edge cases in the scripts and in `getPlantDetailsByPKs`'s `details[pk]` lookup are not modelled. Examples are a record with an inherited `scientificName`, a `toString` override, and a pk such as `constructor` that `details` lacks. For such a pk the source keeps the inherited `Object` function as an extra card (and the sort compares NaN), while `Search.CardsOf` drops it.
- `Search.SortSorted`: the library sort is modelled as a stable insertion sort by popularity. A popularity that is neither a number nor a boolean is read as 0 (true as 1; false and null as 0). The source compares numeric strings and one-element arrays by their number, and other non-numbers make its order unspecified.
- JavaScript numbers are modelled as unbounded integers. There are no fractions, NaN or Infinity, no 2^53 precision limit, and no exponent string form such as `1e21`.
- `PlantStore.MergePlant`: an explicit null key, scientific name or `createdAt` in an update is read as absent, because the stored fields are plain strings. For the optional fields, null and undefined are the same "no value": the source's spread keeps an undefined value (which the write then drops) and stores a null one.
- `GbifEnrich.Run`: the match and detail fetches are inputs to each line, so the network calls made for a line are not modelled.
- The slug function inside `gbif_enrich.js` is modelled as `Slug.SlugifyDash`. `processLine` never calls it.
- `Pexels.FetchPexelsImages`: the query string is computed, but the HTTP request is not modelled, so the response is not tied to it.
- `plant.commonName` and `PlantImage`, which `pexelsService.ts` imports, are not declared in `src/models/plant.ts`. The common name is a parameter.

## Findings

| source | as written | input that shows it | evidently intended | confidence | as-written member | corrected member |
|---|---|---|---|---|---|---|
| src/services/loggerService.ts:29-40 | `map[level] ?? 4` looks the level up in an object literal, so inherited `Object.prototype` names such as `constructor` or `toString` return a function. The `<=` comparison with a function is then always false. | `LOG_LEVEL=constructor`: `shouldLog('fatal')` is false, so even fatal messages are dropped | any name that is not one of the seven levels ranks as info (4) | not executed | Logger.FatalSilencedAsWritten | Logger.ShouldLogFacts |
