# osrs-buyables price and metric core, in Dafny

This project models the computational core of the osrs-buyables backend
and one frontend helper. The backend ranks the purchasable training methods
of an Old School RuneScape skill by how many coins each experience point
costs, using live Grand Exchange prices from the OSRS Wiki price API.

- **Metric calculation** (`Metrics`): `calculateItemMetrics` combines one recipe
  with a price snapshot. It resolves the sell price from the item's `high`
  quote and each material's unit cost from its `low` quote, with 0 for a
  missing or falsy quote. It then derives the material cost, net profit,
  coins per xp and the profitability flag.
- **Ranking** (`Ranking`): the `sort` by ascending `pricePerXp`. It is modelled
  as a stable insertion sort and proved sorted, a permutation and stable.
  Any stable sort has the same outcome, so this stands for the engine's own
  algorithm.
- **Skill aggregation** (`Buyables`): `getBuyablesForSkill` validates the
  lower-cased skill name against the five supported skills, loads the
  skill's catalog, obtains prices, computes every recipe and ranks them.
  `getAvailableSkills` returns the five names.
- **Price-feed client** (`WikiService`, over the abstract store `TtlCache`):
  `getLatestPrices` and `getItemMapping` are cache-then-fetch operations.
  `getPricesForItems` filters the snapshot.
- **Image URL** (`OsrsImages`): `getItemImageUrl` strips a prayer-altar suffix,
  escapes spaces and parentheses, and wraps the result as a wiki image path.

`Results` (Option/Result), `Text` (lower-casing and ASCII case folding) and `PriceData`
(quotes, snapshots, and the decimal `toString` of item ids) hold the shared
vocabulary.

Modelling choices:
- Prices are `int`. Experience and coins per xp are `real`, i.e. exact
  rationals rather than IEEE doubles.
- A snapshot maps decimal id strings to `Option<Quote>`. `None` is a JSON
  `null` entry. A quote field is `None` when it is `null` or absent.
- The clock is a parameter, in milliseconds. An entry stored with a
  time-to-live of `t` seconds is readable until `t * 1000` ms later, inclusive.
- The HTTP request is an input outcome (`Fetched(data)` or `Failed(message)`).
  Each cache operation takes the time of its first cache read and the time
  at which the request settled.
- One store serves both cache keys, as in the program. `WellTyped` states
  that each key holds only what its writer stores there. The empty store is
  well typed and every operation preserves it.
- A cache read (`TtlCache.Read`) deletes an entry it finds expired, as
  node-cache does with its default `deleteOnExpire` (cache.js:6-10 leaves it
  on). The stale-data fallback of `getLatestPrices` (osrsWikiService.js:43)
  is the same read as its first one (line 15). It does not read an expired
  entry. `WikiService.FailedFetchAfterMissRaises` proves the consequence:
  without a concurrent writer, a failed fetch after a miss always ends in
  the error, whatever the clock reads.
- There is no consumable (no-resale) accounting mode in the code: every skill,
  prayer included, uses `pricePerXp = -netProfit / xpGained`.
- A skill's catalog file is read and parsed before any price is requested,
  but its shape is only relied upon once prices are in hand. A catalog that
  parses without the recipe shape (`Catalog.Misshapen`) therefore fails
  after the price step, with that step's cache effect.

## Model

| member | source | states |
|---|---|---|
| TtlCache.Get | backend/src/services/osrsWikiService.js:15 | a strict read returns a value exactly when the key is present and the clock has not passed the entry's expiry, and then it is the stored value |
| TtlCache.Read | backend/src/services/osrsWikiService.js:15 | a read returns what `Get` does; a hit leaves the store as it was, and a miss leaves it without the key, deleting an expired entry |
| TtlCache.MissIsForgotten | backend/src/utils/cache.js:6-10 | after a read that misses, a read of the same key misses whatever the clock reads, until the key is written |
| TtlCache.Set | backend/src/services/osrsWikiService.js:33 | a write replaces the key's entry wholesale with expiry set time plus the time-to-live, adds the key, and leaves every other entry as it was |
| TtlCache.GetAfterSet | backend/src/utils/cache.js:3-10 | a read after a write returns the written value while the time-to-live has not elapsed, and nothing afterwards |
| TtlCache.SetLeavesOtherKeys | backend/src/utils/cache.js:6-10 | writing one key never changes what a read of another key returns |
| TtlCache.MissPersists | backend/src/utils/cache.js:6-10 | for the plain lookup alone: with no write in between and a clock that does not go back, an expired or absent key stays unreadable |
| PriceData.ItemKey | backend/src/services/buyablesService.js:76 | the string form of an id is non-empty and starts with a minus sign exactly when the id is negative |
| PriceData.DecimalRoundTrip | backend/src/services/buyablesService.js:76 | reading back the decimal key of a non-negative id gives the id |
| PriceData.ItemKeyRoundTrip | backend/src/services/osrsWikiService.js:63 | every integer id, negative ones included, is read back from its string form by an independent parser |
| PriceData.ItemKeyInjective | backend/src/services/buyablesService.js:76 | distinct item ids have distinct snapshot keys, so a lookup never picks up another item's quote |
| PriceData.HighPrice | backend/src/services/buyablesService.js:79-80 | a present `high` quote of a non-null entry is the sell price, and a non-zero sell price always comes from such a quote; otherwise the price is 0 |
| PriceData.LowPrice | backend/src/services/buyablesService.js:85-86 | a present `low` quote of a non-null entry is the unit cost, and a non-zero unit cost always comes from such a quote; otherwise the cost is 0 |
| PriceData.UnpricedIsZero | backend/src/services/buyablesService.js:79-86 | an id absent from the snapshot is priced 0 on both sides, never an error |
| Metrics.CostMaterials | backend/src/services/buyablesService.js:83-95 | the materials keep their order, count and fields; each gets its `low` quote or 0 as unit cost and unit cost times quantity as total; the running cost is the sum of the totals |
| Metrics.PricePerXp | backend/src/services/buyablesService.js:101 | for positive xp, the ratio times xp is minus the net profit and the ratio is negative exactly when the net profit is positive; otherwise the ratio is 0 |
| Metrics.CalculateItemMetrics | backend/src/services/buyablesService.js:75-114 | the result keeps the recipe, sells at the `high` quote, prices materials at their `low` quotes, has material cost equal to the sum of totals and net profit equal to sell price minus material cost, uses the ratio above, and is marked profitable exactly when the net profit is positive |
| Metrics.SellPriceFromHighQuote | backend/src/services/buyablesService.js:79-80 | the sell price is the snapshot's `high` quote for the item when the entry and quote exist, and 0 otherwise |
| Metrics.ProfitableIffNegativeRatio | backend/src/services/buyablesService.js:98-104 | profitable exactly when the sell price exceeds the material cost; for positive xp, exactly when the ratio is negative |
| Metrics.XplessRatioIgnoresPrices | backend/src/services/buyablesService.js:101 | a recipe with no positive xp has ratio 0 under every snapshot |
| Metrics.MaterialCostNonNegative | backend/src/services/buyablesService.js:83-88 | non-negative material totals add up to a non-negative material cost |
| Metrics.CostedTotalsNonNegative | backend/src/services/buyablesService.js:86-87 | a non-negative quantity priced at a non-negative `low` quote has a non-negative total |
| Metrics.ProfitAtMostSellPrice | backend/src/services/buyablesService.js:83-98 | with non-negative quantities and quotes, the net profit never exceeds the sell price |
| Metrics.PricePerXpAntitone | backend/src/services/buyablesService.js:101 | a larger net profit never gives a larger ratio |
| Metrics.RatioAtLeastFreeMaterials | backend/src/services/buyablesService.js:83-101 | with non-negative quantities and quotes, the ratio is never below the ratio the item would have if its materials were free |
| Metrics.ProfitableExample | backend/src/services/buyablesService.js:75-114 | an item selling at 100 with two materials at 20 and 10 xp has cost 40, profit 60, ratio -6 and is profitable |
| Ranking.Insert | backend/src/services/buyablesService.js:60 | insertion adds exactly the one item to the multiset and introduces nothing else |
| Ranking.InsertKeepsSorted | backend/src/services/buyablesService.js:60 | inserting into a sequence sorted by ratio keeps it sorted |
| Ranking.SortByRatio | backend/src/services/buyablesService.js:60 | the ranked items are non-decreasing by ratio and a permutation of the input |
| Ranking.InsertKeepsRatioOrder | backend/src/services/buyablesService.js:60 | insertion places an item before the existing items of equal ratio and leaves other ratios' items in order |
| Ranking.SortIsStable | backend/src/services/buyablesService.js:60 | items of equal ratio keep their catalog order |
| Ranking.WithRatioSelects | backend/src/services/buyablesService.js:60 | the items selected for a ratio come from the sequence and carry that ratio |
| Ranking.StableOutcomeIsUnique | backend/src/services/buyablesService.js:60 | two sorted arrangements that agree on the order of every ratio's items are equal |
| Ranking.AnyStableSortAgrees | backend/src/services/buyablesService.js:60 | any sorted, stable arrangement of the items is the one the model computes |
| WikiService.EmptyCacheIsWellTyped | backend/src/utils/cache.js:6-10 | the freshly created cache satisfies the key-typing invariant |
| WikiService.GetLatestPrices | backend/src/services/osrsWikiService.js:11-50 | a live entry is returned without fetching and without a write; after a miss, a fetched snapshot is stored under `osrs_prices_latest` for 300 s and returned; after a failed fetch the expired entry, if any, is gone and the result is the error `Failed to fetch OSRS prices: ` plus the upstream message |
| WikiService.GetItemMapping | backend/src/services/osrsWikiService.js:77-107 | a live entry is returned; a fetched mapping is stored under `osrs_item_mapping` for 86400 s and returned; a failed fetch is the error `Failed to fetch item mapping: ` plus the message, with the expired entry, if any, deleted |
| WikiService.FailedFetchAfterMissRaises | backend/src/services/osrsWikiService.js:39-49 | without a concurrent writer, a failed fetch after a miss always ends in the error and never in the fallback, whatever the clock reads, and leaves no prices entry |
| WikiService.FetchedSnapshotIsReused | backend/src/services/osrsWikiService.js:15-33 | a snapshot fetched after a miss is served from the cache, whatever the upstream would do, to every call within the default time-to-live |
| WikiService.OperationsUseSeparateEntries | backend/src/services/osrsWikiService.js:12-96 | the prices operation never changes the mapping entry and the mapping operation never changes the prices entry |
| WikiService.FilterPrices | backend/src/services/osrsWikiService.js:60-67 | the result holds exactly the requested keys whose snapshot entry is present and non-null, each mapped to the snapshot's entry unchanged |
| WikiService.GetPricesForItems | backend/src/services/osrsWikiService.js:57-70 | a price failure propagates unchanged; otherwise the result is the latest snapshot filtered to the requested ids, with the same cache effect as the prices operation |
| Buyables.Join | backend/src/services/buyablesService.js:40 | joining no names gives the empty string, one name gives that name, and the joined string mentions each of the names |
| Buyables.InvalidSkillMessage | backend/src/services/buyablesService.js:40 | the error message starts with `Invalid skill: ` and the name as given, and then lists every supported skill |
| Buyables.SkillListingIsJoin | backend/src/services/buyablesService.js:40 | the listing in the message is the five supported skills, in order, joined with a comma and a space |
| Buyables.GetAvailableSkills | backend/src/services/buyablesService.js:120-122 | exactly herblore, prayer, cooking, crafting and smithing in that order, each lower case and accepted unchanged by validation |
| Buyables.ValidateSkill | backend/src/services/buyablesService.js:36-41 | accepted exactly when the lower-cased name is one of the five skills, then yielding the lower-cased name; otherwise the invalid-skill error for the name as given |
| Buyables.ValidationIgnoresCase | backend/src/services/buyablesService.js:36 | a name and its lower-cased form are accepted or rejected together and normalise alike |
| Buyables.KelvinSignNameAccepted | backend/src/services/buyablesService.js:36-39 | a name written with the Kelvin sign for its K lower-cases to `cooking` and is accepted |
| Buyables.LoadSkillData | backend/src/services/buyablesService.js:16-28 | a parsed file yields its catalog; a missing file yields `Skill data not found for: ` plus the skill; any other read or parse failure rethrows its message |
| Buyables.CalculateAll | backend/src/services/buyablesService.js:50-57 | one calculated item per recipe, in catalog order, each computed from its own recipe |
| Buyables.GetBuyablesForSkill | backend/src/services/buyablesService.js:35-67 | an invalid name, a missing file or an unreadable one fails before any fetch, with the cache unchanged; a parsed file always goes through the price step and its cache effect; a misshapen catalog then fails with its own message; a well-shaped catalog with prices always succeeds; on success the skill is the lower-cased name and the items are one per recipe, sorted by ratio, a permutation of the calculated catalog, and stable |
| Buyables.PriceFailurePropagates | backend/src/services/buyablesService.js:44-47 | when the file parses but prices cannot be had, the price error and its cache effect reach the caller unchanged, whatever the catalog's shape |
| Buyables.UnknownSkillRejected | backend/src/services/buyablesService.js:39-41 | the name `alchemy` is rejected with the invalid-skill message and no cache change |
| Text.LowerChar | backend/src/services/buyablesService.js:36 | an ASCII capital becomes its small letter, the Kelvin sign becomes `k`, and every other character is kept |
| Text.Lower | backend/src/services/buyablesService.js:36 | lower-casing keeps the length and lower-cases each character on its own |
| Text.LowerIsIdempotent | backend/src/services/buyablesService.js:36 | lower-casing yields a lower-case string that lower-casing leaves unchanged |
| OsrsImages.StripSuffix | frontend/src/utils/osrsImages.js:12-14 | a suffix that ends the name, in any letter case, is removed, and anything else leaves the name unchanged |
| OsrsImages.StripAltar | frontend/src/utils/osrsImages.js:12-14 | the cleaned name is a prefix of the name, shorter by none, one or both of the two suffix lengths; it is the name itself when it ends in neither suffix, at least one Gilded-altar suffix shorter when it ends in that one, and exactly one Chaos-altar suffix shorter when it ends in that one only |
| OsrsImages.GildedSuffixStripped | frontend/src/utils/osrsImages.js:12-14 | a lone trailing Gilded-altar suffix in any letter case is removed and everything before it kept |
| OsrsImages.ChaosSuffixStripped | frontend/src/utils/osrsImages.js:12-14 | a lone trailing Chaos-altar suffix in any letter case is removed and everything before it kept |
| OsrsImages.BonesExample | frontend/src/utils/osrsImages.js:10-25 | the Gilded-altar method of bones links to the plain bones image |
| OsrsImages.EncodeAppend | frontend/src/utils/osrsImages.js:18-21 | the encoding spells each character on its own, so it distributes over concatenation |
| OsrsImages.FormatName | frontend/src/utils/osrsImages.js:18-21 | the formatted name has no space or parenthesis and introduces no character other than those of `_`, `%28` and `%29` |
| OsrsImages.ReplaceChar | frontend/src/utils/osrsImages.js:18-21 | a global replacement removes every occurrence of the character (when the replacement lacks it) and introduces only the replacement's characters |
| OsrsImages.Encode | frontend/src/utils/osrsImages.js:18-21 | the reference encoding contains no space or parenthesis |
| OsrsImages.FormatIsEncoding | frontend/src/utils/osrsImages.js:18-21 | the three successive replacements equal the per-character encoding: space to `_`, `(` to `%28`, `)` to `%29` |
| OsrsImages.GetItemImageUrl | frontend/src/utils/osrsImages.js:7-26 | the empty name, and only it, gives the empty string; any other name gives the image base, the encoded altar-stripped name, and `.png` |
| OsrsImages.EncodedNameIsPathSafe | frontend/src/utils/osrsImages.js:18-25 | the part between the image base and `.png` has no space or parenthesis |
| OsrsImages.EncodeKeepsSafeName | frontend/src/utils/osrsImages.js:18-21 | a name with no space or parenthesis is its own encoding |
| OsrsImages.PlainNameVerbatim | frontend/src/utils/osrsImages.js:12-25 | a name with no altar suffix and no space or parenthesis appears verbatim between the base and `.png` |
| OsrsImages.NoSuffixNoStrip | frontend/src/utils/osrsImages.js:12-14 | a name ending in neither altar pattern keeps every character |
| OsrsImages.BothSuffixesStripped | frontend/src/utils/osrsImages.js:12-14 | a Gilded-altar suffix in any case is removed, and then a Chaos-altar suffix it followed is removed too |
| OsrsImages.GildedBeforeChaosKept | frontend/src/utils/osrsImages.js:12-14 | when a Chaos-altar suffix follows a Gilded-altar one, only the Chaos-altar suffix is removed |

## Left out

- `lastUpdated` stamps (buyablesService.js:55, 65): wall-clock strings with no bearing on the computation.
- File-system access and JSON parsing in `loadSkillData`: the read's outcome is the input `SkillFile`. For a parsed catalog without the recipe shape, the text of the `TypeError` raised while pricing it is an input too (`Catalog.Misshapen`), and which field is missing is not modelled.
- HTTP details in osrsWikiService.js: the base URL, the `User-Agent` header, the 10 s timeout and response unwrapping. Each request is an input outcome. `console` logging is not modelled.
- node-cache internals behind `backend/src/utils/cache.js`: the 60 s sweep, time-to-live 0 meaning "never expires", `useClones`, the `expired` event and the `CACHE_TTL_SECONDS` override. The store is modelled abstractly with the default of 300 s. Deletion of an expired entry on read is modelled; the sweep deletes only entries that a read would already miss.
- Concurrent requests interleaving between a miss and the fallback re-read: nothing else writes the cache during one operation. That interleaving is the only way the stale-data fallback of `getLatestPrices` can serve data, so the model does not reach it.
- `formatItemNameForImage` (osrsImages.js:34-42): its table is empty, so it returns its argument. Its plain-object lookup quirk for inherited names is a JavaScript artefact.
- The unused `size` parameter of `getItemImageUrl`, and `null`/`undefined` names, which behave like the modelled empty string.
- `frontend/src/utils/formatters.js`, the HTTP routes, middleware and server, and all React components, hooks and styling.
- JavaScript number semantics: prices are exact integers and xp is an exact rational, so NaN, `Infinity`, floating-point rounding and `-0` do not arise. Non-integer item ids are not modelled.
- Text.LowerChar: maps only the characters whose lower-case form is a single ASCII character, the ASCII capitals and the Kelvin sign. Every other character is kept, although `toLowerCase` maps other non-ASCII capitals too. Those map to non-ASCII text, or to more than one character, as U+0130 does. Such a name can never lower-case to one of the five ASCII skill names, so acceptance and the accepted name are exact. Only names that are rejected anyway are affected, and the error message echoes the input as given.
- The item mapping's descriptor fields other than id and name, which the core never reads.
