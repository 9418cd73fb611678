# Photo gallery: distribution engine and photo services, in Dafny

This project models the ordering and service layer of a photo gallery web
application and proves properties of that model.

- **The photo distribution engine** (`PhotoDistributionEngine`), module
  `Distribution`, works in three steps.
  - It analyses every photo. The analysis covers the aspect ratio, an aspect
    class (wide, square, portrait, tall, ultra-tall), a colour profile
    inferred from category and filename, and a visual weight between 1 and 1.7.
  - It sorts the photos heaviest first with JavaScript's stable sort.
  - It deals the photos onto three columns, always onto the leftmost column
    of least estimated height (`300 / ratio + 24` pixels). The columns are
    then read back row by row.
- **The engine's standalone helpers** are defined in the same class but are
  never called by `distributePhotos`:
  - the nine-bucket cycle with its target patterns;
  - the distribution score;
  - the aspect interleaving.

  They are modelled as the separate operations they are.
- **The row-major reading** of columns is shared by the balancer and the
  interleaving. It is module `Masonry`: a specification function with a
  counting proof that the reading is a permutation of what the columns hold,
  plus the loop that performs it.
- **The photo record** and the response and error envelopes every photo
  service returns are in module `PhotoService`.
- **The mock photo service** (`MockPhotosService`) is module `MockService`.
  It covers catalogue generation with its masonry sort, and the catalogue
  queries: all, by category, by id, search and config.
- **The older standalone mock catalogue** (`mockPhotoData.ts`) is module
  `MockData`.
- **The service factory** (`PhotoServiceFactory`) is module `Factory`. It is a
  class whose fields the methods update. It chooses a primary and a fallback
  service from its configuration, and runs each request on the primary, then
  on the fallback. It records which service answered.
- **`update_env_file`** from the OAuth setup script is module `EnvFile`. It
  sets `KEY=value` in a `.env` file seen as its list of lines. The model also
  proves what happens when those lines are written out and read back.

Helper modules:
- `Wrappers` holds `Option`.
- `Text` holds ASCII lower-casing, substring search, Python's `str.strip`, and
  decimal rendering of naturals.
- `Seqs` holds filter, find, concatenation, dedup and replace-first-or-append.
- `Sorting` models JavaScript's stable `Array.prototype.sort` as a stable
  insertion sort.

The engine's "aspect ratio" is width over height, as the source computes it
(`photo.width / photo.height`). The class names are kept as the source gives
them. So the class the source calls `wide` (ratio below 0.7) holds photos
narrower than 0.7 of their height. The mock service's own sort uses height
over width and other thresholds. Both rules are modelled as written.

## Model

| member | source | states |
|---|---|---|
| PhotoService.CreateResponse | frontend/src/lib/services/IPhotoService.ts:65-78 | data and service name are kept; totalCount is the list length, 1 for a photo, 0 for null; metadata holds timestamp and version unless the caller's metadata overrides them, every caller key, and nothing else |
| PhotoService.CreateError | frontend/src/lib/services/IPhotoService.ts:80-87 | the error carries the caller's code, message and details, attributed to the service |
| PhotoService.SearchFilter | frontend/src/lib/services/MockPhotosService.ts:58-62 | the result is a subsequence of the photos; each photo matching the case-insensitive query occurs in it as often as in the photos, and no other photo occurs |
| PhotoService.QueryCaseInsensitive | frontend/src/lib/services/MockPhotosService.ts:59-61 | lower-casing the query does not change whether a photo matches |
| PhotoService.EmptyQueryMatchesAll | frontend/src/lib/services/MockPhotosService.ts:58-62 | searching for the empty query returns every photo in order |
| PhotoService.SearchIgnoresQueryCase | frontend/src/lib/services/PhotoServiceFactory.ts:71-75 | searching for the lower-cased query gives the same photos as the query itself |
| Distribution.AspectRatioOf | frontend/src/lib/utils/photoDistribution.ts:35 | a stored non-zero ratio is used as is, otherwise ratio times height equals width; never zero; positive for photos of positive size |
| Distribution.AspectCategoryOf | frontend/src/lib/utils/photoDistribution.ts:219-225 | the ratio lies within the bounds of the class returned |
| Distribution.ClassesDisjoint | frontend/src/lib/utils/photoDistribution.ts:219-225 | no ratio lies in two classes, so the class of a ratio is unique |
| Distribution.AspectCategoryMonotone | frontend/src/lib/utils/photoDistribution.ts:219-225 | a larger ratio never gets an earlier class |
| Distribution.InferColorProfile | frontend/src/lib/utils/photoDistribution.ts:230-254 | for each of the five categories (case-insensitive) the profile and the filename keyword deciding it, both directions; any other category gets the id's character-code sum modulo 5 in the rotation |
| Distribution.InferenceDependsOnlyOn | frontend/src/lib/utils/photoDistribution.ts:230-253 | photos agreeing on lower-cased category and filename and on id get the same profile |
| Distribution.VisualWeight | frontend/src/lib/utils/photoDistribution.ts:259-276 | the weight lies in 1..1.7; ratio above 1.5 gives at least 1.3, below 0.8 at least 1.2, in between at most 1.4 |
| Distribution.HeaviestPhoto | frontend/src/lib/utils/photoDistribution.ts:259-275 | a portrait with ratio above 1.5 weighs exactly 1.7, so the cap at 2 never binds |
| Distribution.Analyze | frontend/src/lib/utils/photoDistribution.ts:34-44 | the record is kept with score 0; the ratio is the photo's computed ratio, non-zero and in its aspect class; a stored colour profile wins, otherwise the inferred one is used; the weight is the photo's visual weight, in 1..1.7 |
| Distribution.AnalyzePhotos | frontend/src/lib/utils/photoDistribution.ts:33-51 | one analysis per photo, in order, each with a usable ratio |
| Distribution.AnalysisKeepsIds | frontend/src/lib/utils/photoDistribution.ts:34-45 | the analysed photos carry the input ids in order |
| Distribution.EstimatedHeightPositive | frontend/src/lib/utils/photoDistribution.ts:154 | a photo with positive ratio is estimated taller than the margin |
| Distribution.HeavierFirstIsStrictWeakOrder | frontend/src/lib/utils/photoDistribution.ts:150 | the weight comparator is a strict weak order |
| Distribution.SortByWeight | frontend/src/lib/utils/photoDistribution.ts:150 | the sorted photos are a permutation of the input |
| Distribution.SortByWeightOrders | frontend/src/lib/utils/photoDistribution.ts:150 | weights are non-increasing and photos of equal weight keep their input order |
| Distribution.SortKeepsMeasurable | frontend/src/lib/utils/photoDistribution.ts:150 | sorting keeps every ratio usable |
| Distribution.ShortestColumn | frontend/src/lib/utils/photoDistribution.ts:157 | the index holds the minimum height and is the lowest index holding it |
| Distribution.Place | frontend/src/lib/utils/photoDistribution.ts:157-161 | three columns remain and every column only grows at its end |
| Distribution.PlacementRule | frontend/src/lib/utils/photoDistribution.ts:157-161 | the photo goes to the bottom of the leftmost lowest column, whose height grows by the photo's estimate; every other column and height is unchanged |
| Distribution.Greedy | frontend/src/lib/utils/photoDistribution.ts:134-162 | the placement loop keeps three columns and three heights |
| Distribution.GreedyPermutation | frontend/src/lib/utils/photoDistribution.ts:153-162 | the columns together hold exactly the placed photos |
| Distribution.GreedyHeights | frontend/src/lib/utils/photoDistribution.ts:153-162 | each running height is the summed estimate of its column |
| Distribution.GreedyBalanced | frontend/src/lib/utils/photoDistribution.ts:153-162 | if no photo is estimated taller than a bound, no two columns differ by more than that bound |
| Distribution.GreedyExtends | frontend/src/lib/utils/photoDistribution.ts:160 | the columns after fewer steps are prefixes of the later columns |
| Distribution.GreedyOpensColumns | frontend/src/lib/utils/photoDistribution.ts:153-162 | the first three photos open columns 0, 1 and 2 in order, one each |
| Distribution.FewPhotosKeepOrder | frontend/src/lib/utils/photoDistribution.ts:153-179 | up to three photos are read back in the order they were placed |
| Distribution.FirstRowIsHeaviest | frontend/src/lib/utils/photoDistribution.ts:153-179 | the first three photos read back are the first three placed, in order |
| Distribution.BalanceColumnHeights | frontend/src/lib/utils/photoDistribution.ts:133-182 | the result is the row-major reading of the greedy layout of the weight-sorted photos, a permutation of the input |
| Distribution.PlacePhotos | frontend/src/lib/utils/photoDistribution.ts:134-162 | after the loop the column and height arrays hold the greedy layout |
| Distribution.PlacePhoto | frontend/src/lib/utils/photoDistribution.ts:154-161 | one loop pass updates the arrays as one placement step |
| Distribution.DistributePhotos | frontend/src/lib/utils/photoDistribution.ts:12-28 | the result is the distribution of the analysed photos and a permutation of them |
| Distribution.DistributionKeepsIds | frontend/src/lib/utils/photoDistribution.ts:116-128 | every input photo comes out exactly once: same length, the ids a permutation of the input ids |
| Distribution.FewPhotosSorted | frontend/src/lib/utils/photoDistribution.ts:133-181 | up to three well-formed photos come out heaviest first |
| Distribution.FirstRowSorted | frontend/src/lib/utils/photoDistribution.ts:133-181 | with three or more well-formed photos, the first row is the three heaviest in sorted order |
| Distribution.DistributionBalanced | frontend/src/lib/utils/photoDistribution.ts:152-162 | at every step of the loop no two columns differ by more than the tallest single photo |
| Distribution.AspectGroups | frontend/src/lib/utils/photoDistribution.ts:191-197 | five groups in the source's order, each holding only photos of its class |
| Distribution.AspectGroupsPartition | frontend/src/lib/utils/photoDistribution.ts:191-197 | together the groups hold exactly the photos |
| Distribution.InterleaveForDiversity | frontend/src/lib/utils/photoDistribution.ts:187-214 | the result reads the groups row by row and is a permutation of the input |
| Distribution.TargetsPeriodic | frontend/src/lib/utils/photoDistribution.ts:281-312 | the targets repeat every nine buckets; no bucket targets ultra-tall; category targets are known categories |
| Distribution.CreateDistributionBuckets | frontend/src/lib/utils/photoDistribution.ts:92-111 | nine empty buckets; bucket i has index i, column i mod 3, period i div 3 and the pattern targets at i |
| Distribution.LastThree | frontend/src/lib/utils/photoDistribution.ts:334 | the last min(3, n) photos |
| Distribution.InColumn | frontend/src/lib/utils/photoDistribution.ts:339 | exactly the earlier photos at indices column, column + 3, column + 6, ..., in order; their number is the count of such indices, and none for a column past the third |
| Distribution.LastInColumn | frontend/src/lib/utils/photoDistribution.ts:339-340 | the last photo of a column is the one at the highest index in that column |
| Distribution.DistributionScore | frontend/src/lib/utils/photoDistribution.ts:317-344 | a multiple of 5 in 0..100; at most 75 with no earlier photos; at least 30 when the aspect target is met |
| Distribution.BalanceBonus | frontend/src/lib/utils/photoDistribution.ts:333-336 | 0 or 15, and 0 with no earlier photos |
| Distribution.VarietyBonus | frontend/src/lib/utils/photoDistribution.ts:338-341 | 0 or 10, and 0 with no earlier photos |
| Distribution.VarietyAgainstLastInColumn | frontend/src/lib/utils/photoDistribution.ts:338-341 | the bonus is 10 exactly when the photo's category differs from that of the photo at the highest earlier index in the same column |
| Distribution.ScoreRewardsTargets | frontend/src/lib/utils/photoDistribution.ts:324-331 | meeting all three targets scores at least 75, meeting none at most 25 |
| Masonry.MaxLength | frontend/src/lib/utils/photoDistribution.ts:171 | the greatest column length: bounds every column and is attained; 0 without columns |
| Masonry.FlattenRowMajor | frontend/src/lib/utils/photoDistribution.ts:170-181 | the nested loop yields the row-major reading |
| Masonry.RowMajorPermutation | frontend/src/lib/utils/photoDistribution.ts:173-179 | the row-major reading holds exactly what the columns hold |
| Masonry.UniformRowMajor | frontend/src/lib/utils/photoDistribution.ts:173-179 | with columns of equal length, element i of column j is at position columns*i + j |
| Masonry.RowMajorStartsWithFirstRow | frontend/src/lib/utils/photoDistribution.ts:173-178 | the reading starts with row 0 |
| Masonry.PositionHolds | frontend/src/lib/utils/photoDistribution.ts:173-179 | element i of a column is in the reading, within the first i + 1 rows |
| Masonry.ColumnOrderKept | frontend/src/lib/utils/photoDistribution.ts:170-179 | each column's elements appear in the reading at strictly increasing positions, so each column is a subsequence of the result |
| Sorting.Sort | frontend/src/lib/utils/photoDistribution.ts:150 | the sort returns a permutation of its input |
| Sorting.SortSorted | frontend/src/lib/utils/photoDistribution.ts:150 | under a strict weak order, no element comes after one it must precede |
| Sorting.SortStable | frontend/src/lib/utils/photoDistribution.ts:150 | elements that compare equal keep their relative order |
| MockService.StockSourcesValid | frontend/src/lib/services/MockPhotosService.ts:103-154 | one non-empty table of positive sizes per category |
| MockService.MockPhoto | frontend/src/lib/services/MockPhotosService.ts:160-181 | the id and category; positive size with ratio width over height; neutral profile; created within the last 729 days |
| MockService.CategoryBlock | frontend/src/lib/services/MockPhotosService.ts:159-182 | n photos, the i-th being the category's i-th generated photo |
| MockService.Blocks | frontend/src/lib/services/MockPhotosService.ts:156-183 | one block per category in category order |
| MockService.MasonryBeforeIsStrictWeakOrder | frontend/src/lib/services/MockPhotosService.ts:186-210 | the masonry comparator is a strict weak order |
| MockService.GenerateMockPhotos | frontend/src/lib/services/MockPhotosService.ts:98-211 | the result is the masonry sort of the generated blocks |
| MockService.GenerateBlocks | frontend/src/lib/services/MockPhotosService.ts:156-183 | the nested loops produce the blocks one after another |
| MockService.MockIdInjective | frontend/src/lib/services/MockPhotosService.ts:168 | distinct category and index pairs give distinct ids |
| MockService.BlocksDistinctIds | frontend/src/lib/services/MockPhotosService.ts:156-183 | the generated photos have pairwise distinct ids |
| MockService.GeneratedDistinct | frontend/src/lib/services/MockPhotosService.ts:98-211 | the catalogue has 5n photos with distinct ids |
| MockService.GeneratedShapes | frontend/src/lib/services/MockPhotosService.ts:167-181 | every catalogued photo has a known category, neutral profile, positive size, stored ratio and a recent creation time |
| MockService.GeneratedComplete | frontend/src/lib/services/MockPhotosService.ts:156-183 | every category's i-th photo, for i below n, is in the catalogue |
| MockService.GeneratedOrder | frontend/src/lib/services/MockPhotosService.ts:186-210 | classes run wide, tall, square, portrait; newest first within a class; generation order among ties |
| MockService.CategoryCount | frontend/src/lib/services/MockPhotosService.ts:156-183 | each category holds exactly n photos of the catalogue |
| MockService.MockPhotosService.Categories | frontend/src/lib/services/MockPhotosService.ts:95 | the category of each photo, in catalogue order |
| MockService.MockPhotosService.UniqueCategories | frontend/src/lib/services/MockPhotosService.ts:94-96 | no repeats; a category is listed iff some photo has it; categories are listed in the order of their first occurrence in the catalogue |
| MockService.MockPhotosService.ByCategory | frontend/src/lib/services/MockPhotosService.ts:31 | a subsequence of the catalogue holding each photo of that category as often as the catalogue does, and no other photo |
| MockService.MockPhotosService.GetAllPhotos | frontend/src/lib/services/MockPhotosService.ts:13-24 | the whole catalogue, its count, and its unique categories in the metadata |
| MockService.MockPhotosService.GetPhotosByCategory | frontend/src/lib/services/MockPhotosService.ts:26-38 | that category's photos, with their count and the catalogue size in the metadata |
| MockService.MockPhotosService.GetPhotoById | frontend/src/lib/services/MockPhotosService.ts:40-51 | the first catalogued photo with that id, null iff no photo has it, and `found` saying which |
| MockService.MockPhotosService.SearchPhotos | frontend/src/lib/services/MockPhotosService.ts:53-69 | the search filter's photos with their count in the metadata |
| MockService.MockPhotosService.IsAvailable | frontend/src/lib/services/MockPhotosService.ts:71-73 | always available |
| MockService.MockPhotosService.GetConfig | frontend/src/lib/services/MockPhotosService.ts:75-87 | name, version, available, and the catalogue size in the metadata |
| MockService.NewMockPhotosService | frontend/src/lib/services/MockPhotosService.ts:8-11 | the service holds the generated catalogue of 40 photos with distinct ids |
| MockService.LookupFindsListed | frontend/src/lib/services/MockPhotosService.ts:45 | with distinct ids, looking up a catalogued photo's id finds that photo |
| MockService.CategoriesCoverCatalogue | frontend/src/lib/services/MockPhotosService.ts:94-96 | a category has photos iff it is among the unique categories |
| MockService.SearchIgnoresQueryCase | frontend/src/lib/services/MockPhotosService.ts:58-62 | the search finds the same photos for the lower-cased query |
| MockData.StockSeedsValid | frontend/src/lib/mockPhotoData.ts:12-53 | five tables of six entries each |
| MockData.DataPhoto | frontend/src/lib/mockPhotoData.ts:63-76 | the id, category, size and picsum URL of stock entry i mod 6; created within the last 729 days |
| MockData.DataBlock | frontend/src/lib/mockPhotoData.ts:62-77 | n photos, the i-th being the category's i-th |
| MockData.DataBlocks | frontend/src/lib/mockPhotoData.ts:59-78 | one block per category |
| MockData.NewerFirstIsStrictWeakOrder | frontend/src/lib/mockPhotoData.ts:80-82 | the newest-first comparator is a strict weak order |
| MockData.GenerateMockPhotos | frontend/src/lib/mockPhotoData.ts:55-83 | the result is the generated blocks sorted newest first |
| MockData.GenerateDataBlocks | frontend/src/lib/mockPhotoData.ts:59-78 | the loops produce the blocks one after another |
| MockData.MockPhotoData | frontend/src/lib/mockPhotoData.ts:85 | the catalogue generated with 8 per category: 40 photos |
| MockData.BlocksDistinctIds | frontend/src/lib/mockPhotoData.ts:59-78 | the generated photos have distinct ids |
| MockData.GeneratedSize | frontend/src/lib/mockPhotoData.ts:55-83 | 5n photos with distinct ids |
| MockData.GeneratedContents | frontend/src/lib/mockPhotoData.ts:55-83 | a photo is in the catalogue iff it is some category's i-th photo for i below n |
| MockData.GeneratedNewestFirst | frontend/src/lib/mockPhotoData.ts:80-82 | creation times are non-increasing; equal times keep generation order |
| MockData.GetAllPhotos | frontend/src/lib/mockPhotoData.ts:85-88 | the catalogue generated from the six stock lists with 8 photos per category: 40 photos, distinct ids, newest first, 8 of each category |
| MockData.GetPhotosByCategory | frontend/src/lib/mockPhotoData.ts:89-90 | a subsequence holding exactly that category's photos |
| MockData.GetPhotosByCategoryExact | frontend/src/lib/mockPhotoData.ts:89-90 | each photo of the category with its multiplicity, and no other photo |
| MockData.GetPhotoById | frontend/src/lib/mockPhotoData.ts:91-92 | the first photo with that id; none iff no photo has it |
| MockData.CategoryCount | frontend/src/lib/mockPhotoData.ts:85-90 | each category of the generated catalogue has exactly n photos |
| MockData.LookupFindsListed | frontend/src/lib/mockPhotoData.ts:91-92 | with distinct ids, looking up a listed photo's id finds it |
| Factory.EmitsIsThreshold | frontend/src/lib/services/PhotoServiceFactory.ts:189-202 | the level filter is a threshold: errors always print, debug only under debug, monotone in both levels |
| Factory.Select | frontend/src/lib/services/PhotoServiceFactory.ts:131-139 | there is always a primary; Google is primary iff requested and configured; a fallback exists iff fallback is enabled and Google is configured, and differs from the primary |
| Factory.Dispatch | frontend/src/lib/services/PhotoServiceFactory.ts:147-187 | the primary's success wins; otherwise the fallback's outcome if it is tried; otherwise the primary's error or "No available services"; lastServiceUsed changes only on success, with the fallback marked |
| Factory.SelectedDispatch | frontend/src/lib/services/PhotoServiceFactory.ts:155-186 | with initialised services every answer comes from the primary or the fallback, and the request succeeds iff one of them does |
| Factory.FallbackUnusedOnSuccess | frontend/src/lib/services/PhotoServiceFactory.ts:155-161 | once the primary succeeds, the fallback's behaviour does not matter |
| Factory.ClientSideSearch | frontend/src/lib/services/PhotoServiceFactory.ts:69-87 | the filtered photos, the rest of the response copied, and searchQuery and searchMethod added to the metadata, with no other key |
| Factory.ClientSideSearchAgreesWithMock | frontend/src/lib/services/PhotoServiceFactory.ts:69-87 | on the mock's catalogue, the client-side fallback finds the photos the mock's own search finds |
| Factory.ClientSideSearchIdempotent | frontend/src/lib/services/PhotoServiceFactory.ts:71-86 | filtering a filtered response again with the same query changes nothing |
| Factory.PhotoServiceFactory.constructor | frontend/src/lib/services/PhotoServiceFactory.ts:34-37 | stores the configuration and selects the services |
| Factory.PhotoServiceFactory.InitializeServices | frontend/src/lib/services/PhotoServiceFactory.ts:127-145 | the slots hold the selection for the current configuration; nothing else changes |
| Factory.PhotoServiceFactory.SwitchPrimaryService | frontend/src/lib/services/PhotoServiceFactory.ts:120-124 | the configuration's primary is replaced and the services are selected again |
| Factory.PhotoServiceFactory.ExecuteWithFallback | frontend/src/lib/services/PhotoServiceFactory.ts:147-187 | the outcome and new lastServiceUsed are the dispatch's; the configuration and the slots are unchanged |
| Factory.PhotoServiceFactory.SearchPhotos | frontend/src/lib/services/PhotoServiceFactory.ts:63-93 | the search operation, native or client-side, run with fallback |
| Factory.EnvironmentConfig | frontend/src/lib/services/PhotoServiceFactory.ts:206-224 | mock primary unless USE_MOCK_DATA is "false"; fallback enabled; Google configured, each credential being its variable's value or "" when unset; debug iff NODE_ENV is development; an album id, the variable's value, for exactly the set variables |
| Factory.EnvironmentFactoryHasFallback | frontend/src/lib/services/PhotoServiceFactory.ts:206-226 | a factory built from the environment always has two different services |
| Factory.CreatePhotoServiceFactory | frontend/src/lib/services/PhotoServiceFactory.ts:206-227 | a new factory with the environment's configuration and its selection |
| EnvFile.UpdateEnvLines | scripts/oauth-setup.py:105-113 | the loop replaces the first line setting the key, or appends the entry |
| EnvFile.UpdateEnvFile | scripts/oauth-setup.py:96-116 | the written lines are the update of the file's lines; a missing file gets just the entry |
| Seqs.ReplacesFirst | scripts/oauth-setup.py:106-110 | when line i is the first match, only line i is replaced |
| Seqs.AppendsWhenNone | scripts/oauth-setup.py:112-113 | with no match the entry is appended |
| EnvFile.AssignmentSetsKey | scripts/oauth-setup.py:107 | a line starting with `KEY=` sets the key |
| EnvFile.EntrySetsKey | scripts/oauth-setup.py:107-108 | the entry written sets its own key |
| EnvFile.LongerKeyNotMatched | scripts/oauth-setup.py:107 | a line setting a longer key that extends the key (as `KEY_2` extends `KEY`) is not a match |
| EnvFile.UpdateIdempotent | scripts/oauth-setup.py:96-116 | setting the same key and value twice writes the same lines as once |
| EnvFile.ReadConcatLines | scripts/oauth-setup.py:115-116 | well-formed lines written out read back as the same lines |
| EnvFile.AppendJoinsLastLine | scripts/oauth-setup.py:112-116 | as written, an appended entry lands on the end of a last line that lacks a newline |
| EnvFile.AppendJoinsUnterminatedLine | scripts/oauth-setup.py:112-116 | `A=1` without a newline, updated with K=1, reads back as the single line `A=1K=1`, which sets no K |
| EnvFile.TerminatedAgrees | scripts/oauth-setup.py:112-113 | the corrected update equals the original when the file is empty or ends in a newline |
| EnvFile.UpdateTerminatedReadsBack | scripts/oauth-setup.py:105-116 | with the last line terminated first, the file read back has the entry as its first line setting the key |

## Left out

- GooglePhotosService and everything that talks to the network. In the factory a service is a kind (Google or mock). A request is a function from the kind to its outcome, so `async`/`await` and `try`/`catch` become values.
- Console logging. The engine's `logDistributionAnalysis` and every message text are left out. The factory's level filter is modelled (`Factory.Emits`).
- The factory's `getServiceStatus`. It only gathers the services' availability and configuration for display.
- The thin wrappers `getAllPhotos`, `getPhotosByCategory` and `getPhotoById` of the factory. Each is `ExecuteWithFallback` applied to one service call.
- The `totalHeight` and `targetHeight` ("5% buffer") values of `balanceColumnHeights`. They are computed only for the log line and never affect placement.
- The final `map` of `smartDistribute`. It copies each record with the same `distributionScore`, so it is the identity.
- Simulated delays (`delay`, `withDelay`).
- Photo URLs of the mock service. They are built from the clock and never inspected.
- Clock and randomness. `Date.now()` is a `now` parameter. The random day offsets are a function parameter, reduced into `0..729`. The random part of `uniqueId`, which is never used, is left out.
- ISO timestamps. A timestamp is kept as the millisecond time it denotes. Formatting it is left out.
- Floating point. Ratios, heights and weights are exact reals, so rounding in the source's double arithmetic is not modelled.
- Division by zero. A zero width or height gives an infinite or NaN ratio in the source; the engine's functions require a ratio they can divide by (`Distribution.HasRatio`). The mock sort's classification does model infinite ratios.
- File I/O of `update_env_file`. A missing file is `None`, `readlines` is modelled by `EnvFile.ReadLines`, and the result is the list passed to `writelines`.
- Text.Strip: strips only ASCII and Latin-1 whitespace, not every Unicode space Python's `str.strip` removes.
- Text.ToLower: lowers only the ASCII letters A to Z. JavaScript's `toLowerCase` folds every Unicode letter, so a query or title with other capitals can match in the source but not in the model.
- Distribution.CharCodeSum: sums Unicode code points. The source splits the id into UTF-16 code units and sums those, so an id with a character outside the Basic Multilingual Plane adds that character's two surrogates in the source and its code point here. Only the colour profile inferred for a photo of an unknown category can differ.
- MockService.MockPhoto: every photo uses one shared `now`. The source calls `Date.now()` once per photo, so two photos drawn on the same day may get times a few milliseconds apart and sort in either order; in the model they tie and keep generation order.
- MockData.DataPhoto: uses one shared `now` for every photo, for the same reason as `MockService.MockPhoto`.

## Findings

| source | as written | input that shows it | evidently intended | confidence | as-written member | corrected member |
|---|---|---|---|---|---|---|
| scripts/oauth-setup.py:112-116 | a new key is appended as `KEY=value\n` directly after the last line, even when that line has no newline of its own | a `.env` file holding `A=1` with no final newline, then setting `K` to `1`: the file becomes `A=1K=1\n`, one line, and `K` is not set | the entry starts a line of its own, so reading the file back finds it as the first line setting the key | not executed | EnvFile.AppendJoinsUnterminatedLine | EnvFile.UpdateTerminatedReadsBack |
