# Plinko path space and `/play` decision logic, in Dafny

This project models the core of a Plinko outcome service. The service
answers a request of a row count, a difficulty level and a bet with a ball-drop
path, the bucket it ends in, a multiplier and a win. The model covers:

- **The path enumerator** `generatePaths(rows)` (module `Paths`). A path on an
  N-row board lists the ball's column after each of the N drops, from column
  0; every drop either stays in the column or advances one. The recursive
  `traverse` explores "stay" before "advance" and emits a copy of each complete
  path. `Paths.GeneratePaths` is proved equal, position by position, to an
  independent reference `Paths.PathOf(rows, i)`: the walk whose k-th move is
  digit k of the N-digit binary numeral of i, most significant first
  (module `Binary`). From that follow the count `2^rows`, the shape of each
  path, distinctness and completeness. The binomial bucket counts are proved
  on the traversal itself, by Pascal's rule.
- **The path cache** `createPathCache(minRows, maxRows)` (module `PathCache`).
  The loop is a method over an immutable `map<int, seq<Path>>`. The predicate
  `Populated` fully describes its result: every row count in range maps to
  its enumeration, nothing else changes, and no other key appears.
- **The random path selector** `getRandomPath(generator, rows)` (module
  `RandomPath`). The draw is an exact `real` in `[0, 1)`. The selector computes
  `floor(u * len)` and indexes the cached paths. A row count with no cache
  entry is a thrown error, and an empty entry gives `undefined`.
- **The `/play` handler's decision logic** (module `Play`). It validates
  rows, difficulty and bet in that order, with JavaScript's truthiness and
  `undefined` comparisons. It then draws from the shared generator, takes
  `path.at(-1)` and looks up `MULTIPLIERS[DIFFICULTY_LEVELS[level]][rows -
  MIN_ROWS][finalLocation]`; anything thrown becomes the generic failure. The
  generator is a stream of draws plus a position, so the model shows when a
  request consumes a draw. A refused request consumes none. An accepted one
  consumes exactly one, even when the cache lookup then throws, because
  `generator.random()` is evaluated before `paths.length`.

The configuration constants (`MIN_ROWS`, `MAX_ROWS`, difficulty and bet
bounds, `DIFFICULTY_LEVELS`, `MULTIPLIERS`) are fields of a `Config` value.
No values are invented for them. The rounding function is a parameter `round`.

Three points about the handler's code that the model follows:
- The handler validates the request itself (src/index.js:28-44), and the
  model includes that validation.
- A row count of 0 is refused by `!rows` whatever `MIN_ROWS` is
  (`Play.ZeroRowsRefused`), so no request reaches the 0-row board.
- A bucket past the end of a multiplier-table row is not an error: the
  lookup yields `undefined` and the reply is still a 200 (see Findings).

## Model

| member | source | states |
|---|---|---|
| `Paths.GeneratePaths` | src/functions/generate_paths.js:1-18 | returns exactly 2^rows paths, one per sequence of stay/advance choices |
| `Paths.GeneratedPathAt` | src/functions/generate_paths.js:4-16 | the path at position i is the reference path `PathOf(rows, i)`, whose k-th move is digit k of the rows-digit binary numeral of i: depth-first order with "stay" before "advance" |
| `Paths.PathOfInjective` | src/functions/generate_paths.js:12-13 | distinct positions of the enumeration carry distinct paths, because a path determines its choices |
| `Paths.TraverseEnumerates` | src/functions/generate_paths.js:4-14 | `traverse(row, col, path)` emits 2^(rows-row) paths; the i-th is the path so far followed by the walk from `col` along the binary numeral of i |
| `Paths.PathOfShape` | src/functions/generate_paths.js:4-13 | every enumerated path has rows+1 columns, starts at 0 and moves by 0 or 1; move k is bit rows-1-k of its index; its terminal bucket is the number of 1-bits of the index and lies in 0..rows |
| `Paths.PathOfMoves` | src/functions/generate_paths.js:12-13 | move k of the i-th path (stay = 0, advance = 1) is bit rows-1-k of i |
| `Paths.GeneratedPathsValid` | src/functions/generate_paths.js:4-13 | every generated path is well formed (length rows+1, starts at 0, steps of 0 or 1) and ends in a bucket in 0..rows |
| `Paths.GeneratedPathsComplete` | src/functions/generate_paths.js:7-13 | every well-formed path of the board is generated |
| `Paths.GeneratedPathsExactlyValid` | src/functions/generate_paths.js:7-13 | a path is generated if and only if it is well formed |
| `Paths.GeneratedPathsDistinct` | src/functions/generate_paths.js:8-13 | no path is emitted twice: equal paths sit at equal positions |
| `Paths.NoRows` | src/functions/generate_paths.js:7-9 | a board with 0 rows yields exactly one path, `[0]` |
| `Paths.TraverseBuckets` | src/functions/generate_paths.js:7-13 | the paths emitted from column `col` with rows-row levels left end in bucket k exactly C(rows-row, k-col) times |
| `Paths.BucketCounts` | src/functions/generate_paths.js:8-13 | exactly C(rows, k) generated paths end in bucket k: paths with the same bucket are not merged |
| `Paths.StepsOfWalk` | src/functions/generate_paths.js:12-13 | the moves of a walk are the choices it was built from, so a path determines its stay/advance choices |
| `Binary.FromBitsOfBits` | src/functions/generate_paths.js:12-13 | reading back the binary numeral of an index gives the index, so distinct positions of the enumeration have distinct choice sequences |
| `Binary.BitsAreBits` | src/functions/generate_paths.js:12-13 | digit k of the width-n numeral of i, the choice taken at level k, is bit n-1-k of i |
| `Binary.SumBitsIsOnes` | src/functions/generate_paths.js:12-13 | the number of "advance" choices in the numeral of i is the number of 1-bits of i |
| `PathCache.CreatePathCache` | src/functions/create_path_cache.js:6-10 | after the loop, every row count in `minRows..maxRows` maps to `generatePaths` of it, keys outside the range keep their values, no other key is added, and an empty range leaves the cache unchanged |
| `PathCache.PopulatedUnique` | src/functions/create_path_cache.js:7-9 | filling a range from a given cache has exactly one possible result |
| `PathCache.PopulateIdempotent` | src/functions/create_path_cache.js:7-8 | filling the same range a second time leaves the cache as it was |
| `PathCache.StartupCacheContents` | src/functions/create_path_cache.js:7-8 | in the start-up cache a row count has an entry exactly when it is in range, and every stored path is well formed for that row count with a bucket in 0..rows |
| `RandomPath.SelectIndex` | src/functions/get_random_path.js:5 | for a draw in [0, 1) and a non-empty path set, `floor(u * len)` lies in [0, len) |
| `RandomPath.SelectIndexInterval` | src/functions/get_random_path.js:5 | index i is selected if and only if i/len <= u < (i+1)/len |
| `RandomPath.SelectIndexMonotone` | src/functions/get_random_path.js:5 | a larger draw never selects a smaller index |
| `RandomPath.CacheGet` | src/functions/get_random_path.js:4 | `pathCache.get(rows)` finds an entry exactly when some cached key equals the requested number, and returns that key's paths |
| `RandomPath.GetRandomPath` | src/functions/get_random_path.js:3-8 | throws exactly when the row count has no cache entry, gives `undefined` exactly when the entry is empty, and otherwise returns a member of the cached set |
| `RandomPath.GetRandomPathFollowsDraw` | src/functions/get_random_path.js:4-7 | for any cache, when the entry for the row count is non-empty and the draw lies in [i/len, (i+1)/len), the selector returns the i-th cached path |
| `RandomPath.StartupSelection` | src/functions/get_random_path.js:4-7 | with the start-up cache and an in-range row count, the selector returns the enumerated path at index floor(u * 2^rows), which is well formed and ends in the bucket given by the number of 1-bits of that index |
| `RandomPath.StartupPickInterval` | src/functions/get_random_path.js:5-7 | with the start-up cache, the i-th enumerated path is returned if and only if the draw lies in [i/2^rows, (i+1)/2^rows) |
| `RandomPath.StartupMiss` | src/functions/get_random_path.js:4-5 | a fractional or out-of-range row count makes the selector throw rather than return a path |
| `Play.ValidateFirstFailure` | src/index.js:28-44 | rows are refused unless a non-zero number in [MIN_ROWS, MAX_ROWS]; difficulty only when a number outside its bounds (a missing one passes); bet unless a non-zero number in [MIN_BET, MAX_BET]; the first failing check in that order decides the message |
| `Play.ZeroRowsRefused` | src/index.js:28 | a row count of 0 is refused whatever `MIN_ROWS` is |
| `Play.Handle` | src/index.js:26-56 | a refused request gets the first validation failure and leaves the generator untouched; an accepted one consumes exactly one draw; a 200 carries only a genuine outcome: the path the selector picks with the request's draw, its last column, the table entry at (difficulty, rows - MIN_ROWS, bucket) and the rounded bet times multiplier; once a path is picked, the reply is a 200 exactly when the difficulty, the row slot and the path's bucket are all in the table |
| `Play.HandleAsWritten` | src/index.js:26-56 | the handler with JavaScript's `undefined` lookups: the same validation and generator behaviour as `Play.Handle`; a 200 carries the path the selector picks with the request's draw, its last column, and the entry at its bucket in an existing table row, where the multiplier is `undefined` exactly when the bucket is not in the row and the win is undefined exactly when the multiplier is; once a path is picked, the reply is a 200 exactly when the difficulty and the row slot are in the table |
| `Play.StartupRequestSucceeds` | src/index.js:46-53 | with the start-up cache and a table covering the board, an accepted whole row count with a known difficulty yields a 200 whose path is the enumerated path at index floor(u * 2^rows), with bucket in 0..rows and row slot in [0, MAX_ROWS - MIN_ROWS] |
| `Play.UncachedRowsFail` | src/index.js:46-56 | a fractional row count that passes validation has no cache entry and ends in the generic failure after consuming one draw |
| `Play.CreateDefaultPathCache` | src/functions/create_path_cache.js:6-10 | `createPathCache()` with no arguments, as called at start-up (src/index.js:18), fills the configured range `[MIN_ROWS, MAX_ROWS]`; from the empty map it yields the start-up cache, in which every row count the handler accepts as a whole number has an entry |
| `Play.AsWrittenDivergence` | src/index.js:47-55 | for every input, the handler as written and the corrected one consume the same draws, and their replies differ exactly when the handler as written answers 200 with an undefined multiplier, which happens when the picked path's bucket is not in the table row; the corrected handler then answers with the generic failure |
| `Play.AsWrittenAgreesOnCoveredTable` | src/index.js:49-56 | with the start-up cache and a table covering the board, the handler as written and the corrected handler give the same replies |
| `Play.ShortTableRowAnswersOk` | src/index.js:50-53 | a concrete request where the table row is one bucket short: the handler as written answers 200 with an undefined multiplier and a NaN win, and the corrected handler answers with the generic failure |

## Left out

- `src/functions/round_value.js`: `roundValue` is defined by IEEE-754 doubles (`Number.EPSILON`, `Math.round`). The model takes it as an arbitrary function `round` applied to `bet * multiplier`.
- The Mersenne Twister generator: it is a foreign library. The model uses an abstract stream of draws in `[0, 1)` and a position that each `random()` call advances.
- Floating point in the selector: the draw and `u * len` are exact reals, not doubles.
- Express setup, JSON parsing, status codes and `app.listen`: HTTP plumbing. Responses are a `Response` datatype (`BadRequest`, `Ok`, `InternalError`).
- The text of the 400 messages: they interpolate configuration numbers. The model records which of the three messages is sent.
- Request fields other than a number or a missing field (strings, booleans, `null`, objects): they involve JavaScript's type coercions in `!`, `<` and `>`.
- `src/constants.js` is not part of this model. Its values are the fields of `Config`.
- `test/simulation.js`: a batch HTTP client with file output and floating-point statistics.
- Statistical uniformity of the draw: only the exact interval each path owns is proved.
- Concurrency: the service's single event loop and the shared generator. Each request is one function application.
- PathCache.CreatePathCache: requires the start of a non-empty range to be 0 or more. `generatePaths` with a negative or fractional row count never reaches its base case, and the resulting stack overflow is not modelled. For the same reason `Paths.GeneratePaths` takes a `nat`.
- The module-wide mutable `pathCache`: here it is a map passed in and returned.

## Findings

| source | as written | input that shows it | evidently intended | confidence | as-written member | corrected member |
|---|---|---|---|---|---|---|
| src/index.js:50-53 | an out-of-range bucket reads `undefined` from the table row without throwing, so the handler answers 200 with `multiplier` undefined and `win` NaN (sent as `null`) | `MIN_ROWS = MAX_ROWS = 1`, difficulty 1 named "low" whose table row `[2.0]` has one bucket, draw 0.75: the path `[0, 1]` ends in bucket 1 (`Play.ShortTableRowAnswersOk`) | a multiplier-table miss is an internal failure (500), never a reply with an undefined multiplier | medium (not executed; needs a table row shorter than rows + 1) | `Play.HandleAsWritten`, `Play.AsWrittenDivergence` | `Play.Handle` |
