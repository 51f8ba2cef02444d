/** The decision logic of the `/play` request handler (src/index.js:26-56):
    validate rows, difficulty and bet in that order, draw a path, take its
    terminal bucket, look the multiplier up in the difficulty/row/bucket table
    and compute the win; anything thrown on the way becomes a generic failure.

    HTTP, JSON and status codes are not modelled: the handler is a function
    from the configuration, the start-up path cache, the generator state and
    the request body to a response and the next generator state. */
module Play {
  import opened Wrappers
  import opened Binary
  import opened Paths
  import opened PathCache
  import opened RandomPath

  /** A numeric field of the JSON request body: missing (`undefined`) or a
      number. */
  datatype Field = Absent | Number(value: real)

  /** The configuration constants the handler reads. `difficultyLevels` is
      `DIFFICULTY_LEVELS`, keyed by the request's `difficultyLevel` exactly as
      given (a missing field looks up the key "undefined"); `multipliers` is
      `MULTIPLIERS`: difficulty name, then row slot `rows - MIN_ROWS`, then
      bucket. */
  datatype Config = Config(
    minRows: int, maxRows: int,
    minDifficulty: real, maxDifficulty: real,
    minBet: real, maxBet: real,
    difficultyLevels: map<Field, string>,
    multipliers: map<string, seq<seq<real>>>)

  /** Configurations whose row range can be enumerated. */
  predicate RowsEnumerable(cfg: Config) {
    cfg.minRows <= cfg.maxRows ==> 0 <= cfg.minRows
  }

  /** `createPathCache()` with no arguments, as the service calls it once at
      start-up (src/index.js:18): the range defaults to the configured
      `[MIN_ROWS, MAX_ROWS]`. Started from the empty module-wide map, the
      result is the start-up cache, in which every row count the handler
      accepts as a whole number has an entry. */
  method CreateDefaultPathCache(cfg: Config, cache: Cache) returns (r: Cache)
    requires RowsEnumerable(cfg)
    ensures Populated(cache, r, cfg.minRows, cfg.maxRows)
    ensures cache == map[] ==> StartupCache(r, cfg.minRows, cfg.maxRows)
    ensures cache == map[] ==>
              forall rows: int :: RowsAccepted(cfg, Number(rows as real)) ==> rows in r
  {
    r := CreatePathCache(cache, cfg.minRows, cfg.maxRows);
  }

  datatype Request = Request(rows: Field, difficultyLevel: Field, bet: Field)

  /** Which of the three "Invalid ... Value must be between MIN and MAX."
      messages a 400 response carries. */
  datatype Invalid = InvalidRows | InvalidDifficulty | InvalidBet

  /** The shared generator: an abstract stream of draws and the position of
      the next one. Every `random()` call advances the position. */
  datatype Generator = Generator(stream: nat -> Draw, position: nat)

  /** A 400 with its message, a 200 with an outcome, or the generic 500. */
  datatype Response<O> = BadRequest(reason: Invalid) | Ok(outcome: O) | InternalError

  datatype Reply<O> = Reply(response: Response<O>, generator: Generator)

  /** The outcome the handler actually produces: JavaScript lets the terminal
      bucket and the multiplier be `undefined` (and the win NaN) without
      throwing; `None` stands for those. */
  datatype RawOutcome = RawOutcome(win: Option<real>, path: Path, finalLocation: Option<int>, multiplier: Option<real>)

  /** A fully defined outcome. */
  datatype Outcome = Outcome(win: real, path: Path, finalLocation: int, multiplier: real)

  // JavaScript semantics of the validation expressions.

  /** `!x` for a missing or numeric field: `undefined` and 0 are falsy. */
  predicate Falsy(f: Field) {
    f.Absent? || f.value == 0.0
  }

  /** `x < bound`: `undefined` compares as NaN, so it is never below. */
  predicate Below(f: Field, bound: real) {
    f.Number? && f.value < bound
  }

  /** `x > bound`: likewise never true of `undefined`. */
  predicate Above(f: Field, bound: real) {
    f.Number? && f.value > bound
  }

  /** The first failing check, in the order rows, difficulty, bet. */
  function Validate(cfg: Config, req: Request): Option<Invalid>
  {
    if Falsy(req.rows) || Below(req.rows, cfg.minRows as real) || Above(req.rows, cfg.maxRows as real) then
      Some(InvalidRows)
    else if Below(req.difficultyLevel, cfg.minDifficulty) || Above(req.difficultyLevel, cfg.maxDifficulty) then
      Some(InvalidDifficulty)
    else if Falsy(req.bet) || Below(req.bet, cfg.minBet) || Above(req.bet, cfg.maxBet) then
      Some(InvalidBet)
    else
      None
  }

  // What each check lets through, stated directly.

  /** Rows pass: a non-zero number in [MIN_ROWS, MAX_ROWS]. */
  predicate RowsAccepted(cfg: Config, f: Field) {
    f.Number? && f.value != 0.0 && cfg.minRows as real <= f.value <= cfg.maxRows as real
  }

  /** Difficulty passes: missing, or a number in [MIN_DIFFICULTY, MAX_DIFFICULTY]. */
  predicate DifficultyAccepted(cfg: Config, f: Field) {
    f.Absent? || cfg.minDifficulty <= f.value <= cfg.maxDifficulty
  }

  /** Bet passes: a non-zero number in [MIN_BET, MAX_BET]. */
  predicate BetAccepted(cfg: Config, f: Field) {
    f.Number? && f.value != 0.0 && cfg.minBet <= f.value <= cfg.maxBet
  }

  /** Validation reports the first of rows, difficulty, bet that is not
      accepted, and accepts the request when all three are. */
  lemma ValidateFirstFailure(cfg: Config, req: Request)
    ensures Validate(cfg, req) == Some(InvalidRows) <==> !RowsAccepted(cfg, req.rows)
    ensures Validate(cfg, req) == Some(InvalidDifficulty) <==>
              RowsAccepted(cfg, req.rows) && !DifficultyAccepted(cfg, req.difficultyLevel)
    ensures Validate(cfg, req) == Some(InvalidBet) <==>
              RowsAccepted(cfg, req.rows) && DifficultyAccepted(cfg, req.difficultyLevel) && !BetAccepted(cfg, req.bet)
    ensures Validate(cfg, req) == None <==>
              RowsAccepted(cfg, req.rows) && DifficultyAccepted(cfg, req.difficultyLevel) && BetAccepted(cfg, req.bet)
  {
  }

  /** A row count of 0 is always refused, even when MIN_ROWS allows it. */
  lemma ZeroRowsRefused(cfg: Config, difficultyLevel: Field, bet: Field)
    ensures Validate(cfg, Request(Number(0.0), difficultyLevel, bet)) == Some(InvalidRows)
  {
  }

  /** The property key JavaScript uses for `MULTIPLIERS[difficulty]`. */
  function PropertyKey(difficulty: Option<string>): string {
    match difficulty
    case Some(name) => name
    case None => "undefined"
  }

  /** `DIFFICULTY_LEVELS[difficultyLevel]`; `undefined` when absent. */
  function DifficultyName(cfg: Config, level: Field): Option<string> {
    if level in cfg.difficultyLevels then Some(cfg.difficultyLevels[level]) else None
  }

  /** `path.at(-1)`: the last element, `undefined` for an empty path. */
  function FinalLocation(path: Path): (r: Option<int>)
    ensures r.Some? <==> |path| > 0
    ensures |path| > 0 ==> r.value == path[|path| - 1]
  {
    if |path| == 0 then None else Some(path[|path| - 1])
  }

  /** `row[bucket]` on a JavaScript array: `undefined` out of range. */
  function BucketAt(row: seq<real>, bucket: Option<int>): Option<real> {
    match bucket
    case Some(b) => if 0 <= b < |row| then Some(row[b]) else None
    case None => None
  }

  /** `bet * multiplier`, the amount handed to `roundValue`. */
  function Stake(bet: real, multiplier: real): real {
    bet * multiplier
  }

  /** The generator after one `random()` call. */
  function Advance(g: Generator): (h: Generator)
    ensures h.stream == g.stream && h.position == g.position + 1
  {
    g.(position := g.position + 1)
  }

  /** The row `MULTIPLIERS[difficulty][rows - MIN_ROWS]` the handler reads
      for a request, when the difficulty name and the row slot both exist. */
  function TableRow(cfg: Config, req: Request): (r: Option<seq<real>>)
    requires req.rows.Number?
    ensures r.Some? ==> PropertyKey(DifficultyName(cfg, req.difficultyLevel)) in cfg.multipliers
  {
    var key := PropertyKey(DifficultyName(cfg, req.difficultyLevel));
    var slot := req.rows.value.Floor - cfg.minRows;
    if key in cfg.multipliers && 0 <= slot < |cfg.multipliers[key]| then Some(cfg.multipliers[key][slot]) else None
  }

  /** The try block as written, from the selection on. A missing table entry
      for the difficulty or the row slot throws (indexing `undefined`); a
      missing bucket does not: the multiplier is `undefined` and the win NaN,
      and the reply is a 200. */
  function ResolveAsWritten(cfg: Config, round: real -> real, req: Request, sel: Selection): Response<RawOutcome>
    requires req.rows.Number? && req.bet.Number?
  {
    match sel
    case CacheMiss => InternalError
    case NoPath => InternalError
    case Picked(path) =>
      var key := PropertyKey(DifficultyName(cfg, req.difficultyLevel));
      var slot := req.rows.value.Floor - cfg.minRows;
      if key !in cfg.multipliers || !(0 <= slot < |cfg.multipliers[key]|) then InternalError
      else
        var finalLocation := FinalLocation(path);
        var multiplier := BucketAt(cfg.multipliers[key][slot], finalLocation);
        var win := match multiplier
          case Some(m) => Some(round(Stake(req.bet.value, m)))
          case None => None;
        Ok(RawOutcome(win, path, finalLocation, multiplier))
  }

  /** The handler as written. `round` is `roundValue`, whose floating-point
      behaviour is not modelled. */
  function HandleAsWritten(cfg: Config, cache: Cache, round: real -> real, req: Request, g: Generator): (r: Reply<RawOutcome>)
    ensures r.response.BadRequest? <==> Validate(cfg, req).Some?
    ensures r.response.BadRequest? ==> r.response.reason == Validate(cfg, req).value && r.generator == g
    ensures !r.response.BadRequest? ==> r.generator.stream == g.stream && r.generator.position == g.position + 1
    ensures r.response.Ok? ==> GenuineAsWritten(cfg, cache, round, req, r.response.outcome)
    ensures r.response.Ok? ==>
              req.rows.Number? && GetRandomPath(cache, req.rows.value, g.stream(g.position)) == Picked(r.response.outcome.path)
    ensures Validate(cfg, req) == None && req.rows.Number? &&
            GetRandomPath(cache, req.rows.value, g.stream(g.position)).Picked? ==>
              (r.response.Ok? <==> TableRow(cfg, req).Some?)
  {
    match Validate(cfg, req)
    case Some(reason) => Reply(BadRequest(reason), g)
    case None =>
      var sel := GetRandomPath(cache, req.rows.value, g.stream(g.position));
      Reply(ResolveAsWritten(cfg, round, req, sel), Advance(g))
  }

  /** What a 200 from the handler as written carries: a cached path for the
      requested row count; its last column, `undefined` only for an empty
      path; the table row for the difficulty and row slot, which must exist;
      the entry of that row at the bucket, `undefined` exactly when the bucket
      is not in the row; and the rounded product of bet and multiplier,
      undefined (NaN) exactly when the multiplier is. */
  ghost predicate GenuineAsWritten(cfg: Config, cache: Cache, round: real -> real, req: Request, o: RawOutcome)
  {
    && req.rows.Number? && req.bet.Number?
    && CacheGet(cache, req.rows.value).Some?
    && o.path in CacheGet(cache, req.rows.value).value
    && (o.finalLocation.Some? <==> |o.path| > 0)
    && (|o.path| > 0 ==> o.finalLocation.value == Last(o.path))
    && TableRow(cfg, req).Some?
    && (o.multiplier.Some? <==> |o.path| > 0 && 0 <= Last(o.path) < |TableRow(cfg, req).value|)
    && (o.multiplier.Some? ==> o.multiplier.value == TableRow(cfg, req).value[Last(o.path)])
    && (o.win.Some? <==> o.multiplier.Some?)
    && (o.multiplier.Some? ==> o.win.value == round(Stake(req.bet.value, o.multiplier.value)))
  }

  /** The try block with every `undefined` lookup treated as a failure: the
      outcome is reported only when the path, its terminal bucket and the
      multiplier all exist. */
  function Resolve(cfg: Config, round: real -> real, req: Request, sel: Selection): (r: Response<Outcome>)
    requires req.rows.Number? && req.bet.Number?
    ensures !r.BadRequest?
    ensures r.Ok? ==> sel == Picked(r.outcome.path)
    ensures r.Ok? ==>
              var key := PropertyKey(DifficultyName(cfg, req.difficultyLevel));
              var slot := req.rows.value.Floor - cfg.minRows;
              var o := r.outcome;
              && |o.path| > 0 && o.finalLocation == Last(o.path)
              && key in cfg.multipliers
              && 0 <= slot < |cfg.multipliers[key]|
              && 0 <= o.finalLocation < |cfg.multipliers[key][slot]|
              && o.multiplier == cfg.multipliers[key][slot][o.finalLocation]
              && o.win == round(Stake(req.bet.value, o.multiplier))
  {
    match sel
    case CacheMiss => InternalError
    case NoPath => InternalError
    case Picked(path) =>
      var key := PropertyKey(DifficultyName(cfg, req.difficultyLevel));
      var slot := req.rows.value.Floor - cfg.minRows;
      if key !in cfg.multipliers || !(0 <= slot < |cfg.multipliers[key]|) then InternalError
      else
        match BucketAt(cfg.multipliers[key][slot], FinalLocation(path))
        case None => InternalError
        case Some(m) => Ok(Outcome(round(Stake(req.bet.value, m)), path, Last(path), m))
  }

  /** An outcome that was not fabricated: its path is one of the cached paths
      for the requested row count, its bucket is that path's last column, its
      multiplier is the table entry for (difficulty, row slot, bucket) and its
      win is the rounded product of bet and multiplier. */
  ghost predicate Genuine(cfg: Config, cache: Cache, round: real -> real, req: Request, o: Outcome)
  {
    && req.rows.Number? && req.bet.Number?
    && CacheGet(cache, req.rows.value).Some?
    && o.path in CacheGet(cache, req.rows.value).value
    && |o.path| > 0 && o.finalLocation == Last(o.path)
    && var key := PropertyKey(DifficultyName(cfg, req.difficultyLevel));
       var slot := req.rows.value.Floor - cfg.minRows;
       && key in cfg.multipliers
       && 0 <= slot < |cfg.multipliers[key]|
       && 0 <= o.finalLocation < |cfg.multipliers[key][slot]|
       && o.multiplier == cfg.multipliers[key][slot][o.finalLocation]
       && o.win == round(Stake(req.bet.value, o.multiplier))
  }

  /** The handler: a refused request gets the first validation failure and
      leaves the generator alone; an accepted one consumes exactly one draw and
      yields either a genuine outcome or the generic failure. */
  function Handle(cfg: Config, cache: Cache, round: real -> real, req: Request, g: Generator): (r: Reply<Outcome>)
    ensures r.response.BadRequest? <==> Validate(cfg, req).Some?
    ensures r.response.BadRequest? ==> r.response.reason == Validate(cfg, req).value && r.generator == g
    ensures !r.response.BadRequest? ==> r.generator.stream == g.stream && r.generator.position == g.position + 1
    ensures r.response.Ok? ==> Genuine(cfg, cache, round, req, r.response.outcome)
    ensures r.response.Ok? ==>
              req.rows.Number? && GetRandomPath(cache, req.rows.value, g.stream(g.position)) == Picked(r.response.outcome.path)
    ensures Validate(cfg, req) == None && req.rows.Number? &&
            GetRandomPath(cache, req.rows.value, g.stream(g.position)).Picked? ==>
              var path := GetRandomPath(cache, req.rows.value, g.stream(g.position)).path;
              (r.response.Ok? <==>
                 TableRow(cfg, req).Some? && |path| > 0 && 0 <= Last(path) < |TableRow(cfg, req).value|)
  {
    match Validate(cfg, req)
    case Some(reason) => Reply(BadRequest(reason), g)
    case None =>
      var sel := GetRandomPath(cache, req.rows.value, g.stream(g.position));
      Reply(Resolve(cfg, round, req, sel), Advance(g))
  }

  /** A table with an entry for every row count in range and a bucket for
      every column a path of that size can end in. */
  ghost predicate TableCoversBoard(cfg: Config) {
    forall name :: name in cfg.multipliers ==>
      && |cfg.multipliers[name]| == cfg.maxRows - cfg.minRows + 1
      && forall slot :: 0 <= slot < |cfg.multipliers[name]| ==>
           |cfg.multipliers[name][slot]| >= cfg.minRows + slot + 1
  }

  /** With the start-up cache and a table covering the board, an accepted
      request for a whole row count with a known difficulty succeeds: its path
      is the enumerated path at index floor(u * 2^rows), it ends in a bucket
      in 0..rows equal to the number of 1-bits of that index, and the table
      is read at row slot rows - MIN_ROWS in [0, MAX_ROWS - MIN_ROWS]. */
  lemma StartupRequestSucceeds(cfg: Config, cache: Cache, round: real -> real, req: Request, g: Generator, rows: int)
    requires RowsEnumerable(cfg)
    requires StartupCache(cache, cfg.minRows, cfg.maxRows)
    requires TableCoversBoard(cfg)
    requires Validate(cfg, req) == None
    requires req.rows == Number(rows as real)
    requires PropertyKey(DifficultyName(cfg, req.difficultyLevel)) in cfg.multipliers
    ensures 0 <= rows - cfg.minRows <= cfg.maxRows - cfg.minRows
    ensures Handle(cfg, cache, round, req, g).response.Ok?
    ensures var o := Handle(cfg, cache, round, req, g).response.outcome;
            var i := SelectIndex(g.stream(g.position), Pow2(rows));
            && o.path == PathOf(rows, i)
            && ValidPath(rows, o.path)
            && o.finalLocation == Ones(i)
            && 0 <= o.finalLocation <= rows
  {
    var u := g.stream(g.position);
    StartupSelection(cache, cfg.minRows, cfg.maxRows, rows, u);
    var i := SelectIndex(u, Pow2(rows));
    PathOfShape(rows, i);
    assert (rows as real).Floor == rows;
  }

  /** A fractional row count within the bounds passes validation but has no
      cache entry, so it ends in the generic failure after one draw. */
  lemma UncachedRowsFail(cfg: Config, cache: Cache, round: real -> real, req: Request, g: Generator)
    requires RowsEnumerable(cfg)
    requires StartupCache(cache, cfg.minRows, cfg.maxRows)
    requires Validate(cfg, req) == None
    requires req.rows.value.Floor as real != req.rows.value
    ensures Handle(cfg, cache, round, req, g).response == InternalError
    ensures Handle(cfg, cache, round, req, g).generator.position == g.position + 1
  {
  }

  /** The fully defined view of an outcome. */
  function Lift(r: Response<Outcome>): Response<RawOutcome> {
    match r
    case BadRequest(reason) => BadRequest(reason)
    case Ok(o) => Ok(RawOutcome(Some(o.win), o.path, Some(o.finalLocation), Some(o.multiplier)))
    case InternalError => InternalError
  }

  /** With the start-up cache and a table covering the board, the handler as
      written and the corrected one give the same replies. */
  lemma AsWrittenAgreesOnCoveredTable(cfg: Config, cache: Cache, round: real -> real, req: Request, g: Generator)
    requires RowsEnumerable(cfg)
    requires StartupCache(cache, cfg.minRows, cfg.maxRows)
    requires TableCoversBoard(cfg)
    ensures HandleAsWritten(cfg, cache, round, req, g).response == Lift(Handle(cfg, cache, round, req, g).response)
    ensures HandleAsWritten(cfg, cache, round, req, g).generator == Handle(cfg, cache, round, req, g).generator
  {
    if Validate(cfg, req) == None {
      var u := g.stream(g.position);
      var sel := GetRandomPath(cache, req.rows.value, u);
      if sel.Picked? {
        var k := req.rows.value.Floor;
        assert k in cache && k as real == req.rows.value;
        StartupCacheContents(cache, cfg.minRows, cfg.maxRows, k, sel.path);
      }
    }
  }

  /** For every configuration, cache and request, the handler as written and
      the corrected one consume the same draws, and their replies differ
      exactly when the handler as written answers 200 with an undefined
      multiplier: the path it picked ends in a bucket the table row does not
      have. In that case the corrected handler reports the generic failure. */
  lemma AsWrittenDivergence(cfg: Config, cache: Cache, round: real -> real, req: Request, g: Generator)
    ensures HandleAsWritten(cfg, cache, round, req, g).generator == Handle(cfg, cache, round, req, g).generator
    ensures var w := HandleAsWritten(cfg, cache, round, req, g).response;
            w != Lift(Handle(cfg, cache, round, req, g).response) <==> w.Ok? && w.outcome.multiplier.None?
    ensures var w := HandleAsWritten(cfg, cache, round, req, g).response;
            w.Ok? && w.outcome.multiplier.None? ==>
              && Handle(cfg, cache, round, req, g).response == InternalError
              && TableRow(cfg, req).Some?
              && (|w.outcome.path| == 0 || !(0 <= Last(w.outcome.path) < |TableRow(cfg, req).value|))
  {
  }

  /** The handler as written replies 200 with an undefined multiplier and a
      NaN win when the table row for the board is one bucket short; the
      corrected handler reports the generic failure instead. */
  lemma ShortTableRowAnswersOk()
    ensures var cfg := Config(1, 1, 1.0, 1.0, 1.0, 1.0, map[Number(1.0) := "low"], map["low" := [[2.0]]]);
            var cache := map[1 := GeneratePaths(1)];
            var req := Request(Number(1.0), Number(1.0), Number(1.0));
            var g := Generator((n: nat) => 0.75, 0);
            var round := (x: real) => x;
            && HandleAsWritten(cfg, cache, round, req, g).response == Ok(RawOutcome(None, [0, 1], Some(1), None))
            && Handle(cfg, cache, round, req, g).response == InternalError
  {
    var cache := map[1 := GeneratePaths(1)];
    assert Bits(1, 1) == [1];
    assert PathOf(1, 1) == [0, 1];
    GeneratedPathAt(1, 1);
    assert SelectIndex(0.75, 2) == 1;
    assert cache[1][1] == [0, 1];
  }
}
