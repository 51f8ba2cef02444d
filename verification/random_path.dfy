/** The random path selector (src/functions/get_random_path.js): look up the
    cached paths for a row count, scale a draw from [0, 1) by their number,
    round down, and return the path at that index.

    The draw is an exact real number here, not a floating-point double; the
    generator that produces it is left abstract. */
module RandomPath {
  import opened Wrappers
  import opened Binary
  import opened Paths
  import opened PathCache

  /** A value of the generator's `random()`: a real number in [0, 1). */
  type Draw = u: real | 0.0 <= u < 1.0

  /** `Math.floor(u * len)`. */
  function SelectIndex(u: Draw, len: nat): (i: int)
    ensures len > 0 ==> 0 <= i < len
    ensures len == 0 ==> i == 0
  {
    (u * len as real).Floor
  }

  /** Index i is selected exactly when the draw lies in [i/len, (i+1)/len):
      every index owns an interval of width 1/len. */
  lemma SelectIndexInterval(u: Draw, len: nat, i: int)
    requires len > 0
    ensures SelectIndex(u, len) == i <==>
              i as real / len as real <= u < (i + 1) as real / len as real
  {
  }

  /** A larger draw never selects a smaller index. */
  lemma SelectIndexMonotone(u1: Draw, u2: Draw, len: nat)
    requires u1 <= u2
    ensures SelectIndex(u1, len) <= SelectIndex(u2, len)
  {
    assert u1 * len as real <= u2 * len as real;
  }

  /** `pathCache.get(rows)`: a JavaScript `Map` finds a number key only when
      the request's number equals it, so a fractional row count is a miss. */
  function CacheGet(cache: Cache, rows: real): (r: Option<seq<Path>>)
    ensures r.Some? <==> exists k :: k in cache && k as real == rows
    ensures forall k :: k in cache && k as real == rows ==> r == Some(cache[k])
  {
    if rows.Floor as real == rows && rows.Floor in cache then Some(cache[rows.Floor]) else None
  }

  /** What `getRandomPath` ends in: a thrown `TypeError` because the row count
      has no entry (`paths.length` of `undefined`), `undefined` because the
      entry is empty (`paths[0]`), or a path. */
  datatype Selection = CacheMiss | NoPath | Picked(path: Path)

  /** `getRandomPath(generator, rows)`, with `u` the value `generator.random()`
      returned. The draw is taken before `paths.length` is read, so a miss
      still consumes it; the caller accounts for that. */
  function GetRandomPath(cache: Cache, rows: real, u: Draw): (s: Selection)
    ensures s.CacheMiss? <==> CacheGet(cache, rows).None?
    ensures s.NoPath? <==> CacheGet(cache, rows) == Some([])
    ensures s.Picked? ==> s.path in CacheGet(cache, rows).value
  {
    match CacheGet(cache, rows)
    case None => CacheMiss
    case Some(paths) =>
      var i := SelectIndex(u, |paths|);
      if i < |paths| then Picked(paths[i]) else NoPath
  }

  /** For any cache, the draw decides the path: when the entry for the row
      count holds paths and the draw lies in the interval of index i, the
      selector returns the i-th of them. */
  lemma GetRandomPathFollowsDraw(cache: Cache, rows: real, u: Draw, i: int)
    requires CacheGet(cache, rows).Some?
    requires 0 <= i < |CacheGet(cache, rows).value|
    requires var len := |CacheGet(cache, rows).value|;
             i as real / len as real <= u < (i + 1) as real / len as real
    ensures GetRandomPath(cache, rows, u) == Picked(CacheGet(cache, rows).value[i])
  {
    SelectIndexInterval(u, |CacheGet(cache, rows).value|, i);
  }

  /** With the start-up cache, an in-range row count selects the path at index
      floor(u * 2^rows) of the enumeration: a well-formed path whose bucket
      is the number of 1-bits of that index. */
  lemma StartupSelection(cache: Cache, lo: int, hi: int, rows: int, u: Draw)
    requires lo <= hi ==> 0 <= lo
    requires StartupCache(cache, lo, hi)
    requires lo <= rows <= hi
    ensures 0 <= rows
    ensures 0 <= SelectIndex(u, Pow2(rows)) < Pow2(rows)
    ensures GetRandomPath(cache, rows as real, u) == Picked(PathOf(rows, SelectIndex(u, Pow2(rows))))
    ensures ValidPath(rows, PathOf(rows, SelectIndex(u, Pow2(rows))))
    ensures Last(PathOf(rows, SelectIndex(u, Pow2(rows)))) == Ones(SelectIndex(u, Pow2(rows)))
  {
    assert rows in cache && cache[rows] == GeneratePaths(rows);
    assert CacheGet(cache, rows as real) == Some(cache[rows]);
    GeneratedPathAt(rows, SelectIndex(u, Pow2(rows)));
    PathOfShape(rows, SelectIndex(u, Pow2(rows)));
  }

  /** With the start-up cache, the i-th enumerated path is selected exactly
      when the draw lies in [i/2^rows, (i+1)/2^rows). */
  lemma StartupPickInterval(cache: Cache, lo: int, hi: int, rows: int, u: Draw, i: nat)
    requires lo <= hi ==> 0 <= lo
    requires StartupCache(cache, lo, hi)
    requires lo <= rows <= hi
    requires rows >= 0 && i < Pow2(rows)
    ensures GetRandomPath(cache, rows as real, u) == Picked(PathOf(rows, i)) <==>
              i as real / Pow2(rows) as real <= u < (i + 1) as real / Pow2(rows) as real
  {
    var j := SelectIndex(u, Pow2(rows));
    StartupSelection(cache, lo, hi, rows, u);
    SelectIndexInterval(u, Pow2(rows), i);
    if PathOf(rows, j) == PathOf(rows, i) {
      PathOfInjective(rows, i, j);
    }
  }

  /** A row count with no cache entry (outside the built range, or not a whole
      number) makes the selector throw instead of returning a path. */
  lemma StartupMiss(cache: Cache, lo: int, hi: int, rows: real, u: Draw)
    requires lo <= hi ==> 0 <= lo
    requires StartupCache(cache, lo, hi)
    requires rows.Floor as real != rows || rows < lo as real || rows > hi as real
    ensures GetRandomPath(cache, rows, u) == CacheMiss
  {
  }
}
