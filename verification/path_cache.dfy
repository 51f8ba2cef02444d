/** The path cache (src/functions/create_path_cache.js): a map from row
    count to the enumerated paths of that board size, filled for an inclusive
    range of row counts. The source keeps one module-wide `Map`; here it is a
    value passed in and returned. */
module PathCache {
  import opened Paths

  type Cache = map<int, seq<Path>>

  /** `after` is `before` with every row count in `lo..hi` set to its
      enumerated paths, and every other entry as it was. */
  ghost predicate Populated(before: Cache, after: Cache, lo: int, hi: int)
    requires lo <= hi ==> 0 <= lo
  {
    && (forall rows :: rows in after <==> rows in before || lo <= rows <= hi)
    && (forall rows :: lo <= rows <= hi ==> rows in after && after[rows] == GeneratePaths(rows))
    && (forall rows :: rows in before && !(lo <= rows <= hi) ==> after[rows] == before[rows])
  }

  /** `createPathCache(minRows, maxRows)`: for each row count from `minRows`
      up to `maxRows`, store `generatePaths(rows)`. A negative row count makes
      the enumerator recurse without end, so the range must start at 0 or
      above unless it is empty. */
  method CreatePathCache(cache: Cache, minRows: int, maxRows: int) returns (r: Cache)
    requires minRows <= maxRows ==> 0 <= minRows
    ensures Populated(cache, r, minRows, maxRows)
    ensures minRows > maxRows ==> r == cache
  {
    r := cache;
    var rows := minRows;
    while rows <= maxRows
      invariant minRows <= maxRows ==> minRows <= rows <= maxRows + 1
      invariant minRows > maxRows ==> rows == minRows && r == cache
      invariant forall k :: k in r <==> k in cache || minRows <= k < rows
      invariant forall k :: minRows <= k < rows ==> k in r && r[k] == GeneratePaths(k)
      invariant forall k :: k in cache && !(minRows <= k < rows) ==> r[k] == cache[k]
    {
      r := r[rows := GeneratePaths(rows)];
      rows := rows + 1;
    }
  }

  /** The outcome of filling a range is determined by the cache it starts
      from: any two results agree. */
  lemma PopulatedUnique(before: Cache, a: Cache, b: Cache, lo: int, hi: int)
    requires lo <= hi ==> 0 <= lo
    requires Populated(before, a, lo, hi) && Populated(before, b, lo, hi)
    ensures a == b
  {
    assert a.Keys == b.Keys by {
      forall rows
        ensures rows in a <==> rows in b
      {
        assert rows in a <==> rows in before || lo <= rows <= hi;
      }
    }
    forall rows | rows in a
      ensures a[rows] == b[rows]
    {
      if !(lo <= rows <= hi) {
        assert rows in before;
      }
    }
  }

  /** Filling the same range again leaves the cache as it is: the regenerated
      paths are identical to the stored ones. */
  lemma PopulateIdempotent(before: Cache, once: Cache, twice: Cache, lo: int, hi: int)
    requires lo <= hi ==> 0 <= lo
    requires Populated(before, once, lo, hi) && Populated(once, twice, lo, hi)
    ensures twice == once
  {
    assert Populated(once, once, lo, hi);
    PopulatedUnique(once, once, twice, lo, hi);
  }

  /** The cache the service builds at start-up: every row count in
      `lo..hi` and nothing else. */
  ghost predicate StartupCache(cache: Cache, lo: int, hi: int)
    requires lo <= hi ==> 0 <= lo
  {
    Populated(map[], cache, lo, hi)
  }

  /** In the start-up cache, the entry for `rows` is present exactly when
      `rows` is in range, and every stored path is a well-formed path for that
      board size ending in a bucket in 0..rows. */
  lemma StartupCacheContents(cache: Cache, lo: int, hi: int, rows: int, p: Path)
    requires lo <= hi ==> 0 <= lo
    requires StartupCache(cache, lo, hi)
    ensures rows in cache <==> lo <= rows <= hi
    ensures rows in cache && p in cache[rows] ==>
              rows >= 0 && ValidPath(rows, p) && 0 <= Last(p) <= rows
  {
    if rows in cache && p in cache[rows] {
      GeneratedPathsValid(rows, p);
    }
  }
}
