/** The path enumerator of the Plinko board (src/functions/generate_paths.js).

    A path through an N-row board records the ball's column after each of the
    N drops, starting from column 0: element k is the column after k drops, and
    each drop either keeps the column ("stay") or moves one to the right
    ("advance"). The enumerator lists every such path, one per sequence of
    stay/advance choices, depth first with "stay" before "advance".
 */
module Paths {
  import opened Binary

  type Path = seq<int>

  /** The terminal bucket of a path: its last element. */
  function Last(p: Path): int
    requires |p| > 0
  {
    p[|p| - 1]
  }

  /** A well-formed path for a board of `rows` rows: `rows + 1` columns, the
      first 0, each next one equal to or one more than the previous one. */
  predicate ValidPath(rows: nat, p: Path) {
    && |p| == rows + 1
    && p[0] == 0
    && forall k :: 0 <= k < rows ==> p[k + 1] == p[k] || p[k + 1] == p[k] + 1
  }

  /** The columns visited from column `col` when taking the moves `c`
      (0 = stay, 1 = advance) in order. */
  function Walk(col: int, c: seq<int>): (p: Path)
    ensures |p| == |c| + 1
    ensures p[0] == col
    decreases |c|
  {
    if |c| == 0 then [col] else [col] + Walk(col + c[0], c[1..])
  }

  /** The moves of a path: the difference between consecutive columns. */
  function Steps(p: Path): (c: seq<int>)
    requires |p| > 0
    ensures |c| == |p| - 1
  {
    seq(|p| - 1, k requires 0 <= k < |p| - 1 => p[k + 1] - p[k])
  }

  /** Each column of a walk is the previous one plus the move taken. */
  lemma {:induction false} WalkStep(col: int, c: seq<int>, k: nat)
    requires k < |c|
    ensures Walk(col, c)[k + 1] == Walk(col, c)[k] + c[k]
    decreases |c|
  {
    if k > 0 {
      WalkStep(col + c[0], c[1..], k - 1);
    }
  }

  /** A walk ends at its start column plus the number of advances. */
  lemma {:induction false} WalkLast(col: int, c: seq<int>)
    ensures Last(Walk(col, c)) == col + Sum(c)
    decreases |c|
  {
    if |c| > 0 {
      WalkLast(col + c[0], c[1..]);
    }
  }

  /** Walking the moves of a path from its first column rebuilds the path. */
  lemma {:induction false} WalkOfSteps(p: Path)
    requires |p| > 0
    ensures Walk(p[0], Steps(p)) == p
  {
    if |p| > 1 {
      var tail := p[1..];
      WalkOfSteps(tail);
      assert Steps(p)[1..] == Steps(tail);
    }
  }

  /** The moves of a walk are the moves it was built from. */
  lemma StepsOfWalk(col: int, c: seq<int>)
    ensures Steps(Walk(col, c)) == c
  {
    forall k | 0 <= k < |c|
      ensures Steps(Walk(col, c))[k] == c[k]
    {
      WalkStep(col, c, k);
    }
  }

  /** Reference definition: the i-th path of an N-row board takes the moves
      spelled by the width-N binary numeral of i, most significant first. */
  function PathOf(rows: nat, i: nat): Path
    requires i < Pow2(rows)
  {
    Walk(0, Bits(i, rows))
  }

  /** The recursive `traverse(row, col, currentPath)` of the enumerator: it
      appends `col` to a copy of the path so far and either emits it (at the
      last row) or explores "stay" and then "advance". Paths are values, so an
      emitted path is never changed by later exploration. */
  function Traverse(rows: nat, row: nat, col: int, prefix: Path): seq<Path>
    requires row <= rows
    decreases rows - row
  {
    var current := prefix + [col];
    if row == rows then [current]
    else Traverse(rows, row + 1, col, current) + Traverse(rows, row + 1, col + 1, current)
  }

  /** `traverse` from (row, col, prefix) emits 2^(rows-row) paths; the i-th is
      the prefix followed by the walk from `col` along the numeral of i. */
  lemma {:induction false} TraverseEnumerates(rows: nat, row: nat, col: int, prefix: Path)
    requires row <= rows
    ensures |Traverse(rows, row, col, prefix)| == Pow2(rows - row)
    ensures forall i :: 0 <= i < Pow2(rows - row) ==>
              Traverse(rows, row, col, prefix)[i] == prefix + Walk(col, Bits(i, rows - row))
    decreases rows - row
  {
    var t := Traverse(rows, row, col, prefix);
    var current := prefix + [col];
    if row < rows {
      var m := rows - row;
      var half := Pow2(m - 1);
      TraverseEnumerates(rows, row + 1, col, current);
      TraverseEnumerates(rows, row + 1, col + 1, current);
      forall i | 0 <= i < Pow2(m)
        ensures t[i] == prefix + Walk(col, Bits(i, m))
      {
        if i < half {
          var c := Bits(i, m - 1);
          assert Bits(i, m) == [0] + c;
          assert Walk(col, [0] + c) == [col] + Walk(col, c);
        } else {
          var c := Bits(i - half, m - 1);
          assert Bits(i, m) == [1] + c;
          assert Walk(col, [1] + c) == [col] + Walk(col + 1, c);
        }
      }
    }
  }

  /** `generatePaths(rows)`: every path of an N-row board, in the order the
      depth-first traversal emits them. There are 2^rows of them. */
  function GeneratePaths(rows: nat): (r: seq<Path>)
    ensures |r| == Pow2(rows)
  {
    TraverseEnumerates(rows, 0, 0, []);
    Traverse(rows, 0, 0, [])
  }

  /** The path at position i of the enumeration is the reference path
      `PathOf(rows, i)`: depth first, "stay" before "advance". */
  lemma GeneratedPathAt(rows: nat, i: nat)
    requires i < Pow2(rows)
    ensures GeneratePaths(rows)[i] == PathOf(rows, i)
  {
    TraverseEnumerates(rows, 0, 0, []);
  }

  /** The k-th move of the i-th path is bit N-1-k of i. */
  lemma PathOfMoves(rows: nat, i: nat, k: nat)
    requires i < Pow2(rows) && k < rows
    ensures PathOf(rows, i)[k + 1] - PathOf(rows, i)[k] == Bit(i, rows - 1 - k)
  {
    WalkStep(0, Bits(i, rows), k);
    BitsAreBits(i, rows, k);
  }

  /** The i-th path is well formed, its k-th move is bit N-1-k of i, and its
      terminal bucket is the number of 1-bits of i. */
  lemma PathOfShape(rows: nat, i: nat)
    requires i < Pow2(rows)
    ensures ValidPath(rows, PathOf(rows, i))
    ensures forall k :: 0 <= k < rows ==>
              PathOf(rows, i)[k + 1] - PathOf(rows, i)[k] == Bit(i, rows - 1 - k)
    ensures Last(PathOf(rows, i)) == Ones(i)
    ensures 0 <= Last(PathOf(rows, i)) <= rows
  {
    var c := Bits(i, rows);
    var p := PathOf(rows, i);
    forall k | 0 <= k < rows
      ensures p[k + 1] - p[k] == Bit(i, rows - 1 - k)
    {
      PathOfMoves(rows, i, k);
    }
    forall k | 0 <= k < rows
      ensures p[k + 1] == p[k] || p[k + 1] == p[k] + 1
    {
      WalkStep(0, c, k);
    }
    WalkLast(0, c);
    SumBitsIsOnes(i, rows);
    SumBinaryBounds(c);
  }

  /** The sum of n binary digits lies in 0..n. */
  lemma {:induction false} SumBinaryBounds(c: seq<int>)
    requires IsBinary(c)
    ensures 0 <= Sum(c) <= |c|
  {
    if |c| > 0 {
      SumBinaryBounds(c[1..]);
    }
  }

  /** Every generated path is well formed and ends in a bucket in 0..rows. */
  lemma GeneratedPathsValid(rows: nat, p: Path)
    requires p in GeneratePaths(rows)
    ensures ValidPath(rows, p)
    ensures 0 <= Last(p) <= rows
  {
    var g := GeneratePaths(rows);
    var i :| 0 <= i < |g| && g[i] == p;
    GeneratedPathAt(rows, i);
    PathOfShape(rows, i);
  }

  /** Every well-formed path is generated: the enumeration is complete. */
  lemma GeneratedPathsComplete(rows: nat, p: Path)
    requires ValidPath(rows, p)
    ensures p in GeneratePaths(rows)
  {
    var c := Steps(p);
    assert IsBinary(c) by {
      forall k | 0 <= k < |c|
        ensures c[k] == 0 || c[k] == 1
      {
        assert c[k] == p[k + 1] - p[k];
      }
    }
    var i := FromBits(c);
    BitsOfFromBits(c);
    WalkOfSteps(p);
    assert PathOf(rows, i) == p;
    GeneratedPathAt(rows, i);
    assert GeneratePaths(rows)[i] == p;
  }

  /** The generated paths are exactly the well-formed paths of the board. */
  lemma GeneratedPathsExactlyValid(rows: nat, p: Path)
    ensures p in GeneratePaths(rows) <==> ValidPath(rows, p)
  {
    if p in GeneratePaths(rows) {
      GeneratedPathsValid(rows, p);
    }
    if ValidPath(rows, p) {
      GeneratedPathsComplete(rows, p);
    }
  }

  /** Distinct indices give distinct reference paths. */
  lemma PathOfInjective(rows: nat, i: nat, j: nat)
    requires i < Pow2(rows) && j < Pow2(rows)
    requires PathOf(rows, i) == PathOf(rows, j)
    ensures i == j
  {
    StepsOfWalk(0, Bits(i, rows));
    StepsOfWalk(0, Bits(j, rows));
    BitsInjective(i, j, rows);
  }

  /** No path is emitted twice: distinct positions hold distinct paths. */
  lemma GeneratedPathsDistinct(rows: nat, i: nat, j: nat)
    requires i < |GeneratePaths(rows)| && j < |GeneratePaths(rows)|
    requires GeneratePaths(rows)[i] == GeneratePaths(rows)[j]
    ensures i == j
  {
    GeneratedPathAt(rows, i);
    GeneratedPathAt(rows, j);
    PathOfInjective(rows, i, j);
  }

  /** A board with no rows has exactly one path, `[0]`. */
  lemma NoRows()
    ensures GeneratePaths(0) == [[0]]
  {
    GeneratedPathAt(0, 0);
    assert Bits(0, 0) == [];
  }

  /** The binomial coefficient C(n, k) by Pascal's rule, 0 outside 0..n. */
  function Binom(n: nat, k: int): nat
  {
    if k < 0 || k > n then 0
    else if n == 0 then 1
    else Binom(n - 1, k) + Binom(n - 1, k - 1)
  }

  /** How many of the paths end in bucket k. */
  function CountEndingAt(ps: seq<Path>, k: int): nat
  {
    if |ps| == 0 then 0
    else (if |ps[0]| > 0 && Last(ps[0]) == k then 1 else 0) + CountEndingAt(ps[1..], k)
  }

  lemma {:induction false} CountConcat(a: seq<Path>, b: seq<Path>, k: int)
    ensures CountEndingAt(a + b, k) == CountEndingAt(a, k) + CountEndingAt(b, k)
  {
    if |a| == 0 {
      assert a + b == b;
    } else {
      CountConcat(a[1..], b, k);
      assert (a + b)[1..] == a[1..] + b;
    }
  }

  lemma {:induction false} TraverseBuckets(rows: nat, row: nat, col: int, prefix: Path, k: int)
    requires row <= rows
    ensures CountEndingAt(Traverse(rows, row, col, prefix), k) == Binom(rows - row, k - col)
    decreases rows - row
  {
    var current := prefix + [col];
    if row == rows {
      assert CountEndingAt([current], k) == (if col == k then 1 else 0) + CountEndingAt([], k);
    } else {
      TraverseBuckets(rows, row + 1, col, current, k);
      TraverseBuckets(rows, row + 1, col + 1, current, k);
      CountConcat(Traverse(rows, row + 1, col, current), Traverse(rows, row + 1, col + 1, current), k);
    }
  }

  /** Exactly C(rows, k) generated paths end in bucket k: paths sharing a
      terminal bucket are all kept, which makes the bucket binomial. */
  lemma BucketCounts(rows: nat, k: int)
    ensures CountEndingAt(GeneratePaths(rows), k) == Binom(rows, k)
  {
    var t := Traverse(rows, 0, 0, []);
    assert GeneratePaths(rows) == t;
    TraverseBuckets(rows, 0, 0, [], k);
    assert CountEndingAt(t, k) == Binom(rows - 0, k - 0);
  }
}
