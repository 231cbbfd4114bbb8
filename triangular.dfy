/** Entry counts of triangular parts of square and rectangular matrices, the
    flattened index of a lower-triangular entry, and dyadic grid sizes
    (pyapprox/utilities.py). */
module Triangular {
  import Arith

  /** num_entries_square_triangular_matrix: N(N+1)/2, or N(N-1)/2 without
      the diagonal. */
  function SquareTriangularCount(n: nat, includeDiagonal: bool): nat
  {
    if includeDiagonal then n * (n + 1) / 2 else n * (n - 1) / 2
  }

  /** num_entries_rectangular_triangular_matrix for an m-by-n matrix, m >= n. */
  function RectangularTriangularCount(m: nat, n: nat, upper: bool): (r: int)
    requires m >= n
  {
    if upper then SquareTriangularCount(n, true)
    else SquareTriangularCount(m, true) - SquareTriangularCount(m - n, true)
  }

  /** Entries (i, j) with i < m, j < n and j <= i, counted row by row: row i
      holds min(i + 1, n) of them. */
  function LowerEntries(m: nat, n: nat): nat
  {
    if m == 0 then 0 else LowerEntries(m - 1, n) + Arith.Min(m, n)
  }

  /** Entries (i, j) with i < m, j < n and i <= j, counted column by column. */
  function UpperEntries(m: nat, n: nat): nat
  {
    if n == 0 then 0 else UpperEntries(m, n - 1) + Arith.Min(n, m)
  }

  /** Entries (i, j) with j < i < n. */
  function StrictLowerEntries(n: nat): nat
  {
    if n == 0 then 0 else StrictLowerEntries(n - 1) + (n - 1)
  }

  lemma {:induction false} SquareWithDiagonal(n: nat)
    ensures SquareTriangularCount(n, true) == LowerEntries(n, n) == UpperEntries(n, n)
  {
    if n > 0 {
      SquareWithDiagonal(n - 1);
      LowerFullRows(n - 1, n);
      UpperFullColumns(n, n - 1);
      assert n * (n + 1) == (n - 1) * n + 2 * n;
    }
  }

  lemma {:induction false} SquareWithoutDiagonal(n: nat)
    ensures SquareTriangularCount(n, false) == StrictLowerEntries(n)
  {
    if n > 0 {
      SquareWithoutDiagonal(n - 1);
      assert n * (n - 1) == (n - 1) * (n - 2) + 2 * (n - 1);
    }
  }

  /** While no row reaches width n, the count does not depend on n. */
  lemma {:induction false} LowerFullRows(m: nat, n: nat)
    requires m <= n
    ensures LowerEntries(m, n) == LowerEntries(m, m)
  {
    if m > 0 {
      LowerFullRows(m - 1, n);
      LowerFullRows(m - 1, m);
    }
  }

  lemma {:induction false} UpperFullColumns(m: nat, n: nat)
    requires n <= m
    ensures UpperEntries(m, n) == UpperEntries(n, n)
  {
    if n > 0 {
      UpperFullColumns(m, n - 1);
      UpperFullColumns(n, n - 1);
    }
  }

  /** Once rows reach width n, each further row adds n entries. */
  lemma {:induction false} LowerWideRows(m: nat, n: nat)
    requires m >= n
    ensures LowerEntries(m, n) == SquareTriangularCount(n, true) + (m - n) * n
  {
    if m == n {
      LowerFullRows(n, n);
      SquareWithDiagonal(n);
    } else {
      LowerWideRows(m - 1, n);
      assert Arith.Min(m, n) == n;
      assert (m - n) * n == (m - 1 - n) * n + n;
    }
  }

  lemma {:induction false} TwiceLowerSquare(n: nat)
    ensures 2 * LowerEntries(n, n) == n * (n + 1)
  {
    if n > 0 {
      TwiceLowerSquare(n - 1);
      LowerFullRows(n - 1, n);
      assert n * (n + 1) == (n - 1) * n + 2 * n;
    }
  }

  /** The upper count is the number of upper-triangular entries of the
      m-by-n matrix, and the lower count the number of lower-triangular ones. */
  lemma {:induction false} RectangularCountsEntries(m: nat, n: nat)
    requires m >= n
    ensures RectangularTriangularCount(m, n, true) == UpperEntries(m, n)
    ensures RectangularTriangularCount(m, n, false) == LowerEntries(m, n)
  {
    var k := m - n;
    UpperFullColumns(m, n);
    SquareWithDiagonal(n);
    SquareWithDiagonal(m);
    SquareWithDiagonal(k);
    LowerWideRows(m, n);
    TriangleSplit(k, n);
  }

  /** A triangle of side k + n is a triangle of side k, one of side n and a
      k-by-n rectangle. */
  lemma {:induction false} TriangleSplit(k: nat, n: nat)
    ensures LowerEntries(k + n, k + n) == LowerEntries(k, k) + LowerEntries(n, n) + k * n
  {
    TwiceLowerSquare(k + n);
    TwiceLowerSquare(k);
    TwiceLowerSquare(n);
    SquareOfSum(k, n);
  }

  lemma {:induction false} SquareOfSum(k: int, n: int)
    ensures (k + n) * (k + n + 1) == k * (k + 1) + n * (n + 1) + 2 * (k * n)
  {
    assert (k + n) * (k + n + 1) == (k + n) * (k + n) + (k + n);
    assert (k + n) * (k + n) == k * (k + n) + n * (k + n);
    assert k * (k + n) == k * k + k * n;
    assert n * (k + n) == n * k + n * n;
    assert k * (k + 1) == k * k + k;
    assert n * (n + 1) == n * n + n;
  }

  /** flattened_rectangular_lower_triangular_matrix_index: the number of
      lower-triangular entries in the rows above row ii, plus jj. */
  function FlattenedLowerIndex(ii: nat, jj: nat, m: nat, n: nat): (k: nat)
    requires m >= n && ii >= jj
    ensures k == LowerEntries(ii, n) + jj
  {
    if ii == 0 then 0
    else
      RectangularCountsEntries(ii, Arith.Min(ii, n));
      LowerNarrowed(ii, n);
      RectangularTriangularCount(ii, Arith.Min(ii, n), false) + jj
  }

  /** Rows above ii are never wider than ii, so capping n at ii changes nothing. */
  lemma {:induction false} LowerNarrowed(ii: nat, n: nat)
    ensures LowerEntries(ii, Arith.Min(ii, n)) == LowerEntries(ii, n)
  {
    if n >= ii {
      LowerFullRows(ii, n);
    }
  }

  /** Entry (ii, jj) of the lower triangle lands between the counts of the
      rows above ii and of the rows up to ii. */
  lemma {:induction false} FlattenedLowerIndexInRow(ii: nat, jj: nat, m: nat, n: nat)
    requires m >= n && ii >= jj && jj < n
    ensures LowerEntries(ii, n) <= FlattenedLowerIndex(ii, jj, m, n) < LowerEntries(ii + 1, n)
  {
  }

  lemma {:induction false} LowerEntriesMonotone(a: nat, b: nat, n: nat)
    requires a <= b
    ensures LowerEntries(a, n) <= LowerEntries(b, n)
    decreases b
  {
    if a < b {
      LowerEntriesMonotone(a, b - 1, n);
    }
  }

  /** Distinct entries of the lower triangle of an m-by-n matrix get distinct
      flattened indices, all below the lower-triangular entry count. */
  lemma {:induction false} FlattenedLowerIndexInjective(i1: nat, j1: nat, i2: nat, j2: nat, m: nat, n: nat)
    requires m >= n
    requires j1 <= i1 < m && j1 < n
    requires j2 <= i2 < m && j2 < n
    ensures FlattenedLowerIndex(i1, j1, m, n) < RectangularTriangularCount(m, n, false)
    ensures (i1, j1) != (i2, j2) ==> FlattenedLowerIndex(i1, j1, m, n) != FlattenedLowerIndex(i2, j2, m, n)
  {
    FlattenedLowerIndexInRow(i1, j1, m, n);
    FlattenedLowerIndexInRow(i2, j2, m, n);
    RectangularCountsEntries(m, n);
    LowerEntriesMonotone(i1 + 1, m, n);
    if i1 < i2 {
      LowerEntriesMonotone(i1 + 1, i2, n);
    } else if i2 < i1 {
      LowerEntriesMonotone(i2 + 1, i1, n);
    }
  }

  function Pow2(level: nat): (r: nat)
    ensures r >= 1
  {
    if level == 0 then 1 else 2 * Pow2(level - 1)
  }

  /** nsamples_dydactic_grid_1d: a single point at level 0, otherwise the
      2^level + 1 points k / 2^level of [0, 1]. */
  function NSamplesDyadicGrid1D(level: nat): (r: nat)
  {
    if level == 0 then 1 else Pow2(level) + 1
  }

  /** Each refinement from level >= 1 keeps the previous points and inserts a
      midpoint between every pair of neighbours. */
  lemma {:induction false} DyadicGridRefines(level: nat)
    requires level >= 1
    ensures NSamplesDyadicGrid1D(level + 1) == 2 * NSamplesDyadicGrid1D(level) - 1
    ensures NSamplesDyadicGrid1D(level) % 2 == 1
  {
    var half := Pow2(level - 1);
    assert Pow2(level) == 2 * half;
    assert Pow2(level + 1) == 2 * Pow2(level);
    assert NSamplesDyadicGrid1D(level) == half * 2 + 1;
    Arith.DivModUnique(NSamplesDyadicGrid1D(level), 2, half, 1);
  }
}
