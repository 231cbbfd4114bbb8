/** The allocation matrices of the GMF, GIS and GRD estimators
    (pyapprox/multifidelity/multioutput_monte_carlo.py), built in place from
    a recursion index, their closed forms, and the per-model sample counts
    they induce.

    A recursion index r for M models gives one parent per low-fidelity
    model: model m >= 1 uses model r[m - 1] as its control variate. The
    builders index columns with numpy, which counts a negative index from
    the end, so an entry in -M .. M - 1 names the model it is congruent to
    modulo M. */
module AllocationMatrix {
  import opened ListUtil
  import AcvPartition

  /** numpy's reading of index idx into an axis of length len: a negative
      index counts from the end. */
  function NumpyIndex(idx: int, len: nat): (k: nat)
    requires -(len as int) <= idx < len
    ensures k < len && (k - idx) % len == 0
  {
    if idx < 0 then idx + len else idx
  }

  /** Every entry of r is an index numpy accepts for M models. */
  predicate ValidRecursionIndex(r: seq<int>, nmodels: nat)
  {
    nmodels >= 1 && |r| == nmodels - 1 && forall i :: 0 <= i < |r| ==> -(nmodels as int) <= r[i] < nmodels
  }

  /** The recursion index 0, ..., 0 (np.zeros): every model uses the
      high-fidelity model. */
  function Zeros(k: nat): (z: seq<int>)
    ensures |z| == k && forall i :: 0 <= i < k ==> z[i] == 0
  {
    seq(k, _ => 0)
  }

  /** The recursion index 0, 1, ..., k - 1 (np.arange): every model uses
      the one before it. */
  function Arange(k: nat): (r: seq<int>)
    ensures |r| == k && forall i :: 0 <= i < k ==> r[i] == i
  {
    seq(k, i => i)
  }

  /** The model that model m >= 1 uses as its control variate. */
  function Parent(r: seq<int>, nmodels: nat, m: nat): (p: nat)
    requires ValidRecursionIndex(r, nmodels) && 1 <= m < nmodels
    ensures p < nmodels
  {
    NumpyIndex(r[m - 1], nmodels)
  }

  /** The column recursion_index[ii - 1] * 2 + 1 that the builders copy is
      the plain column of the parent, negative entries included. */
  lemma {:induction false} ParentColumn(r: seq<int>, nmodels: nat, m: nat)
    requires ValidRecursionIndex(r, nmodels) && 1 <= m < nmodels
    ensures -2 * nmodels <= 2 * r[m - 1] + 1 < 2 * nmodels
    ensures NumpyIndex(2 * r[m - 1] + 1, 2 * nmodels) == 2 * Parent(r, nmodels, m) + 1
  {
  }

  function Unit(i: nat, u: nat): int
  {
    if i == u then 1 else 0
  }

  /** The row of the single 1 that column c >= 1 holds after the first two
      passes: the model itself for a plain column, its parent for a
      starred one. */
  function UnitRow(r: seq<int>, nmodels: nat, c: nat): (u: nat)
    requires ValidRecursionIndex(r, nmodels) && 1 <= c < 2 * nmodels
    ensures u < nmodels
  {
    if c % 2 == 1 then c / 2 else Parent(r, nmodels, c / 2)
  }

  /** _get_allocation_matrix_acvrd: plain column of model m is the unit
      vector at m, starred column of m >= 1 the unit vector at its parent,
      column 0 is empty. */
  function GrdEntry(r: seq<int>, nmodels: nat, i: nat, c: nat): int
    requires ValidRecursionIndex(r, nmodels) && c < 2 * nmodels
  {
    if c == 0 then 0 else Unit(i, UnitRow(r, nmodels, c))
  }

  /** _get_allocation_matrix_gmf: every column c >= 2 is filled from row 0
      down to its unit row. Column 1 keeps its single 1 at row 0. */
  function GmfEntry(r: seq<int>, nmodels: nat, i: nat, c: nat): int
    requires ValidRecursionIndex(r, nmodels) && c < 2 * nmodels
  {
    if c == 0 then 0 else if i <= UnitRow(r, nmodels, c) then 1 else 0
  }

  /** _get_allocation_matrix_acvis: the plain column of model m >= 1 also
      holds the parent's row. */
  function GisEntry(r: seq<int>, nmodels: nat, i: nat, c: nat): int
    requires ValidRecursionIndex(r, nmodels) && c < 2 * nmodels
  {
    if c >= 3 && c % 2 == 1 then (if i == c / 2 || i == Parent(r, nmodels, c / 2) then 1 else 0)
    else GrdEntry(r, nmodels, i, c)
  }

  /** The entries of a matrix, row by row. */
  function Rows(mat: array2<int>): (rows: seq<seq<int>>)
    reads mat
    ensures |rows| == mat.Length0
    ensures forall i :: 0 <= i < mat.Length0 ==> |rows[i]| == mat.Length1
    ensures forall i, c :: 0 <= i < mat.Length0 && 0 <= c < mat.Length1 ==> rows[i][c] == mat[i, c]
  {
    seq(mat.Length0, i requires 0 <= i < mat.Length0 reads mat =>
      seq(mat.Length1, c requires 0 <= c < mat.Length1 reads mat => mat[i, c]))
  }

  datatype Kind = Gmf | Gis | Grd

  function Entry(kind: Kind, r: seq<int>, nmodels: nat, i: nat, c: nat): int
    requires ValidRecursionIndex(r, nmodels) && c < 2 * nmodels
  {
    match kind
    case Gmf => GmfEntry(r, nmodels, i, c)
    case Gis => GisEntry(r, nmodels, i, c)
    case Grd => GrdEntry(r, nmodels, i, c)
  }

  /** The allocation matrix of an estimator kind, row by row. */
  function Matrix(kind: Kind, r: seq<int>, nmodels: nat): (mat: seq<seq<int>>)
    requires ValidRecursionIndex(r, nmodels)
    ensures AcvPartition.IsAllocation(mat, nmodels)
    ensures forall i, c :: 0 <= i < nmodels && 0 <= c < 2 * nmodels ==> mat[i][c] == Entry(kind, r, nmodels, i, c)
  {
    seq(nmodels, i requires 0 <= i < nmodels =>
      seq(2 * nmodels, c requires 0 <= c < 2 * nmodels => Entry(kind, r, nmodels, i, c)))
  }

  /** Steps shared by all three builders: the plain column of every model
      gets a 1 on its own row, then the starred column of every model
      m >= 1 becomes a copy of its parent's plain column. */
  method BuildGrd(r: seq<int>, nmodels: nat) returns (mat: array2<int>)
    requires ValidRecursionIndex(r, nmodels)
    ensures fresh(mat) && mat.Length0 == nmodels && mat.Length1 == 2 * nmodels
    ensures forall i, c :: 0 <= i < nmodels && 0 <= c < 2 * nmodels ==> mat[i, c] == GrdEntry(r, nmodels, i, c)
  {
    mat := new int[nmodels, 2 * nmodels]((i, c) => 0);
    for ii := 0 to nmodels
      invariant forall i, c :: 0 <= i < nmodels && 0 <= c < 2 * nmodels ==>
                  mat[i, c] == (if c % 2 == 1 && c / 2 < ii then Unit(i, c / 2) else 0)
    {
      mat[ii, 2 * ii + 1] := 1;
    }
    for ii := 1 to nmodels
      invariant forall i, c :: 0 <= i < nmodels && 0 <= c < 2 * nmodels ==>
                  mat[i, c] == (if c % 2 == 1 || (c > 0 && c / 2 < ii) then GrdEntry(r, nmodels, i, c) else 0)
    {
      ParentColumn(r, nmodels, ii);
      var src := NumpyIndex(2 * r[ii - 1] + 1, 2 * nmodels);
      forall i | 0 <= i < nmodels {
        mat[i, 2 * ii] := mat[i, src];
      }
    }
  }

  /** np.where(mat[:, c] == 1)[0][-1]: the last row of column c holding a 1. */
  method LastOneInColumn(mat: array2<int>, c: nat) returns (last: nat)
    requires c < mat.Length1 && exists i :: 0 <= i < mat.Length0 && mat[i, c] == 1
    ensures last < mat.Length0 && mat[last, c] == 1
    ensures forall i :: last < i < mat.Length0 ==> mat[i, c] != 1
  {
    last := mat.Length0 - 1;
    while mat[last, c] != 1
      invariant last < mat.Length0
      invariant exists i :: 0 <= i <= last && mat[i, c] == 1
      invariant forall i :: last < i < mat.Length0 ==> mat[i, c] != 1
      decreases last
    {
      last := last - 1;
    }
  }

  /** _get_allocation_matrix_gmf: after the shared steps, every column from
      2 on is filled with ones above its last 1. */
  method BuildGmf(r: seq<int>, nmodels: nat) returns (mat: array2<int>)
    requires ValidRecursionIndex(r, nmodels)
    ensures fresh(mat) && mat.Length0 == nmodels && mat.Length1 == 2 * nmodels
    ensures forall i, c :: 0 <= i < nmodels && 0 <= c < 2 * nmodels ==> mat[i, c] == GmfEntry(r, nmodels, i, c)
  {
    mat := BuildGrd(r, nmodels);
    for ii := 2 to 2 * nmodels
      invariant forall i, c :: 0 <= i < nmodels && 0 <= c < 2 * nmodels ==>
                  mat[i, c] == (if c < 2 || c >= ii then GrdEntry(r, nmodels, i, c) else GmfEntry(r, nmodels, i, c))
    {
      var u := UnitRow(r, nmodels, ii);
      assert mat[u, ii] == 1;
      var last := LastOneInColumn(mat, ii);
      assert last == u;
      forall i | 0 <= i < last {
        mat[i, ii] := 1;
      }
    }
  }

  function Max(a: int, b: int): int
  {
    if a >= b then a else b
  }

  /** _get_allocation_matrix_acvis: after the shared steps, the plain column
      of every model m >= 1 becomes the elementwise maximum of its two
      columns. */
  method BuildGis(r: seq<int>, nmodels: nat) returns (mat: array2<int>)
    requires ValidRecursionIndex(r, nmodels)
    ensures fresh(mat) && mat.Length0 == nmodels && mat.Length1 == 2 * nmodels
    ensures forall i, c :: 0 <= i < nmodels && 0 <= c < 2 * nmodels ==> mat[i, c] == GisEntry(r, nmodels, i, c)
  {
    mat := BuildGrd(r, nmodels);
    for ii := 1 to nmodels
      invariant forall i, c :: 0 <= i < nmodels && 0 <= c < 2 * nmodels ==>
                  mat[i, c] == (if c % 2 == 1 && 1 <= c / 2 < ii then GisEntry(r, nmodels, i, c) else GrdEntry(r, nmodels, i, c))
    {
      forall i | 0 <= i < nmodels {
        mat[i, 2 * ii + 1] := Max(mat[i, 2 * ii], mat[i, 2 * ii + 1]);
      }
    }
  }

  /** The builder of an estimator kind (_create_allocation_matrix). */
  method Build(kind: Kind, r: seq<int>, nmodels: nat) returns (mat: array2<int>)
    requires ValidRecursionIndex(r, nmodels)
    ensures fresh(mat) && mat.Length0 == nmodels && mat.Length1 == 2 * nmodels
    ensures Rows(mat) == Matrix(kind, r, nmodels)
  {
    match kind {
      case Gmf => mat := BuildGmf(r, nmodels);
      case Gis => mat := BuildGis(r, nmodels);
      case Grd => mat := BuildGrd(r, nmodels);
    }
    SameEntries(Rows(mat), Matrix(kind, r, nmodels));
  }

  lemma {:induction false} SameEntries(a: seq<seq<int>>, b: seq<seq<int>>)
    requires |a| == |b| && forall i :: 0 <= i < |a| ==> |a[i]| == |b[i]|
    requires forall i, c :: 0 <= i < |a| && 0 <= c < |a[i]| ==> a[i][c] == b[i][c]
    ensures a == b
  {
    forall i | 0 <= i < |a|
      ensures a[i] == b[i]
    {
    }
  }

  /** In GMF and GRD the starred set of model m >= 1 is its parent's plain
      set, Z_m^* = Z_{r[m-1]}; in GIS it is contained in the model's own
      plain set. */
  lemma {:induction false} StarredSets(kind: Kind, r: seq<int>, nmodels: nat, m: nat, i: nat)
    requires ValidRecursionIndex(r, nmodels) && 1 <= m < nmodels
    ensures kind != Gis ==> Entry(kind, r, nmodels, i, 2 * m) == Entry(kind, r, nmodels, i, 2 * Parent(r, nmodels, m) + 1)
    ensures Entry(Gis, r, nmodels, i, 2 * m) <= Entry(Gis, r, nmodels, i, 2 * m + 1)
  {
    assert (2 * m) / 2 == m && (2 * m + 1) / 2 == m;
    assert (2 * Parent(r, nmodels, m) + 1) / 2 == Parent(r, nmodels, m);
  }

  /** The samples of a model whose two columns together mark exactly the
      partitions a and b (possibly the same one). */
  lemma {:induction false} UnionOfTwo(star: seq<int>, plain: seq<int>, n: seq<nat>, a: nat, b: nat, k: nat)
    requires AcvPartition.Shaped(star, plain, n) && k <= |n|
    requires forall j :: 0 <= j < |n| ==> ((star[j] == 1 || plain[j] == 1) <==> (j == a || j == b))
    ensures AcvPartition.UnionCount(star, plain, n, k)
            == (if a < k then n[a] else 0) + (if b < k && b != a then n[b] else 0)
  {
    if k > 0 {
      UnionOfTwo(star, plain, n, a, b, k - 1);
    }
  }

  /** The samples of a model whose two columns together mark exactly the
      partitions 0 .. t. */
  lemma {:induction false} UnionOfPrefix(star: seq<int>, plain: seq<int>, n: seq<nat>, t: nat, k: nat)
    requires AcvPartition.Shaped(star, plain, n) && k <= |n|
    requires forall j :: 0 <= j < |n| ==> ((star[j] == 1 || plain[j] == 1) <==> j <= t)
    ensures AcvPartition.UnionCount(star, plain, n, k) == Sum(n[..if k <= t then k else t + 1])
  {
    if k > 0 {
      UnionOfPrefix(star, plain, n, t, k - 1);
      AcvPartition.SumStep(n, k - 1);
    }
  }

  /** The high-fidelity model evaluates only the first partition in all
      three allocations. */
  lemma {:induction false} FirstModelOnlyFirstPartition(kind: Kind, r: seq<int>, n: seq<nat>)
    requires ValidRecursionIndex(r, |n|)
    ensures AcvPartition.FirstModelIsFirstPartition(Matrix(kind, r, |n|), n)
  {
    var mat := Matrix(kind, r, |n|);
    UnionOfTwo(AcvPartition.Column(mat, 0), AcvPartition.Column(mat, 1), n, 0, 0, |n|);
  }

  /** GRD and GIS: model m >= 1 evaluates exactly its own partition and its
      parent's. */
  lemma {:induction false} RecursiveModelNSamples(kind: Kind, r: seq<int>, n: seq<nat>, m: nat)
    requires ValidRecursionIndex(r, |n|) && 1 <= m < |n| && kind != Gmf
    ensures AcvPartition.ModelNSamples(Matrix(kind, r, |n|), n, m)
            == n[m] + (if Parent(r, |n|, m) != m then n[Parent(r, |n|, m)] else 0)
  {
    var mat := Matrix(kind, r, |n|);
    var star, plain := AcvPartition.Column(mat, 2 * m), AcvPartition.Column(mat, 2 * m + 1);
    var p := Parent(r, |n|, m);
    forall j | 0 <= j < |n|
      ensures (star[j] == 1 || plain[j] == 1) <==> (j == m || j == p)
    {
      RecursiveActiveRows(kind, r, |n|, m, j);
    }
    UnionOfTwo(star, plain, n, m, p, |n|);
  }

  /** In GIS and GRD, row j is active for model m exactly at m and its parent. */
  lemma {:induction false} RecursiveActiveRows(kind: Kind, r: seq<int>, nmodels: nat, m: nat, j: nat)
    requires ValidRecursionIndex(r, nmodels) && 1 <= m < nmodels && kind != Gmf
    ensures (Entry(kind, r, nmodels, j, 2 * m) == 1 || Entry(kind, r, nmodels, j, 2 * m + 1) == 1)
            <==> (j == m || j == Parent(r, nmodels, m))
  {
    assert (2 * m) / 2 == m && (2 * m + 1) / 2 == m;
  }

  /** GMF: model m >= 1 evaluates the partitions 0 .. max(m, parent). */
  lemma {:induction false} GmfModelNSamples(r: seq<int>, n: seq<nat>, m: nat)
    requires ValidRecursionIndex(r, |n|) && 1 <= m < |n|
    ensures AcvPartition.ModelNSamples(Matrix(Gmf, r, |n|), n, m) == Sum(n[..Max(m, Parent(r, |n|, m)) + 1])
  {
    var mat := Matrix(Gmf, r, |n|);
    var star, plain := AcvPartition.Column(mat, 2 * m), AcvPartition.Column(mat, 2 * m + 1);
    var t := Max(m, Parent(r, |n|, m));
    forall j | 0 <= j < |n|
      ensures (star[j] == 1 || plain[j] == 1) <==> j <= t
    {
      GmfActiveRows(r, |n|, m, j);
    }
    UnionOfPrefix(star, plain, n, t, |n|);
  }

  /** In GMF, row j is active for model m exactly up to max(m, parent). */
  lemma {:induction false} GmfActiveRows(r: seq<int>, nmodels: nat, m: nat, j: nat)
    requires ValidRecursionIndex(r, nmodels) && 1 <= m < nmodels
    ensures (GmfEntry(r, nmodels, j, 2 * m) == 1 || GmfEntry(r, nmodels, j, 2 * m + 1) == 1)
            <==> j <= Max(m, Parent(r, nmodels, m))
  {
    assert (2 * m) / 2 == m && (2 * m + 1) / 2 == m;
  }
}
