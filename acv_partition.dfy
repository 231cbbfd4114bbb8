/** Sample partitions of the approximate-control-variate (ACV) estimators
    (pyapprox/multifidelity/multioutput_monte_carlo.py).

    An allocation matrix has one row per independent sample partition and
    two columns per model m: column 2m ("starred", the set Z_m^*) and column
    2m+1 ("plain", the set Z_m). A 1 in row j of a column says partition j
    belongs to that set. Model m evaluates every partition that is in either
    of its two sets; its own sample rows are those partitions' samples, in
    increasing partition order. */
module AcvPartition {
  import opened Wrappers
  import opened ListUtil
  import Arith

  /** An nmodels-by-(2 nmodels) allocation matrix, stored row by row. */
  predicate IsAllocation(mat: seq<seq<int>>, nmodels: nat)
  {
    |mat| == nmodels && forall j :: 0 <= j < nmodels ==> |mat[j]| == 2 * nmodels
  }

  function Column(mat: seq<seq<int>>, c: nat): (col: seq<int>)
    requires forall j :: 0 <= j < |mat| ==> c < |mat[j]|
    ensures |col| == |mat|
    ensures forall j :: 0 <= j < |mat| ==> col[j] == mat[j][c]
  {
    seq(|mat|, j requires 0 <= j < |mat| => mat[j][c])
  }

  /** A model's two columns and the partition sizes line up. */
  predicate Shaped(star: seq<int>, plain: seq<int>, n: seq<nat>)
  {
    |star| == |n| && |plain| == |n|
  }

  /** Samples in the partitions j < k that column col marks. */
  function ColumnCount(col: seq<int>, n: seq<nat>, k: nat): nat
    requires k <= |col| && k <= |n|
  {
    if k == 0 then 0 else ColumnCount(col, n, k - 1) + (if col[k - 1] == 1 then n[k - 1] else 0)
  }

  /** Samples in the partitions j < k that the model evaluates, i.e. that
      either of its columns marks (_compute_single_model_nsamples). */
  function UnionCount(star: seq<int>, plain: seq<int>, n: seq<nat>, k: nat): nat
    requires Shaped(star, plain, n) && k <= |n|
  {
    if k == 0 then 0
    else UnionCount(star, plain, n, k - 1) + (if star[k - 1] == 1 || plain[k - 1] == 1 then n[k - 1] else 0)
  }

  /** _get_partition_indices: numpy.split of arange(sum(n)) at the running
      sums; an empty list of sizes still gives one empty part. */
  function PartitionIndices(n: seq<nat>): (parts: seq<seq<nat>>)
  {
    if |n| == 0 then [[]] else seq(|n|, j requires 0 <= j < |n| => Range(Sum(n[..j]), n[j]))
  }

  lemma {:induction false} RangeConcat(lo: nat, a: nat, b: nat)
    ensures Range(lo, a) + Range(lo + a, b) == Range(lo, a + b)
  {
  }

  lemma {:induction false} SumStep(n: seq<nat>, k: nat)
    requires k < |n|
    ensures Sum(n[..k + 1]) == Sum(n[..k]) + n[k]
  {
    assert n[..k + 1][..k] == n[..k];
  }

  lemma {:induction false} PartitionPrefixTiles(n: seq<nat>, k: nat)
    requires 0 < |n| && k <= |n|
    ensures Flatten2D(PartitionIndices(n)[..k]) == Range(0, Sum(n[..k]))
  {
    if k > 0 {
      var parts := PartitionIndices(n);
      PartitionPrefixTiles(n, k - 1);
      assert parts[..k][..k - 1] == parts[..k - 1];
      SumStep(n, k - 1);
      RangeConcat(0, Sum(n[..k - 1]), n[k - 1]);
    }
  }

  /** The partitions tile 0 .. sum(n) - 1 in order: part j starts where the
      earlier parts end and holds n[j] indices. */
  lemma {:induction false} PartitionIndicesTile(n: seq<nat>)
    ensures Flatten2D(PartitionIndices(n)) == Range(0, Sum(n))
    ensures |n| > 0 ==> |PartitionIndices(n)| == |n|
    ensures forall j :: 0 <= j < |n| ==> PartitionIndices(n)[j] == Range(Sum(n[..j]), n[j])
  {
    if |n| == 0 {
      var parts := PartitionIndices(n);
      assert parts[..0] == [];
    } else {
      PartitionPrefixTiles(n, |n|);
      assert PartitionIndices(n)[..|n|] == PartitionIndices(n);
      assert n[..|n|] == n;
    }
  }

  /** The global sample indices of the partitions j < k that the model
      evaluates, concatenated (the hstack in generate_samples_per_model). */
  function ModelSampleIndices(star: seq<int>, plain: seq<int>, n: seq<nat>, k: nat): seq<nat>
    requires Shaped(star, plain, n) && k <= |n|
  {
    if k == 0 then []
    else
      ModelSampleIndices(star, plain, n, k - 1)
        + (if star[k - 1] == 1 || plain[k - 1] == 1 then PartitionIndices(n)[k - 1] else [])
  }

  lemma {:induction false} PartitionAt(n: seq<nat>, j: nat)
    requires j < |n|
    ensures PartitionIndices(n)[j] == Range(Sum(n[..j]), n[j])
    ensures Sum(n[..j + 1]) == Sum(n[..j]) + n[j]
  {
    SumStep(n, j);
  }

  lemma {:induction false} ModelSampleIndicesLength(star: seq<int>, plain: seq<int>, n: seq<nat>, k: nat)
    requires Shaped(star, plain, n) && k <= |n|
    ensures |ModelSampleIndices(star, plain, n, k)| == UnionCount(star, plain, n, k)
  {
    if k > 0 {
      ModelSampleIndicesLength(star, plain, n, k - 1);
      PartitionAt(n, k - 1);
    }
  }

  lemma {:induction false} ModelSampleIndicesOrdered(star: seq<int>, plain: seq<int>, n: seq<nat>, k: nat)
    requires Shaped(star, plain, n) && k <= |n|
    ensures forall p :: 0 <= p < |ModelSampleIndices(star, plain, n, k)| ==>
              ModelSampleIndices(star, plain, n, k)[p] < Sum(n[..k])
    ensures forall p, q :: 0 <= p < q < |ModelSampleIndices(star, plain, n, k)| ==>
              ModelSampleIndices(star, plain, n, k)[p] < ModelSampleIndices(star, plain, n, k)[q]
  {
    if k > 0 {
      ModelSampleIndicesOrdered(star, plain, n, k - 1);
      PartitionAt(n, k - 1);
      var prev := ModelSampleIndices(star, plain, n, k - 1);
      var block := if star[k - 1] == 1 || plain[k - 1] == 1 then PartitionIndices(n)[k - 1] else [];
      assert forall p :: 0 <= p < |block| ==> Sum(n[..k - 1]) <= block[p] < Sum(n[..k]);
      assert ModelSampleIndices(star, plain, n, k) == prev + block;
    }
  }

  /** A model is handed exactly as many sample indices as its count says,
      all distinct (increasing) and below the total number of samples. */
  lemma {:induction false} ModelSampleIndicesCount(star: seq<int>, plain: seq<int>, n: seq<nat>)
    requires Shaped(star, plain, n)
    ensures |ModelSampleIndices(star, plain, n, |n|)| == UnionCount(star, plain, n, |n|)
    ensures forall p :: 0 <= p < |ModelSampleIndices(star, plain, n, |n|)| ==>
              ModelSampleIndices(star, plain, n, |n|)[p] < Sum(n)
    ensures forall p, q :: 0 <= p < q < |ModelSampleIndices(star, plain, n, |n|)| ==>
              ModelSampleIndices(star, plain, n, |n|)[p] < ModelSampleIndices(star, plain, n, |n|)[q]
  {
    ModelSampleIndicesLength(star, plain, n, |n|);
    ModelSampleIndicesOrdered(star, plain, n, |n|);
    assert n[..|n|] == n;
  }

  /** The model's local positions of the samples of the partitions j < k
      that column col marks; partition j's samples sit at
      UnionCount(j) .. UnionCount(j) + n[j] - 1 among the model's rows. */
  function SubsetIndices(col: seq<int>, star: seq<int>, plain: seq<int>, n: seq<nat>, k: nat): seq<nat>
    requires Shaped(star, plain, n) && |col| == |n| && k <= |n|
  {
    if k == 0 then []
    else
      SubsetIndices(col, star, plain, n, k - 1)
        + (if col[k - 1] == 1 then Range(UnionCount(star, plain, n, k - 1), n[k - 1]) else [])
  }

  lemma {:induction false} SubsetIndicesLength(col: seq<int>, star: seq<int>, plain: seq<int>, n: seq<nat>, k: nat)
    requires Shaped(star, plain, n) && |col| == |n| && k <= |n|
    ensures |SubsetIndices(col, star, plain, n, k)| == ColumnCount(col, n, k)
  {
    if k > 0 {
      SubsetIndicesLength(col, star, plain, n, k - 1);
    }
  }

  /** A column's subset only names rows the model has: the partitions it
      marks are among those the model evaluates. */
  lemma {:induction false} SubsetIndicesBelow(col: seq<int>, star: seq<int>, plain: seq<int>, n: seq<nat>, k: nat)
    requires Shaped(star, plain, n) && (col == star || col == plain) && k <= |n|
    ensures AllBelow(SubsetIndices(col, star, plain, n, k), UnionCount(star, plain, n, k))
  {
    if k > 0 {
      SubsetIndicesBelow(col, star, plain, n, k - 1);
      var prev := SubsetIndices(col, star, plain, n, k - 1);
      var all := SubsetIndices(col, star, plain, n, k);
      var u := UnionCount(star, plain, n, k - 1);
      forall p | 0 <= p < |all|
        ensures all[p] < UnionCount(star, plain, n, k)
      {
        if p < |prev| {
          assert all[p] == prev[p];
        }
      }
    }
  }

  lemma {:induction false} SubsetIndicesPrefix(col: seq<int>, star: seq<int>, plain: seq<int>, n: seq<nat>, k: nat, kk: nat)
    requires Shaped(star, plain, n) && |col| == |n| && k <= kk <= |n|
    ensures ColumnCount(col, n, k) <= ColumnCount(col, n, kk) == |SubsetIndices(col, star, plain, n, kk)|
    ensures SubsetIndices(col, star, plain, n, kk)[..ColumnCount(col, n, k)] == SubsetIndices(col, star, plain, n, k)
    decreases kk
  {
    SubsetIndicesLength(col, star, plain, n, kk);
    if k < kk {
      SubsetIndicesPrefix(col, star, plain, n, k, kk - 1);
      SubsetIndicesLength(col, star, plain, n, kk - 1);
      var prev := SubsetIndices(col, star, plain, n, kk - 1);
      var all := SubsetIndices(col, star, plain, n, kk);
      var c := ColumnCount(col, n, k);
      assert all == prev + (if col[kk - 1] == 1 then Range(UnionCount(star, plain, n, kk - 1), n[kk - 1]) else []);
      assert all[..|prev|] == prev;
      assert all[..c] == prev[..c];
    }
  }

  /** The block of partition j in a column's subset is that partition's
      range of the model's own rows. */
  lemma {:induction false} SubsetIndicesBlock(col: seq<int>, star: seq<int>, plain: seq<int>, n: seq<nat>, j: nat)
    requires Shaped(star, plain, n) && (col == star || col == plain) && j < |n| && col[j] == 1
    ensures ColumnCount(col, n, j + 1) <= |SubsetIndices(col, star, plain, n, |n|)|
    ensures SubsetIndices(col, star, plain, n, |n|)[ColumnCount(col, n, j)..ColumnCount(col, n, j + 1)]
            == Range(UnionCount(star, plain, n, j), n[j])
  {
    SubsetIndicesPrefix(col, star, plain, n, j + 1, |n|);
    SubsetIndicesLength(col, star, plain, n, j);
    var all := SubsetIndices(col, star, plain, n, |n|);
    var upTo := SubsetIndices(col, star, plain, n, j + 1);
    assert all[ColumnCount(col, n, j)..ColumnCount(col, n, j + 1)] == upTo[ColumnCount(col, n, j)..];
  }

  /** Python's s[lo:hi] for non-negative bounds: both are clipped to len(s). */
  function PySlice<T>(s: seq<T>, lo: nat, hi: nat): (r: seq<T>)
  {
    if Arith.Min(lo, |s|) <= Arith.Min(hi, |s|) then s[Arith.Min(lo, |s|)..Arith.Min(hi, |s|)] else []
  }

  /** _combine_acv_values for one model m >= 1 over the partitions j < k:
      a partition in the starred set is read from the starred values, one
      only in the plain set from the plain values; each set is read from
      its own running offset. */
  function CombineModel<T>(star: seq<int>, plain: seq<int>, n: seq<nat>, starValues: seq<T>, plainValues: seq<T>, k: nat): seq<T>
    requires Shaped(star, plain, n) && k <= |n|
  {
    if k == 0 then []
    else CombineModel(star, plain, n, starValues, plainValues, k - 1) + CombineBlock(star, plain, n, starValues, plainValues, k - 1)
  }

  /** The rows CombineModel takes for partition j: its block of the starred
      values if the partition is starred, else its block of the plain
      values if it is plain, else nothing. */
  function CombineBlock<T>(star: seq<int>, plain: seq<int>, n: seq<nat>, starValues: seq<T>, plainValues: seq<T>, j: nat): seq<T>
    requires Shaped(star, plain, n) && j < |n|
  {
    var lb, lb2 := ColumnCount(star, n, j), ColumnCount(plain, n, j);
    if star[j] == 1 then PySlice(starValues, lb, lb + n[j])
    else if plain[j] == 1 then PySlice(plainValues, lb2, lb2 + n[j])
    else []
  }

  /** _combine_acv_values for model m: model 0 is its plain set; every
      other model is rebuilt by CombineModel. */
  function CombineOne<T>(mat: seq<seq<int>>, n: seq<nat>, acvValues: seq<(seq<T>, seq<T>)>, m: nat): seq<T>
    requires m < |acvValues| && |n| == |acvValues| && IsAllocation(mat, |n|)
  {
    if m == 0 then acvValues[0].1
    else CombineModel(Column(mat, 2 * m), Column(mat, 2 * m + 1), n, acvValues[m].0, acvValues[m].1, |n|)
  }

  /** The first k models rebuilt by _combine_acv_values. */
  function CombineAll<T>(mat: seq<seq<int>>, n: seq<nat>, acvValues: seq<(seq<T>, seq<T>)>, k: nat): (r: seq<seq<T>>)
    requires k <= |acvValues| && |n| == |acvValues| && IsAllocation(mat, |n|)
    ensures |r| == k
    ensures forall m :: 0 <= m < k ==> r[m] == CombineOne(mat, n, acvValues, m)
  {
    seq(k, m requires 0 <= m < k => CombineOne(mat, n, acvValues, m))
  }

  /** The loop over the partitions of one model ii >= 1, with the running
      offsets lb into the starred values and lb2 into the plain ones. */
  method CombineModelRows<T>(mat: seq<seq<int>>, n: seq<nat>, ii: nat, starValues: seq<T>, plainValues: seq<T>)
    returns (blocks: seq<T>)
    requires IsAllocation(mat, |n|) && ii < |n|
    ensures blocks == CombineModel(Column(mat, 2 * ii), Column(mat, 2 * ii + 1), n, starValues, plainValues, |n|)
  {
    ghost var star, plain := Column(mat, 2 * ii), Column(mat, 2 * ii + 1);
    var lb, lb2 := 0, 0;
    blocks := [];
    for jj := 0 to |n|
      invariant lb == ColumnCount(star, n, jj) && lb2 == ColumnCount(plain, n, jj)
      invariant blocks == CombineModel(star, plain, n, starValues, plainValues, jj)
    {
      var block;
      block, lb, lb2 := CombinePartition(mat, n, ii, jj, lb, lb2, starValues, plainValues);
      CombineModelStep(star, plain, n, starValues, plainValues, jj);
      blocks := blocks + block;
    }
  }

  /** One pass of that loop: partition jj's rows, from the starred values
      if model ii's starred column marks it, else from the plain values if
      its plain column does; each offset moves past the partition when its
      column marks it. */
  method CombinePartition<T>(mat: seq<seq<int>>, n: seq<nat>, ii: nat, jj: nat, lb: nat, lb2: nat, starValues: seq<T>, plainValues: seq<T>)
    returns (block: seq<T>, lbNext: nat, lb2Next: nat)
    requires IsAllocation(mat, |n|) && ii < |n| && jj < |n|
    requires lb == ColumnCount(Column(mat, 2 * ii), n, jj) && lb2 == ColumnCount(Column(mat, 2 * ii + 1), n, jj)
    ensures block == CombineBlock(Column(mat, 2 * ii), Column(mat, 2 * ii + 1), n, starValues, plainValues, jj)
    ensures lbNext == ColumnCount(Column(mat, 2 * ii), n, jj + 1) && lb2Next == ColumnCount(Column(mat, 2 * ii + 1), n, jj + 1)
  {
    ghost var star, plain := Column(mat, 2 * ii), Column(mat, 2 * ii + 1);
    assert star[jj] == mat[jj][2 * ii] && plain[jj] == mat[jj][2 * ii + 1];
    lbNext, lb2Next := lb, lb2;
    var found := false;
    block := [];
    if mat[jj][2 * ii] == 1 {
      var ub := lb + n[jj];
      block := PySlice(starValues, lb, ub);
      lbNext := ub;
      found := true;
    }
    if mat[jj][2 * ii + 1] == 1 {
      var ub2 := lb2 + n[jj];
      if !found {
        block := PySlice(plainValues, lb2, ub2);
      }
      lb2Next := ub2;
    }
  }

  lemma {:induction false} CombineModelStep<T>(star: seq<int>, plain: seq<int>, n: seq<nat>, starValues: seq<T>, plainValues: seq<T>, k: nat)
    requires Shaped(star, plain, n) && k < |n|
    ensures CombineModel(star, plain, n, starValues, plainValues, k + 1)
            == CombineModel(star, plain, n, starValues, plainValues, k) + CombineBlock(star, plain, n, starValues, plainValues, k)
  {
  }

  /** _combine_acv_values (and _combine_acv_samples, the same walk over
      sample columns instead of value rows). */
  method CombineAcvValues<T>(mat: seq<seq<int>>, n: seq<nat>, acvValues: seq<(seq<T>, seq<T>)>)
    returns (valuesPerModel: seq<seq<T>>)
    requires |acvValues| >= 1 && |n| == |acvValues| && IsAllocation(mat, |n|)
    ensures valuesPerModel == CombineAll(mat, n, acvValues, |acvValues|)
  {
    var nmodels := |acvValues|;
    valuesPerModel := [acvValues[0].1];
    assert valuesPerModel == CombineAll(mat, n, acvValues, 1);
    for ii := 1 to nmodels
      invariant valuesPerModel == CombineAll(mat, n, acvValues, ii)
    {
      var blocks := CombineModelRows(mat, n, ii, acvValues[ii].0, acvValues[ii].1);
      assert blocks == CombineOne(mat, n, acvValues, ii);
      CombineAllSnoc(mat, n, acvValues, ii);
      valuesPerModel := valuesPerModel + [blocks];
    }
  }

  lemma {:induction false} CombineAllSnoc<T>(mat: seq<seq<int>>, n: seq<nat>, acvValues: seq<(seq<T>, seq<T>)>, k: nat)
    requires k < |acvValues| && |n| == |acvValues| && IsAllocation(mat, |n|)
    ensures CombineAll(mat, n, acvValues, k + 1) == CombineAll(mat, n, acvValues, k) + [CombineOne(mat, n, acvValues, k)]
  {
  }

  lemma {:induction false} ExtractSlice<T>(xs: seq<T>, idx: seq<nat>, a: nat, b: nat)
    requires a <= b <= |idx|
    requires forall p :: 0 <= p < |idx| ==> idx[p] < |xs|
    ensures ExtractSubList(xs, idx)[a..b] == ExtractSubList(xs, idx[a..b])
  {
  }

  lemma {:induction false} UnionCountMonotone(star: seq<int>, plain: seq<int>, n: seq<nat>, k: nat, kk: nat)
    requires Shaped(star, plain, n) && k <= kk <= |n|
    ensures UnionCount(star, plain, n, k) <= UnionCount(star, plain, n, kk)
    decreases kk
  {
    if k < kk {
      UnionCountMonotone(star, plain, n, k, kk - 1);
    }
  }

  /** One column's block of the separated values, read back at the offset
      the combine step uses, is that partition's rows of the model. */
  lemma {:induction false} SeparatedBlock<T>(col: seq<int>, star: seq<int>, plain: seq<int>, n: seq<nat>, v: seq<T>, j: nat)
    requires Shaped(star, plain, n) && (col == star || col == plain) && j < |n| && col[j] == 1
    requires |v| == UnionCount(star, plain, n, |n|)
    ensures AllBelow(SubsetIndices(col, star, plain, n, |n|), |v|)
    ensures UnionCount(star, plain, n, j) + n[j] <= |v|
    ensures PySlice(ExtractSubList(v, SubsetIndices(col, star, plain, n, |n|)), ColumnCount(col, n, j), ColumnCount(col, n, j) + n[j])
            == v[UnionCount(star, plain, n, j)..UnionCount(star, plain, n, j) + n[j]]
  {
    var idx := SubsetIndices(col, star, plain, n, |n|);
    SubsetIndicesBelow(col, star, plain, n, |n|);
    SubsetIndicesBlock(col, star, plain, n, j);
    UnionCountMonotone(star, plain, n, j + 1, |n|);
    var a, b := ColumnCount(col, n, j), ColumnCount(col, n, j + 1);
    assert b == a + n[j];
    ExtractSlice(v, idx, a, b);
    ExtractRange(v, UnionCount(star, plain, n, j), n[j]);
  }

  /** The block CombineModel takes for partition j is v's rows of that
      partition. */
  ghost predicate BlockIsRows<T>(star: seq<int>, plain: seq<int>, n: seq<nat>, sv: seq<T>, pv: seq<T>, v: seq<T>, j: nat)
    requires Shaped(star, plain, n) && j < |n|
  {
    UnionCount(star, plain, n, j) <= UnionCount(star, plain, n, j + 1) <= |v|
    && CombineBlock(star, plain, n, sv, pv, j) == v[UnionCount(star, plain, n, j)..UnionCount(star, plain, n, j + 1)]
  }

  /** CombineModel reassembles v once every block it takes is v's rows of
      that partition. */
  lemma {:induction false} CombineFromBlocks<T>(star: seq<int>, plain: seq<int>, n: seq<nat>, sv: seq<T>, pv: seq<T>, v: seq<T>, k: nat)
    requires Shaped(star, plain, n) && k <= |n|
    requires UnionCount(star, plain, n, k) <= |v|
    requires forall j :: 0 <= j < k ==> BlockIsRows(star, plain, n, sv, pv, v, j)
    ensures CombineModel(star, plain, n, sv, pv, k) == v[..UnionCount(star, plain, n, k)]
  {
    if k > 0 {
      var j := k - 1;
      assert BlockIsRows(star, plain, n, sv, pv, v, j);
      CombineFromBlocks(star, plain, n, sv, pv, v, j);
      CombineModelStep(star, plain, n, sv, pv, j);
      PrefixThenSlice(v, UnionCount(star, plain, n, j), UnionCount(star, plain, n, k));
    }
  }

  lemma {:induction false} PrefixThenSlice<T>(v: seq<T>, a: nat, b: nat)
    requires a <= b <= |v|
    ensures v[..a] + v[a..b] == v[..b]
  {
  }

  /** Each block taken from the separated subsets of v is v's rows of
      that partition. */
  lemma {:induction false} SeparatedBlockIsRows<T>(star: seq<int>, plain: seq<int>, n: seq<nat>, v: seq<T>, j: nat)
    requires Shaped(star, plain, n) && j < |n|
    requires |v| == UnionCount(star, plain, n, |n|)
    requires AllBelow(SubsetIndices(star, star, plain, n, |n|), |v|)
    requires AllBelow(SubsetIndices(plain, star, plain, n, |n|), |v|)
    ensures BlockIsRows(star, plain, n, ExtractSubList(v, SubsetIndices(star, star, plain, n, |n|)),
                        ExtractSubList(v, SubsetIndices(plain, star, plain, n, |n|)), v, j)
  {
    UnionCountMonotone(star, plain, n, j + 1, |n|);
    if star[j] == 1 {
      SeparatedBlock(star, star, plain, n, v, j);
    } else if plain[j] == 1 {
      SeparatedBlock(plain, star, plain, n, v, j);
    }
  }

  /** Separate-then-combine is the identity on a model's rows: combining
      the starred and plain subsets that v was separated into gives v. */
  lemma {:induction false} CombineOfSeparated<T>(star: seq<int>, plain: seq<int>, n: seq<nat>, v: seq<T>)
    requires Shaped(star, plain, n)
    requires |v| == UnionCount(star, plain, n, |n|)
    ensures AllBelow(SubsetIndices(star, star, plain, n, |n|), |v|)
    ensures AllBelow(SubsetIndices(plain, star, plain, n, |n|), |v|)
    ensures CombineModel(star, plain, n, ExtractSubList(v, SubsetIndices(star, star, plain, n, |n|)),
                         ExtractSubList(v, SubsetIndices(plain, star, plain, n, |n|)), |n|) == v
  {
    SubsetIndicesBelow(star, star, plain, n, |n|);
    SubsetIndicesBelow(plain, star, plain, n, |n|);
    var sv := ExtractSubList(v, SubsetIndices(star, star, plain, n, |n|));
    var pv := ExtractSubList(v, SubsetIndices(plain, star, plain, n, |n|));
    forall j | 0 <= j < |n|
      ensures BlockIsRows(star, plain, n, sv, pv, v, j)
    {
      SeparatedBlockIsRows(star, plain, n, v, j);
    }
    CombineFromBlocks(star, plain, n, sv, pv, v, |n|);
    assert v[..|v|] == v;
  }

  /** Subset k of _get_partition_indices_per_acv_subset: [] and the first
      partition for model 0, then the starred and plain subsets of each
      model m >= 1, at positions 2m and 2m + 1. */
  function AcvSubset(mat: seq<seq<int>>, n: seq<nat>, k: nat): seq<nat>
    requires |n| >= 1 && IsAllocation(mat, |n|) && k < 2 * |n|
  {
    if k == 0 then []
    else if k == 1 then Range(0, n[0])
    else SubsetIndices(Column(mat, k), Column(mat, 2 * (k / 2)), Column(mat, 2 * (k / 2) + 1), n, |n|)
  }

  /** The subsets of the first m models. */
  function AcvSubsetIndices(mat: seq<seq<int>>, n: seq<nat>, m: nat): (subsets: seq<seq<nat>>)
    requires 1 <= m <= |n| && IsAllocation(mat, |n|)
    ensures |subsets| == 2 * m
    ensures forall k :: 0 <= k < 2 * m ==> subsets[k] == AcvSubset(mat, n, k)
  {
    seq(2 * m, k requires 0 <= k < 2 * m => AcvSubset(mat, n, k))
  }

  lemma {:induction false} AcvSubsetIndicesSnoc(mat: seq<seq<int>>, n: seq<nat>, m: nat)
    requires 1 <= m < |n| && IsAllocation(mat, |n|)
    ensures AcvSubsetIndices(mat, n, m + 1)
            == AcvSubsetIndices(mat, n, m) + [AcvSubset(mat, n, 2 * m), AcvSubset(mat, n, 2 * m + 1)]
  {
    var a := AcvSubsetIndices(mat, n, m + 1);
    var b := AcvSubsetIndices(mat, n, m) + [AcvSubset(mat, n, 2 * m), AcvSubset(mat, n, 2 * m + 1)];
    assert a[..2 * m] == AcvSubsetIndices(mat, n, m);
    assert a[2 * m..] == [AcvSubset(mat, n, 2 * m), AcvSubset(mat, n, 2 * m + 1)];
    assert a == a[..2 * m] + a[2 * m..];
  }

  /** The local ranges of a model's active partitions concatenated over the
      partitions j < k that column col marks (the hstack over
      active_partitions_1 or active_partitions_2). */
  function Gather(local: seq<seq<nat>>, col: seq<int>, k: nat): seq<nat>
    requires k <= |local| && k <= |col|
  {
    if k == 0 then [] else Gather(local, col, k - 1) + (if col[k - 1] == 1 then local[k - 1] else [])
  }

  lemma {:induction false} GatherLocalRanges(local: seq<seq<nat>>, col: seq<int>, star: seq<int>, plain: seq<int>, n: seq<nat>, k: nat)
    requires Shaped(star, plain, n) && (col == star || col == plain) && |local| == |n| && k <= |n|
    requires forall j :: 0 <= j < |n| && (star[j] == 1 || plain[j] == 1) ==> local[j] == Range(UnionCount(star, plain, n, j), n[j])
    ensures Gather(local, col, k) == SubsetIndices(col, star, plain, n, k)
  {
    if k > 0 {
      GatherLocalRanges(local, col, star, plain, n, k - 1);
    }
  }

  /** The walk of lb, ub over the partitions model ii >= 1 evaluates:
      subset_indices[j] = arange(lb, ub) for each of them. */
  method LocalRanges(mat: seq<seq<int>>, n: seq<nat>, ii: nat, partitionIndices: seq<seq<nat>>)
    returns (local: seq<seq<nat>>)
    requires IsAllocation(mat, |n|) && ii < |n|
    requires |partitionIndices| == |n| && forall j :: 0 <= j < |n| ==> |partitionIndices[j]| == n[j]
    ensures |local| == |n|
    ensures forall j :: 0 <= j < |n| && (mat[j][2 * ii] == 1 || mat[j][2 * ii + 1] == 1) ==>
              local[j] == Range(UnionCount(Column(mat, 2 * ii), Column(mat, 2 * ii + 1), n, j), n[j])
  {
    ghost var star, plain := Column(mat, 2 * ii), Column(mat, 2 * ii + 1);
    local := seq(|n|, _ => []);
    var lb, ub := 0, 0;
    for jj := 0 to |n|
      invariant lb == ub == UnionCount(star, plain, n, jj)
      invariant |local| == |n|
      invariant forall j :: 0 <= j < jj && (star[j] == 1 || plain[j] == 1) ==>
                  local[j] == Range(UnionCount(star, plain, n, j), n[j])
    {
      if mat[jj][2 * ii] == 1 || mat[jj][2 * ii + 1] == 1 {
        ub := ub + |partitionIndices[jj]|;
        local := local[jj := Range(lb, ub - lb)];
        lb := ub;
      }
    }
  }

  /** The two subsets of model ii >= 1: the local ranges of the partitions
      in each of its columns, gathered in partition order. */
  method ModelSubsets(mat: seq<seq<int>>, n: seq<nat>, ii: nat, partitionIndices: seq<seq<nat>>)
    returns (indices1: seq<nat>, indices2: seq<nat>)
    requires IsAllocation(mat, |n|) && 1 <= ii < |n|
    requires |partitionIndices| == |n| && forall j :: 0 <= j < |n| ==> |partitionIndices[j]| == n[j]
    ensures indices1 == AcvSubset(mat, n, 2 * ii) && indices2 == AcvSubset(mat, n, 2 * ii + 1)
  {
    var local := LocalRanges(mat, n, ii, partitionIndices);
    ghost var star, plain := Column(mat, 2 * ii), Column(mat, 2 * ii + 1);
    indices1 := Gather(local, Column(mat, 2 * ii), |n|);
    indices2 := Gather(local, Column(mat, 2 * ii + 1), |n|);
    GatherLocalRanges(local, star, star, plain, n, |n|);
    GatherLocalRanges(local, plain, star, plain, n, |n|);
    assert (2 * ii + 1) / 2 == ii && (2 * ii) / 2 == ii;
  }

  /** _get_partition_indices_per_acv_subset without bootstrapping: [] and
      the first partition for model 0, then the two subsets of every other
      model. */
  method PartitionIndicesPerAcvSubset(mat: seq<seq<int>>, n: seq<nat>) returns (subsets: seq<seq<nat>>)
    requires |n| >= 1 && IsAllocation(mat, |n|)
    ensures subsets == AcvSubsetIndices(mat, n, |n|)
  {
    var nmodels := |n|;
    var partitionIndices := PartitionIndices(n);
    PartitionIndicesTile(n);
    subsets := [[], partitionIndices[0]];
    assert Sum(n[..0]) == 0;
    assert subsets == AcvSubsetIndices(mat, n, 1);
    for ii := 1 to nmodels
      invariant subsets == AcvSubsetIndices(mat, n, ii)
    {
      var indices1, indices2 := ModelSubsets(mat, n, ii, partitionIndices);
      AcvSubsetIndicesSnoc(mat, n, ii);
      subsets := subsets + [indices1, indices2];
    }
  }

  /** _compute_single_model_nsamples: the samples of every partition that
      model m evaluates. */
  function ModelNSamples(mat: seq<seq<int>>, n: seq<nat>, m: nat): nat
    requires IsAllocation(mat, |n|) && m < |n|
  {
    UnionCount(Column(mat, 2 * m), Column(mat, 2 * m + 1), n, |n|)
  }

  /** The per-model counts of the first k models. */
  function NSamplesPerModel(mat: seq<seq<int>>, n: seq<nat>, k: nat): (counts: seq<nat>)
    requires IsAllocation(mat, |n|) && k <= |n|
    ensures |counts| == k
    ensures forall m :: 0 <= m < k ==> counts[m] == ModelNSamples(mat, n, m)
  {
    if k == 0 then [] else NSamplesPerModel(mat, n, k - 1) + [ModelNSamples(mat, n, k - 1)]
  }

  /** The high-fidelity model evaluates the first partition and nothing
      else, so its rows are exactly that partition's samples. */
  predicate FirstModelIsFirstPartition(mat: seq<seq<int>>, n: seq<nat>)
    requires IsAllocation(mat, |n|) && |n| >= 1
  {
    ModelNSamples(mat, n, 0) == n[0]
  }

  /** Every model has as many rows as its count. */
  predicate RowsMatchCounts<T>(mat: seq<seq<int>>, n: seq<nat>, values: seq<seq<T>>)
    requires IsAllocation(mat, |n|)
  {
    |values| == |n| && forall m :: 0 <= m < |n| ==> |values[m]| == ModelNSamples(mat, n, m)
  }

  lemma {:induction false} ModelSubsetInBounds(mat: seq<seq<int>>, n: seq<nat>, m: nat, c: nat)
    requires IsAllocation(mat, |n|) && 1 <= m < |n| && (c == 2 * m || c == 2 * m + 1)
    ensures AllBelow(SubsetIndices(Column(mat, c), Column(mat, 2 * m), Column(mat, 2 * m + 1), n, |n|), ModelNSamples(mat, n, m))
  {
    var col, star, plain := Column(mat, c), Column(mat, 2 * m), Column(mat, 2 * m + 1);
    assert col == star || col == plain;
    SubsetIndicesBelow(col, star, plain, n, |n|);
  }

  lemma {:induction false} AcvSubsetInBounds(mat: seq<seq<int>>, n: seq<nat>, k: nat)
    requires |n| >= 1 && IsAllocation(mat, |n|) && FirstModelIsFirstPartition(mat, n) && k < 2 * |n|
    ensures AllBelow(AcvSubset(mat, n, k), ModelNSamples(mat, n, k / 2))
  {
    if k == 1 {
      PartitionAt(n, 0);
    } else if k >= 2 {
      ModelSubsetInBounds(mat, n, k / 2, k);
    }
  }

  /** ACV subset k: model k / 2's rows at the positions of subset k. */
  function SeparatedSubset<T>(mat: seq<seq<int>>, n: seq<nat>, values: seq<seq<T>>, k: nat): seq<T>
    requires |n| >= 1 && IsAllocation(mat, |n|) && FirstModelIsFirstPartition(mat, n)
    requires RowsMatchCounts(mat, n, values) && k < 2 * |n|
  {
    AcvSubsetInBounds(mat, n, k);
    ExtractSubList(values[k / 2], AcvSubset(mat, n, k))
  }

  /** The first k ACV subsets. */
  function SeparateChecked<T>(mat: seq<seq<int>>, n: seq<nat>, values: seq<seq<T>>, k: nat): (acv: seq<seq<T>>)
    requires |n| >= 1 && IsAllocation(mat, |n|) && FirstModelIsFirstPartition(mat, n)
    requires RowsMatchCounts(mat, n, values) && k <= 2 * |n|
    ensures |acv| == k
    ensures forall i :: 0 <= i < k ==> acv[i] == SeparatedSubset(mat, n, values, i)
  {
    seq(k, i requires 0 <= i < k => SeparatedSubset(mat, n, values, i))
  }

  lemma {:induction false} SeparateCheckedSnoc<T>(mat: seq<seq<int>>, n: seq<nat>, values: seq<seq<T>>, k: nat)
    requires |n| >= 1 && IsAllocation(mat, |n|) && FirstModelIsFirstPartition(mat, n)
    requires RowsMatchCounts(mat, n, values) && k < 2 * |n|
    ensures SeparateChecked(mat, n, values, k + 1) == SeparateChecked(mat, n, values, k) + [SeparatedSubset(mat, n, values, k)]
  {
  }

  datatype SeparateError =
    | WrongModelCount(given: nat, expected: nat)
    | WrongSampleCount(model: nat, given: nat, expected: nat)

  /** The row-count check of the first k models: the first model whose row
      count differs from its recorded count. */
  function CheckSampleCounts<T>(values: seq<seq<T>>, counts: seq<nat>, k: nat): (r: Outcome<SeparateError>)
    requires k <= |values| && k <= |counts|
    ensures r.Pass? <==> forall m :: 0 <= m < k ==> |values[m]| == counts[m]
    ensures r.Fail? ==> r.error.WrongSampleCount? && r.error.model < k
    ensures r.Fail? ==> r.error.given == |values[r.error.model]| != r.error.expected == counts[r.error.model]
    ensures r.Fail? ==> forall m :: 0 <= m < r.error.model ==> |values[m]| == counts[m]
  {
    if k == 0 then Pass
    else
      match CheckSampleCounts(values, counts, k - 1)
      case Fail(e) => Fail(e)
      case Pass =>
        if |values[k - 1]| != counts[k - 1] then Fail(WrongSampleCount(k - 1, |values[k - 1]|, counts[k - 1]))
        else Pass
  }

  /** _separate_values_per_model without bootstrapping, given the recorded
      per-model counts of the allocation: ValueError for a wrong number of
      models or the first model with a wrong number of rows, otherwise the
      2 nmodels ACV subsets. */
  function SeparateValues<T>(mat: seq<seq<int>>, n: seq<nat>, values: seq<seq<T>>): (r: Result<seq<seq<T>>, SeparateError>)
    requires |n| >= 1 && IsAllocation(mat, |n|) && FirstModelIsFirstPartition(mat, n)
    ensures r.Ok? <==> RowsMatchCounts(mat, n, values)
    ensures |values| != |n| ==> r == Err(WrongModelCount(|values|, |n|))
    ensures r.Ok? ==> |r.value| == 2 * |n|
  {
    if |values| != |n| then Err(WrongModelCount(|values|, |n|))
    else
      match CheckSampleCounts(values, NSamplesPerModel(mat, n, |n|), |n|)
      case Fail(e) => Err(e)
      case Pass => Ok(SeparateChecked(mat, n, values, 2 * |n|))
  }

  /** The flat list of 2 nmodels subsets regrouped as one (starred, plain)
      pair per model, the shape _combine_acv_values reads. */
  function Pairs<T>(flat: seq<seq<T>>): (pairs: seq<(seq<T>, seq<T>)>)
    requires |flat| % 2 == 0
    ensures |pairs| == |flat| / 2
    ensures forall m :: 0 <= m < |pairs| ==> pairs[m] == (flat[2 * m], flat[2 * m + 1])
  {
    seq(|flat| / 2, m requires 0 <= m < |flat| / 2 => (flat[2 * m], flat[2 * m + 1]))
  }

  lemma {:induction false} SeparateValuesOk<T>(mat: seq<seq<int>>, n: seq<nat>, values: seq<seq<T>>)
    requires |n| >= 1 && IsAllocation(mat, |n|) && FirstModelIsFirstPartition(mat, n)
    requires RowsMatchCounts(mat, n, values)
    ensures SeparateValues(mat, n, values) == Ok(SeparateChecked(mat, n, values, 2 * |n|))
  {
    var counts := NSamplesPerModel(mat, n, |n|);
    assert forall m :: 0 <= m < |n| ==> |values[m]| == counts[m];
  }

  lemma {:induction false} CombineSeparatedFirst<T>(mat: seq<seq<int>>, n: seq<nat>, values: seq<seq<T>>)
    requires |n| >= 1 && IsAllocation(mat, |n|) && FirstModelIsFirstPartition(mat, n)
    requires RowsMatchCounts(mat, n, values)
    ensures SeparatedSubset(mat, n, values, 1) == values[0]
  {
    PartitionAt(n, 0);
    assert AcvSubset(mat, n, 1) == Range(0, n[0]);
    ExtractRange(values[0], 0, n[0]);
  }

  /** Subset c of model m (c = 2m or 2m + 1) is model m's rows at the
      positions its column c marks. */
  lemma {:induction false} SeparatedModelSubset<T>(mat: seq<seq<int>>, n: seq<nat>, values: seq<seq<T>>, m: nat, c: nat)
    requires |n| >= 1 && IsAllocation(mat, |n|) && FirstModelIsFirstPartition(mat, n)
    requires RowsMatchCounts(mat, n, values) && 1 <= m < |n| && (c == 2 * m || c == 2 * m + 1)
    ensures AllBelow(SubsetIndices(Column(mat, c), Column(mat, 2 * m), Column(mat, 2 * m + 1), n, |n|), |values[m]|)
    ensures SeparatedSubset(mat, n, values, c)
            == ExtractSubList(values[m], SubsetIndices(Column(mat, c), Column(mat, 2 * m), Column(mat, 2 * m + 1), n, |n|))
  {
    AcvSubsetOfModel(mat, n, m);
    ModelSubsetInBounds(mat, n, m, c);
    assert c / 2 == m;
    assert |values[m]| == ModelNSamples(mat, n, m);
    var subset := SubsetIndices(Column(mat, c), Column(mat, 2 * m), Column(mat, 2 * m + 1), n, |n|);
    assert AcvSubset(mat, n, c) == subset;
    assert SeparatedSubset(mat, n, values, c) == ExtractSubList(values[m], AcvSubset(mat, n, c));
  }

  lemma {:induction false} AcvSubsetOfModel(mat: seq<seq<int>>, n: seq<nat>, m: nat)
    requires IsAllocation(mat, |n|) && 1 <= m < |n|
    ensures (2 * m) / 2 == m && (2 * m + 1) / 2 == m
    ensures AcvSubset(mat, n, 2 * m) == SubsetIndices(Column(mat, 2 * m), Column(mat, 2 * m), Column(mat, 2 * m + 1), n, |n|)
    ensures AcvSubset(mat, n, 2 * m + 1) == SubsetIndices(Column(mat, 2 * m + 1), Column(mat, 2 * m), Column(mat, 2 * m + 1), n, |n|)
  {
  }

  lemma {:induction false} CombineSeparatedOther<T>(mat: seq<seq<int>>, n: seq<nat>, values: seq<seq<T>>, m: nat)
    requires |n| >= 1 && IsAllocation(mat, |n|) && FirstModelIsFirstPartition(mat, n)
    requires RowsMatchCounts(mat, n, values) && 1 <= m < |n|
    ensures CombineModel(Column(mat, 2 * m), Column(mat, 2 * m + 1), n,
              SeparatedSubset(mat, n, values, 2 * m), SeparatedSubset(mat, n, values, 2 * m + 1), |n|) == values[m]
  {
    var star, plain := Column(mat, 2 * m), Column(mat, 2 * m + 1);
    SeparatedModelSubset(mat, n, values, m, 2 * m);
    SeparatedModelSubset(mat, n, values, m, 2 * m + 1);
    assert |values[m]| == ModelNSamples(mat, n, m) == UnionCount(star, plain, n, |n|);
    CombineOfSeparated(star, plain, n, values[m]);
    CombineSameValues(star, plain, n, SeparatedSubset(mat, n, values, 2 * m), SeparatedSubset(mat, n, values, 2 * m + 1),
                      ExtractSubList(values[m], SubsetIndices(star, star, plain, n, |n|)),
                      ExtractSubList(values[m], SubsetIndices(plain, star, plain, n, |n|)), values[m]);
  }

  lemma {:induction false} CombineSameValues<T>(star: seq<int>, plain: seq<int>, n: seq<nat>, sv: seq<T>, pv: seq<T>, sv2: seq<T>, pv2: seq<T>, v: seq<T>)
    requires Shaped(star, plain, n)
    requires sv == sv2 && pv == pv2 && CombineModel(star, plain, n, sv2, pv2, |n|) == v
    ensures CombineModel(star, plain, n, sv, pv, |n|) == v
  {
  }

  lemma {:induction false} CombineSeparatedModel<T>(mat: seq<seq<int>>, n: seq<nat>, values: seq<seq<T>>, m: nat)
    requires |n| >= 1 && IsAllocation(mat, |n|) && FirstModelIsFirstPartition(mat, n)
    requires RowsMatchCounts(mat, n, values) && m < |n|
    ensures CombineOne(mat, n, Pairs(SeparateChecked(mat, n, values, 2 * |n|)), m) == values[m]
  {
    var acv := Pairs(SeparateChecked(mat, n, values, 2 * |n|));
    assert acv[m] == (SeparatedSubset(mat, n, values, 2 * m), SeparatedSubset(mat, n, values, 2 * m + 1));
    if m == 0 {
      CombineSeparatedFirst(mat, n, values);
    } else {
      CombineSeparatedOther(mat, n, values, m);
    }
  }

  /** Separating every model's rows into its ACV subsets and combining them
      again gives every model's rows back. */
  lemma {:induction false} SeparateThenCombine<T>(mat: seq<seq<int>>, n: seq<nat>, values: seq<seq<T>>)
    requires |n| >= 1 && IsAllocation(mat, |n|) && FirstModelIsFirstPartition(mat, n)
    requires RowsMatchCounts(mat, n, values)
    ensures SeparateValues(mat, n, values).Ok?
    ensures CombineAll(mat, n, Pairs(SeparateValues(mat, n, values).value), |n|) == values
  {
    SeparateValuesOk(mat, n, values);
    var acv := Pairs(SeparateChecked(mat, n, values, 2 * |n|));
    forall m | 0 <= m < |n|
      ensures CombineOne(mat, n, acv, m) == values[m]
    {
      CombineSeparatedModel(mat, n, values, m);
    }
  }

  lemma {:induction false} PilotCountsUpTo(star: seq<int>, plain: seq<int>, n: seq<nat>, p: nat, k: nat)
    requires Shaped(star, plain, n) && 1 <= k <= |n| && p <= n[0]
    ensures UnionCount(star, plain, n, k)
            == UnionCount(star, plain, n[0 := n[0] - p], k) + (if star[0] == 1 || plain[0] == 1 then p else 0)
  {
    if k > 1 {
      PilotCountsUpTo(star, plain, n, p, k - 1);
    }
  }

  /** Taking p pilot samples out of the first partition lowers a model's
      count by p exactly when the model evaluates the first partition. */
  lemma {:induction false} PilotCounts(mat: seq<seq<int>>, n: seq<nat>, p: nat, m: nat)
    requires |n| >= 1 && IsAllocation(mat, |n|) && m < |n| && p <= n[0]
    ensures ModelNSamples(mat, n, m)
            == ModelNSamples(mat, n[0 := n[0] - p], m) + (if mat[0][2 * m] == 1 || mat[0][2 * m + 1] == 1 then p else 0)
  {
    PilotCountsUpTo(Column(mat, 2 * m), Column(mat, 2 * m + 1), n, p, |n|);
  }
}
