/** The ACV estimator's sample bookkeeping
    (pyapprox/multifidelity/multioutput_monte_carlo.py, class ACVEstimator):
    the state it keeps between calls (recursion index, allocation matrix,
    rounded partition and per-model sample counts) and the operations that
    hand samples to the models, split their values into the ACV subsets
    and put them back together. */
module AcvEstimator {
  import opened Wrappers
  import opened ListUtil
  import AcvPartition
  import opened AllocationMatrix

  datatype RecursionError =
    | WrongShape(given: nat, expected: nat)
    | IndexOutOfRange(position: nat)

  datatype GenerateError = PilotTooLarge(npilot: nat, firstPartition: nat)

  /** The first of the entries r[0 .. k - 1] that numpy rejects as an
      index for M models, if any. */
  function FirstOutOfRange(r: seq<int>, nmodels: nat, k: nat): (p: Option<nat>)
    requires k <= |r|
    ensures p.None? <==> forall i :: 0 <= i < k ==> -(nmodels as int) <= r[i] < nmodels
    ensures p.Some? ==> p.value < k && !(-(nmodels as int) <= r[p.value] < nmodels)
    ensures p.Some? ==> forall i :: 0 <= i < p.value ==> -(nmodels as int) <= r[i] < nmodels
  {
    if k == 0 then None
    else
      match FirstOutOfRange(r, nmodels, k - 1)
      case Some(q) => Some(q)
      case None => if -(nmodels as int) <= r[k - 1] < nmodels then None else Some(k - 1)
  }

  /** Lowering the first partition by p lowers the total by p. */
  lemma {:induction false} SumLowerFirst(n: seq<nat>, p: nat)
    requires |n| >= 1 && p <= n[0]
    ensures Sum(n[0 := n[0] - p]) + p == Sum(n)
  {
    var lowered := n[0 := n[0] - p];
    if |n| > 1 {
      assert lowered[..|n| - 1] == n[..|n| - 1][0 := n[0] - p];
      SumLowerFirst(n[..|n| - 1], p);
    } else {
      assert lowered[..0] == n[..0];
    }
  }

  /** The draws handed to model m: the samples of its active partitions, in
      partition order; there are as many as the model's count. */
  function DrawsOfModel<T>(mat: seq<seq<int>>, n: seq<nat>, draws: seq<T>, m: nat): (s: seq<T>)
    requires AcvPartition.IsAllocation(mat, |n|) && m < |n| && |draws| == Sum(n)
    ensures |s| == AcvPartition.ModelNSamples(mat, n, m)
  {
    var star, plain := AcvPartition.Column(mat, 2 * m), AcvPartition.Column(mat, 2 * m + 1);
    AcvPartition.ModelSampleIndicesCount(star, plain, n);
    ExtractSubList(draws, AcvPartition.ModelSampleIndices(star, plain, n, |n|))
  }

  /** Pilot samples taken out of the first partition and then put back in
      front of the values of every model that evaluates that partition give
      every model its full count again. */
  lemma {:induction false} PilotValuesRestoreCounts<T>(mat: seq<seq<int>>, n: seq<nat>, p: nat,
                                    pilot: seq<seq<T>>, values: seq<seq<T>>, newValues: seq<seq<T>>)
    requires |n| >= 1 && AcvPartition.IsAllocation(mat, |n|) && p <= n[0]
    requires AcvPartition.RowsMatchCounts(mat, n[0 := n[0] - p], values)
    requires |pilot| == |n| && |newValues| == |n|
    requires forall m :: 0 <= m < |n| && (mat[0][2 * m] == 1 || mat[0][2 * m + 1] == 1) ==>
               |pilot[m]| == p && newValues[m] == pilot[m] + values[m]
    requires forall m :: 0 <= m < |n| && !(mat[0][2 * m] == 1 || mat[0][2 * m + 1] == 1) ==>
               newValues[m] == values[m]
    ensures AcvPartition.RowsMatchCounts(mat, n, newValues)
  {
    forall m | 0 <= m < |n|
      ensures |newValues[m]| == AcvPartition.ModelNSamples(mat, n, m)
    {
      AcvPartition.PilotCounts(mat, n, p, m);
    }
  }

  class Estimator {
    const kind: Kind
    const nmodels: nat
    var recursionIndex: seq<int>
    var allocationMat: array2<int>
    /** None until the optimized parameters are set. */
    var roundedNPartitionSamples: Option<seq<nat>>
    var roundedNSamplesPerModel: seq<nat>

    /** The allocation matrix is the one the estimator kind builds from the
        recursion index. */
    ghost predicate Valid()
      reads this, allocationMat
    {
      ValidRecursionIndex(recursionIndex, nmodels)
      && allocationMat.Length0 == nmodels && allocationMat.Length1 == 2 * nmodels
      && Rows(allocationMat) == Matrix(kind, recursionIndex, nmodels)
    }

    /** The rounded counts are set and the per-model counts are those of
        the current allocation. */
    ghost predicate Allocated()
      reads this, allocationMat
    {
      Valid() && roundedNPartitionSamples.Some? && |roundedNPartitionSamples.value| == nmodels
      && roundedNSamplesPerModel == AcvPartition.NSamplesPerModel(Rows(allocationMat), roundedNPartitionSamples.value, nmodels)
    }

    /** An estimator whose recursion index was not given: all zeros. */
    constructor(kind: Kind, nmodels: nat)
      requires nmodels >= 1
      ensures Valid() && this.kind == kind && this.nmodels == nmodels
      ensures recursionIndex == Zeros(nmodels - 1) && roundedNPartitionSamples == None
    {
      var mat := Build(kind, Zeros(nmodels - 1), nmodels);
      this.kind := kind;
      this.nmodels := nmodels;
      recursionIndex := Zeros(nmodels - 1);
      allocationMat := mat;
      roundedNPartitionSamples := None;
      roundedNSamplesPerModel := [];
    }

    /** _set_recursion_index: None stands for all zeros; a wrong length is a
        ValueError and an entry numpy cannot use as a column index is an
        IndexError of the builder, both leaving the estimator as it was;
        otherwise the allocation matrix is rebuilt. */
    method SetRecursionIndex(index: Option<seq<int>>) returns (outcome: Outcome<RecursionError>)
      requires Valid()
      modifies this
      ensures Valid()
      ensures roundedNPartitionSamples == old(roundedNPartitionSamples)
      ensures roundedNSamplesPerModel == old(roundedNSamplesPerModel)
      ensures outcome.Pass? <==> index.None? || ValidRecursionIndex(index.value, nmodels)
      ensures outcome.Pass? ==> recursionIndex == (if index.None? then Zeros(nmodels - 1) else index.value)
      ensures outcome.Pass? ==> fresh(allocationMat)
      ensures outcome.Fail? ==> recursionIndex == old(recursionIndex) && allocationMat == old(allocationMat)
      ensures index.Some? && |index.value| != nmodels - 1 ==>
                outcome == Fail(WrongShape(|index.value|, nmodels - 1))
      ensures index.Some? && |index.value| == nmodels - 1 && outcome.Fail? ==>
                outcome == Fail(IndexOutOfRange(FirstOutOfRange(index.value, nmodels, nmodels - 1).value))
    {
      var r := if index.None? then Zeros(nmodels - 1) else index.value;
      if |r| != nmodels - 1 {
        return Fail(WrongShape(|r|, nmodels - 1));
      }
      var bad := FirstOutOfRange(r, nmodels, |r|);
      if bad.Some? {
        return Fail(IndexOutOfRange(bad.value));
      }
      var mat := Build(kind, r, nmodels);
      allocationMat := mat;
      recursionIndex := r;
      outcome := Pass;
    }

    /** _compute_nsamples_per_model. */
    method ComputeNSamplesPerModel(n: seq<nat>) returns (counts: seq<nat>)
      requires Valid() && |n| == nmodels
      ensures counts == AcvPartition.NSamplesPerModel(Rows(allocationMat), n, nmodels)
    {
      var mat := Rows(allocationMat);
      counts := [];
      for ii := 0 to nmodels
        invariant counts == AcvPartition.NSamplesPerModel(mat, n, ii)
      {
        counts := counts + [AcvPartition.ModelNSamples(mat, n, ii)];
      }
    }

    /** The integer part of _set_optimized_params: record the rounded
        partition counts and the per-model counts they give. */
    method SetOptimizedParams(n: seq<nat>)
      requires Valid() && |n| == nmodels
      modifies this
      ensures Allocated() && roundedNPartitionSamples == Some(n)
      ensures recursionIndex == old(recursionIndex) && allocationMat == old(allocationMat)
    {
      var counts := ComputeNSamplesPerModel(n);
      roundedNPartitionSamples := Some(n);
      roundedNSamplesPerModel := counts;
    }

    /** The global sample indices of model ii's active partitions
        concatenated (the hstack in generate_samples_per_model). */
    method ModelIndices(n: seq<nat>, ii: nat, partitionIndices: seq<seq<nat>>) returns (indices: seq<nat>)
      requires Valid() && |n| == nmodels && ii < nmodels && partitionIndices == AcvPartition.PartitionIndices(n)
      ensures indices == AcvPartition.ModelSampleIndices(AcvPartition.Column(Rows(allocationMat), 2 * ii),
                                                         AcvPartition.Column(Rows(allocationMat), 2 * ii + 1), n, nmodels)
    {
      ghost var mat := Rows(allocationMat);
      ghost var star, plain := AcvPartition.Column(mat, 2 * ii), AcvPartition.Column(mat, 2 * ii + 1);
      indices := [];
      for jj := 0 to nmodels
        invariant indices == AcvPartition.ModelSampleIndices(star, plain, n, jj)
      {
        if allocationMat[jj, 2 * ii] == 1 || allocationMat[jj, 2 * ii + 1] == 1 {
          indices := indices + partitionIndices[jj];
        }
      }
    }

    /** generate_samples_per_model with the draws of rvs given: a ValueError
        when more pilot samples are asked for than the first partition
        holds; otherwise every model gets the draws of its active
        partitions, with npilot samples taken out of the first partition.
        The RuntimeError check on the number of indices never fires. */
    method GenerateSamplesPerModel<T>(draws: seq<T>, npilot: nat) returns (r: Result<seq<seq<T>>, GenerateError>)
      requires Allocated()
      requires npilot <= roundedNPartitionSamples.value[0] ==> |draws| + npilot == Sum(roundedNPartitionSamples.value)
      ensures r.Err? <==> npilot > roundedNPartitionSamples.value[0]
      ensures r.Err? ==> r.error == PilotTooLarge(npilot, roundedNPartitionSamples.value[0])
      ensures r.Ok? ==> |r.value| == nmodels
      ensures r.Ok? ==> forall m :: 0 <= m < nmodels ==>
                |draws| == Sum(roundedNPartitionSamples.value[0 := roundedNPartitionSamples.value[0] - npilot])
                && r.value[m] == DrawsOfModel(Rows(allocationMat),
                                              roundedNPartitionSamples.value[0 := roundedNPartitionSamples.value[0] - npilot], draws, m)
    {
      var n := roundedNPartitionSamples.value;
      if npilot > n[0] {
        return Err(PilotTooLarge(npilot, n[0]));
      }
      var lowered := n[0 := n[0] - npilot];
      SumLowerFirst(n, npilot);
      var samples := SamplesPerModel(lowered, draws);
      r := Ok(samples);
    }

    /** The loop of generate_samples_per_model over the models, for the
        partition counts left after the pilot samples. */
    method SamplesPerModel<T>(n: seq<nat>, draws: seq<T>) returns (samples: seq<seq<T>>)
      requires Valid() && |n| == nmodels && |draws| == Sum(n)
      ensures |samples| == nmodels
      ensures forall m :: 0 <= m < nmodels ==> samples[m] == DrawsOfModel(Rows(allocationMat), n, draws, m)
    {
      var counts := ComputeNSamplesPerModel(n);
      var partitionIndices := AcvPartition.PartitionIndices(n);
      samples := [];
      for ii := 0 to nmodels
        invariant |samples| == ii
        invariant forall m :: 0 <= m < ii ==> samples[m] == DrawsOfModel(Rows(allocationMat), n, draws, m)
      {
        var s := SamplesOfModel(n, ii, partitionIndices, counts, draws);
        samples := samples + [s];
      }
    }

    /** One model's draws in generate_samples_per_model; the number of
        indices always equals the model's count. */
    method SamplesOfModel<T>(n: seq<nat>, ii: nat, partitionIndices: seq<seq<nat>>, counts: seq<nat>, draws: seq<T>)
      returns (s: seq<T>)
      requires Valid() && |n| == nmodels && ii < nmodels && partitionIndices == AcvPartition.PartitionIndices(n)
      requires counts == AcvPartition.NSamplesPerModel(Rows(allocationMat), n, nmodels) && |draws| == Sum(n)
      ensures s == DrawsOfModel(Rows(allocationMat), n, draws, ii)
    {
      var indices := ModelIndices(n, ii, partitionIndices);
      ghost var mat := Rows(allocationMat);
      AcvPartition.ModelSampleIndicesCount(AcvPartition.Column(mat, 2 * ii), AcvPartition.Column(mat, 2 * ii + 1), n);
      assert |indices| == counts[ii];
      s := ExtractSubList(draws, indices);
    }

    /** _separate_values_per_model without bootstrapping. */
    method SeparateValuesPerModel<T>(values: seq<seq<T>>) returns (r: Result<seq<seq<T>>, AcvPartition.SeparateError>)
      requires Allocated()
      ensures nmodels >= 1
      ensures AcvPartition.FirstModelIsFirstPartition(Rows(allocationMat), roundedNPartitionSamples.value)
      ensures r == AcvPartition.SeparateValues(Rows(allocationMat), roundedNPartitionSamples.value, values)
    {
      var mat := Rows(allocationMat);
      var n := roundedNPartitionSamples.value;
      FirstModelOnlyFirstPartition(kind, recursionIndex, n);
      if |values| != nmodels {
        return Err(AcvPartition.WrongModelCount(|values|, nmodels));
      }
      var check := CheckSampleCounts(values, roundedNSamplesPerModel);
      if check.Fail? {
        return Err(check.error);
      }
      var acv := SeparateChecked(mat, n, values);
      r := Ok(acv);
    }

    /** combine_acv_values: the estimator's allocation and rounded
        partition counts. */
    method CombineAcvValues<T>(acvValues: seq<(seq<T>, seq<T>)>) returns (valuesPerModel: seq<seq<T>>)
      requires Allocated() && |acvValues| == nmodels
      ensures nmodels >= 1
      ensures valuesPerModel == AcvPartition.CombineAll(Rows(allocationMat), roundedNPartitionSamples.value, acvValues, nmodels)
    {
      valuesPerModel := AcvPartition.CombineAcvValues(Rows(allocationMat), roundedNPartitionSamples.value, acvValues);
    }

    /** insert_pilot_values: the pilot values go in front of the values of
        every model that evaluates the first partition. */
    method InsertPilotValues<T>(pilot: seq<seq<T>>, values: seq<seq<T>>) returns (newValues: seq<seq<T>>)
      requires Valid() && |pilot| == nmodels && |values| == nmodels
      ensures |newValues| == nmodels
      ensures forall m :: 0 <= m < nmodels && (allocationMat[0, 2 * m] == 1 || allocationMat[0, 2 * m + 1] == 1) ==>
                newValues[m] == pilot[m] + values[m]
      ensures forall m :: 0 <= m < nmodels && !(allocationMat[0, 2 * m] == 1 || allocationMat[0, 2 * m + 1] == 1) ==>
                newValues[m] == values[m]
    {
      newValues := PrependPilot(allocationMat, pilot, values);
    }
  }

  /** The loop of insert_pilot_values over the first row of the allocation
      matrix. */
  method PrependPilot<T>(mat: array2<int>, pilot: seq<seq<T>>, values: seq<seq<T>>) returns (newValues: seq<seq<T>>)
    requires mat.Length1 == 2 * mat.Length0 && mat.Length0 >= 1
    requires |pilot| == mat.Length0 && |values| == mat.Length0
    ensures |newValues| == mat.Length0
    ensures forall m :: 0 <= m < mat.Length0 && (mat[0, 2 * m] == 1 || mat[0, 2 * m + 1] == 1) ==>
              newValues[m] == pilot[m] + values[m]
    ensures forall m :: 0 <= m < mat.Length0 && !(mat[0, 2 * m] == 1 || mat[0, 2 * m + 1] == 1) ==>
              newValues[m] == values[m]
  {
    newValues := [];
    for ii := 0 to mat.Length0
      invariant |newValues| == ii
      invariant forall m :: 0 <= m < ii && (mat[0, 2 * m] == 1 || mat[0, 2 * m + 1] == 1) ==>
                  newValues[m] == pilot[m] + values[m]
      invariant forall m :: 0 <= m < ii && !(mat[0, 2 * m] == 1 || mat[0, 2 * m + 1] == 1) ==>
                  newValues[m] == values[m]
    {
      var activePartition := mat[0, 2 * ii] == 1 || mat[0, 2 * ii + 1] == 1;
      if activePartition {
        newValues := newValues + [pilot[ii] + values[ii]];
      } else {
        newValues := newValues + [values[ii]];
      }
    }
  }

  /** The row-count loop of _separate_values_per_model: the first model
      whose number of rows differs from its count. */
  method CheckSampleCounts<T>(values: seq<seq<T>>, counts: seq<nat>) returns (outcome: Outcome<AcvPartition.SeparateError>)
    requires |values| == |counts|
    ensures outcome == AcvPartition.CheckSampleCounts(values, counts, |counts|)
  {
    for ii := 0 to |counts|
      invariant AcvPartition.CheckSampleCounts(values, counts, ii) == Pass
    {
      if |values[ii]| != counts[ii] {
        return Fail(AcvPartition.WrongSampleCount(ii, |values[ii]|, counts[ii]));
      }
    }
    outcome := Pass;
  }

  /** The ACV subsets of the values of every model, once the counts have
      been checked. */
  method SeparateChecked<T>(mat: seq<seq<int>>, n: seq<nat>, values: seq<seq<T>>) returns (acv: seq<seq<T>>)
    requires |n| >= 1 && AcvPartition.IsAllocation(mat, |n|) && AcvPartition.FirstModelIsFirstPartition(mat, n)
    requires AcvPartition.RowsMatchCounts(mat, n, values)
    ensures acv == AcvPartition.SeparateChecked(mat, n, values, 2 * |n|)
  {
    var subsets := AcvPartition.PartitionIndicesPerAcvSubset(mat, n);
    acv := [];
    for k := 0 to 2 * |n|
      invariant acv == AcvPartition.SeparateChecked(mat, n, values, k)
    {
      var subset := SeparatedSubset(mat, n, values, subsets, k);
      AcvPartition.SeparateCheckedSnoc(mat, n, values, k);
      acv := acv + [subset];
    }
  }

  /** values_per_model[k // 2][acv_partition_indices[k]]. */
  method SeparatedSubset<T>(mat: seq<seq<int>>, n: seq<nat>, values: seq<seq<T>>, subsets: seq<seq<nat>>, k: nat)
    returns (subset: seq<T>)
    requires |n| >= 1 && AcvPartition.IsAllocation(mat, |n|) && AcvPartition.FirstModelIsFirstPartition(mat, n)
    requires AcvPartition.RowsMatchCounts(mat, n, values) && k < 2 * |n|
    requires subsets == AcvPartition.AcvSubsetIndices(mat, n, |n|)
    ensures subset == AcvPartition.SeparatedSubset(mat, n, values, k)
  {
    AcvPartition.AcvSubsetInBounds(mat, n, k);
    subset := ExtractSubList(values[k / 2], subsets[k]);
  }
}
