/** Sample ratios of the ACV estimators
    (pyapprox/multifidelity/multioutput_monte_carlo.py): partition ratios
    give each partition j >= 1 its number of samples relative to the first
    (high-fidelity) partition; model ratios give each model m >= 1 its
    number of samples relative to the high-fidelity model. The sums and
    differences are exact over real. */
module Ratios {
  import AcvPartition
  import opened AllocationMatrix

  /** Model m evaluates partition j. */
  predicate Active(mat: seq<seq<int>>, j: nat, m: nat)
    requires AcvPartition.IsAllocation(mat, |mat|) && j < |mat| && m < |mat|
  {
    mat[j][2 * m] == 1 || mat[j][2 * m + 1] == 1
  }

  /** The ratios of the partitions 1 .. k that model m evaluates, summed. */
  function ActiveRatioSum(mat: seq<seq<int>>, pr: seq<real>, m: nat, k: nat): real
    requires AcvPartition.IsAllocation(mat, |mat|) && |pr| + 1 == |mat| && m < |mat| && k <= |pr|
  {
    if k == 0 then 0.0 else ActiveRatioSum(mat, pr, m, k - 1) + (if Active(mat, k, m) then pr[k - 1] else 0.0)
  }

  /** One when model m evaluates the first partition, zero otherwise. */
  function FirstShare(mat: seq<seq<int>>, m: nat): real
    requires AcvPartition.IsAllocation(mat, |mat|) && m < |mat|
  {
    if Active(mat, 0, m) then 1.0 else 0.0
  }

  /** The model ratio of model m: its partitions' ratios, plus one for the
      first partition when the model evaluates it. */
  function ModelRatio(mat: seq<seq<int>>, pr: seq<real>, m: nat): real
    requires AcvPartition.IsAllocation(mat, |mat|) && |pr| + 1 == |mat| && m < |mat|
  {
    ActiveRatioSum(mat, pr, m, |pr|) + FirstShare(mat, m)
  }

  /** The model ratios of models 1 .. k. */
  function ModelRatios(mat: seq<seq<int>>, pr: seq<real>, k: nat): (ratios: seq<real>)
    requires AcvPartition.IsAllocation(mat, |mat|) && |pr| + 1 == |mat| && k <= |pr|
    ensures |ratios| == k
    ensures forall i :: 0 <= i < k ==> ratios[i] == ModelRatio(mat, pr, i + 1)
  {
    if k == 0 then [] else ModelRatios(mat, pr, k - 1) + [ModelRatio(mat, pr, k)]
  }

  /** _partition_ratios_to_model_ratios. */
  method PartitionRatiosToModelRatios(mat: seq<seq<int>>, pr: seq<real>) returns (modelRatios: seq<real>)
    requires AcvPartition.IsAllocation(mat, |mat|) && |pr| + 1 == |mat|
    ensures modelRatios == ModelRatios(mat, pr, |pr|)
  {
    modelRatios := [];
    for ii := 1 to |mat|
      invariant modelRatios == ModelRatios(mat, pr, ii - 1)
    {
      var ratio := ActiveRatioSum(mat, pr, ii, |pr|);
      if mat[0][2 * ii] == 1 || mat[0][2 * ii + 1] == 1 {
        ratio := ratio + 1.0;
      }
      modelRatios := modelRatios + [ratio];
    }
  }

  /** Samples of model m over the partitions j < k for real partition
      sizes (_compute_single_model_nsamples). */
  function ModelSamples(mat: seq<seq<int>>, n: seq<real>, m: nat, k: nat): real
    requires AcvPartition.IsAllocation(mat, |mat|) && |n| == |mat| && m < |mat| && k <= |n|
  {
    if k == 0 then 0.0 else ModelSamples(mat, n, m, k - 1) + (if Active(mat, k - 1, m) then n[k - 1] else 0.0)
  }

  /** sum_{i < k} model_ratios[i] * costs[i + 1]. */
  function WeightedModelRatios(mat: seq<seq<int>>, costs: seq<real>, pr: seq<real>, k: nat): real
    requires AcvPartition.IsAllocation(mat, |mat|) && |pr| + 1 == |mat| && |costs| == |mat| && k <= |pr|
  {
    if k == 0 then 0.0
    else WeightedModelRatios(mat, costs, pr, k - 1) + ModelRatio(mat, pr, k) * costs[k]
  }

  /** The cost of one high-fidelity sample together with the low-fidelity
      samples the ratios attach to it. */
  function CostPerHighFidelitySample(mat: seq<seq<int>>, costs: seq<real>, pr: seq<real>): real
    requires AcvPartition.IsAllocation(mat, |mat|) && |pr| + 1 == |mat| && |costs| == |mat|
  {
    costs[0] + WeightedModelRatios(mat, costs, pr, |pr|)
  }

  /** _npartition_samples_from_partition_ratios: the high-fidelity sample
      count is the target cost over the cost per high-fidelity sample; every
      other partition gets its ratio times that count. */
  function NPartitionSamplesFromRatios(mat: seq<seq<int>>, costs: seq<real>, targetCost: real, pr: seq<real>): (n: seq<real>)
    requires AcvPartition.IsAllocation(mat, |mat|) && |pr| + 1 == |mat| && |costs| == |mat|
    requires CostPerHighFidelitySample(mat, costs, pr) != 0.0
    ensures |n| == |mat|
    ensures n[0] * CostPerHighFidelitySample(mat, costs, pr) == targetCost
    ensures forall j :: 1 <= j < |n| ==> n[j] == pr[j - 1] * n[0]
  {
    var nhf := targetCost / CostPerHighFidelitySample(mat, costs, pr);
    [nhf] + seq(|pr|, j requires 0 <= j < |pr| => pr[j] * nhf)
  }

  /** _estimator_cost of the ACV estimators: every model's samples times
      its cost, for models m < k. */
  function EstimatorCost(mat: seq<seq<int>>, costs: seq<real>, n: seq<real>, k: nat): real
    requires AcvPartition.IsAllocation(mat, |mat|) && |n| == |mat| && |costs| == |mat| && k <= |mat|
  {
    if k == 0 then 0.0 else EstimatorCost(mat, costs, n, k - 1) + ModelSamples(mat, n, k - 1, |n|) * costs[k - 1]
  }

  /** With positive costs and non-negative partition ratios the cost per
      high-fidelity sample is positive. */
  lemma {:induction false} CostPerHighFidelitySamplePositive(mat: seq<seq<int>>, costs: seq<real>, pr: seq<real>)
    requires AcvPartition.IsAllocation(mat, |mat|) && |pr| + 1 == |mat| && |costs| == |mat|
    requires forall i :: 0 <= i < |costs| ==> costs[i] > 0.0
    requires forall j :: 0 <= j < |pr| ==> pr[j] >= 0.0
    ensures CostPerHighFidelitySample(mat, costs, pr) > 0.0
  {
    WeightedNonNegative(mat, costs, pr, |pr|);
  }

  lemma {:induction false} WeightedNonNegative(mat: seq<seq<int>>, costs: seq<real>, pr: seq<real>, k: nat)
    requires AcvPartition.IsAllocation(mat, |mat|) && |pr| + 1 == |mat| && |costs| == |mat| && k <= |pr|
    requires forall i :: 0 <= i < |costs| ==> costs[i] > 0.0
    requires forall j :: 0 <= j < |pr| ==> pr[j] >= 0.0
    ensures WeightedModelRatios(mat, costs, pr, k) >= 0.0
  {
    if k > 0 {
      WeightedNonNegative(mat, costs, pr, k - 1);
      RatioSumNonNegative(mat, pr, k, |pr|);
    }
  }

  lemma {:induction false} RatioSumNonNegative(mat: seq<seq<int>>, pr: seq<real>, m: nat, k: nat)
    requires AcvPartition.IsAllocation(mat, |mat|) && |pr| + 1 == |mat| && m < |mat| && k <= |pr|
    requires forall j :: 0 <= j < |pr| ==> pr[j] >= 0.0
    ensures ActiveRatioSum(mat, pr, m, k) >= 0.0
  {
    if k > 0 {
      RatioSumNonNegative(mat, pr, m, k - 1);
    }
  }

  /** Partition sizes in the proportions pr give model m its model ratio
      times the high-fidelity count, over the partitions j <= k. */
  lemma {:induction false} ModelSamplesScale(mat: seq<seq<int>>, pr: seq<real>, n: seq<real>, m: nat, k: nat)
    requires AcvPartition.IsAllocation(mat, |mat|) && |pr| + 1 == |mat| && |n| == |mat| && m < |mat| && k <= |pr|
    requires forall j :: 1 <= j < |n| ==> n[j] == pr[j - 1] * n[0]
    ensures ModelSamples(mat, n, m, k + 1)
            == (ActiveRatioSum(mat, pr, m, k) + FirstShare(mat, m)) * n[0]
  {
    ModelSamplesSplit(mat, pr, n, m, k);
    Distribute(ActiveRatioSum(mat, pr, m, k) + FirstShare(mat, m), ActiveRatioSum(mat, pr, m, k), FirstShare(mat, m), n[0]);
  }

  /** ModelSamplesScale with the product distributed over the sum. */
  lemma {:induction false} ModelSamplesSplit(mat: seq<seq<int>>, pr: seq<real>, n: seq<real>, m: nat, k: nat)
    requires AcvPartition.IsAllocation(mat, |mat|) && |pr| + 1 == |mat| && |n| == |mat| && m < |mat| && k <= |pr|
    requires forall j :: 1 <= j < |n| ==> n[j] == pr[j - 1] * n[0]
    ensures ModelSamples(mat, n, m, k + 1) == ActiveRatioSum(mat, pr, m, k) * n[0] + FirstShare(mat, m) * n[0]
  {
    if k == 0 {
      assert ModelSamples(mat, n, m, 1) == (if Active(mat, 0, m) then n[0] else 0.0);
      assert ActiveRatioSum(mat, pr, m, 0) == 0.0;
    } else {
      ModelSamplesSplit(mat, pr, n, m, k - 1);
      var d := if Active(mat, k, m) then pr[k - 1] else 0.0;
      assert n[k] == pr[k - 1] * n[0];
      Distribute(ActiveRatioSum(mat, pr, m, k), ActiveRatioSum(mat, pr, m, k - 1), d, n[0]);
    }
  }

  /** r == x + d scales term by term. */
  lemma {:induction false} Distribute(r: real, x: real, d: real, h: real)
    requires r == x + d
    ensures r * h == x * h + d * h
  {
  }

  /** The estimator cost of the partition sizes in the proportions pr is
      the high-fidelity count times the cost per high-fidelity sample, given
      that the high-fidelity model evaluates only the first partition. */
  lemma {:induction false} EstimatorCostScale(mat: seq<seq<int>>, costs: seq<real>, pr: seq<real>, n: seq<real>, k: nat)
    requires AcvPartition.IsAllocation(mat, |mat|) && |pr| + 1 == |mat| && |n| == |mat| && |costs| == |mat|
    requires 1 <= k <= |mat|
    requires forall j :: 0 <= j < |mat| ==> (Active(mat, j, 0) <==> j == 0)
    requires forall j :: 1 <= j < |n| ==> n[j] == pr[j - 1] * n[0]
    ensures EstimatorCost(mat, costs, n, k) == (costs[0] + WeightedModelRatios(mat, costs, pr, k - 1)) * n[0]
  {
    EstimatorCostSplit(mat, costs, pr, n, k);
    Distribute(costs[0] + WeightedModelRatios(mat, costs, pr, k - 1), costs[0], WeightedModelRatios(mat, costs, pr, k - 1), n[0]);
  }

  /** EstimatorCostScale with the product distributed over the sum. */
  lemma {:induction false} EstimatorCostSplit(mat: seq<seq<int>>, costs: seq<real>, pr: seq<real>, n: seq<real>, k: nat)
    requires AcvPartition.IsAllocation(mat, |mat|) && |pr| + 1 == |mat| && |n| == |mat| && |costs| == |mat|
    requires 1 <= k <= |mat|
    requires forall j :: 0 <= j < |mat| ==> (Active(mat, j, 0) <==> j == 0)
    requires forall j :: 1 <= j < |n| ==> n[j] == pr[j - 1] * n[0]
    ensures EstimatorCost(mat, costs, n, k) == costs[0] * n[0] + WeightedModelRatios(mat, costs, pr, k - 1) * n[0]
  {
    if k == 1 {
      ModelSamplesOfRatio(mat, pr, n, 0);
      RatioSumOfModelZero(mat, pr, |pr|);
      assert ModelRatio(mat, pr, 0) == 1.0;
    } else {
      EstimatorCostSplit(mat, costs, pr, n, k - 1);
      ModelSamplesOfRatio(mat, pr, n, k - 1);
      EstimatorCostStep(mat, costs, pr, n, k);
    }
  }

  /** The induction step of EstimatorCostSplit: model k - 1 adds its model
      ratio times its cost, per high-fidelity sample. */
  lemma {:induction false} EstimatorCostStep(mat: seq<seq<int>>, costs: seq<real>, pr: seq<real>, n: seq<real>, k: nat)
    requires AcvPartition.IsAllocation(mat, |mat|) && |pr| + 1 == |mat| && |n| == |mat| && |costs| == |mat|
    requires 2 <= k <= |mat|
    requires ModelSamples(mat, n, k - 1, |n|) == ModelRatio(mat, pr, k - 1) * n[0]
    requires EstimatorCost(mat, costs, n, k - 1) == costs[0] * n[0] + WeightedModelRatios(mat, costs, pr, k - 2) * n[0]
    ensures EstimatorCost(mat, costs, n, k) == costs[0] * n[0] + WeightedModelRatios(mat, costs, pr, k - 1) * n[0]
  {
    CostStep(EstimatorCost(mat, costs, n, k), EstimatorCost(mat, costs, n, k - 1), ModelSamples(mat, n, k - 1, |n|),
             ModelRatio(mat, pr, k - 1), costs[k - 1], n[0],
             WeightedModelRatios(mat, costs, pr, k - 1), WeightedModelRatios(mat, costs, pr, k - 2), costs[0]);
  }

  /** One more model in the cost sum: if the cost so far is (c0 + w') h,
      the model's samples are r h and its weighted ratio r c, then the cost
      grows to (c0 + w' + r c) h, distributed over the sum. */
  lemma {:induction false} CostStep(e: real, e': real, s: real, r: real, c: real, h: real, w: real, w': real, c0: real)
    requires e' == c0 * h + w' * h && e == e' + s * c && s == r * h && w == w' + r * c
    ensures e == c0 * h + w * h
  {
  }

  /** Model m takes its model ratio times the high-fidelity count. */
  lemma {:induction false} ModelSamplesOfRatio(mat: seq<seq<int>>, pr: seq<real>, n: seq<real>, m: nat)
    requires AcvPartition.IsAllocation(mat, |mat|) && |pr| + 1 == |mat| && |n| == |mat| && m < |mat|
    requires forall j :: 1 <= j < |n| ==> n[j] == pr[j - 1] * n[0]
    ensures ModelSamples(mat, n, m, |n|) == ModelRatio(mat, pr, m) * n[0]
  {
    ModelSamplesSplit(mat, pr, n, m, |pr|);
    Distribute(ModelRatio(mat, pr, m), ActiveRatioSum(mat, pr, m, |pr|), FirstShare(mat, m), n[0]);
  }


  lemma {:induction false} RatioSumOfModelZero(mat: seq<seq<int>>, pr: seq<real>, k: nat)
    requires AcvPartition.IsAllocation(mat, |mat|) && |pr| + 1 == |mat| && k <= |pr|
    requires forall j :: 0 <= j < |mat| ==> (Active(mat, j, 0) <==> j == 0)
    ensures ActiveRatioSum(mat, pr, 0, k) == 0.0
  {
    if k > 0 {
      RatioSumOfModelZero(mat, pr, k - 1);
    }
  }

  /** The partition sizes computed from the ratios spend exactly the target
      cost. */
  lemma {:induction false} NPartitionSamplesMeetTarget(mat: seq<seq<int>>, costs: seq<real>, targetCost: real, pr: seq<real>)
    requires AcvPartition.IsAllocation(mat, |mat|) && |pr| + 1 == |mat| && |costs| == |mat|
    requires forall j :: 0 <= j < |mat| ==> (Active(mat, j, 0) <==> j == 0)
    requires CostPerHighFidelitySample(mat, costs, pr) != 0.0
    ensures EstimatorCost(mat, costs, NPartitionSamplesFromRatios(mat, costs, targetCost, pr), |mat|) == targetCost
  {
    var n := NPartitionSamplesFromRatios(mat, costs, targetCost, pr);
    EstimatorCostScale(mat, costs, pr, n, |mat|);
  }

  /** The partition sums of the first k ratios. */
  function PrefixSum(pr: seq<real>, k: nat): real
    requires k <= |pr|
  {
    if k == 0 then 0.0 else PrefixSum(pr, k - 1) + pr[k - 1]
  }

  /** _native_ratios_to_npartition_ratios of MFMC: the first ratio minus
      one, then the successive differences. */
  function MfmcPartitionRatios(ratios: seq<real>): (pr: seq<real>)
    requires |ratios| >= 1
    ensures |pr| == |ratios|
  {
    [ratios[0] - 1.0] + seq(|ratios| - 1, i requires 0 <= i < |ratios| - 1 => ratios[i + 1] - ratios[i])
  }

  /** The MFMC partition ratios telescope: the first k of them sum to the
      k-th model ratio minus one. */
  lemma {:induction false} MfmcTelescopes(ratios: seq<real>, k: nat)
    requires 1 <= k <= |ratios|
    ensures PrefixSum(MfmcPartitionRatios(ratios), k) == ratios[k - 1] - 1.0
  {
    if k > 1 {
      MfmcTelescopes(ratios, k - 1);
    }
  }

  /** A model whose partitions among 1 .. |pr| are exactly 1 .. t. */
  lemma {:induction false} RatioSumOfPrefix(mat: seq<seq<int>>, pr: seq<real>, m: nat, t: nat, k: nat)
    requires AcvPartition.IsAllocation(mat, |mat|) && |pr| + 1 == |mat| && m < |mat| && k <= |pr|
    requires t <= |pr|
    requires forall j :: 1 <= j < |mat| ==> (Active(mat, j, m) <==> j <= t)
    ensures ActiveRatioSum(mat, pr, m, k) == PrefixSum(pr, if k <= t then k else t)
  {
    if k > 0 {
      RatioSumOfPrefix(mat, pr, m, t, k - 1);
    }
  }

  /** MFMC is GMF with the recursion index 0, 1, ..., M - 2: model m >= 1
      evaluates the partitions 0 .. m. */
  lemma {:induction false} GmfChainActive(nmodels: nat, j: nat, m: nat)
    requires 1 <= m < nmodels && j < nmodels
    ensures ValidRecursionIndex(Arange(nmodels - 1), nmodels)
    ensures Active(Matrix(Gmf, Arange(nmodels - 1), nmodels), j, m) <==> j <= m
  {
    assert (2 * m) / 2 == m && (2 * m + 1) / 2 == m;
  }

  lemma {:induction false} MfmcModelRatio(ratios: seq<real>, m: nat)
    requires 1 <= m <= |ratios|
    ensures ValidRecursionIndex(Arange(|ratios|), |ratios| + 1)
    ensures ModelRatio(Matrix(Gmf, Arange(|ratios|), |ratios| + 1), MfmcPartitionRatios(ratios), m) == ratios[m - 1]
  {
    var nmodels := |ratios| + 1;
    var mat := Matrix(Gmf, Arange(|ratios|), nmodels);
    var pr := MfmcPartitionRatios(ratios);
    forall j | 0 <= j < nmodels
      ensures Active(mat, j, m) <==> j <= m
    {
      GmfChainActive(nmodels, j, m);
    }
    RatioSumOfPrefix(mat, pr, m, m, |pr|);
    MfmcTelescopes(ratios, m);
  }

  /** Converting MFMC's model ratios to partition ratios and back through
      the MFMC allocation gives the model ratios again. */
  lemma {:induction false} MfmcRoundTrip(ratios: seq<real>)
    requires |ratios| >= 1
    ensures ValidRecursionIndex(Arange(|ratios|), |ratios| + 1)
    ensures ModelRatios(Matrix(Gmf, Arange(|ratios|), |ratios| + 1), MfmcPartitionRatios(ratios), |ratios|) == ratios
  {
    var mat := Matrix(Gmf, Arange(|ratios|), |ratios| + 1);
    var pr := MfmcPartitionRatios(ratios);
    forall m | 1 <= m < |mat|
      ensures ModelRatio(mat, pr, m) == ratios[m - 1]
    {
      MfmcModelRatio(ratios, m);
    }
    ModelRatiosAre(mat, pr, ratios);
  }

  lemma {:induction false} ModelRatiosAre(mat: seq<seq<int>>, pr: seq<real>, ratios: seq<real>)
    requires AcvPartition.IsAllocation(mat, |mat|) && |pr| + 1 == |mat| && |ratios| == |pr|
    requires forall m :: 1 <= m < |mat| ==> ModelRatio(mat, pr, m) == ratios[m - 1]
    ensures ModelRatios(mat, pr, |pr|) == ratios
  {
    var back := ModelRatios(mat, pr, |pr|);
    forall i | 0 <= i < |pr|
      ensures back[i] == ratios[i]
    {
      assert back[i] == ModelRatio(mat, pr, i + 1);
    }
  }

  /** A model whose partitions among 1 .. |pr| are exactly a and b. */
  lemma {:induction false} RatioSumOfTwo(mat: seq<seq<int>>, pr: seq<real>, m: nat, a: nat, b: nat, k: nat)
    requires AcvPartition.IsAllocation(mat, |mat|) && |pr| + 1 == |mat| && m < |mat| && k <= |pr|
    requires a != b
    requires forall j :: 1 <= j < |mat| ==> (Active(mat, j, m) <==> (j == a || j == b))
    ensures ActiveRatioSum(mat, pr, m, k)
            == (if 1 <= a <= k then pr[a - 1] else 0.0) + (if 1 <= b <= k then pr[b - 1] else 0.0)
  {
    if k > 0 {
      RatioSumOfTwo(mat, pr, m, a, b, k - 1);
    }
  }

  /** MLMC is GRD with the recursion index 0, 1, ..., M - 2: model m >= 1
      evaluates the partitions m - 1 and m. */
  lemma {:induction false} GrdChainActive(nmodels: nat, j: nat, m: nat)
    requires 1 <= m < nmodels && j < nmodels
    ensures ValidRecursionIndex(Arange(nmodels - 1), nmodels)
    ensures Active(Matrix(Grd, Arange(nmodels - 1), nmodels), j, m) <==> (j == m - 1 || j == m)
  {
    assert (2 * m) / 2 == m && (2 * m + 1) / 2 == m;
  }

  lemma {:induction false} MlmcModelRatio(ratios: seq<real>, pr: seq<real>, m: nat)
    requires |pr| == |ratios| && 1 <= m <= |ratios|
    requires pr[0] + 1.0 == ratios[0] && forall i :: 1 <= i < |ratios| ==> pr[i] + pr[i - 1] == ratios[i]
    ensures ValidRecursionIndex(Arange(|ratios|), |ratios| + 1)
    ensures ModelRatio(Matrix(Grd, Arange(|ratios|), |ratios| + 1), pr, m) == ratios[m - 1]
  {
    var nmodels := |ratios| + 1;
    var mat := Matrix(Grd, Arange(|ratios|), nmodels);
    forall j | 0 <= j < nmodels
      ensures Active(mat, j, m) <==> (j == m - 1 || j == m)
    {
      GrdChainActive(nmodels, j, m);
    }
    RatioSumOfTwo(mat, pr, m, m - 1, m, |pr|);
    assert Active(mat, 0, m) <==> m == 1;
    if m == 1 {
      assert ModelRatio(mat, pr, m) == pr[0] + 1.0;
    } else {
      assert ModelRatio(mat, pr, m) == pr[m - 2] + pr[m - 1];
    }
  }

  /** Partition ratios in which each completes the model ratio that the
      previous one began give the model ratios back through the MLMC
      allocation. */
  lemma {:induction false} MlmcRoundTrip(ratios: seq<real>, pr: seq<real>)
    requires |pr| == |ratios| >= 1
    requires pr[0] + 1.0 == ratios[0] && forall i :: 1 <= i < |ratios| ==> pr[i] + pr[i - 1] == ratios[i]
    ensures ValidRecursionIndex(Arange(|ratios|), |ratios| + 1)
    ensures ModelRatios(Matrix(Grd, Arange(|ratios|), |ratios| + 1), pr, |ratios|) == ratios
  {
    var mat := Matrix(Grd, Arange(|ratios|), |ratios| + 1);
    forall m | 1 <= m < |mat|
      ensures ModelRatio(mat, pr, m) == ratios[m - 1]
    {
      MlmcModelRatio(ratios, pr, m);
    }
    ModelRatiosAre(mat, pr, ratios);
  }

  /** _native_ratios_to_npartition_ratios of MLMC: the first ratio minus
      one, then each ratio minus the previous partition ratio. */
  method MlmcPartitionRatios(ratios: seq<real>) returns (pr: seq<real>)
    requires |ratios| >= 1
    ensures |pr| == |ratios|
    ensures ValidRecursionIndex(Arange(|ratios|), |ratios| + 1)
    ensures ModelRatios(Matrix(Grd, Arange(|ratios|), |ratios| + 1), pr, |ratios|) == ratios
  {
    pr := [ratios[0] - 1.0];
    for ii := 1 to |ratios|
      invariant |pr| == ii
      invariant pr[0] + 1.0 == ratios[0] && forall i :: 1 <= i < ii ==> pr[i] + pr[i - 1] == ratios[i]
    {
      var next := ratios[ii] - pr[ii - 1];
      pr := pr + [next];
    }
    MlmcRoundTrip(ratios, pr);
  }
}
