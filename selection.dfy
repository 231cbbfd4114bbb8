/** Checks and choices made around the ACV estimators
    (pyapprox/multifidelity/multioutput_monte_carlo.py): the shape check on
    the model covariance, the closed-form allocation of the control-variate
    estimator, the choice of the best recursion index among the candidates
    a tree search produced, and the reduction of an estimator's options to
    a subset of the low-fidelity models. */
module EstimatorSelection {
  import opened Wrappers
  import opened AllocationMatrix

  /** Why a covariance does not fit the costs. */
  datatype CovError =
    | NoModels                                  // len(costs) == 0: the modulo divides by zero
    | Inconsistent(rows: nat, nmodels: nat)     // rows is not a multiple of nmodels

  /** The number of models and of quantities of interest per model that a
      covariance with `rows` rows and `nmodels` costs describe. */
  function CheckCov(rows: nat, nmodels: nat): (r: Result<(nat, nat), CovError>)
    ensures r.Ok? <==> nmodels > 0 && rows % nmodels == 0
    ensures r == Err(NoModels) <==> nmodels == 0
    ensures r.Ok? ==> r.value.0 == nmodels && r.value.0 * r.value.1 == rows
  {
    if nmodels == 0 then Err(NoModels)
    else if rows % nmodels != 0 then Err(Inconsistent(rows, nmodels))
    else Ok((nmodels, rows / nmodels))
  }

  /** The total of a sequence of reals. */
  function RealSum(s: seq<real>): real
  {
    if |s| == 0 then 0.0 else RealSum(s[..|s| - 1]) + s[|s| - 1]
  }

  /** Every cost is positive. */
  predicate PositiveCosts(costs: seq<real>)
  {
    forall i :: 0 <= i < |costs| ==> costs[i] > 0.0
  }

  lemma {:induction false} RealSumPositive(costs: seq<real>)
    requires |costs| > 0 && PositiveCosts(costs)
    ensures RealSum(costs) > 0.0
    decreases |costs|
  {
    if |costs| > 1 {
      RealSumPositive(costs[..|costs| - 1]);
    }
  }

  /** The cost of taking counts[i] samples of model i. */
  function CostOf(costs: seq<real>, counts: seq<nat>): real
    requires |counts| == |costs|
  {
    if |costs| == 0 then 0.0
    else CostOf(costs[..|costs| - 1], counts[..|counts| - 1]) + costs[|costs| - 1] * counts[|counts| - 1] as real
  }

  /** Taking n samples of every model costs n times the summed costs. */
  lemma {:induction false} CostOfUniform(costs: seq<real>, n: nat)
    ensures CostOf(costs, seq(|costs|, _ => n)) == n as real * RealSum(costs)
    decreases |costs|
  {
    if |costs| > 0 {
      var k := |costs| - 1;
      assert seq(|costs|, _ => n)[..k] == seq(k, _ => n);
      CostOfUniform(costs[..k], n);
    }
  }

  /** The allocation the control-variate estimator chose: the common
      sample count, the count of each model and the cost they take. */
  datatype CvAllocation = CvAllocation(npartition: nat, nsamplesPerModel: seq<nat>, roundedCost: real)

  datatype AllocationError = TargetTooSmall(nsamples: int, minimum: nat)

  /** The control-variate estimator evaluates every model on the same
      samples: it takes as many of them as the target cost pays for, and
      needs at least two when a variance is estimated, one otherwise. */
  function CvAllocateSamples(targetCost: real, costs: seq<real>, estimatesVariance: bool): (r: Result<CvAllocation, AllocationError>)
    requires |costs| > 0 && PositiveCosts(costs)
    ensures var minimum := if estimatesVariance then 2 else 1;
      r.Ok? <==> targetCost >= minimum as real * RealSum(costs)
    ensures r.Ok? ==> |r.value.nsamplesPerModel| == |costs|
    ensures r.Ok? ==> forall i :: 0 <= i < |costs| ==> r.value.nsamplesPerModel[i] == r.value.npartition
    ensures r.Ok? ==> r.value.roundedCost == CostOf(costs, r.value.nsamplesPerModel)
    ensures r.Ok? ==> r.value.roundedCost <= targetCost < r.value.roundedCost + RealSum(costs)
  {
    RealSumPositive(costs);
    var total := RealSum(costs);
    var n := (targetCost / total).Floor;
    var minimum: nat := if estimatesVariance then 2 else 1;
    FloorBounds(targetCost, total, minimum);
    if n < minimum then Err(TargetTooSmall(n, minimum))
    else
      var counts := seq(|costs|, _ => n as nat);
      CostOfUniform(costs, n as nat);
      Ok(CvAllocation(n as nat, counts, CostOf(costs, counts)))
  }

  /** The count floor(t / s) is the largest whose cost stays within t. */
  lemma {:induction false} FloorBounds(t: real, s: real, m: int)
    requires s > 0.0
    ensures (t / s).Floor as real * s <= t
    ensures t < ((t / s).Floor + 1) as real * s
    ensures m <= (t / s).Floor <==> m as real * s <= t
  {
    var q := t / s;
    assert q * s == t;
    var n := q.Floor;
    assert n as real <= q < (n + 1) as real;
    assert n as real * s <= q * s;
    assert q * s < (n + 1) as real * s;
    assert t < (n + 1) as real * s;
    if m <= n {
      assert m as real * s <= n as real * s;
    } else {
      assert m as real * s >= (n + 1) as real * s;
    }
  }

  /** Why no recursion index was chosen. */
  datatype SelectionError =
    | SolverFailure(position: nat)   // the optimiser failed on this candidate and failures are not allowed
    | NoSolutions                    // no candidate reached a finite criterion

  /** The position of the first candidate whose optimisation failed. */
  function FirstFailure(outcomes: seq<Option<real>>): (r: Option<nat>)
    ensures r.None? <==> forall i :: 0 <= i < |outcomes| ==> outcomes[i].Some?
    ensures r.Some? ==> r.value < |outcomes| && outcomes[r.value].None?
    ensures r.Some? ==> forall i :: 0 <= i < r.value ==> outcomes[i].Some?
  {
    if |outcomes| == 0 then None
    else if outcomes[0].None? then Some(0)
    else match FirstFailure(outcomes[1..]) {
      case None => None
      case Some(k) => Some(k + 1)
    }
  }

  /** Candidate `best` has the smallest criterion of all that succeeded,
      and every earlier one that succeeded is strictly worse. */
  predicate FirstMinimum(outcomes: seq<Option<real>>, best: nat)
  {
    best < |outcomes| && outcomes[best].Some?
    && (forall i :: 0 <= i < |outcomes| && outcomes[i].Some? ==> outcomes[best].value <= outcomes[i].value)
    && (forall i :: 0 <= i < best && outcomes[i].Some? ==> outcomes[best].value < outcomes[i].value)
  }

  /** The search over all recursion indices: each candidate's optimisation
      either reaches a criterion (Some) or fails (None). The first failure
      aborts the search unless failures are allowed, in which case a failed
      candidate counts as an infinite criterion; the first candidate with
      the strictly smallest criterion wins. */
  method SelectBestRecursion(outcomes: seq<Option<real>>, allowFailures: bool) returns (r: Result<nat, SelectionError>)
    ensures !allowFailures && FirstFailure(outcomes).Some? ==> r == Err(SolverFailure(FirstFailure(outcomes).value))
    ensures r.Ok? ==> FirstMinimum(outcomes, r.value)
    ensures r.Ok? <==> ((allowFailures || FirstFailure(outcomes).None?)
                        && exists i :: 0 <= i < |outcomes| && outcomes[i].Some?)
    ensures r.Err? && r.error.NoSolutions? ==> forall i :: 0 <= i < |outcomes| ==> outcomes[i].None?
    ensures (allowFailures || FirstFailure(outcomes).None?) && (forall i :: 0 <= i < |outcomes| ==> outcomes[i].None?)
            ==> r == Err(NoSolutions)
  {
    var best: Option<nat> := None;
    var i := 0;
    while i < |outcomes|
      invariant 0 <= i <= |outcomes|
      invariant allowFailures || forall j :: 0 <= j < i ==> outcomes[j].Some?
      invariant best.None? <==> forall j :: 0 <= j < i ==> outcomes[j].None?
      invariant best.Some? ==> best.value < i && FirstMinimum(outcomes[..i], best.value)
    {
      match outcomes[i] {
        case None =>
          if !allowFailures {
            assert FirstFailure(outcomes) == Some(i);
            return Err(SolverFailure(i));
          }
        case Some(criterion) =>
          if best.None? || criterion < outcomes[best.value].value {
            best := Some(i);
          }
      }
      i := i + 1;
    }
    assert outcomes[..i] == outcomes;
    if best.None? {
      return Err(NoSolutions);
    }
    r := Ok(best.value);
  }

  /** The options an estimator was created with that model selection
      passes on to each estimator over a subset of the models. */
  datatype Options = Options(recursionIndex: Option<seq<int>>, treeDepth: Option<nat>)

  datatype OptionsError = UnreducibleRecursionIndex(index: seq<int>)

  /** Only the chain (0, 1, 2, ...) and the star (0, ..., 0) keep their
      meaning when cut to the first nsubset low-fidelity models; a tree
      depth is capped at nsubset. */
  function ValidateOptions(options: Options, nsubset: nat): (r: Result<Options, OptionsError>)
    ensures r.Err? <==> (options.recursionIndex.Some?
                         && options.recursionIndex.value != Arange(|options.recursionIndex.value|)
                         && options.recursionIndex.value != Zeros(|options.recursionIndex.value|))
    ensures r.Ok? ==> r.value.recursionIndex.Some? == options.recursionIndex.Some?
    ensures r.Ok? ==> r.value.treeDepth.Some? == options.treeDepth.Some?
    ensures r.Ok? && options.treeDepth.Some? ==>
      (r.value.treeDepth.value <= nsubset && r.value.treeDepth.value <= options.treeDepth.value
       && (r.value.treeDepth.value == nsubset || r.value.treeDepth.value == options.treeDepth.value))
    ensures r.Ok? && options.recursionIndex.Some? ==>
      var index := options.recursionIndex.value;
      var k := if nsubset < |index| then nsubset else |index|;
      r.value.recursionIndex.value == index[..k]
  {
    var depth := match options.treeDepth {
      case None => None
      case Some(d) => Some(if d < nsubset then d else nsubset)
    };
    match options.recursionIndex {
      case None => Ok(Options(None, depth))
      case Some(index) =>
        if index == Arange(|index|) || index == Zeros(|index|) then
          Ok(Options(Some(index[..if nsubset < |index| then nsubset else |index|]), depth))
        else Err(UnreducibleRecursionIndex(index))
    }
  }

  /** A recursion index that covers at least the chosen low-fidelity models
      becomes, after the reduction, the chain or the star over them: a
      valid recursion index for nsubset + 1 models. */
  lemma {:induction false} ValidatedIndexIsValid(options: Options, nsubset: nat)
    requires options.recursionIndex.Some? && |options.recursionIndex.value| >= nsubset
    requires ValidateOptions(options, nsubset).Ok?
    ensures var index := ValidateOptions(options, nsubset).value.recursionIndex.value;
      (index == Arange(nsubset) || index == Zeros(nsubset)) && ValidRecursionIndex(index, nsubset + 1)
  {
    var index := options.recursionIndex.value;
    var reduced := ValidateOptions(options, nsubset).value.recursionIndex.value;
    assert reduced == index[..nsubset];
    if index == Arange(|index|) {
      assert reduced == Arange(nsubset);
    } else {
      assert reduced == Zeros(nsubset);
    }
  }
}
