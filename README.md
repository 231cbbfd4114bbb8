# ACV sample allocation and index utilities, in Dafny

This project models two parts of pyapprox.

The first is the integer and combinatorial skeleton of the approximate
control variate (ACV) estimators in
`pyapprox/multifidelity/multioutput_monte_carlo.py`:

- the allocation matrices of the GMF, GIS and GRD estimators, built in place from a
  recursion index;
- the split of the independent samples into partitions;
- the per-model sample counts;
- sample generation, including pilot samples;
- the separation of each model's values into its two ACV subsets, and their
  recombination;
- the insertion of pilot values;
- the recursion-index, covariance and per-model count checks;
- the control-variate (CV) allocation rule;
- the conversions between partition ratios and model ratios, including those of
  MFMC and MLMC;
- the choice of the best recursion index;
- the reduction of the options of an estimator to a subset of its models.

The second is a set of integer utilities in `pyapprox/utilities.py`:

- column-major `sub2ind`/`ind2sub`;
- permutation inversion and row pivoting;
- triangular entry counts and the flattened lower-triangular index;
- prime generation;
- round-robin k-fold splitting;
- dyadic grid sizes;
- first-occurrence row deduplication;
- list extraction and flattening.

## How the model is organised

The Dafny modules follow the source:

- **Allocation matrices.** `AllocationMatrix` has one builder method per estimator
  kind. Each fills an `array2<int>`, as the numpy code fills its matrix. Each is
  proved against a closed form `Matrix(kind, r, M)`. A recursion index entry in
  `-M .. M-1` is read the way numpy reads a negative column index.
- **Partitions, subsets and recombination.** `AcvPartition` holds the functions over
  partition counts and allocation rows that specify these operations. It also holds
  the loop methods of `_combine_acv_values` and
  `_get_partition_indices_per_acv_subset`, and the separate/combine round trip.
- **The estimator.** `AcvEstimator.Estimator` is a class with the fields the source
  mutates: `allocationMat`, `recursionIndex`, `roundedNPartitionSamples` and
  `roundedNSamplesPerModel`. Its methods are `_set_recursion_index`, the
  per-model counts, sample generation, separation, combination and pilot
  insertion.
- **Ratios.** `Ratios` models the ratio conversions with exact `real`s.
- **Checks and choices.** `EstimatorSelection` holds the covariance check, the CV
  rule, the recursion-index sweep and the option reduction.
- **Utilities.** `IndexUtil`, `Primes`, `Triangular` and `ListUtil` model
  `utilities.py`.

How the model maps the source's behaviour:

- **Errors.** A `ValueError` or `RuntimeError` that the source raises becomes an
  error value of a `Result` or `Outcome`.
- **Assertions.** An `assert` in the source becomes a precondition.
- **The count check.** The `RuntimeError` check in `generate_samples_per_model`
  compares each model's number of indices with its count. It is proved never to
  fail.

## Model

| member | source | states |
|---|---|---|
| AllocationMatrix.Matrix | pyapprox/multifidelity/multioutput_monte_carlo.py:92-125 | The allocation matrix of each kind has M rows of 2M 0/1 entries, and every entry equals its closed form. |
| AllocationMatrix.BuildGrd | pyapprox/multifidelity/multioutput_monte_carlo.py:117-125 | Filling a zero matrix gives the following. Column 2m+1 is the unit vector at m. For m >= 1, column 2m is a copy of the parent's column `2*r[m-1]+1`, read with numpy's wrap, so it is the unit vector at the parent. Column 0 stays zero. |
| AllocationMatrix.LastOneInColumn | pyapprox/multifidelity/multioutput_monte_carlo.py:99 | The scan returns the row of the last 1 in the column. No row below it holds a 1. |
| AllocationMatrix.BuildGmf | pyapprox/multifidelity/multioutput_monte_carlo.py:92-102 | After the GRD steps, every column from 2 on is filled with ones above its last 1. So column 2m holds ones in rows 0..parent and column 2m+1 in rows 0..m. |
| AllocationMatrix.BuildGis | pyapprox/multifidelity/multioutput_monte_carlo.py:105-114 | After the GRD steps, column 2m+1 becomes the elementwise max of columns 2m and 2m+1. It has ones exactly at m and at the parent. |
| AllocationMatrix.Build | pyapprox/multifidelity/multioutput_monte_carlo.py:1293-1319 | Each estimator kind builds a fresh M x 2M matrix whose rows are `Matrix(kind, r, M)`. |
| AllocationMatrix.ParentColumn | pyapprox/multifidelity/multioutput_monte_carlo.py:96-97 | The copied column index `2*r[m-1]+1` is within numpy's bounds. After the wrap it is the plain column of the parent model. |
| AllocationMatrix.StarredSets | pyapprox/multifidelity/multioutput_monte_carlo.py:92-125 | In GMF and GRD, a model's starred column equals its parent's plain column. In GIS, every model's plain column dominates its starred column. |
| AllocationMatrix.FirstModelOnlyFirstPartition | pyapprox/multifidelity/multioutput_monte_carlo.py:92-125 | For every kind, the high-fidelity model's sample count is n[0]: it evaluates partition 0 and nothing else. |
| AllocationMatrix.RecursiveModelNSamples | pyapprox/multifidelity/multioutput_monte_carlo.py:851-855 | For GIS and GRD, model m >= 1 takes n[m] + n[parent] samples, or n[m] when its parent is itself. |
| AllocationMatrix.GmfModelNSamples | pyapprox/multifidelity/multioutput_monte_carlo.py:851-855 | For GMF, model m >= 1 takes the samples of partitions 0..max(m, parent). |
| AcvPartition.PartitionIndicesTile | pyapprox/multifidelity/multioutput_monte_carlo.py:648-660 | Partition j is the contiguous range that starts at n[0]+...+n[j-1] and has n[j] elements. Together the partitions cover 0..sum(n)-1 in order. |
| AcvPartition.ModelSampleIndicesCount | pyapprox/multifidelity/multioutput_monte_carlo.py:838-844 | A model's concatenated partition indices number the sum of the counts of its active partitions. They are strictly increasing and below sum(n). |
| AcvPartition.SubsetIndicesLength | pyapprox/multifidelity/multioutput_monte_carlo.py:683-709 | A subset's local indices number the sum of the counts of the partitions that its column marks. |
| AcvPartition.SubsetIndicesBelow | pyapprox/multifidelity/multioutput_monte_carlo.py:683-709 | Every local index of the starred or plain subset is below the model's sample count, so it names one of the model's rows. |
| AcvPartition.LocalRanges | pyapprox/multifidelity/multioutput_monte_carlo.py:683-692 | The running `lb`/`ub` loop gives each active partition the range of its local positions within the model's samples. |
| AcvPartition.ModelSubsets | pyapprox/multifidelity/multioutput_monte_carlo.py:683-710 | The two index lists of model ii are the gathered local ranges of its starred and plain partitions. |
| AcvPartition.PartitionIndicesPerAcvSubset | pyapprox/multifidelity/multioutput_monte_carlo.py:662-711 | The result has 2M index lists. The first is empty, the second is partition 0, and then come the starred and plain lists of each model m >= 1. |
| AcvPartition.AcvSubsetInBounds | pyapprox/multifidelity/multioutput_monte_carlo.py:794-799 | Every index of subset k lies within the values of model k/2. |
| AcvPartition.CheckSampleCounts | pyapprox/multifidelity/multioutput_monte_carlo.py:782-789 | The check passes iff every model has as many rows as its count. Otherwise it names the first model that differs, with its row count and its expected count. |
| AcvPartition.SeparateValues | pyapprox/multifidelity/multioutput_monte_carlo.py:772-800 | Separation succeeds iff the number of models and every model's row count match the counts. A wrong number of models is reported with both numbers. On success it gives 2M subsets. |
| AcvPartition.SeparateValuesOk | pyapprox/multifidelity/multioutput_monte_carlo.py:794-800 | When the counts match, each subset k is model k/2's values at that subset's indices. |
| AcvPartition.CombineModelRows | pyapprox/multifidelity/multioutput_monte_carlo.py:40-57 | The `lb`/`ub`/`found` loop takes each active partition's block once: from the starred values when the partition is starred, otherwise from the plain values. |
| AcvPartition.CombineAcvValues | pyapprox/multifidelity/multioutput_monte_carlo.py:29-58 | Model 0 gets its plain values. Every other model gets the concatenated blocks that CombineModelRows specifies. |
| AcvPartition.CombineOfSeparated | pyapprox/multifidelity/multioutput_monte_carlo.py:29-58 | Combining the starred and plain subsets cut from a model's values gives back exactly those values. |
| AcvPartition.CombineSeparatedModel | pyapprox/multifidelity/multioutput_monte_carlo.py:29-58 | For every model, the combination of its two separated subsets is its original value rows. |
| AcvPartition.SeparateThenCombine | pyapprox/multifidelity/multioutput_monte_carlo.py:772-800 | Whenever the row counts match, separation succeeds, and combining its result returns the original values of every model. |
| AcvPartition.PilotCounts | pyapprox/multifidelity/multioutput_monte_carlo.py:831-836 | Removing p pilot samples from partition 0 lowers by p the count of every model that uses partition 0. It leaves the other counts unchanged. |
| AcvEstimator.FirstOutOfRange | pyapprox/multifidelity/multioutput_monte_carlo.py:96-97 | It returns the first recursion-index entry that numpy cannot use as a column index, or None when every entry is within -M..M-1. |
| AcvEstimator.SumLowerFirst | pyapprox/multifidelity/multioutput_monte_carlo.py:825-835 | The draws left after p pilot samples number sum(n) - p. |
| AcvEstimator.DrawsOfModel | pyapprox/multifidelity/multioutput_monte_carlo.py:838-848 | Each model receives exactly as many draws as its sample count. |
| AcvEstimator.PilotValuesRestoreCounts | pyapprox/multifidelity/multioutput_monte_carlo.py:525-539 | Start from values that match the counts without the pilot samples. Prepend the pilot rows to the models that use partition 0. The result matches the full counts. |
| AcvEstimator.Estimator.constructor | pyapprox/multifidelity/multioutput_monte_carlo.py:627-632 | Without a recursion index, the estimator starts from the all-zero index, with its matrix built and no counts set. |
| AcvEstimator.Estimator.SetRecursionIndex | pyapprox/multifidelity/multioutput_monte_carlo.py:916-936 | None means all zeros. A wrong length fails with the given and expected lengths. An entry out of numpy's range fails at the first such entry. Both failures leave index and matrix unchanged. On success the index is set and a fresh matrix is built from it. |
| AcvEstimator.Estimator.ComputeNSamplesPerModel | pyapprox/multifidelity/multioutput_monte_carlo.py:864-869 | The loop gives each model the sum of the counts of its active partitions. |
| AcvEstimator.Estimator.SetOptimizedParams | pyapprox/multifidelity/multioutput_monte_carlo.py:1232-1238 | It records the rounded partition counts and the per-model counts they give. The index and the matrix are unchanged. |
| AcvEstimator.Estimator.ModelIndices | pyapprox/multifidelity/multioutput_monte_carlo.py:838-842 | A model's sample indices are the partition ranges of its active partitions, concatenated in order. |
| AcvEstimator.Estimator.GenerateSamplesPerModel | pyapprox/multifidelity/multioutput_monte_carlo.py:824-849 | It fails iff npilot exceeds partition 0. Otherwise partition 0 is lowered by npilot, and every model gets the draws at its indices, exactly its count. |
| AcvEstimator.Estimator.SamplesOfModel | pyapprox/multifidelity/multioutput_monte_carlo.py:838-848 | The number of indices equals the model's count, so the RuntimeError is never raised. The model's samples are the draws at those indices. |
| AcvEstimator.Estimator.SeparateValuesPerModel | pyapprox/multifidelity/multioutput_monte_carlo.py:772-800 | The estimator's separation is AcvPartition.SeparateValues on its matrix and its rounded counts. |
| AcvEstimator.Estimator.CombineAcvValues | pyapprox/multifidelity/multioutput_monte_carlo.py:943-945 | The estimator's combination is the recombination on its matrix and its rounded counts. |
| AcvEstimator.Estimator.InsertPilotValues | pyapprox/multifidelity/multioutput_monte_carlo.py:525-539 | Models that use partition 0 get the pilot rows followed by their values. The others keep their values. |
| Ratios.PartitionRatiosToModelRatios | pyapprox/multifidelity/multioutput_monte_carlo.py:713-730 | Model m's ratio is the sum of the ratios of its active partitions 1..M-1, plus 1 when it uses partition 0. |
| Ratios.NPartitionSamplesFromRatios | pyapprox/multifidelity/multioutput_monte_carlo.py:732-747 | The high-fidelity count n[0] times the cost per high-fidelity sample is the target cost. Every other partition holds its ratio times n[0]. |
| Ratios.CostPerHighFidelitySamplePositive | pyapprox/multifidelity/multioutput_monte_carlo.py:732-736 | With positive costs and nonnegative ratios, the divisor in the high-fidelity count is positive. |
| Ratios.EstimatorCostScale | pyapprox/multifidelity/multioutput_monte_carlo.py:1191-1194 | When model 0 uses only partition 0, the estimator cost of ratio-scaled counts is n[0] times (cost[0] + sum of model ratios times costs). |
| Ratios.NPartitionSamplesMeetTarget | pyapprox/multifidelity/multioutput_monte_carlo.py:738-747 | The partition counts computed from the ratios cost exactly the target. |
| Ratios.MfmcTelescopes | pyapprox/multifidelity/multioutput_monte_carlo.py:1349-1351 | The first k MFMC partition ratios sum to ratios[k-1] - 1. |
| Ratios.MfmcRoundTrip | pyapprox/multifidelity/multioutput_monte_carlo.py:1349-1351 | Convert MFMC ratios to partition ratios, then back to model ratios through the GMF matrix of the chain index. This gives the MFMC ratios back. |
| Ratios.MlmcRoundTrip | pyapprox/multifidelity/multioutput_monte_carlo.py:1401-1405 | Partition ratios satisfying the MLMC recurrence give back the MLMC ratios through the GRD matrix of the chain index. |
| Ratios.MlmcPartitionRatios | pyapprox/multifidelity/multioutput_monte_carlo.py:1401-1405 | The loop's partition ratios are converted back through the GRD matrix of the chain index, and this gives the input ratios. |
| EstimatorSelection.CheckCov | pyapprox/multifidelity/multioutput_monte_carlo.py:196-204 | It succeeds iff there is a model and the row count is a multiple of the model count. On success, the model count times nqoi is the row count. |
| EstimatorSelection.CostOfUniform | pyapprox/multifidelity/multioutput_monte_carlo.py:427-429 | Taking n samples of every model costs n times the summed costs. |
| EstimatorSelection.CvAllocateSamples | pyapprox/multifidelity/multioutput_monte_carlo.py:411-431 | In exact arithmetic, it succeeds iff the target pays for 2 samples of every model (1 when no variance is estimated). Every model then gets the same count n, and n times the cost sum is at most the target and within one cost sum of it. |
| EstimatorSelection.SelectBestRecursion | pyapprox/multifidelity/multioutput_monte_carlo.py:1248-1281 | Without allowed failures, the first failed candidate aborts the sweep. Otherwise the result is the first candidate with the smallest criterion. When failures are allowed or none occurs, and no candidate succeeds (including an empty sweep), the error is "no solutions". |
| EstimatorSelection.ValidateOptions | pyapprox/multifidelity/multioutput_monte_carlo.py:1442-1461 | A recursion index other than the chain or the star is refused. An accepted one is cut to its first nsubset entries. A tree depth becomes min(depth, nsubset). |
| EstimatorSelection.ValidatedIndexIsValid | pyapprox/multifidelity/multioutput_monte_carlo.py:1442-1461 | An accepted index of length at least nsubset becomes the chain or the star on nsubset + 1 models, which is a valid recursion index. |
| IndexUtil.Sub2Ind | pyapprox/utilities.py:17-69 | The accumulator loop gives the column-major index `sum of x[i] * prod(sizes[..i])`. It is below prod(sizes) when x is in range. |
| IndexUtil.Ind2Sub | pyapprox/utilities.py:72-127 | The loop gives the column-major digits of the scalar index. For an index below num_elems, these are in range and Sub2Ind maps them back to it. |
| IndexUtil.DigitsOfColumnMajor | pyapprox/utilities.py:17-127 | ind2sub(sub2ind(x)) == x for every in-range multi-index. |
| IndexUtil.ColumnMajorOfDigits | pyapprox/utilities.py:17-127 | sub2ind(ind2sub(s)) == s for every s below prod(sizes). |
| IndexUtil.InvertPermutationVector | pyapprox/utilities.py:368-391 | An empty vector fails, as `np.max` raises ValueError. For a non-empty permutation p, the result satisfies pt[p[i]] == i and p[pt[j]] == j, and it is itself a permutation. |
| IndexUtil.SwapRows | pyapprox/utilities.py:907-908 | Rows ii and jj are exchanged and nothing else changes. |
| IndexUtil.PivotRows | pyapprox/utilities.py:911-918 | The swaps i with pivots[i] are applied in order, in place. |
| IndexUtil.ApplyPivotsPermutes | pyapprox/utilities.py:911-918 | Pivoting permutes the rows. |
| IndexUtil.ApplyPivotsUntouched | pyapprox/utilities.py:911-918 | A row beyond the pivots that no pivot names is unchanged. |
| IndexUtil.GetFinalPivotsFromSequentialPivots | pyapprox/utilities.py:921-927 | The final pivots are the sequential pivots applied to 0..num_pivots-1, and they form a permutation of it. |
| Primes.TrialDivision | pyapprox/utilities.py:1314-1320 | Trial division by 2..isqrt(num) finds no divisor iff num is prime. |
| Primes.AllPrimesUpTo | pyapprox/utilities.py:1298-1304 | As written: the primes up to max(n, 2), in increasing order. So n < 2, negative n included, gives [2]. |
| Primes.AllPrimesUpToCorrected | pyapprox/utilities.py:1298-1304 | Exactly the primes <= n, strictly increasing. |
| Primes.FirstNPrimes | pyapprox/utilities.py:1307-1323 | As written: the first max(n, 1) primes, in order and with no prime skipped. So n <= 0 gives [2]. |
| Primes.FirstNPrimesCorrected | pyapprox/utilities.py:1307-1323 | Exactly n primes, strictly increasing, with no prime below the last one missing. |
| Primes.PrimeAbove | pyapprox/utilities.py:1311-1322 | There is a prime above every k, so the candidate loop ends. |
| Triangular.SquareWithDiagonal | pyapprox/utilities.py:1568-1573 | N(N+1)/2 counts the entries of a lower (or upper) N x N triangle with its diagonal. |
| Triangular.SquareWithoutDiagonal | pyapprox/utilities.py:1568-1573 | N(N-1)/2 counts the entries strictly below the diagonal. |
| Triangular.RectangularCountsEntries | pyapprox/utilities.py:1576-1596 | For M >= N, the upper count tri(N) is the number of entries (i, j) of an M x N matrix with i <= j. The lower count tri(M) - tri(M-N) is the number of entries with j <= i. |
| Triangular.LowerWideRows | pyapprox/utilities.py:1576-1596 | An M x N lower triangle holds tri(N) entries plus N for each of the M - N rows below the square. |
| Triangular.FlattenedLowerIndex | pyapprox/utilities.py:1599-1610 | The flattened index is the number of lower-triangular entries in the rows above ii, plus jj. This includes ii = 0, which gives 0. |
| Triangular.FlattenedLowerIndexInRow | pyapprox/utilities.py:1599-1610 | Row ii's entries get the consecutive flattened indices that follow the rows above it. |
| Triangular.FlattenedLowerIndexInjective | pyapprox/utilities.py:1599-1610 | Distinct lower-triangular positions get distinct flattened indices, all below the lower count. |
| Triangular.DyadicGridRefines | pyapprox/utilities.py:2152-2168 | A level-l grid with l >= 1 has an odd number of points. The next level has 2·n - 1 points, so it keeps every point and adds one between each pair. |
| ListUtil.ExtractRange | pyapprox/utilities.py:2032-2049 | Extracting a contiguous index range gives the slice. Extracting all indices gives the list. |
| ListUtil.ExtractConcat | pyapprox/utilities.py:2032-2049 | Extracting by a concatenation of index lists concatenates the extractions. |
| ListUtil.FlattenLength | pyapprox/utilities.py:2069-2083 | The flattened list is as long as all the sub-lists together. |
| ListUtil.FlattenConcat | pyapprox/utilities.py:2069-2083 | Flattening distributes over concatenation. |
| ListUtil.UniqueMatrixRows | pyapprox/utilities.py:269-277 | The loop keeps the first occurrence of each row, in order. The result holds every row of the matrix and no two equal rows. |
| ListUtil.RoundRobinOfRange | pyapprox/utilities.py:1735-1749 | Without shuffling, fold j holds exactly the i < nsamples with i mod nfolds == j, increasing. |
| ListUtil.RoundRobinPartitions | pyapprox/utilities.py:1735-1749 | The folds together are a permutation of the sample order. |
| ListUtil.KFoldSampleIndices | pyapprox/utilities.py:1735-1749 | The nested loop deals the samples round-robin. The folds together hold each of 0..nsamples-1 exactly once, which is the assertion at the end. |

## Left out

- **Floating-point numerics.** The discrepancy covariances, the estimator weights
  (`pinv`), the log-determinant and trace criteria, and the SLSQP/trust-constr
  optimisation with torch autograd are floating-point work. The ratio conversions
  use exact `real`s, so they have no rounding.
- `_round_partition_ratios` and the float rounding in `_set_optimized_params`: the
  1e-8 adjustment, `np.floor` and `np.round` are float operations.
  `SetOptimizedParams` takes the rounded integer partition counts.
- **Bootstrap.** The bootstrap branches of `_get_partition_indices_per_acv_subset`
  and `bootstrap` draw from `np.random`.
- **Randomness.** The `rvs` callable of `generate_samples_per_model` becomes the
  sequence of draws it returns. The shuffle in `get_random_k_fold_sample_indices`
  (random=True) becomes a given permutation.
- **MFMC and MLMC matrices.** `_get_sample_allocation_matrix_mfmc` and
  `_get_sample_allocation_matrix_mlmc` are not part of this model. The MFMC and MLMC round
  trips are stated against GMF and GRD with the chain recursion index 0, 1, ..., M-2.
- **Tree search.** The enumeration of recursion indices (`_get_acv_recursion_indices`)
  and the per-index optimisation are not part of this model.
  `SelectBestRecursion` receives each candidate's outcome: a criterion, or a
  failure.
- EstimatorSelection.SelectBestRecursion: a successful candidate's criterion is a finite
  real. In the source, the sweep starts from `best_criteria = inf` and tests
  `self._optimized_criteria < best_criteria` strictly, so a candidate whose criterion
  is `inf` or `nan` never wins. Such criteria are not modelled.
- **The tree_depth constructor path.** The constructor path with `tree_depth`, and
  the error for giving both `tree_depth` and `recursion_index`, are not modelled.
  The constructor models the path without a recursion index.
- `_combine_acv_samples`: it is the column-wise twin of `_combine_acv_values`.
  Only the values version is modelled.
- `_separate_samples_per_model`: likewise, only the values version is modelled.
- **Empty stacks.** `np.vstack`/`np.hstack` of an empty list would raise. This
  cannot happen here, because every model has at least one active partition.
- EstimatorSelection.ValidateOptions: `np.allclose` is modelled as exact equality.
  This is the same for integer recursion indices.
- EstimatorSelection.CvAllocateSamples: requires positive costs. With a zero cost
  sum, the source divides a float by zero.
- EstimatorSelection.CvAllocateSamples: the count floor(target / sum(costs)) is computed
  over exact reals. The source divides floats and applies `np.floor`, so at a boundary
  it can round down one further. For example, with target 0.6, costs [0.1, 0.2] and a
  variance estimated, the float quotient is 1.9999999999999996. The source then takes
  1 sample and raises ValueError, while the model takes 2.
- **Allocation outputs.** The statistic type is reduced to whether a variance is
  estimated. The stored optimized covariance and criteria are left out.
- IndexUtil.Ind2Sub: Python's float division `/` followed by `int()` is modelled as
  integer division. The two agree while the sizes' product fits in 2^53.
- Primes.TrialDivision: `int(num**.5)` is modelled as the exact integer square root,
  bounded by `d * d <= num`.
- Triangular.SquareWithDiagonal: `int(N*(N+1)/2)` is modelled with integer division.
  The product is even, so the two agree below 2^53.
- Triangular.RectangularTriangularCount: the model follows the code, not the loop nests in the docstring at pyapprox/utilities.py:1580-1588. The upper nest `for ii in range(M): for jj in range(ii+1)` visits tri(M) entries, but the code returns tri(N). The lower nest visits tri(N) entries, but the code returns tri(M) - tri(M-N). For M = 3 and N = 1, the upper nest visits 6 entries and the code returns 1. The counts the code returns are the upper and lower entries of an M x N matrix.
- ListUtil.KFoldSampleIndices: requires nfolds > 0. With nfolds = 0 and nsamples > 0, the `while` loop never advances and the source does not terminate. With both 0, `np.hstack` of an empty list raises ValueError. Neither behaviour is modelled.
- ListUtil.ExtractSubList: Python's negative positions, which count from the end of the list, are not modelled. Positions must be below the list's length.
- Ratios.NPartitionSamplesFromRatios: requires a nonzero cost per high-fidelity sample. The source divides floats, so a zero divisor gives inf or nan and raises nothing. With positive costs and nonnegative ratios the divisor is positive (CostPerHighFidelitySamplePositive).
- AcvEstimator.Estimator.GenerateSamplesPerModel: the source calls `rvs(sum(n) - npilot)` before it compares npilot with n[0]. The model checks first and takes the draws as a parameter. So the call of `rvs` with a negative count, when npilot exceeds sum(n), is not modelled.
- **Hashing.** `hash_array` is replaced by row equality in `unique_matrix_rows`.
- **Concurrency and plotting.** `BestEstimator`'s multiprocessing search and the
  plotting helpers are left out.

## Findings

| source | as written | input that shows it | evidently intended | confidence | as-written member | corrected member |
|---|---|---|---|---|---|---|
| pyapprox/utilities.py:1298-1304 | 2 is appended before the loop, whatever n is | n = 0 or n = 1 returns [2], a prime larger than n | the primes <= n, empty for n < 2 | medium, not executed | Primes.AllPrimesUpTo | Primes.AllPrimesUpToCorrected |
| pyapprox/utilities.py:1307-1323 | 2 is appended before the `while len(primes) < n` loop | n = 0 returns [2], one prime | exactly n primes | medium, not executed | Primes.FirstNPrimes | Primes.FirstNPrimesCorrected |
