/** List and index helpers of pyapprox/utilities.py: extract_sub_list,
    flatten_2D_list, unique_matrix_rows and get_random_k_fold_sample_indices,
    with the integer ranges (numpy.arange) and sums the other modules share. */
module ListUtil {
  import opened Wrappers
  import Arith

  /** lo, lo+1, ..., lo+len-1: numpy.arange(lo, lo+len). */
  function Range(lo: nat, len: nat): (r: seq<nat>)
    ensures |r| == len
    ensures forall k :: 0 <= k < len ==> r[k] == lo + k
  {
    seq(len, k => lo + k)
  }

  /** The sum of a sequence of counts. */
  function Sum(n: seq<nat>): nat
  {
    if |n| == 0 then 0 else Sum(n[..|n| - 1]) + n[|n| - 1]
  }

  /** A longer prefix of counts never sums to less. */
  lemma {:induction false} SumPrefixMonotone(n: seq<nat>, i: nat, j: nat)
    requires i <= j <= |n|
    ensures Sum(n[..i]) <= Sum(n[..j])
    decreases j
  {
    if i < j {
      SumPrefixMonotone(n, i, j - 1);
      assert n[..j][..j - 1] == n[..j - 1];
    }
  }

  /** Every position is below the bound. */
  predicate AllBelow(s: seq<nat>, bound: nat)
  {
    forall p :: 0 <= p < |s| ==> s[p] < bound
  }

  /** extract_sub_list: the items of xs at the given positions, in the
      order of the positions (Python's negative positions are not modelled). */
  function ExtractSubList<T>(xs: seq<T>, indices: seq<nat>): (r: seq<T>)
    requires AllBelow(indices, |xs|)
    ensures |r| == |indices|
  {
    seq(|indices|, k requires 0 <= k < |indices| => xs[indices[k]])
  }

  /** Extracting at a contiguous range is slicing, and extracting at every
      position gives the list back. */
  lemma {:induction false} ExtractRange<T>(xs: seq<T>, lo: nat, len: nat)
    requires lo + len <= |xs|
    ensures ExtractSubList(xs, Range(lo, len)) == xs[lo..lo + len]
    ensures lo == 0 && len == |xs| ==> ExtractSubList(xs, Range(lo, len)) == xs
  {
  }

  /** Extraction distributes over concatenation of the position lists. */
  lemma {:induction false} ExtractConcat<T>(xs: seq<T>, a: seq<nat>, b: seq<nat>)
    requires AllBelow(a, |xs|) && AllBelow(b, |xs|)
    ensures ExtractSubList(xs, a + b) == ExtractSubList(xs, a) + ExtractSubList(xs, b)
  {
  }

  /** Extraction only looks at the positions it is given: a longer list
      that agrees on a prefix gives the same items. */
  lemma {:induction false} ExtractFromPrefix<T>(xs: seq<T>, ys: seq<T>, a: seq<nat>)
    requires |xs| <= |ys| && xs == ys[..|xs|]
    requires AllBelow(a, |xs|)
    ensures ExtractSubList(ys, a) == ExtractSubList(xs, a)
  {
  }

  /** flatten_2D_list: the items of every inner list, list after list. */
  function Flatten2D<T>(lists: seq<seq<T>>): seq<T>
  {
    if |lists| == 0 then [] else Flatten2D(lists[..|lists| - 1]) + lists[|lists| - 1]
  }

  /** The flattened list has as many items as the inner lists together. */
  function TotalLength<T>(lists: seq<seq<T>>): nat
  {
    if |lists| == 0 then 0 else TotalLength(lists[..|lists| - 1]) + |lists[|lists| - 1]|
  }

  lemma {:induction false} FlattenLength<T>(lists: seq<seq<T>>)
    ensures |Flatten2D(lists)| == TotalLength(lists)
  {
    if |lists| > 0 {
      FlattenLength(lists[..|lists| - 1]);
    }
  }

  /** Flattening distributes over concatenation of the outer list. */
  lemma {:induction false} FlattenConcat<T>(a: seq<seq<T>>, b: seq<seq<T>>)
    ensures Flatten2D(a + b) == Flatten2D(a) + Flatten2D(b)
    decreases |b|
  {
    if |b| == 0 {
      assert a + b == a;
    } else {
      var b' := b[..|b| - 1];
      assert (a + b)[..|a + b| - 1] == a + b';
      FlattenConcat(a, b');
    }
  }

  /** Appending x to one inner list adds x once to the flattened multiset. */
  lemma {:induction false} FlattenAppendOne<T>(lists: seq<seq<T>>, j: nat, x: T)
    requires j < |lists|
    ensures multiset(Flatten2D(lists[j := lists[j] + [x]]))
         == multiset(Flatten2D(lists)) + multiset{x}
  {
    var updated := lists[j := lists[j] + [x]];
    var init := lists[..|lists| - 1];
    if j == |lists| - 1 {
      assert updated[..|updated| - 1] == init;
    } else {
      assert updated[..|updated| - 1] == init[j := init[j] + [x]];
      FlattenAppendOne(init, j, x);
    }
  }

  // ---------------------------------------------------------------------
  // unique_matrix_rows (pyapprox/utilities.py:269-277)
  // ---------------------------------------------------------------------

  /** The rows of a matrix, each kept at its first occurrence, in order. */
  function FirstOccurrences<T(==)>(rows: seq<T>): seq<T>
  {
    if |rows| == 0 then []
    else
      var init := rows[..|rows| - 1];
      FirstOccurrences(init) + (if rows[|rows| - 1] in init then [] else [rows[|rows| - 1]])
  }

  /** The first occurrences hold every row exactly once. */
  lemma {:induction false} FirstOccurrencesCorrect<T>(rows: seq<T>)
    ensures forall x :: x in FirstOccurrences(rows) <==> x in rows
    ensures forall p, q :: 0 <= p < q < |FirstOccurrences(rows)|
              ==> FirstOccurrences(rows)[p] != FirstOccurrences(rows)[q]
  {
    if |rows| > 0 {
      var init := rows[..|rows| - 1];
      FirstOccurrencesCorrect(init);
      assert rows == init + [rows[|rows| - 1]];
    }
  }

  /** unique_matrix_rows with row equality in place of the row hash: scan the
      rows once, remembering those seen, and keep each unseen row. */
  method UniqueMatrixRows<T(==)>(matrix: seq<T>) returns (unique: seq<T>)
    ensures unique == FirstOccurrences(matrix)
    ensures forall x :: x in unique <==> x in matrix
    ensures forall p, q :: 0 <= p < q < |unique| ==> unique[p] != unique[q]
  {
    var seen: set<T> := {};
    unique := [];
    for ii := 0 to |matrix|
      invariant forall x :: x in seen <==> x in matrix[..ii]
      invariant unique == FirstOccurrences(matrix[..ii])
    {
      assert matrix[..ii + 1][..ii] == matrix[..ii];
      if matrix[ii] !in seen {
        seen := seen + {matrix[ii]};
        unique := unique + [matrix[ii]];
      }
      assert forall x :: x in matrix[..ii + 1] <==> x in matrix[..ii] || x == matrix[ii];
    }
    assert matrix[..|matrix|] == matrix;
    FirstOccurrencesCorrect(matrix);
  }

  // ---------------------------------------------------------------------
  // get_random_k_fold_sample_indices (pyapprox/utilities.py:1735-1749)
  // ---------------------------------------------------------------------

  /** p lists 0..n-1 in some order. */
  predicate IsPermutationOf(p: seq<nat>, n: nat)
  {
    |p| == n && multiset(p) == multiset(Range(0, n))
  }

  /** Fold j of a round-robin deal of `order` into k folds: the items at
      positions j, j+k, j+2k, ..., in order. */
  function RoundRobin(order: seq<nat>, k: nat, j: int): seq<nat>
    requires k > 0
  {
    if |order| == 0 then []
    else
      RoundRobin(order[..|order| - 1], k, j)
        + (if (|order| - 1) % k == j then [order[|order| - 1]] else [])
  }

  /** Dealt in order 0..n-1, fold j is ascending and holds exactly the
      i < n with i mod k == j, that is j, j+k, j+2k, .... */
  lemma {:induction false} RoundRobinOfRange(n: nat, k: nat, j: int)
    requires k > 0
    ensures forall i :: i in RoundRobin(Range(0, n), k, j) <==> 0 <= i < n && i % k == j
    ensures forall p, q :: 0 <= p < q < |RoundRobin(Range(0, n), k, j)|
              ==> RoundRobin(Range(0, n), k, j)[p] < RoundRobin(Range(0, n), k, j)[q]
  {
    if n > 0 {
      var prev := RoundRobin(Range(0, n - 1), k, j);
      var last: seq<nat> := if (n - 1) % k == j then [n - 1] else [];
      assert Range(0, n)[..n - 1] == Range(0, n - 1);
      assert RoundRobin(Range(0, n), k, j) == prev + last;
      RoundRobinOfRange(n - 1, k, j);
      forall p | 0 <= p < |prev| ensures prev[p] < n - 1 {
        assert prev[p] in prev;
      }
    }
  }

  /** Dealing one more item appends it to fold (position mod k) only. */
  lemma {:induction false} RoundRobinStep(order: seq<nat>, k: nat)
    requires k > 0 && |order| > 0
    ensures var init := order[..|order| - 1];
            var pos := (|order| - 1) % k;
            seq(k, j => RoundRobin(order, k, j))
              == seq(k, j => RoundRobin(init, k, j))[pos := RoundRobin(init, k, pos) + [order[|order| - 1]]]
  {
    var init := order[..|order| - 1];
    var pos := (|order| - 1) % k;
    var after := seq(k, j => RoundRobin(order, k, j));
    var before := seq(k, j => RoundRobin(init, k, j));
    forall j | 0 <= j < k
      ensures after[j] == before[pos := before[pos] + [order[|order| - 1]]][j]
    {
    }
  }

  /** Dealing item nn to fold nn mod k extends the folds of the first nn
      items to those of the first nn + 1. */
  lemma {:induction false} RoundRobinDeal(order: seq<nat>, k: nat, nn: nat, folds: seq<seq<nat>>, pre: seq<nat>)
    requires k > 0 && nn < |order| && |folds| == k && pre == order[..nn + 1]
    requires forall j :: 0 <= j < k ==> folds[j] == RoundRobin(order[..nn], k, j)
    ensures forall j :: 0 <= j < k ==>
              folds[nn % k := folds[nn % k] + [order[nn]]][j] == RoundRobin(pre, k, j)
  {
    assert pre[..nn] == order[..nn];
    forall j | 0 <= j < k
      ensures folds[nn % k := folds[nn % k] + [order[nn]]][j] == RoundRobin(pre, k, j)
    {
      assert RoundRobin(pre, k, j) == RoundRobin(order[..nn], k, j) + (if nn % k == j then [order[nn]] else []);
    }
  }

  /** Every item of `order` lands in exactly one fold. */
  lemma {:induction false} RoundRobinPartitions(order: seq<nat>, k: nat)
    requires k > 0
    ensures multiset(Flatten2D(seq(k, j => RoundRobin(order, k, j)))) == multiset(order)
  {
    if |order| == 0 {
      FlattenOfEmpties(seq(k, j => RoundRobin(order, k, j)));
    } else {
      var init := order[..|order| - 1];
      var x := order[|order| - 1];
      var pos := (|order| - 1) % k;
      var before := seq(k, j => RoundRobin(init, k, j));
      var after := seq(k, j => RoundRobin(order, k, j));
      RoundRobinPartitions(init, k);
      RoundRobinStep(order, k);
      assert before[pos] == RoundRobin(init, k, pos);
      assert after == before[pos := before[pos] + [x]];
      FlattenAppendOne(before, pos, x);
      InitLast(order);
      assert multiset(order) == multiset(init) + multiset{x};
    }
  }

  lemma {:induction false} InitLast<T>(s: seq<T>)
    requires |s| > 0
    ensures s == s[..|s| - 1] + [s[|s| - 1]]
  {
  }

  lemma {:induction false} FlattenOfEmpties<T>(lists: seq<seq<T>>)
    requires forall j :: 0 <= j < |lists| ==> lists[j] == []
    ensures Flatten2D(lists) == []
  {
    if |lists| > 0 {
      FlattenOfEmpties(lists[..|lists| - 1]);
    }
  }

  /** Counting on from a multiple of k. */
  lemma {:induction false} ModStep(start: nat, jj: nat, k: nat)
    requires k > 0 && start % k == 0 && jj <= k
    ensures jj < k ==> (start + jj) % k == jj
    ensures jj == k ==> (start + jj) % k == 0
  {
    var q := start / k;
    assert start == q * k;
    if jj < k {
      Arith.DivModUnique(start + jj, k, q, jj);
    } else {
      Arith.DivModUnique(start + jj, k, q + 1, 0);
    }
  }

  /** get_random_k_fold_sample_indices. The shuffled order of the samples
      (numpy.random.permutation when random=True) is the parameter
      `shuffled`; None is random=False, the order 0..nsamples-1. The source
      loops forever (or fails in numpy.hstack) when nfolds is 0. */
  method KFoldSampleIndices(nsamples: nat, nfolds: nat, shuffled: Option<seq<nat>>)
    returns (folds: seq<seq<nat>>)
    requires nfolds > 0
    requires shuffled.Some? ==> IsPermutationOf(shuffled.value, nsamples)
    ensures |folds| == nfolds
    ensures shuffled.Some? ==> forall j :: 0 <= j < nfolds ==> folds[j] == RoundRobin(shuffled.value, nfolds, j)
    ensures shuffled.None? ==> forall j :: 0 <= j < nfolds ==> folds[j] == RoundRobin(Range(0, nsamples), nfolds, j)
    ensures shuffled.None? ==> forall j, i :: 0 <= j < nfolds ==> (i in folds[j] <==> 0 <= i < nsamples && i % nfolds == j)
    // the check at :1748: the folds together hold 0..nsamples-1, each once
    ensures multiset(Flatten2D(folds)) == multiset(Range(0, nsamples))
  {
    var order := if shuffled.Some? then shuffled.value else Range(0, nsamples);
    assert |order| == nsamples;
    folds := seq(nfolds, j => []);
    var nn := 0;
    while nn < nsamples
      invariant 0 <= nn <= nsamples
      invariant nn < nsamples ==> nn % nfolds == 0
      invariant |folds| == nfolds
      invariant forall j :: 0 <= j < nfolds ==> folds[j] == RoundRobin(order[..nn], nfolds, j)
    {
      ghost var start := nn;
      var jj := 0;
      while jj < nfolds
        invariant 0 <= jj <= nfolds
        invariant nn == start + jj && nn < nsamples && start % nfolds == 0
        invariant |folds| == nfolds
        invariant forall j :: 0 <= j < nfolds ==> folds[j] == RoundRobin(order[..nn], nfolds, j)
      {
        ModStep(start, jj, nfolds);
        RoundRobinDeal(order, nfolds, nn, folds, order[..nn + 1]);
        folds := folds[jj := folds[jj] + [order[nn]]];
        nn := nn + 1;
        if nn >= nsamples {
          break;
        }
        jj := jj + 1;
      }
      ModStep(start, jj, nfolds);
    }
    assert order[..nn] == order;
    assert folds == seq(nfolds, j => RoundRobin(order, nfolds, j));
    RoundRobinPartitions(order, nfolds);
    if shuffled.None? {
      forall j | 0 <= j < nfolds {
        RoundRobinOfRange(nsamples, nfolds, j);
      }
    }
  }
}
