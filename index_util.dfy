/** Index and permutation utilities of pyapprox/utilities.py: column-major
    sub2ind/ind2sub, invert_permutation_vector, and the sequential row
    pivoting of swap_rows, pivot_rows and get_final_pivots_from_sequential_pivots. */
module IndexUtil {
  import opened Wrappers
  import opened ListUtil
  import Arith

  // ---------------------------------------------------------------------
  // sub2ind / ind2sub (pyapprox/utilities.py:17-127)
  // ---------------------------------------------------------------------

  /** The product of the sizes: the number of entries of the array. */
  function Prod(sizes: seq<nat>): nat
  {
    if |sizes| == 0 then 1 else Prod(sizes[..|sizes| - 1]) * sizes[|sizes| - 1]
  }

  predicate AllPositive(sizes: seq<nat>)
  {
    forall i :: 0 <= i < |sizes| ==> sizes[i] > 0
  }

  /** Every coordinate lies within its dimension. */
  predicate InRange(sizes: seq<nat>, multiIndex: seq<nat>)
  {
    |multiIndex| == |sizes| && forall i :: 0 <= i < |sizes| ==> multiIndex[i] < sizes[i]
  }

  /** Column-major flat position: sum over i of multiIndex[i] times the
      product of the sizes before i (the first coordinate varies fastest). */
  function ColumnMajor(sizes: seq<nat>, multiIndex: seq<nat>): nat
    requires |multiIndex| == |sizes|
  {
    if |sizes| == 0 then 0
    else
      ColumnMajor(sizes[..|sizes| - 1], multiIndex[..|sizes| - 1])
        + Prod(sizes[..|sizes| - 1]) * multiIndex[|sizes| - 1]
  }

  /** The coordinates of flat position s, last coordinate first: the last is
      the quotient by the product of the earlier sizes, the rest come from
      the remainder. */
  function Digits(sizes: seq<nat>, s: nat): (r: seq<nat>)
    requires AllPositive(sizes)
    ensures |r| == |sizes|
  {
    if |sizes| == 0 then []
    else
      var init := sizes[..|sizes| - 1];
      ProdPositive(init);
      Digits(init, s % Prod(init)) + [s / Prod(init)]
  }

  lemma {:induction false} ProdPositive(sizes: seq<nat>)
    requires AllPositive(sizes)
    ensures Prod(sizes) > 0
  {
    if |sizes| > 0 {
      ProdPositive(sizes[..|sizes| - 1]);
      Arith.MulMono(1, Prod(sizes[..|sizes| - 1]), sizes[|sizes| - 1]);
    }
  }

  /** A column-major position of an in-range index is below the number of
      entries. */
  lemma {:induction false} ColumnMajorBound(sizes: seq<nat>, x: seq<nat>)
    requires InRange(sizes, x)
    ensures ColumnMajor(sizes, x) < Prod(sizes)
  {
    if |sizes| > 0 {
      var d := |sizes| - 1;
      var init := sizes[..d];
      ColumnMajorBound(init, x[..d]);
      Arith.MulMono(x[d], sizes[d] - 1, Prod(init));
      assert Prod(init) * (sizes[d] - 1) + Prod(init) == Prod(init) * sizes[d];
    }
  }

  /** ind2sub inverts sub2ind: the coordinates of the position of an
      in-range index are that index. */
  lemma {:induction false} DigitsOfColumnMajor(sizes: seq<nat>, x: seq<nat>)
    requires AllPositive(sizes) && InRange(sizes, x)
    ensures Digits(sizes, ColumnMajor(sizes, x)) == x
  {
    if |sizes| > 0 {
      var d := |sizes| - 1;
      var init := sizes[..d];
      var rest := ColumnMajor(init, x[..d]);
      ColumnMajorBound(init, x[..d]);
      Arith.DivModUnique(ColumnMajor(sizes, x), Prod(init), x[d], rest);
      DigitsOfColumnMajor(init, x[..d]);
      assert x == x[..d] + [x[d]];
    }
  }

  /** sub2ind inverts ind2sub: every position below the number of entries
      has in-range coordinates whose position it is. */
  lemma {:induction false} ColumnMajorOfDigits(sizes: seq<nat>, s: nat)
    requires AllPositive(sizes) && s < Prod(sizes)
    ensures InRange(sizes, Digits(sizes, s))
    ensures ColumnMajor(sizes, Digits(sizes, s)) == s
  {
    if |sizes| > 0 {
      var d := |sizes| - 1;
      var init := sizes[..d];
      ProdPositive(init);
      var p := Prod(init);
      ColumnMajorOfDigits(init, s % p);
      var q, r := s / p, s % p;
      var digits := Digits(sizes, s);
      assert digits == Digits(init, r) + [q];
      assert digits[..d] == Digits(init, r);
      QuotientBelow(s, p, sizes[d]);
      assert ColumnMajor(sizes, digits) == ColumnMajor(init, Digits(init, r)) + p * q;
    }
  }

  /** The quotient of s < p * k by p is below k. */
  lemma {:induction false} QuotientBelow(s: nat, p: nat, k: nat)
    requires p > 0 && s < p * k
    ensures s / p < k && s == p * (s / p) + s % p
  {
    if s / p >= k {
      Arith.MulMono(k, s / p, p);
    }
  }

  /** sub2ind: accumulate multiIndex[i] times the running product of sizes. */
  method Sub2Ind(sizes: seq<nat>, multiIndex: seq<nat>) returns (scalarIndex: nat)
    requires |multiIndex| == |sizes|
    ensures scalarIndex == ColumnMajor(sizes, multiIndex)
    ensures InRange(sizes, multiIndex) ==> scalarIndex < Prod(sizes)
  {
    scalarIndex := 0;
    var shift := 1;
    for ii := 0 to |sizes|
      invariant scalarIndex == ColumnMajor(sizes[..ii], multiIndex[..ii])
      invariant shift == Prod(sizes[..ii])
    {
      assert sizes[..ii + 1][..ii] == sizes[..ii];
      assert multiIndex[..ii + 1][..ii] == multiIndex[..ii];
      scalarIndex := scalarIndex + shift * multiIndex[ii];
      shift := shift * sizes[ii];
    }
    assert sizes[..|sizes|] == sizes;
    assert multiIndex[..|sizes|] == multiIndex;
    if InRange(sizes, multiIndex) {
      ColumnMajorBound(sizes, multiIndex);
    }
  }

  /** ind2sub: from the last dimension down, divide the running count of
      entries by the dimension's size, take the quotient as the coordinate
      and continue with the remainder. numElems must be the number of
      entries; the source divides in floating point, exact for these
      integers. */
  method Ind2Sub(sizes: seq<nat>, scalarIndex: nat, numElems: nat) returns (multiIndex: seq<nat>)
    requires AllPositive(sizes)
    requires numElems == Prod(sizes)
    ensures multiIndex == Digits(sizes, scalarIndex)
    ensures scalarIndex < numElems ==>
              InRange(sizes, multiIndex) && ColumnMajor(sizes, multiIndex) == scalarIndex
  {
    var d := |sizes|;
    var result := new nat[d];
    var denom := numElems;
    var s := scalarIndex;
    var ii := d;
    assert sizes[..ii] == sizes;
    while ii > 0
      invariant 0 <= ii <= d
      invariant denom == Prod(sizes[..ii])
      invariant Digits(sizes, scalarIndex) == Digits(sizes[..ii], s) + result[ii..]
    {
      ii := ii - 1;
      var init := sizes[..ii];
      assert sizes[..ii + 1][..ii] == init;
      ProdPositive(init);
      Arith.DivModUnique(denom, sizes[ii], Prod(init), 0);
      denom := denom / sizes[ii];
      ghost var before := result[ii + 1..];
      result[ii] := s / denom;
      assert result[ii..] == [s / denom] + before;
      s := s % denom;
    }
    assert sizes[..d] == sizes;
    multiIndex := result[..];
    if scalarIndex < numElems {
      ColumnMajorOfDigits(sizes, scalarIndex);
    }
  }

  // ---------------------------------------------------------------------
  // invert_permutation_vector (pyapprox/utilities.py:368-391)
  // ---------------------------------------------------------------------

  lemma {:induction false} RangeMultiplicity(lo: nat, len: nat, v: nat)
    ensures multiset(Range(lo, len))[v] == if lo <= v < lo + len then 1 else 0
  {
    if len > 0 {
      RangeMultiplicity(lo, len - 1, v);
      assert Range(lo, len) == Range(lo, len - 1) + [lo + len - 1];
    }
  }

  lemma {:induction false} TwoPositions(p: seq<nat>, i: nat, j: nat)
    requires i < j < |p|
    ensures p[i] == p[j] ==> multiset(p)[p[i]] >= 2
  {
    assert p == p[..j] + p[j..];
    assert p[i] in p[..j];
    assert p[j] in p[j..];
  }

  /** A permutation of 0..n-1 maps positions to distinct values below n
      and takes every value below n. */
  lemma {:induction false} PermutationFacts(p: seq<nat>, n: nat)
    requires IsPermutationOf(p, n)
    ensures forall i :: 0 <= i < n ==> p[i] < n
    ensures forall i, j :: 0 <= i < j < n ==> p[i] != p[j]
    ensures forall v :: 0 <= v < n ==> v in p
  {
    forall i | 0 <= i < n ensures p[i] < n {
      assert p[i] in multiset(p);
      RangeMultiplicity(0, n, p[i]);
    }
    forall i, j | 0 <= i < j < n ensures p[i] != p[j] {
      TwoPositions(p, i, j);
      RangeMultiplicity(0, n, p[i]);
    }
    forall v | 0 <= v < n ensures v in p {
      RangeMultiplicity(0, n, v);
      assert v in multiset(p);
    }
  }

  /** Conversely, n distinct values below n that take every value below n
      are a permutation of 0..n-1. */
  lemma {:induction false} DistinctOntoIsPermutation(p: seq<nat>, n: nat)
    requires |p| == n
    requires forall i :: 0 <= i < n ==> p[i] < n
    requires forall i, j :: 0 <= i < j < n ==> p[i] != p[j]
    requires forall v :: 0 <= v < n ==> v in p
    ensures IsPermutationOf(p, n)
  {
    forall v: nat ensures multiset(p)[v] == multiset(Range(0, n))[v] {
      RangeMultiplicity(0, n, v);
      DistinctMultiplicity(p, v);
    }
    assert multiset(p) == multiset(Range(0, n));
  }

  lemma {:induction false} DistinctMultiplicity(p: seq<nat>, v: nat)
    requires forall i, j :: 0 <= i < j < |p| ==> p[i] != p[j]
    ensures multiset(p)[v] == if v in p then 1 else 0
  {
    if |p| > 0 {
      var init := p[..|p| - 1];
      DistinctMultiplicity(init, v);
      assert p == init + [p[|p| - 1]];
    }
  }

  /** invert_permutation_vector: pt[p[i]] = i for every i. An empty vector
      has no maximum, so `np.max` raises ValueError (None). */
  method InvertPermutationVector(p: seq<nat>) returns (pt: Option<seq<nat>>)
    requires IsPermutationOf(p, |p|)
    ensures pt.None? <==> |p| == 0
    ensures pt.Some? ==> IsInverse(p, pt.value) && IsPermutationOf(pt.value, |p|)
  {
    if |p| == 0 {
      return None;
    }
    var inv := ScatterPositions(p);
    pt := Some(inv);
  }

  /** pt is the two-sided inverse of p. */
  predicate IsInverse(p: seq<nat>, pt: seq<nat>)
  {
    |pt| == |p|
    && (forall i :: 0 <= i < |p| ==> p[i] < |pt| && pt[p[i]] == i)
    && (forall j :: 0 <= j < |p| ==> pt[j] < |p| && p[pt[j]] == j)
  }

  /** The assignment `pt[p] = arange(N)`: position p[i] receives i. */
  method ScatterPositions(p: seq<nat>) returns (pt: seq<nat>)
    requires IsPermutationOf(p, |p|)
    ensures IsInverse(p, pt) && IsPermutationOf(pt, |p|)
  {
    var n := |p|;
    PermutationFacts(p, n);
    var inverse := new nat[n](_ => 0);
    forall i | 0 <= i < n {
      inverse[p[i]] := i;
    }
    pt := inverse[..];
    InverseFacts(p, pt);
  }

  /** An array written at p[i] with i for every i, where p is onto, is the
      two-sided inverse of p. */
  lemma {:induction false} InverseFacts(p: seq<nat>, pt: seq<nat>)
    requires |pt| == |p|
    requires forall i :: 0 <= i < |p| ==> p[i] < |p|
    requires forall v :: 0 <= v < |p| ==> v in p
    requires forall i :: 0 <= i < |p| ==> pt[p[i]] == i
    ensures forall j :: 0 <= j < |p| ==> pt[j] < |p| && p[pt[j]] == j
    ensures IsPermutationOf(pt, |pt|)
  {
    forall j | 0 <= j < |p| ensures pt[j] < |p| && p[pt[j]] == j {
      assert j in p;
      var i :| 0 <= i < |p| && p[i] == j;
    }
    forall v | 0 <= v < |pt| ensures v in pt {
      assert pt[p[v]] == v;
    }
    DistinctOntoIsPermutation(pt, |pt|);
  }

  // ---------------------------------------------------------------------
  // swap_rows / pivot_rows / get_final_pivots_from_sequential_pivots
  // (pyapprox/utilities.py:907-927)
  // ---------------------------------------------------------------------

  /** The rows i and j exchanged. */
  function Swap<T>(rows: seq<T>, i: nat, j: nat): (r: seq<T>)
    requires i < |rows| && j < |rows|
    ensures |r| == |rows|
  {
    rows[i := rows[j]][j := rows[i]]
  }

  /** The rows after the swaps ii <-> pivots[ii], for ii = 0, 1, ... in turn. */
  function ApplyPivots<T>(rows: seq<T>, pivots: seq<nat>): (r: seq<T>)
    requires |pivots| <= |rows|
    requires forall k :: 0 <= k < |pivots| ==> pivots[k] < |rows|
    ensures |r| == |rows|
  {
    if |pivots| == 0 then rows
    else Swap(ApplyPivots(rows, pivots[..|pivots| - 1]), |pivots| - 1, pivots[|pivots| - 1])
  }

  lemma {:induction false} SwapPermutes<T>(rows: seq<T>, i: nat, j: nat)
    requires i < |rows| && j < |rows|
    ensures multiset(Swap(rows, i, j)) == multiset(rows)
  {
    var mid := rows[i := rows[j]];
    assert multiset(mid) == multiset(rows) - multiset{rows[i]} + multiset{rows[j]};
    assert mid[j] == rows[j];
    assert multiset(mid[j := rows[i]]) == multiset(mid) - multiset{mid[j]} + multiset{rows[i]};
  }

  /** Sequential pivoting only reorders the rows. */
  lemma {:induction false} ApplyPivotsPermutes<T>(rows: seq<T>, pivots: seq<nat>)
    requires |pivots| <= |rows|
    requires forall k :: 0 <= k < |pivots| ==> pivots[k] < |rows|
    ensures multiset(ApplyPivots(rows, pivots)) == multiset(rows)
  {
    if |pivots| > 0 {
      var before := ApplyPivots(rows, pivots[..|pivots| - 1]);
      ApplyPivotsPermutes(rows, pivots[..|pivots| - 1]);
      SwapPermutes(before, |pivots| - 1, pivots[|pivots| - 1]);
    }
  }

  /** A row whose position is past the pivots and is never a pivot target
      is left where it was. */
  lemma {:induction false} ApplyPivotsUntouched<T>(rows: seq<T>, pivots: seq<nat>, k: nat)
    requires |pivots| <= |rows|
    requires forall q :: 0 <= q < |pivots| ==> pivots[q] < |rows|
    requires |pivots| <= k < |rows| && k !in pivots
    ensures ApplyPivots(rows, pivots)[k] == rows[k]
  {
    if |pivots| > 0 {
      var init := pivots[..|pivots| - 1];
      assert pivots == init + [pivots[|pivots| - 1]];
      ApplyPivotsUntouched(rows, init, k);
    }
  }

  /** swap_rows: exchange rows ii and jj in place. */
  method SwapRows<T>(matrix: array<T>, ii: nat, jj: nat)
    requires ii < matrix.Length && jj < matrix.Length
    modifies matrix
    ensures matrix[..] == Swap(old(matrix[..]), ii, jj)
  {
    matrix[ii], matrix[jj] := matrix[jj], matrix[ii];
  }

  /** pivot_rows (in place): swap row ii with row pivots[ii] for each ii in
      turn; the source asserts there are no more pivots than rows. */
  method PivotRows<T>(pivots: seq<nat>, matrix: array<T>)
    requires |pivots| <= matrix.Length
    requires forall k :: 0 <= k < |pivots| ==> pivots[k] < matrix.Length
    modifies matrix
    ensures matrix[..] == ApplyPivots(old(matrix[..]), pivots)
  {
    for ii := 0 to |pivots|
      invariant matrix[..] == ApplyPivots(old(matrix[..]), pivots[..ii])
    {
      assert pivots[..ii + 1][..ii] == pivots[..ii];
      SwapRows(matrix, ii, pivots[ii]);
    }
    assert pivots[..|pivots|] == pivots;
  }

  /** get_final_pivots_from_sequential_pivots: apply the sequential pivots to
      0..numPivots-1 (numPivots defaults to their count, and the source
      asserts it is at least that). The result is a permutation. */
  method GetFinalPivotsFromSequentialPivots(sequentialPivots: seq<nat>, numPivots: Option<nat>)
    returns (pivots: seq<nat>)
    requires numPivots.Some? ==> numPivots.value >= |sequentialPivots|
    requires forall k :: 0 <= k < |sequentialPivots| ==>
               sequentialPivots[k] < (if numPivots.Some? then numPivots.value else |sequentialPivots|)
    ensures var n := if numPivots.Some? then numPivots.value else |sequentialPivots|;
            pivots == ApplyPivots(Range(0, n), sequentialPivots) && IsPermutationOf(pivots, n)
  {
    var n := if numPivots.Some? then numPivots.value else |sequentialPivots|;
    var identity := new nat[n](k => k);
    assert identity[..] == Range(0, n);
    PivotRows(sequentialPivots, identity);
    pivots := identity[..];
    ApplyPivotsPermutes(Range(0, n), sequentialPivots);
  }
}
