/** Integer facts the solver does not find on its own (multiplication by a
    variable, Euclidean division), and the smaller of two naturals, shared by the index computations. */
module Arith {

  /** The smaller of two naturals (Python's min). */
  function Min(a: nat, b: nat): nat
  {
    if a <= b then a else b
  }

  lemma {:induction false} MulMono(a: int, b: int, k: int)
    requires k >= 0
    ensures a <= b ==> a * k <= b * k
  {
    if a <= b {
      assert b * k == a * k + (b - a) * k;
    }
  }

  /** q and r are the quotient and remainder of x by k as soon as
      x == q*k + r with 0 <= r < k. */
  lemma {:induction false} DivModUnique(x: int, k: int, q: int, r: int)
    requires k > 0 && 0 <= r < k && x == q * k + r
    ensures x / k == q && x % k == r
  {
    var q0, r0 := x / k, x % k;
    assert x == q0 * k + r0;
    MulMono(q0 + 1, q, k);
    MulMono(q + 1, q0, k);
    assert (q0 + 1) * k == q0 * k + k;
    assert (q + 1) * k == q * k + k;
  }
}
