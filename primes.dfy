/** Prime generation by trial division (pyapprox/utilities.py). */
module Primes {
  import Arith

  predicate Divides(d: nat, n: nat)
  {
    d > 0 && n % d == 0
  }

  ghost predicate IsPrime(p: nat)
  {
    p >= 2 && forall d :: 2 <= d < p ==> !Divides(d, p)
  }

  /** No divisor between 2 and the integer square root of num. */
  ghost predicate PassesTrialDivision(num: nat)
  {
    forall d :: 2 <= d && d * d <= num ==> !Divides(d, num)
  }

  /** The primes up to n, in increasing order. */
  ghost function PrimesUpTo(n: nat): seq<nat>
  {
    if n < 2 then [] else PrimesUpTo(n - 1) + (if IsPrime(n) then [n] else [])
  }

  predicate StrictlyIncreasing(s: seq<nat>)
  {
    forall i, j :: 0 <= i < j < |s| ==> s[i] < s[j]
  }

  lemma {:induction false} PrimesUpToCorrect(n: nat)
    ensures forall x: nat :: x in PrimesUpTo(n) <==> IsPrime(x) && x <= n
    ensures StrictlyIncreasing(PrimesUpTo(n))
  {
    if n >= 2 {
      PrimesUpToCorrect(n - 1);
      var s := PrimesUpTo(n - 1);
      assert forall i :: 0 <= i < |s| ==> s[i] in s && s[i] < n;
    }
  }

  /** A factor of num that is not above its square root, given any proper factor. */
  lemma {:induction false} SmallCofactor(num: nat, d: nat) returns (e: nat)
    requires 2 <= d < num && Divides(d, num)
    ensures 2 <= e && e * e <= num && Divides(e, num)
  {
    var q := num / d;
    assert num == q * d;
    Arith.MulMono(q, 1, d);
    assert q >= 2;
    if d * d <= num {
      e := d;
    } else {
      Arith.MulMono(d, q, d);
      assert q < d;
      Arith.MulMono(q, d, q);
      Arith.DivModUnique(num, q, d, 0);
      e := q;
    }
  }

  lemma {:induction false} TrialDivisionCorrect(num: nat)
    requires num >= 2
    ensures PassesTrialDivision(num) <==> IsPrime(num)
  {
    if IsPrime(num) {
      forall d | 2 <= d && d * d <= num
        ensures !Divides(d, num)
      {
        Arith.MulMono(2, d, d);
      }
    }
    if PassesTrialDivision(num) {
      forall d | 2 <= d < num
        ensures !Divides(d, num)
      {
        if Divides(d, num) {
          var e := SmallCofactor(num, d);
          assert false;
        }
      }
    }
  }

  lemma {:induction false} EvenNotPrime(m: nat)
    requires m % 2 == 0 && m > 2
    ensures !IsPrime(m)
  {
    assert Divides(2, m);
  }

  function Fact(k: nat): (r: nat)
    ensures r >= 1
  {
    if k == 0 then 1 else Arith.MulMono(1, k, Fact(k - 1)); k * Fact(k - 1)
  }

  lemma {:induction false} FactDivisible(k: nat, q: nat)
    requires 1 <= q <= k
    ensures Divides(q, Fact(k))
  {
    if q == k {
      Arith.DivModUnique(Fact(k), k, Fact(k - 1), 0);
    } else {
      FactDivisible(k - 1, q);
      var a := Fact(k - 1) / q;
      assert Fact(k - 1) == a * q;
      assert Fact(k) == (k * a) * q;
      Arith.DivModUnique(Fact(k), q, k * a, 0);
    }
  }

  lemma {:induction false} PrimeFactor(m: nat) returns (p: nat)
    requires m >= 2
    ensures IsPrime(p) && p <= m && Divides(p, m)
    decreases m
  {
    if IsPrime(m) {
      Arith.DivModUnique(m, m, 1, 0);
      p := m;
    } else {
      var d :| 2 <= d < m && Divides(d, m);
      p := PrimeFactor(d);
      var a := m / d;
      var b := d / p;
      assert m == a * d && d == b * p;
      assert m == (a * b) * p;
      Arith.DivModUnique(m, p, a * b, 0);
    }
  }

  /** Euclid: a prime factor of k! + 1 exceeds k. */
  lemma {:induction false} PrimeAbove(k: nat) returns (p: nat)
    ensures IsPrime(p) && p > k
  {
    p := PrimeFactor(Fact(k) + 1);
    if p <= k {
      FactDivisible(k, p);
      var c := Fact(k) / p;
      assert Fact(k) == c * p;
      Arith.DivModUnique(Fact(k) + 1, p, c, 1);
      assert false;
    }
  }

  /** The trial-division test shared by both generators: divisors 2, 3, ...
      up to the integer square root of num. */
  method TrialDivision(num: nat) returns (isPrime: bool)
    requires num >= 2
    ensures isPrime == IsPrime(num)
  {
    isPrime := true;
    var i := 2;
    while i * i <= num
      invariant 2 <= i && isPrime
      invariant forall d :: 2 <= d < i ==> !Divides(d, num)
      decreases num - i
    {
      Arith.MulMono(2, i, i);
      if num % i == 0 {
        assert Divides(i, num) && i < num;
        isPrime := false;
        break;
      }
      i := i + 1;
    }
    if isPrime {
      forall d | 2 <= d && d * d <= num
        ensures !Divides(d, num)
      {
        Arith.MulMono(i, d, d);
        Arith.MulMono(i, d, i);
      }
      TrialDivisionCorrect(num);
    }
  }

  /** get_all_primes_less_than_or_equal_to_n as written: 2 is always put
      first, then the odd numbers 3, 5, ..., n that pass trial division.
      A negative n gives an empty range, as n = 0 and n = 1 do. */
  method AllPrimesUpTo(n: int) returns (primes: seq<nat>)
    ensures primes == PrimesUpTo(if n < 2 then 2 else n)
    ensures n < 2 ==> primes == [2]
  {
    assert IsPrime(2);
    assert PrimesUpTo(2) == [2];
    primes := [2];
    var num := 3;
    while num <= n
      invariant num % 2 == 1 && num >= 3
      invariant n < 2 ==> num == 3
      invariant n >= 2 ==> num <= n + 2
      invariant primes == PrimesUpTo(num - 1)
    {
      var isPrime := TrialDivision(num);
      if isPrime {
        primes := primes + [num];
      }
      EvenNotPrime(num + 1);
      num := num + 2;
    }
    if n >= 2 && num == n + 2 {
      EvenNotPrime(n + 1);
    }
  }

  /** The same generator returning no primes below 2. */
  method AllPrimesUpToCorrected(n: int) returns (primes: seq<nat>)
    ensures forall x: nat :: x in primes <==> IsPrime(x) && x <= n
    ensures StrictlyIncreasing(primes)
  {
    if n < 2 {
      primes := [];
    } else {
      primes := AllPrimesUpTo(n);
      PrimesUpToCorrect(n);
    }
  }

  /** get_first_n_primes as written: starting from [2], odd candidates
      3, 5, 7, ... are tested until n primes are held. A negative n stops
      the loop at once, as n = 0 does. */
  method FirstNPrimes(n: int) returns (primes: seq<nat>)
    ensures |primes| == if n <= 0 then 1 else n
    ensures primes == PrimesUpTo(primes[|primes| - 1])
    ensures n <= 0 ==> primes == [2]
  {
    assert IsPrime(2) && IsPrime(3);
    assert PrimesUpTo(2) == [2];
    primes := [2];
    var num := 3;
    ghost var next := 3;
    while |primes| < n
      invariant 1 <= |primes| <= (if n <= 0 then 1 else n)
      invariant num % 2 == 1 && num >= 3
      invariant primes == PrimesUpTo(num - 1)
      invariant primes == PrimesUpTo(primes[|primes| - 1])
      invariant n <= 0 ==> primes == [2]
      invariant IsPrime(next) && num <= next
      decreases n - |primes|, next - num
    {
      var isPrime := TrialDivision(num);
      if isPrime {
        primes := primes + [num];
        next := PrimeAbove(num + 1);
      } else {
        assert !Divides(2, next);
      }
      EvenNotPrime(num + 1);
      num := num + 2;
    }
  }

  /** The same generator returning no primes when none are asked for. */
  method FirstNPrimesCorrected(n: nat) returns (primes: seq<nat>)
    ensures |primes| == n
    ensures forall x :: x in primes ==> IsPrime(x)
    ensures StrictlyIncreasing(primes)
    ensures n > 0 ==> forall x: nat :: IsPrime(x) && x <= primes[n - 1] ==> x in primes
  {
    if n == 0 {
      primes := [];
    } else {
      primes := FirstNPrimes(n);
      PrimesUpToCorrect(primes[n - 1]);
    }
  }
}
