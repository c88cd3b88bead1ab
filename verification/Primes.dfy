/** Primes, as far as the sizing of tables in src/hash.c needs them. */
module Primes {
  import opened Arith

  ghost predicate Divides(d: nat, n: nat) { d > 0 && n % d == 0 }

  ghost predicate Prime(n: nat) { n >= 2 && forall d :: 2 <= d < n ==> !Divides(d, n) }

  function Factorial(n: nat): (f: nat)
    ensures f >= 1
  {
    if n == 0 then 1 else n * Factorial(n - 1)
  }

  lemma {:induction false} DividesProduct(d: nat, a: nat, b: nat)
    requires Divides(d, a)
    ensures Divides(d, a * b)
  {
    var q := a / d;
    assert a == q * d;
    assert a * b == (q * b) * d;
    ModMultiple(q * b, d);
  }

  lemma {:induction false} DividesFactorial(d: nat, n: nat)
    requires 1 <= d <= n
    ensures Divides(d, Factorial(n))
  {
    if d == n {
      ModMultiple(1, d);
      DividesProduct(d, d, Factorial(n - 1));
    } else {
      DividesFactorial(d, n - 1);
      DividesProduct(d, Factorial(n - 1), n);
    }
  }

  lemma {:induction false} DividesThrough(a: nat, b: nat, n: nat)
    requires Divides(a, b) && Divides(b, n)
    ensures Divides(a, n)
  {
    var q := n / b;
    assert n == b * q;
    DividesProduct(a, b, q);
  }

  /** Every number above one has a prime divisor. */
  lemma {:induction false} PrimeDivisor(n: nat) returns (p: nat)
    requires n >= 2
    ensures Prime(p) && Divides(p, n)
    decreases n
  {
    if Prime(n) {
      ModMultiple(1, n);
      p := n;
    } else {
      var d :| 2 <= d < n && Divides(d, n);
      p := PrimeDivisor(d);
      DividesThrough(p, d, n);
    }
  }

  /** There is no largest prime. */
  lemma {:induction false} PrimeFrom(n: nat) returns (p: nat)
    ensures Prime(p) && p >= n
  {
    var f := Factorial(n);
    p := PrimeDivisor(f + 1);
    if p < n {
      DividesFactorial(p, n);
      MultipleSum(f + 1, f, p);
    }
  }

  /** A number that is not prime has a divisor up to its square root. */
  lemma {:induction false} SmallDivisor(n: nat)
    requires n >= 2 && !Prime(n)
    ensures exists d :: 2 <= d && d * d <= n && Divides(d, n)
  {
    var d :| 2 <= d < n && Divides(d, n);
    var q := n / d;
    assert n == q * d;
    if d * d > n {
      assert q < d by {
        if q >= d {
          MulMonotone(d, d, q);
        }
      }
      assert q >= 2 by {
        if q <= 1 {
          MulMonotone(d, q, 1);
        }
      }
      MulMonotone(q, q, d);
      assert n == d * q;
      ModMultiple(d, q);
      assert q * q <= n && Divides(q, n);
    }
  }

  /** Trial division, as in `hash_capacity_hint`. */
  method IsPrime(n: nat) returns (yes: bool)
    requires n >= 2
    ensures yes <==> Prime(n)
  {
    var d := 2;
    while d * d <= n
      invariant 2 <= d && forall k :: 2 <= k < d ==> !Divides(k, n)
      decreases n - d
    {
      if n % d == 0 {
        assert Divides(d, n);
        MulMonotone(d, 2, d);
        return false;
      }
      assert !Divides(d, n);
      MulMonotone(d, 1, d);
      d := d + 1;
    }
    if !Prime(n) {
      SmallDivisor(n);
      var k :| 2 <= k && k * k <= n && Divides(k, n);
      assert k >= d;
      MulMonotone(k, d, k);
      MulMonotone(d, d, k);
    }
    return true;
  }

  /** The least 32 * 2^k that is at least `hint`. */
  ghost predicate Doubled(hint: nat, k: nat) { 32 * Pow2(k) >= hint && (k > 0 ==> 32 * Pow2(k - 1) < hint) }

  ghost predicate FirstPrime(size: nat, start: nat) {
    Prime(size) && start <= size && forall p: nat :: start <= p < size ==> !Prime(p)
  }

  /** The size `hash_capacity_hint` settles on: the first prime from the least
      power of two, at least 32, that is not below the hint. The search ends because
      there is no largest prime. */
  method TableSize(hint: nat) returns (size: nat)
    ensures size >= hint && size >= 32 && IsSize(hint, size) && size == SizeFor(hint)
  {
    size := 32;
    ghost var k: nat := 0;
    assert Pow2(0) == 1;
    while size < hint
      invariant size == 32 * Pow2(k) && (k > 0 ==> 32 * Pow2(k - 1) < hint)
      decreases hint - size
    {
      size := size * 2;
      k := k + 1;
    }
    ghost var start := size;
    ghost var goal := PrimeFrom(size);
    assert Doubled(hint, k);
    var prime := IsPrime(size);
    while !prime
      invariant start <= size <= goal && start >= hint && start >= 32 && (prime <==> Prime(size))
      invariant forall p: nat :: start <= p < size ==> !Prime(p)
      decreases goal - size
    {
      size := size + 1;
      prime := IsPrime(size);
    }
    assert FirstPrime(size, 32 * Pow2(k));
    SizeUnique(hint, size);
  }

  /** The size for a hint, of which there is only one. */
  ghost predicate IsSize(hint: nat, size: nat) {
    exists k: nat :: Doubled(hint, k) && FirstPrime(size, 32 * Pow2(k))
  }

  ghost function SizeFor(hint: nat): nat {
    if exists n: nat :: IsSize(hint, n) then var n: nat :| IsSize(hint, n); n else 0
  }

  lemma {:induction false} DoubledUnique(hint: nat, j: nat, k: nat)
    requires Doubled(hint, j) && Doubled(hint, k)
    ensures j <= k
  {
    if k < j {
      Pow2Monotone(k, j - 1);
    }
  }

  lemma {:induction false} SizeUnique(hint: nat, size: nat)
    requires IsSize(hint, size)
    ensures SizeFor(hint) == size
  {
    var n := SizeFor(hint);
    assert IsSize(hint, n);
    var j: nat :| Doubled(hint, j) && FirstPrime(size, 32 * Pow2(j));
    var k: nat :| Doubled(hint, k) && FirstPrime(n, 32 * Pow2(k));
    DoubledUnique(hint, j, k);
    DoubledUnique(hint, k, j);
  }
}
