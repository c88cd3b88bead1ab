/** Powers of two and alignment. */
module Arith {

  function Pow2(k: nat): (p: nat)
    ensures p >= 1
  {
    if k == 0 then 1 else 2 * Pow2(k - 1)
  }

  lemma {:induction false} Pow2Sum(a: nat, b: nat)
    ensures Pow2(a + b) == Pow2(a) * Pow2(b)
  {
    if a > 0 {
      Pow2Sum(a - 1, b);
    }
  }

  lemma {:induction false} Pow2Monotone(a: nat, b: nat)
    requires a <= b
    ensures Pow2(a) <= Pow2(b)
    ensures a < b ==> 2 * Pow2(a) <= Pow2(b)
    decreases b
  {
    if a < b {
      Pow2Monotone(a, b - 1);
    }
  }

  lemma {:induction false} SquareMonotone(a: nat, b: nat)
    requires a <= b
    ensures a * a <= b * b
  {
  }

  predicate Aligned(x: nat, k: nat) { x % Pow2(k) == 0 }

  lemma {:induction false} ModMultiple(q: int, m: nat)
    requires m > 0
    ensures (q * m) % m == 0 && (q * m) / m == q
  {
    DivModUnique(q * m, m, q, 0);
  }

  lemma {:induction false} DivModUnique(x: int, m: int, q: int, r: int)
    requires m > 0 && x == q * m + r && 0 <= r < m
    ensures x / m == q && x % m == r
  {
    var q', r' := x / m, x % m;
    assert (q - q') * m == r' - r by {
      assert q * m - q' * m == (q - q') * m;
    }
    if q' < q {
      MulAtLeast(q - q', m);
    } else if q' > q {
      MulAtLeast(q' - q, m);
    }
  }

  lemma {:induction false} MulAtLeast(k: int, m: int)
    requires k >= 1 && m > 0
    ensures k * m >= m
  {
    assert (k - 1) * m >= 0;
  }

  lemma {:induction false} MulMonotone(p: int, a: int, b: int)
    requires p >= 0 && a <= b
    ensures p * a <= p * b
  {
    assert p * (b - a) >= 0;
  }

  /** With low parts below `p`, the high parts decide. */
  lemma {:induction false} HighDecides(p: int, l: int, x: int, k: int, y: int)
    requires 0 <= l < p && 0 <= k && x < y
    ensures l + p * x < k + p * y
  {
    MulMonotone(p, x + 1, y);
    assert p * (x + 1) == p * x + p;
  }

  lemma {:induction false} DivBelow(x: int, m: int, q: int)
    requires m > 0 && 0 <= x < m * q
    ensures 0 <= x / m < q
  {
    var t := x / m;
    assert m * t <= x;
    if t >= q {
      MulMonotone(m, q, t);
    }
  }

  /** Multiples of m: sums and differences. */
  lemma {:induction false} MultipleSum(x: int, y: int, m: int)
    requires m > 0 && x % m == 0 && y % m == 0
    ensures (x + y) % m == 0 && (x - y) % m == 0
  {
    var a, b := x / m, y / m;
    assert x == a * m && y == b * m;
    assert x + y == (a + b) * m && x - y == (a - b) * m;
    DivModUnique(x + y, m, a + b, 0);
    DivModUnique(x - y, m, a - b, 0);
  }

  /** Multiples of m that differ by less than m are equal. */
  lemma {:induction false} MultiplesApart(x: int, y: int, m: int)
    requires m > 0 && x % m == 0 && y % m == 0 && x < y
    ensures x + m <= y
  {
    var a, b := x / m, y / m;
    assert x == a * m && y == b * m;
    assert y - x == (b - a) * m;
    if b < a {
      MulAtLeast(a - b, m);
    } else if b > a {
      MulAtLeast(b - a, m);
    }
  }

  lemma {:induction false} MulAssociative(a: int, b: int, c: int)
    ensures a * (b * c) == (a * b) * c
  {
  }

  lemma {:induction false} AlignedWeaker(x: nat, j: nat, k: nat)
    requires j <= k && Aligned(x, k)
    ensures Aligned(x, j) && Aligned(Pow2(k), j)
  {
    Pow2Sum(k - j, j);
    var q := x / Pow2(k);
    assert x == q * Pow2(k);
    MulAssociative(q, Pow2(k - j), Pow2(j));
    ModMultiple(q * Pow2(k - j), Pow2(j));
    ModMultiple(Pow2(k - j), Pow2(j));
  }

  /** A multiple of m is a multiple of 2m, or of 2m plus m. */
  lemma {:induction false} HalfMultiple(x: int, m: int)
    requires m > 0 && x % m == 0
    ensures x % (2 * m) == 0 || (x % (2 * m) == m && (x - m) % (2 * m) == 0)
  {
    var a := x / m;
    assert x == a * m;
    if a % 2 == 0 {
      assert x == (a / 2) * (2 * m);
      DivModUnique(x, 2 * m, a / 2, 0);
    } else {
      assert a == 2 * (a / 2) + 1;
      assert x == (a / 2) * (2 * m) + m;
      DivModUnique(x, 2 * m, a / 2, m);
      DivModUnique(x - m, 2 * m, a / 2, 0);
    }
  }
}
