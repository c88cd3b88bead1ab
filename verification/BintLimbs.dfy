/** The chains of 32-bit components of src/bint.c, least significant first. A
    chunk is four components. */
module BintLimbs {
  import opened Arith

  const CHUNK_BITS := 128
  /** 2^32 */
  const BASE := 0x1_0000_0000

  function Value(s: seq<int>): int { if s == [] then 0 else s[0] + BASE * Value(s[1..]) }

  function Power(k: nat): (p: int)
    ensures p >= 1
  {
    if k == 0 then 1 else BASE * Power(k - 1)
  }

  function Zeros(n: nat): (z: seq<int>)
    ensures |z| == n && forall i :: 0 <= i < n ==> z[i] == 0
  {
    seq(n, _ => 0)
  }

  predicate Limbs(s: seq<int>) { forall i :: 0 <= i < |s| ==> 0 <= s[i] < BASE }

  /** At least one whole chunk of 32-bit components. */
  predicate Chain(s: seq<int>) { |s| >= 4 && |s| % 4 == 0 && Limbs(s) }

  predicate LastChunkZero(s: seq<int>)
    requires |s| >= 4
  {
    s[|s| - 4] == 0 && s[|s| - 3] == 0 && s[|s| - 2] == 0 && s[|s| - 1] == 0
  }

  /** The invariant of src/bint.c: the last allocated chunk is never all zero. */
  predicate Normal(s: seq<int>) { Chain(s) && (|s| > 4 ==> !LastChunkZero(s)) }

  // ------------------------------------------------------------------ values

  lemma {:induction false} ValueSnoc(s: seq<int>, x: int)
    ensures Value(s + [x]) == Value(s) + Power(|s|) * x
  {
    if s != [] {
      ValueSnoc(s[1..], x);
      assert (s + [x])[1..] == s[1..] + [x];
      assert BASE * (Power(|s| - 1) * x) == Power(|s|) * x;
    }
  }

  lemma {:induction false} ValueConcat(a: seq<int>, b: seq<int>)
    ensures Value(a + b) == Value(a) + Power(|a|) * Value(b)
  {
    if a == [] {
      assert a + b == b;
    } else {
      ValueConcat(a[1..], b);
      assert (a + b)[1..] == a[1..] + b;
      assert BASE * (Power(|a| - 1) * Value(b)) == Power(|a|) * Value(b);
    }
  }

  lemma {:induction false} ValueBound(s: seq<int>)
    requires Limbs(s)
    ensures 0 <= Value(s) < Power(|s|)
  {
    if s != [] {
      ValueBound(s[1..]);
    }
  }

  lemma {:induction false} ValueZeros(n: nat)
    ensures Value(Zeros(n)) == 0
  {
    if n > 0 {
      ValueZeros(n - 1);
      assert Zeros(n)[1..] == Zeros(n - 1);
    }
  }

  /** Trailing zeros do not count. */
  lemma {:induction false} ValueExtended(s: seq<int>, n: nat)
    ensures Value(s + Zeros(n)) == Value(s)
  {
    ValueConcat(s, Zeros(n));
    ValueZeros(n);
    assert Power(|s|) * 0 == 0;
  }

  lemma {:induction false} PowerSum(a: nat, b: nat)
    ensures Power(a + b) == Power(a) * Power(b)
  {
    if a > 0 {
      PowerSum(a - 1, b);
      assert BASE * (Power(a - 1) * Power(b)) == Power(a) * Power(b);
    }
  }

  lemma {:induction false} PowerMonotone(a: nat, b: nat)
    requires a <= b
    ensures Power(a) <= Power(b)
    decreases b
  {
    if a < b {
      PowerMonotone(a, b - 1);
    }
  }

  lemma {:induction false} PowerPow2(k: nat)
    ensures Power(k) == Pow2(32 * k)
  {
    if k > 0 {
      PowerPow2(k - 1);
      Pow2Sum(32, 32 * (k - 1));
      BasePow2();
    }
  }

  lemma {:induction false} BasePow2()
    ensures Pow2(32) == BASE
  {
    Pow2Sum(8, 8);
    Pow2Sum(16, 16);
    assert Pow2(8) == 256;
  }

  lemma {:induction false} NoMultiple(a: int, p: int, h: int)
    requires a >= 0 && p >= 1 && h >= 0 && a + p * h < p
    ensures h == 0
  {
    if h > 0 {
      MulAtLeast(h, p);
    }
  }

  /** A value below a power has nothing but zeros from there on. */
  lemma {:induction false} HighZeros(s: seq<int>, k: nat)
    requires Limbs(s) && k <= |s| && Value(s) < Power(k)
    ensures forall i :: k <= i < |s| ==> s[i] == 0
    ensures Value(s[..k]) == Value(s)
  {
    var lo, hi := s[..k], s[k..];
    assert s == lo + hi;
    ValueConcat(lo, hi);
    ValueBound(lo);
    ValueBound(hi);
    NoMultiple(Value(lo), Power(k), Value(hi));
    assert Power(k) * 0 == 0;
    ZeroValue(hi);
    forall i | k <= i < |s| ensures s[i] == 0 {
      assert s[i] == hi[i - k];
    }
  }

  lemma {:induction false} ZeroValue(s: seq<int>)
    requires Limbs(s) && Value(s) == 0
    ensures forall i :: 0 <= i < |s| ==> s[i] == 0
  {
    if s != [] {
      ValueBound(s[1..]);
      ZeroValue(s[1..]);
      forall i | 0 <= i < |s| ensures s[i] == 0 {
        assert i > 0 ==> s[i] == s[1..][i - 1];
      }
    }
  }

  // ------------------------------------------------------------ normal chains

  /** A normal chain of more than one chunk is at least as large as what one chunk
      less can hold. */
  lemma {:induction false} NormalLarge(s: seq<int>)
    requires Normal(s) && |s| > 4
    ensures Value(s) >= Power(|s| - 4)
  {
    if Value(s) < Power(|s| - 4) {
      HighZeros(s, |s| - 4);
    }
  }

  /** Normal chains compare by their lengths first. */
  lemma {:induction false} LongerIsLarger(a: seq<int>, b: seq<int>)
    requires Normal(a) && Chain(b) && |a| > |b|
    ensures Value(a) > Value(b)
  {
    NormalLarge(a);
    ValueBound(b);
    PowerMonotone(|b|, |a| - 4);
  }

  /** A number has one normal chain. */
  lemma {:induction false} NormalUnique(a: seq<int>, b: seq<int>)
    requires Normal(a) && Normal(b) && Value(a) == Value(b)
    ensures a == b
  {
    if |a| > |b| {
      LongerIsLarger(a, b);
    } else if |a| < |b| {
      LongerIsLarger(b, a);
    } else {
      SameLength(a, b);
    }
  }

  lemma {:induction false} SameLength(a: seq<int>, b: seq<int>)
    requires Limbs(a) && Limbs(b) && |a| == |b| && Value(a) == Value(b)
    ensures a == b
  {
    if a != [] {
      assert a[0] == b[0] && Value(a[1..]) == Value(b[1..]) by {
        DivModUnique(Value(a), BASE, Value(a[1..]), a[0]);
        DivModUnique(Value(b), BASE, Value(b[1..]), b[0]);
      }
      SameLength(a[1..], b[1..]);
      assert a == [a[0]] + a[1..] && b == [b[0]] + b[1..];
    }
  }

  // ---------------------------------------------------- one step of the loops

  /** From the least significant end: `out` plus what is carried is a linear
      combination of what has been read. */
  ghost predicate Carried(out: seq<int>, carry: int, k: int, d: seq<int>, m: int, x: seq<int>, c: int, j: nat)
  {
    j <= |d| && j <= |x| && |out| == j && Value(out) + Power(j) * carry == k * Value(d[..j]) + m * Value(x[..j]) + c
  }

  lemma {:induction false} CarryStep(out: seq<int>, carry: int, k: int, d: seq<int>, m: int, x: seq<int>, c: int,
                                     j: nat,
                                     v: int, carry': int)
    requires Carried(out, carry, k, d, m, x, c, j) && j < |d| && j < |x|
    requires v + BASE * carry' == k * d[j] + m * x[j] + carry
    ensures Carried(out + [v], carry', k, d, m, x, c, j + 1)
  {
    var p := Power(j);
    ValueSnoc(out, v);
    assert d[..j + 1] == d[..j] + [d[j]] && x[..j + 1] == x[..j] + [x[j]];
    ValueSnoc(d[..j], d[j]);
    ValueSnoc(x[..j], x[j]);
    CarryAlgebra(p, v, carry, carry', k, d[j], Value(d[..j]), m, x[j], Value(x[..j]));
  }

  lemma {:induction false} CarryAlgebra(p: int, v: int, carry: int, carry': int, k: int, d: int, vd: int, m: int,
                                        x: int, vx: int)
    requires v + BASE * carry' == k * d + m * x + carry
    ensures p * v + (BASE * p) * carry' == k * (p * d) + m * (p * x) + p * carry
    ensures k * (vd + p * d) == k * vd + k * (p * d) && m * (vx + p * x) == m * vx + m * (p * x)
  {
    assert p * (v + BASE * carry') == p * (k * d + m * x + carry);
    assert p * (v + BASE * carry') == p * v + (BASE * p) * carry';
    assert p * (k * d + m * x + carry) == k * (p * d) + m * (p * x) + p * carry;
  }

  /** From the most significant end: what has been read is `q` times `out` plus
      a remainder. */
  ghost predicate Divided(d: seq<int>, q: int, out: seq<int>, rem: int) {
    Value(d) == q * Value(out) + rem && 0 <= rem < q
  }

  lemma {:induction false} DivideStep(d: seq<int>, q: int, out: seq<int>, rem: int, x: int, v: int, rem': int)
    requires Divided(d, q, out, rem) && x + rem * BASE == q * v + rem' && 0 <= rem' < q
    ensures Divided([x] + d, q, [v] + out, rem')
  {
    assert ([x] + d)[1..] == d && ([v] + out)[1..] == out;
    assert q * (v + BASE * Value(out)) == q * v + BASE * (q * Value(out));
  }

  // ------------------------------------------------------------- bit lengths

  /** `n` has `len` significant bits. */
  ghost predicate HasBits(n: int, len: nat) { 0 <= n < Pow2(len) && (len > 0 ==> n >= Pow2(len - 1)) }

  lemma {:induction false} BitsUnique(n: int, a: nat, b: nat)
    requires HasBits(n, a) && HasBits(n, b)
    ensures a == b
  {
    if a < b {
      Pow2Monotone(a, b - 1);
    } else if b < a {
      Pow2Monotone(b, a - 1);
    }
  }

  /** The number of significant bits. */
  function BitCount(n: nat): nat { if n == 0 then 0 else 1 + BitCount(n / 2) }

  lemma {:induction false} BitCountBits(n: nat)
    ensures HasBits(n, BitCount(n))
  {
    assert Pow2(0) == 1;
    if n > 0 {
      BitCountBits(n / 2);
      assert BitCount(n) > 1 ==> Pow2(BitCount(n) - 1) == 2 * Pow2(BitCount(n) - 2);
    }
  }

  lemma {:induction false} CountIs(n: nat, len: nat)
    requires HasBits(n, len)
    ensures BitCount(n) == len
  {
    BitCountBits(n);
    BitsUnique(n, BitCount(n), len);
  }

  lemma {:induction false} BitCountGrows(a: nat, b: nat)
    requires a <= b
    ensures BitCount(a) <= BitCount(b)
  {
    hide BitCount;
    BitCountBits(a);
    BitCountBits(b);
    if BitCount(a) > BitCount(b) {
      Pow2Monotone(BitCount(b), BitCount(a) - 1);
    }
  }

  /** The number of significant bits of the number in a chain. */
  function Bits(s: seq<int>): nat { if Value(s) <= 0 then 0 else BitCount(Value(s)) }

  lemma {:induction false} BitsAre(s: seq<int>, len: nat)
    requires HasBits(Value(s), len)
    ensures Bits(s) == len
  {
    hide Value;
    assert Pow2(0) == 1;
    CountIs(Value(s), len);
  }

  /** The number of chunks that `extend_length` makes room for. */
  function ChunksFor(bits: nat): nat { bits / CHUNK_BITS + 1 }

  lemma {:induction false} RoomFor(n: int, bits: nat, len: nat)
    requires 0 <= n < Pow2(bits) && len >= 4 * ChunksFor(bits)
    ensures n < Power(len)
  {
    PowerPow2(len);
    Pow2Monotone(bits, 32 * len);
  }

  /** A normal chain has no more chunks than its bits call for. */
  lemma {:induction false} NormalChunks(s: seq<int>, len: nat)
    requires Normal(s) && HasBits(Value(s), len)
    ensures |s| <= 4 * ChunksFor(len)
  {
    if |s| > 4 {
      NormalLarge(s);
      PowerPow2(|s| - 4);
      if len <= 32 * (|s| - 4) {
        Pow2Monotone(len, 32 * (|s| - 4));
      }
    }
  }
}
