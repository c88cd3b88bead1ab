/** src/bint.c: integers of any size as a sign and a chain of chunks. A failed
    allocation is a choice of the environment. */
module Bint {
  import opened Arith
  import opened BintLimbs
  import opened Memory

  function Sign(x: int): int { if x < 0 then -1 else if x > 0 then 1 else 0 }

  /** `s` with zero chunks added until there is room for `count` bits. */
  function Extended(s: seq<int>, count: nat): (e: seq<int>)
    ensures s <= e
  {
    if |s| >= 4 * ChunksFor(count) then s else s + Zeros(4 * ChunksFor(count) - |s|)
  }

  /** How many chunks are to be had from the allocator for that. */
  function Missing(s: seq<int>, count: nat): nat {
    if |s| >= 4 * ChunksFor(count) then 0 else ChunksFor(count) - |s| / 4
  }

  /** The chunks that an addition asks for: room for one bit more than either number has. */
  function AddNeeds(d: seq<int>, s: seq<int>): nat {
    Missing(d, (if Bits(d) > Bits(s) then Bits(d) else Bits(s)) + 1)
  }

  /** The chunks that a subtraction asks for: room for a larger source. */
  function SubtractNeeds(d: seq<int>, s: seq<int>): nat { if Value(d) < Value(s) then Missing(d, Bits(s)) else 0 }

  lemma {:induction false} ExtendedFacts(s: seq<int>, count: nat)
    requires Chain(s)
    ensures Chain(Extended(s, count)) && Value(Extended(s, count)) == Value(s)
    ensures |Extended(s, count)| >= |s| && |Extended(s, count)| >= 4 * ChunksFor(count)
    ensures forall i :: |s| <= i < |Extended(s, count)| ==> Extended(s, count)[i] == 0
  {
    if |s| < 4 * ChunksFor(count) {
      ValueExtended(s, 4 * ChunksFor(count) - |s|);
    }
  }

  lemma {:induction false} DropZeroChunk(s: seq<int>)
    requires Chain(s) && |s| > 4 && LastChunkZero(s)
    ensures Chain(s[..|s| - 4]) && Value(s[..|s| - 4]) == Value(s)
  {
    var t := s[..|s| - 4];
    assert s == t + Zeros(4);
    ValueExtended(t, 4);
  }

  /** The top component decides. */
  lemma {:induction false} ValueAt(s: seq<int>, i: nat)
    requires i < |s|
    ensures Value(s) == Value(s[..i]) + Power(i) * s[i] + Power(i + 1) * Value(s[i + 1..])
  {
    assert s == (s[..i] + [s[i]]) + s[i + 1..];
    ValueConcat(s[..i] + [s[i]], s[i + 1..]);
    ValueSnoc(s[..i], s[i]);
  }

  lemma {:induction false} HighDiff(x: seq<int>, y: seq<int>, i: nat)
    requires Limbs(x) && Limbs(y) && |x| == |y| && i < |x| && x[i] < y[i]
    requires forall k :: i < k < |x| ==> x[k] == y[k]
    ensures Value(x) < Value(y)
  {
    hide Value, Power;
    assert x[i + 1..] == y[i + 1..];
    ValueAt(x, i);
    ValueAt(y, i);
    ValueBound(x[..i]);
    ValueBound(y[..i]);
    HighDecides(Power(i), Value(x[..i]), x[i], Value(y[..i]), y[i]);
  }

  /** Comparing chunk by chunk, the last difference counts. */
  lemma {:induction false} NextChunk(a: seq<int>, b: seq<int>, j: nat)
    requires Limbs(a) && Limbs(b) && j + 4 <= |a| && j + 4 <= |b|
    ensures var d := Sign(Value(a[j..j + 4]) - Value(b[j..j + 4]));
      Sign(Value(a[..j + 4]) - Value(b[..j + 4])) == if d != 0 then d else Sign(Value(a[..j]) - Value(b[..j]))
  {
    hide Value, Power;
    var x, y := Value(a[j..j + 4]), Value(b[j..j + 4]);
    assert a[..j + 4] == a[..j] + a[j..j + 4] && b[..j + 4] == b[..j] + b[j..j + 4];
    ValueConcat(a[..j], a[j..j + 4]);
    ValueConcat(b[..j], b[j..j + 4]);
    ValueBound(a[..j]);
    ValueBound(b[..j]);
    if x < y {
      HighDecides(Power(j), Value(a[..j]), x, Value(b[..j]), y);
    } else if y < x {
      HighDecides(Power(j), Value(b[..j]), y, Value(a[..j]), x);
    }
  }

  /** `compare_chunk` */
  method CompareChunk(x: seq<int>, y: seq<int>) returns (r: int)
    requires |x| == |y| == 4 && Limbs(x) && Limbs(y)
    ensures r == Sign(Value(x) - Value(y))
  {
    hide Value;
    var i := 3;
    while i >= 0
      invariant -1 <= i <= 3 && forall k :: i < k < 4 ==> x[k] == y[k]
    {
      if x[i] < y[i] {
        HighDiff(x, y, i);
        return -1;
      }
      if x[i] > y[i] {
        HighDiff(y, x, i);
        return 1;
      }
      i := i - 1;
    }
    assert x == y;
    return 0;
  }

  /** Dividing by two and counting: after `count` rounds, `d` is left of `num`. */
  ghost predicate Halved(num: nat, d: nat, count: nat) {
    true == (d * Pow2(count) <= num < (d + 1) * Pow2(count) && (d == 0 ==> count == 0 || num >= Pow2(count - 1)))
  }

  lemma {:induction false} HalvedMore(num: nat, d: nat, count: nat)
    requires Halved(num, d, count) && d > 0
    ensures Halved(num, d / 2, count + 1)
  {
    HalfBits(d, Pow2(count), num);
    assert Pow2(count + 1) == 2 * Pow2(count);
  }

  lemma {:induction false} HalvedEnds(num: nat, count: nat)
    ensures Halved(num, num, 0) && (Halved(num, 0, count) ==> HasBits(num, count))
  {
    assert Pow2(0) == 1;
  }

  /** `bit_length` */
  method WordBits(num: nat) returns (count: nat)
    ensures HasBits(num, count)
  {
    hide Halved, HasBits, Pow2;
    var d := num;
    count := 0;
    HalvedEnds(num, 0);
    while d > 0
      invariant Halved(num, d, count)
    {
      HalvedMore(num, d, count);
      d := d / 2;
      count := count + 1;
    }
    HalvedEnds(num, count);
  }

  lemma {:induction false} HalfBits(d: nat, p: nat, num: nat)
    requires d > 0 && d * p <= num < (d + 1) * p && p >= 1
    ensures (d / 2) * (2 * p) <= num < (d / 2 + 1) * (2 * p) && num >= p
  {
    var h := d / 2;
    assert d == 2 * h || d == 2 * h + 1;
    assert h * (2 * p) == (2 * h) * p && (h + 1) * (2 * p) == (2 * h + 2) * p;
    assert (2 * h) * p <= d * p && (d + 1) * p <= (2 * h + 2) * p;
    assert 1 * p <= d * p;
  }

  /** The bits of the top component and of the ones below it. */
  lemma {:induction false} TopLimb(s: seq<int>, t: nat, bits: nat)
    requires Limbs(s) && t < |s| && s[t] > 0 && HasBits(s[t], bits) && forall i :: t < i < |s| ==> s[i] == 0
    ensures HasBits(Value(s), 32 * t + bits)
  {
    ValueAt(s, t);
    var high := s[t + 1..];
    assert high == Zeros(|high|);
    ValueZeros(|high|);
    assert Power(t + 1) * 0 == 0;
    ValueBound(s[..t]);
    PowerPow2(t);
    TopBits(Value(s[..t]), s[t], t, bits);
  }

  lemma {:induction false} TopBits(low: int, d: int, t: nat, bits: nat)
    requires 0 <= low < Pow2(32 * t) && d > 0 && HasBits(d, bits)
    ensures HasBits(low + Pow2(32 * t) * d, 32 * t + bits)
  {
    assert bits > 0 by { assert Pow2(0) == 1; }
    hide Pow2;
    var p := Pow2(32 * t);
    Pow2Sum(32 * t, bits);
    Pow2Sum(32 * t, bits - 1);
    MulMonotone(p, Pow2(bits - 1), d);
    HighDecides(p, low, d, 0, Pow2(bits));
  }

  // ---------------------------------------------------------------- addition

  /** What assigning a wider value to a 32-bit `int` keeps of it. */
  function ToInt(x: int): int { (x + 0x8000_0000) % BASE - 0x8000_0000 }

  /** A carry out of the components of `s` meets a component of `d` that is all
      ones: the case in which the carry is dropped. */
  predicate LostCarry(d: seq<int>, s: seq<int>) {
    |d| > |s| && Value(d[..|s|]) + Value(s) >= Power(|s|) && d[|s|] == BASE - 1
  }

  /** What is missing from the sum. */
  function Lost(d: seq<int>, s: seq<int>): int { if LostCarry(d, s) then Power(|s| + 1) else 0 }

  /** Adding one to 2^160 - 1: the carry out of the first chunk meets a component
      that is all ones, and the sum comes out as zero instead of 2^160. */
  lemma {:induction false} LostCarryExample()
    ensures var m := BASE - 1; var d := [m, m, m, m, m, 0, 0, 0];
      Normal(d) && Normal([1, 0, 0, 0]) && LostCarry(d, [1, 0, 0, 0]) && Lost(d, [1, 0, 0, 0]) == Value(d) + 1
  {
    var m := BASE - 1;
    var d, s := [m, m, m, m, m, 0, 0, 0], [1, 0, 0, 0];
    AllOnes(4);
    AllOnes(5);
    assert d[..4] == Ones(4) && d == Ones(5) + Zeros(3) && s == [1] + Zeros(3);
    ValueExtended(Ones(5), 3);
    ValueExtended([1], 3);
    assert Value([1]) == 1;
  }

  function Ones(n: nat): seq<int> { seq(n, _ => BASE - 1) }

  lemma {:induction false} AllOnes(n: nat)
    ensures Value(Ones(n)) == Power(n) - 1
  {
    if n > 0 {
      AllOnes(n - 1);
      assert Ones(n)[1..] == Ones(n - 1);
    }
  }

  lemma {:induction false} SetAt(s: seq<int>, j: nat, v: int)
    requires j < |s|
    ensures s[j := v][..j + 1] == s[..j] + [v] && s[j := v][j + 1..] == s[j + 1..]
  {
  }

  /** Where the sum of the common components is, and the rest of `d` behind it. */
  lemma {:induction false} CommonSum(d: seq<int>, s: seq<int>, out: seq<int>, carry: int)
    requires Limbs(d) && Limbs(s) && Limbs(out) && |s| <= |d| && Carried(out, carry, 1, d, 1, s, 0, |s|)
    ensures Value(out) + Power(|s|) * carry == Value(d[..|s|]) + Value(s)
    ensures Value(out + d[|s|..]) + Power(|s|) * carry == Value(d) + Value(s)
  {
    hide Value, Power;
    var n := |s|;
    assert s[..n] == s && d == d[..n] + d[n..];
    ValueConcat(d[..n], d[n..]);
    ValueConcat(out, d[n..]);
  }

  /** Adding one to component `n`, and nothing further up. */
  lemma {:induction false} BumpLimb(r: seq<int>, n: nat)
    requires Limbs(r) && n < |r|
    ensures Limbs(r[n := (r[n] + 1) % BASE])
    ensures Value(r[n := (r[n] + 1) % BASE]) == Value(r) + Power(n) - (if r[n] == BASE - 1 then Power(n + 1) else 0)
  {
    var v := (r[n] + 1) % BASE;
    var r' := r[n := v];
    ValueAt(r, n);
    ValueAt(r', n);
    assert r'[..n] == r[..n] && r'[n + 1..] == r[n + 1..];
    assert Power(n + 1) == BASE * Power(n);
    if r[n] == BASE - 1 {
      assert v == 0 && Power(n) * 0 == 0;
      assert Power(n) * (BASE - 1) == BASE * Power(n) - Power(n);
    } else {
      assert v == r[n] + 1;
      assert Power(n) * (r[n] + 1) == Power(n) * r[n] + Power(n);
    }
  }

  lemma {:induction false} AddResult(d: seq<int>, s: seq<int>, out: seq<int>, carry: int, r: seq<int>)
    requires Limbs(d) && Limbs(s) && Limbs(out) && |s| <= |d| && 0 <= carry <= 1
    requires Carried(out, carry, 1, d, 1, s, 0, |s|)
    requires Value(d) + Value(s) < Power(|d|)
    requires var mid := out + d[|s|..]; r == if carry == 1 && |s| < |d| then mid[|s| := (mid[|s|] + 1) % BASE] else mid
    ensures Limbs(r) && Value(r) == Value(d) + Value(s) - Lost(d, s)
  {
    hide Value, Power;
    var n := |s|;
    var mid := out + d[n..];
    CommonSum(d, s, out, carry);
    ValueBound(out);
    assert d[..n] + d[n..] == d;
    assert forall i :: n <= i < |d| ==> mid[i] == d[i];
    if carry == 0 {
    } else if n < |d| {
      BumpLimb(mid, n);
    } else {
      ValueBound(mid);
    }
  }

  lemma {:induction false} LostExtended(d: seq<int>, s: seq<int>, count: nat)
    requires Chain(d) && Chain(s) && |s| <= |Extended(d, count)|
    ensures Lost(Extended(d, count), s) == Lost(d, s)
  {
    hide Value, Power;
    var e := Extended(d, count);
    ExtendedFacts(d, count);
    if |s| < |d| {
      assert e[..|s|] == d[..|s|] && e[|s|] == d[|s|];
    }
  }

  lemma {:induction false} SumRoom(d: int, s: int, a: nat, b: nat, len: nat)
    requires HasBits(d, a) && HasBits(s, b) && len >= 4 * ChunksFor((if a > b then a else b) + 1)
    ensures d + s < Power(len)
  {
    var m := if a > b then a else b;
    Pow2Monotone(a, m);
    Pow2Monotone(b, m);
    assert Pow2(m + 1) == 2 * Pow2(m);
    RoomFor(d + s, m + 1, len);
  }

  lemma {:induction false} SourceFits(s: seq<int>, b: nat, m: nat, len: nat)
    requires Normal(s) && HasBits(Value(s), b) && b <= m && len >= 4 * ChunksFor(m)
    ensures |s| <= len
  {
    NormalChunks(s, b);
  }

  // ------------------------------------------------------------- subtraction

  /** The result of subtracting with borrow over all `n` components of the larger
      number. */
  lemma {:induction false} SubResult(b: seq<int>, s: seq<int>, out: seq<int>, borrow: int)
    requires Limbs(out) && 0 <= borrow <= 1 && |s| == |b| == |out| && Carried(out, -borrow, 1, b, -1, s, 0, |b|)
    requires Limbs(b) && Value(b) >= Value(s)
    ensures borrow == 0 && Value(out) == Value(b) - Value(s)
  {
    hide Value, Power;
    assert b[..|b|] == b && s[..|b|] == s;
    ValueBound(out);
    assert Power(|b|) * 1 == Power(|b|);
    assert Power(|b|) * 0 == 0;
  }

  /** The shorter number, padded with zeros or cut where it only has zeros. */
  function Fitted(s: seq<int>, n: nat): seq<int> { if |s| <= n then s + Zeros(n - |s|) else s[..n] }

  lemma {:induction false} FittedValue(b: seq<int>, s: seq<int>)
    requires Limbs(b) && Limbs(s) && Value(s) <= Value(b)
    ensures Value(Fitted(s, |b|)) == Value(s) && |Fitted(s, |b|)| == |b|
    ensures forall i :: |b| <= i < |s| ==> s[i] == 0
  {
    hide Value, Power;
    if |s| <= |b| {
      ValueExtended(s, |b| - |s|);
    } else {
      ValueBound(b);
      HighZeros(s, |b|);
    }
  }

  lemma {:induction false} SameTail(s: seq<int>, t: seq<int>, j: nat)
    requires j < |s| == |t| && s[j..] == t[j..]
    ensures s[j] == t[j] && s[j + 1..] == t[j + 1..]
  {
    assert s[j] == s[j..][0] && s[j + 1..] == s[j..][1..] && t[j + 1..] == t[j..][1..];
  }

  lemma {:induction false} NothingCarried(b: seq<int>, s: seq<int>)
    ensures Carried([], 0, 1, b, -1, s, 0, 0)
  {
  }

  /** While subtracting: nothing from component `j` on has changed yet. */
  ghost predicate SubState(dst: Bint, big: Bint, small: Bint, j: nat, b: seq<int>, t: seq<int>, d: seq<int>)
    reads dst, big, small
  {
    true == (
      && j <= |d| && j <= |b| && j <= |t|
      && |dst.limbs| == |d| && |big.limbs| == |b| && |small.limbs| == |t| && Limbs(dst.limbs)
      && dst.limbs[j..] == d[j..] && big.limbs[j..] == b[j..] && small.limbs[j..] == t[j..])
  }

  lemma {:induction false} SubFinish(l: seq<int>, j: nat, borrow: int, b: seq<int>, s: seq<int>, d: seq<int>)
    requires j <= |b| == |s| <= |d| == |l| && j % 4 == 0 && Chain(b) && Chain(d) && Limbs(l) && 0 <= borrow <= 1
    requires Value(b) >= Value(s) && Carried(l[..j], -borrow, 1, b, -1, s, 0, j) && l[j..] == d[j..]
    requires (borrow == 0 || j == |b|) && (j < |b| ==> d == b && forall i :: j <= i < |b| ==> s[i] == 0)
    requires forall i :: |b| <= i < |d| ==> d[i] == 0
    ensures Chain(l) && Value(l[..|b|]) == Value(b) - Value(s)
    ensures forall i :: |b| <= i < |d| ==> l[i] == 0
  {
    forall i | |b| <= i < |d| ensures l[i] == 0 {
      assert l[i] == l[j..][i - j] == d[j..][i - j];
    }
    if j == |b| {
      SubResult(b, s, l[..j], borrow);
    } else {
      SubTail(l, j, b, s);
    }
  }

  lemma {:induction false} SubTail(l: seq<int>, j: nat, b: seq<int>, s: seq<int>)
    requires j < |b| == |s| == |l| && Carried(l[..j], 0, 1, b, -1, s, 0, j) && l[j..] == b[j..]
    requires forall i :: j <= i < |b| ==> s[i] == 0
    ensures Value(l[..|b|]) == Value(b) - Value(s)
  {
    hide Value, Power;
    assert l[..|b|] == l && l == l[..j] + l[j..] && b == b[..j] + b[j..] && s == s[..j] + Zeros(|s| - j);
    ValueConcat(l[..j], l[j..]);
    ValueConcat(b[..j], b[j..]);
    ValueExtended(s[..j], |s| - j);
    assert Power(j) * 0 == 0;
  }

  /** What the comparison of two normal chains says about their values. */
  lemma {:induction false} CompareNormal(a: seq<int>, b: seq<int>, r: int)
    requires Normal(a) && Normal(b)
    requires (|a| == |b| ==> r == Sign(Value(a) - Value(b))) && (|a| > |b| ==> r == 1) && (|a| < |b| ==> r == -1)
    ensures r == Sign(Value(a) - Value(b))
  {
    if |a| > |b| {
      LongerIsLarger(a, b);
    } else if |a| < |b| {
      LongerIsLarger(b, a);
    }
  }

  class Bint {
    var negative: bool
    var limbs: seq<int>

    /** `bint_init` */
    constructor (value: int)
      requires -0x8000_0000 < value < 0x8000_0000
      ensures Normal(limbs) && Value(limbs) == (if value < 0 then -value else value) && negative == (value < 0)
      ensures |limbs| == 4
    {
      negative := value < 0;
      limbs := [if value < 0 then -value else value] + Zeros(3);
      new;
      ValueExtended([if value < 0 then -value else value], 3);
    }

    ghost function Int(): int
      reads this
    {
      if negative then -Value(limbs) else Value(limbs)
    }

    /** `trim_chunks` */
    method TrimChunks()
      requires Chain(limbs)
      modifies this`limbs
      ensures Normal(limbs) && Value(limbs) == old(Value(limbs)) && limbs <= old(limbs)
    {
      while |limbs| > 4 && LastChunkZero(limbs)
        invariant Chain(limbs) && Value(limbs) == old(Value(limbs)) && limbs <= old(limbs)
        decreases |limbs|
      {
        DropZeroChunk(limbs);
        limbs := limbs[..|limbs| - 4];
      }
    }

    /** `extend_length` */
    method ExtendLength(count: nat, mem: Allocator) returns (ok: bool)
      requires Chain(limbs)
      modifies this`limbs, mem`asked
      ensures limbs == if ok then Extended(old(limbs), count) else old(limbs)
      ensures mem.Served(old(mem.asked), Missing(old(limbs), count), ok)
    {
      var c, left := 1, count;
      while 4 * c < |limbs| && left >= CHUNK_BITS
        invariant 4 <= 4 * c <= |limbs| && 0 <= left == count - CHUNK_BITS * (c - 1)
      {
        left := left - CHUNK_BITS;
        c := c + 1;
      }
      if left < CHUNK_BITS {
        return true;
      }
      ok := mem.RequestAll(left / CHUNK_BITS);
      if ok {
        limbs := limbs + Zeros(4 * (left / CHUNK_BITS));
      }
    }

    /** `bint_bit_length` */
    method BitLength() returns (len: nat)
      requires Chain(limbs)
      ensures if Normal(limbs) then HasBits(Value(limbs), len) else len == 0
    {
      var base := |limbs| - 4;
      var i := 3;
      while i >= 0 && limbs[base + i] == 0
        invariant -1 <= i <= 3 && forall j :: base + i < j < |limbs| ==> limbs[j] == 0
      {
        i := i - 1;
      }
      if i < 0 {
        if |limbs| == 4 {
          assert limbs == Zeros(4);
          ValueZeros(4);
          assert Pow2(0) == 1;
        }
        return 0;
      }
      var bits := WordBits(limbs[base + i]);
      TopLimb(limbs, base + i, bits);
      len := 32 * (base + i) + bits;
    }

    /** `mag_cmp` */
    static method MagCmp(a: Bint, b: Bint) returns (r: int)
      requires Chain(a.limbs) && Chain(b.limbs)
      ensures |a.limbs| == |b.limbs| ==> r == Sign(Value(a.limbs) - Value(b.limbs))
      ensures |a.limbs| > |b.limbs| ==> r == 1
      ensures |a.limbs| < |b.limbs| ==> r == -1
    {
      var j := 0;
      r := 0;
      while j < |a.limbs| && j < |b.limbs|
        invariant 0 <= j <= |a.limbs| && j <= |b.limbs| && j % 4 == 0
        invariant r == Sign(Value(a.limbs[..j]) - Value(b.limbs[..j]))
      {
        var diff := CompareChunk(a.limbs[j..j + 4], b.limbs[j..j + 4]);
        NextChunk(a.limbs, b.limbs, j);
        if diff != 0 {
          r := diff;
        }
        j := j + 4;
      }
      if j < |a.limbs| {
        r := 1;
      } else if j < |b.limbs| {
        r := -1;
      } else {
        assert a.limbs[..j] == a.limbs && b.limbs[..j] == b.limbs;
      }
    }

    /** The first loop of `mag_add`; `src` may be this number itself. */
    method AddCommon(src: Bint) returns (carry: int)
      requires Chain(limbs) && Chain(src.limbs) && |src.limbs| <= |limbs|
      modifies this`limbs
      ensures 0 <= carry <= 1 && |limbs| == old(|limbs|) && Limbs(limbs)
      ensures Carried(limbs[..old(|src.limbs|)], carry, 1, old(limbs), 1, old(src.limbs), 0, old(|src.limbs|))
      ensures limbs[old(|src.limbs|)..] == old(limbs[|src.limbs|..])
    {
      ghost var d, s := limbs, src.limbs;
      var j, n := 0, |src.limbs|;
      carry := 0;
      while j < n
        invariant 0 <= j <= n == |s| && |limbs| == |d| && 0 <= carry <= 1 && Limbs(limbs)
        invariant limbs[j..] == d[j..] && |src.limbs| == |s| && src.limbs[j..] == s[j..]
        invariant Carried(limbs[..j], carry, 1, d, 1, s, 0, j)
      {
        assert limbs[j] == limbs[j..][0] == d[j] && src.limbs[j] == src.limbs[j..][0] == s[j];
        var r := limbs[j] + src.limbs[j] + carry;
        CarryStep(limbs[..j], carry, 1, d, 1, s, 0, j, r % BASE, r / BASE);
        SetAt(limbs, j, r % BASE);
        assert d[j + 1..] == d[j..][1..] && s[j + 1..] == s[j..][1..];
        assert limbs[j + 1..] == limbs[j..][1..] && src.limbs[j + 1..] == src.limbs[j..][1..];
        limbs := limbs[j := r % BASE];
        carry := r / BASE;
        j := j + 1;
      }
    }

    /** The second loop of `mag_add`. The carry out of a component is narrowed to
        an `int`, which is always zero. */
    method CarryThrough(n: nat, carry0: int)
      requires Chain(limbs) && n <= |limbs| && n % 4 == 0 && 0 <= carry0 <= 1
      modifies this`limbs
      ensures limbs ==
        if carry0 == 1 && n < old(|limbs|) then old(limbs)[n := (old(limbs)[n] + 1) % BASE] else old(limbs)
    {
      ghost var d := limbs;
      ghost var e := if carry0 == 1 && n < |d| then d[n := (d[n] + 1) % BASE] else d;
      var j, carry := n, carry0;
      while carry != 0 && j < |limbs|
        invariant n <= j <= |limbs| && j % 4 == 0 && (j > n ==> carry == 0)
        invariant limbs == if j == n then d else e
        invariant j == n ==> carry == carry0
      {
        var i := 0;
        while i < 4
          invariant 0 <= i <= 4 && (if i == 0 then limbs == d && carry == 1 else limbs == e && carry == 0)
        {
          var r := limbs[j + i] + carry;
          assert i > 0 ==> 0 <= limbs[j + i] < BASE;
          limbs := limbs[j + i := r % BASE];
          carry := ToInt(if r >= BASE then BASE else 0);
          i := i + 1;
        }
        j := j + 4;
      }
    }

    /** `mag_add` */
    method MagAdd(src: Bint, mem: Allocator) returns (ok: bool)
      requires Normal(limbs) && Normal(src.limbs)
      modifies this`limbs, mem`asked
      ensures mem.Served(old(mem.asked), AddNeeds(old(limbs), old(src.limbs)), ok)
      ensures !ok ==> limbs == old(limbs)
      ensures ok ==> Normal(limbs)
      ensures ok ==> Value(limbs) == old(Value(limbs)) + old(Value(src.limbs)) - Lost(old(limbs), old(src.limbs))
    {
      var dstLen := BitLength();
      var srcLen := src.BitLength();
      var m := (if dstLen > srcLen then dstLen else srcLen) + 1;
      BitsAre(limbs, dstLen);
      BitsAre(src.limbs, srcLen);
      ok := ExtendLength(m, mem);
      if ok {
        AddExtended(src, m, dstLen, srcLen, old(limbs), old(src.limbs));
      }
    }

    method AddExtended(src: Bint, m: nat, dstLen: nat, srcLen: nat, ghost d0: seq<int>, ghost s0: seq<int>)
      requires Normal(d0) && Normal(s0) && limbs == Extended(d0, m) && src.limbs == (if src == this then limbs else s0)
      requires src == this ==> s0 == d0
      requires HasBits(Value(d0), dstLen) && HasBits(Value(s0), srcLen)
      requires m == (if dstLen > srcLen then dstLen else srcLen) + 1
      modifies this`limbs
      ensures Normal(limbs) && Value(limbs) == Value(d0) + Value(s0) - Lost(d0, s0)
    {
      hide Value, Power, Carried, HasBits;
      ghost var d, s := limbs, src.limbs;
      ExtendedFacts(d0, m);
      SumRoom(Value(d0), Value(s0), dstLen, srcLen, |d|);
      SourceFits(s0, srcLen, m, |d|);
      var n := |src.limbs|;
      var carry := AddCommon(src);
      ghost var out := limbs[..n];
      assert limbs == out + d[n..];
      CarryThrough(n, carry);
      AddResult(d, s, out, carry, limbs);
      LostExtended(d0, s0, m);
      TrimChunks();
    }

    /** `mag_sub`, where this number is also the larger or the smaller operand. */
    method MagSub(big: Bint, small: Bint)
      requires Chain(limbs) && Chain(big.limbs) && Chain(small.limbs) && Value(big.limbs) >= Value(small.limbs)
      requires big == this || (small == this && |limbs| >= |big.limbs|)
      modifies this`limbs
      ensures Normal(limbs) && Value(limbs) == old(Value(big.limbs)) - old(Value(small.limbs))
    {
      hide Value, Power, Carried;
      ghost var b, d := big.limbs, limbs;
      ghost var s := Fitted(small.limbs, |b|);
      FittedValue(b, small.limbs);
      var j, borrow := SubCommon(big, small, b, s, d);
      SubRest(big, j, borrow, b, s, d);
      assert limbs == limbs[..|b|] + Zeros(|limbs| - |b|);
      ValueExtended(limbs[..|b|], |limbs| - |b|);
      TrimChunks();
    }

    /** The loop of `mag_sub` over the common chunks. */
    method SubCommon(big: Bint, small: Bint, ghost b: seq<int>, ghost s: seq<int>, ghost d: seq<int>)
      returns (j: nat, borrow: int)
      requires Chain(limbs) && Chain(big.limbs) && Chain(small.limbs)
      requires big == this || (small == this && |limbs| >= |big.limbs|)
      requires b == big.limbs && s == Fitted(small.limbs, |b|) && d == limbs
      modifies this`limbs
      ensures j <= |b| && j % 4 == 0 && 0 <= borrow <= 1 && |limbs| == |d| && Limbs(limbs) && (big != this ==> j == |b|)
      ensures j < |b| ==> forall i :: j <= i < |b| ==> s[i] == 0
      ensures Carried(limbs[..j], -borrow, 1, b, -1, s, 0, j) && limbs[j..] == d[j..]
    {
      hide Power;
      j, borrow := 0, 0;
      ghost var t := small.limbs;
      var n, k := |big.limbs|, |small.limbs|;
      NothingCarried(b, s);
      while j < n && j < k
        invariant 0 <= j <= n && j <= k && 0 <= borrow <= 1
        invariant SubState(this, big, small, j, b, t, d) && Carried(limbs[..j], -borrow, 1, b, -1, s, 0, j)
      {
        borrow := SubOnce(big, small, j, borrow, b, s, d, t);
        j := j + 1;
      }
    }

    method SubOnce(big: Bint, small: Bint, j: nat, borrow: int, ghost b: seq<int>, ghost s: seq<int>, ghost d: seq<int>,
                   ghost t: seq<int>) returns (next: int)
      requires j < |b| && j < |t| && |b| <= |d| && s == Fitted(t, |b|) && (big == this || small == this)
      requires 0 <= borrow <= 1
      requires SubState(this, big, small, j, b, t, d) && Limbs(b) && Limbs(t)
      requires Carried(limbs[..j], -borrow, 1, b, -1, s, 0, j)
      modifies this`limbs
      ensures 0 <= next <= 1 && SubState(this, big, small, j + 1, b, t, d)
      ensures Carried(limbs[..j + 1], -next, 1, b, -1, s, 0, j + 1)
    {
      hide Value, Power, Carried;
      SameTail(limbs, d, j);
      SameTail(big.limbs, b, j);
      SameTail(small.limbs, t, j);
      var r := big.limbs[j] - small.limbs[j] - borrow;
      next := if r < 0 then 1 else 0;
      assert r % BASE == r + BASE * next;
      CarryStep(limbs[..j], -borrow, 1, b, -1, s, 0, j, r % BASE, -next);
      SetAt(limbs, j, r % BASE);
      limbs := limbs[j := r % BASE];
    }

    /** The loop of `mag_sub` that passes a borrow on. */
    method SubRest(big: Bint, j0: nat, borrow0: int, ghost b: seq<int>, ghost s: seq<int>, ghost d: seq<int>)
      requires j0 <= |b| && j0 % 4 == 0 && 0 <= borrow0 <= 1 && |limbs| == |d| && Limbs(limbs) && Chain(b) && Chain(d)
      requires |b| <= |d|
      requires |s| == |b| && Value(b) >= Value(s) && (if big == this then d == b else j0 == |b| && big.limbs == b)
      requires j0 < |b| ==> forall i :: j0 <= i < |b| ==> s[i] == 0
      requires Carried(limbs[..j0], -borrow0, 1, b, -1, s, 0, j0) && limbs[j0..] == d[j0..]
      requires forall i :: |b| <= i < |d| ==> d[i] == 0
      modifies this`limbs
      ensures |limbs| == |d| && Chain(limbs) && Value(limbs[..|b|]) == Value(b) - Value(s)
      ensures forall i :: |b| <= i < |d| ==> limbs[i] == 0
    {
      hide Value, Power, Carried;
      var j, borrow, n := j0, borrow0, |big.limbs|;
      while borrow != 0 && j < n
        invariant j0 <= j <= n == |b| && j % 4 == 0 && 0 <= borrow <= 1 && |limbs| == |d| && Limbs(limbs)
        invariant limbs[j..] == d[j..]
        invariant Carried(limbs[..j], -borrow, 1, b, -1, s, 0, j)
        invariant big == this || j == |b|
      {
        ghost var j' := j;
        var i := 0;
        while i < 4
          invariant 0 <= i <= 4 && j == j' && 0 <= borrow <= 1 && |limbs| == |d| && Limbs(limbs)
          invariant limbs[j + i..] == d[j + i..]
          invariant Carried(limbs[..j + i], -borrow, 1, b, -1, s, 0, j + i)
        {
          borrow := BorrowOnce(j + i, borrow, b, s, d);
          i := i + 1;
        }
        j := j + 4;
      }
      SubFinish(limbs, j, borrow, b, s, d);
    }

    method BorrowOnce(j: nat, borrow: int, ghost b: seq<int>, ghost s: seq<int>, ghost d: seq<int>) returns (next: int)
      requires j < |b| == |limbs| == |d| == |s| && Limbs(limbs) && d == b && s[j] == 0 && 0 <= borrow <= 1
      requires limbs[j..] == d[j..]
      requires Carried(limbs[..j], -borrow, 1, b, -1, s, 0, j)
      modifies this`limbs
      ensures 0 <= next <= 1 && |limbs| == |d| && Limbs(limbs) && limbs[j + 1..] == d[j + 1..]
      ensures Carried(limbs[..j + 1], -next, 1, b, -1, s, 0, j + 1)
    {
      hide Value, Power, Carried;
      assert limbs[j] == limbs[j..][0] == b[j];
      var r := limbs[j] - borrow;
      next := if r < 0 then 1 else 0;
      assert r % BASE == r + BASE * next;
      CarryStep(limbs[..j], -borrow, 1, b, -1, s, 0, j, r % BASE, -next);
      SetAt(limbs, j, r % BASE);
      SameTail(limbs, d, j);
      limbs := limbs[j := r % BASE];
    }

    /** `do_subtract`: `src` may be this number itself. */
    method DoSubtract(src: Bint, mem: Allocator) returns (ok: bool)
      requires Normal(limbs) && Normal(src.limbs)
      modifies this, mem`asked
      ensures mem.Served(old(mem.asked), SubtractNeeds(old(limbs), old(src.limbs)), ok)
      ensures !ok ==> limbs == old(limbs) && negative == old(negative)
      ensures ok ==> Normal(limbs)
      ensures ok ==> negative == (old(negative) != (old(Value(limbs)) < old(Value(src.limbs))))
      ensures ok && old(negative) ==> Int() == old(Value(src.limbs)) - old(Value(limbs))
      ensures ok && !old(negative) ==> Int() == old(Value(limbs)) - old(Value(src.limbs))
    {
      hide Value;
      var c := MagCmp(this, src);
      CompareNormal(limbs, src.limbs, c);
      if c < 0 {
        var len := src.BitLength();
        BitsAre(src.limbs, len);
        ok := ExtendLength(len, mem);
        if ok {
          ExtendedFacts(old(limbs), len);
          NormalChunks(src.limbs, len);
          MagSub(src, this);
          negative := !negative;
        }
      } else {
        MagSub(this, src);
        ok := true;
      }
    }

    /** `bint_add` */
    method Add(src: Bint, mem: Allocator) returns (ok: bool)
      requires Normal(limbs) && Normal(src.limbs)
      modifies this, mem`asked
      ensures old(negative) == old(src.negative) ==>
        mem.Served(old(mem.asked), AddNeeds(old(limbs), old(src.limbs)), ok)
      ensures old(negative) != old(src.negative) ==>
        mem.Served(old(mem.asked), SubtractNeeds(old(limbs), old(src.limbs)), ok)
      ensures !ok ==> limbs == old(limbs) && negative == old(negative)
      ensures ok ==> Normal(limbs)
      ensures ok && old(negative) != old(src.negative) ==> Int() == old(Int()) + old(src.Int())
      ensures ok && old(negative) != old(src.negative) ==>
        negative == (old(negative) != (old(Value(limbs)) < old(Value(src.limbs))))
      ensures ok && old(negative) == old(src.negative) ==>
        negative == old(negative) &&
        Value(limbs) == old(Value(limbs)) + old(Value(src.limbs)) - Lost(old(limbs), old(src.limbs))
    {
      if negative == src.negative {
        ok := MagAdd(src, mem);
      } else {
        ok := DoSubtract(src, mem);
      }
    }

    /** `bint_sub` */
    method Sub(src: Bint, mem: Allocator) returns (ok: bool)
      requires Normal(limbs) && Normal(src.limbs)
      modifies this, mem`asked
      ensures old(negative) != old(src.negative) ==>
        mem.Served(old(mem.asked), AddNeeds(old(limbs), old(src.limbs)), ok)
      ensures old(negative) == old(src.negative) ==>
        mem.Served(old(mem.asked), SubtractNeeds(old(limbs), old(src.limbs)), ok)
      ensures !ok ==> limbs == old(limbs) && negative == old(negative)
      ensures ok ==> Normal(limbs)
      ensures ok && old(negative) == old(src.negative) ==> Int() == old(Int()) - old(src.Int())
      ensures ok && old(negative) == old(src.negative) ==>
        negative == (old(negative) != (old(Value(limbs)) < old(Value(src.limbs))))
      ensures ok && old(negative) != old(src.negative) ==>
        negative == old(negative) &&
        Value(limbs) == old(Value(limbs)) + old(Value(src.limbs)) - Lost(old(limbs), old(src.limbs))
    {
      if negative != src.negative {
        ok := MagAdd(src, mem);
      } else {
        ok := DoSubtract(src, mem);
      }
    }
  }
}
