/** `bint_div` of src/bint.c: shift and subtract, then fix the signs. */
module BintDiv {
  import opened Arith
  import opened BintLimbs
  import opened Bint
  import opened BintShift
  import opened Memory

  // ----------------------------------------------------- copying, setting bits

  /** `bint_copy` */
  method Copy(dst: Bint, src: Bint, mem: Allocator) returns (ok: bool)
    requires dst != src && Chain(dst.limbs) && Normal(src.limbs)
    modifies dst, mem`asked
    ensures mem.Served(old(mem.asked), Missing(old(dst.limbs), Bits(src.limbs)), ok)
    ensures ok ==> dst.limbs == src.limbs && dst.negative == src.negative
    ensures !ok ==> dst.limbs == old(dst.limbs) && dst.negative == old(dst.negative)
  {
    hide Value, HasBits;
    var len := src.BitLength();
    BitsAre(src.limbs, len);
    ok := dst.ExtendLength(len, mem);
    if ok {
      ExtendedFacts(old(dst.limbs), len);
      NormalChunks(src.limbs, len);
      dst.negative := src.negative;
      CopyChunks(dst, src);
    }
  }

  /** The chunks of the source over those of the destination, whose others are destroyed. */
  method CopyChunks(dst: Bint, src: Bint)
    requires dst != src && Chain(dst.limbs) && Chain(src.limbs) && |src.limbs| <= |dst.limbs|
    modifies dst`limbs
    ensures dst.limbs == src.limbs
  {
    var j, n := 0, |src.limbs|;
    while j < n
      invariant 0 <= j <= n <= |dst.limbs| && j % 4 == 0 && dst.limbs[..j] == src.limbs[..j]
      invariant Chain(src.limbs) && n == |src.limbs|
    {
      assert src.limbs[..j + 4] == src.limbs[..j] + src.limbs[j..j + 4];
      dst.limbs := dst.limbs[..j] + src.limbs[j..j + 4] + dst.limbs[j + 4..];
      j := j + 4;
    }
    dst.limbs := dst.limbs[..n];
  }

  predicate BitOf(v: int, pos: nat) { (v / Pow2(pos)) % 2 == 1 }

  /** Bit `k` of component `t` is bit `32 t + k` of the number. */
  lemma {:induction false} LimbBit(s: seq<int>, t: nat, k: nat)
    requires Limbs(s) && t < |s| && k < 32
    ensures BitOf(Value(s), 32 * t + k) <==> BitOf(s[t], k)
  {
    hide Value, Power;
    ValueAt(s, t);
    ValueBound(s[..t]);
    var h := Value(s[t + 1..]);
    PowerSum(t, 1);
    assert Power(1) == BASE by { BasePower(); }
    assert Value(s) == (s[t] + BASE * h) * Power(t) + Value(s[..t]) by {
      assert (s[t] + BASE * h) * Power(t) == Power(t) * s[t] + (Power(t) * BASE) * h;
    }
    DivModUnique(Value(s), Power(t), s[t] + BASE * h, Value(s[..t]));
    PowerPow2(t);
    Pow2Sum(32 * t, k);
    DivTwice(Value(s), Pow2(32 * t), Pow2(k));
    WordBit(s[t], h, k);
  }

  lemma {:induction false} BasePower()
    ensures Power(1) == BASE
  {
    assert Power(0) == 1;
  }

  lemma {:induction false} WordBit(d: int, h: int, k: nat)
    requires k < 32 && 0 <= d
    ensures BitOf(d + BASE * h, k) <==> BitOf(d, k)
  {
    var p, q := Pow2(k), Pow2(32 - k - 1);
    assert Pow2(32 - k) == 2 * q;
    BaseSplit(k);
    EvenPart(d, h, p, q, BASE);
  }

  /** Adding an even multiple of `p` leaves the bit at `p` alone. */
  lemma {:induction false} EvenPart(d: int, h: int, p: int, q: int, base: int)
    requires p >= 1 && base == p * (2 * q)
    ensures ((d + base * h) / p) % 2 == (d / p) % 2
  {
    var a, r, e := d / p, d % p, q * h;
    EvenProduct(h, p, q, base);
    assert (a + 2 * e) * p == a * p + (2 * e) * p;
    DivModUnique(d + base * h, p, a + 2 * e, r);
  }

  lemma {:induction false} EvenProduct(h: int, p: int, q: int, base: int)
    requires base == p * (2 * q)
    ensures base * h == (2 * (q * h)) * p
  {
    var t := 2 * q;
    assert p * t * h == p * (t * h);
    assert t * h == 2 * (q * h);
  }

  /** Setting a bit that is clear. */
  lemma {:induction false} SetBitValue(s: seq<int>, t: nat, k: nat)
    requires Limbs(s) && t < |s| && k < 32 && !BitOf(s[t], k)
    ensures 0 <= s[t] + Pow2(k) < BASE && Value(s[t := s[t] + Pow2(k)]) == Value(s) + Pow2(32 * t + k)
  {
    hide Value, Power, Pow2, BitOf;
    SetBitRoom(s[t], k);
    var s' := s[t := s[t] + Pow2(k)];
    ValueAt(s, t);
    ValueAt(s', t);
    assert s'[..t] == s[..t] && s'[t + 1..] == s[t + 1..];
    PowerPow2(t);
    Pow2Sum(32 * t, k);
    assert Power(t) * (s[t] + Pow2(k)) == Power(t) * s[t] + Power(t) * Pow2(k);
  }

  lemma {:induction false} SetBitRoom(d: int, k: nat)
    requires 0 <= d < BASE && k < 32 && !BitOf(d, k)
    ensures d + Pow2(k) < BASE
  {
    var p, q := Pow2(k), Pow2(32 - k - 1);
    assert Pow2(32 - k) == 2 * q;
    BaseSplit(k);
    EvenRoom(d, p, q);
  }

  lemma {:induction false} EvenRoom(d: int, p: int, q: int)
    requires p >= 1 && 0 <= d < BASE == p * (2 * q) && (d / p) % 2 == 0
    ensures d + p < BASE
  {
    var a := d / p;
    DivBelow(d, p, 2 * q);
    assert a + 2 <= 2 * q;
    MulMonotone(p, a + 2, 2 * q);
    assert p * (a + 2) == p * a + p + p;
    assert d < p * a + p;
  }

  /** `bint_bit_set` */
  method BitSet(b: Bint, pos: nat, mem: Allocator) returns (ok: bool)
    requires Normal(b.limbs)
    modifies b`limbs, mem`asked
    ensures mem.Served(old(mem.asked), Missing(old(b.limbs), pos), ok)
    ensures !ok ==> b.limbs == old(b.limbs)
    ensures ok ==> Normal(b.limbs)
    ensures ok ==> Value(b.limbs) == old(Value(b.limbs)) + if BitOf(old(Value(b.limbs)), pos) then 0 else Pow2(pos)
  {
    hide Value, Power, Pow2;
    ok := b.ExtendLength(pos, mem);
    if ok {
      ExtendedFacts(old(b.limbs), pos);
      var t, k := pos / 32, pos % 32;
      LimbBit(b.limbs, t, k);
      if !BitOf(b.limbs[t], k) {
        SetBitValue(b.limbs, t, k);
        b.limbs := b.limbs[t := b.limbs[t] + Pow2(k)];
      } else {
        BitNotZero(b.limbs[t], k);
      }
      SetNormal(old(b.limbs), b.limbs, pos);
    }
  }

  lemma {:induction false} BitNotZero(d: int, k: nat)
    requires d >= 0
    ensures BitOf(d, k) ==> d > 0
  {
    if d == 0 {
      DivModUnique(0, Pow2(k), 0, 0);
    }
  }

  lemma {:induction false} SetNormal(s: seq<int>, r: seq<int>, pos: nat)
    requires Normal(s) && |r| == |Extended(s, pos)| && Limbs(r) && pos / 32 < |r| && r[pos / 32] > 0
    requires forall i :: 0 <= i < |r| && i != pos / 32 ==> r[i] == Extended(s, pos)[i]
    requires r[pos / 32] >= Extended(s, pos)[pos / 32]
    ensures Normal(r)
  {
    if |s| < 4 * ChunksFor(pos) {
      assert |r| - 4 <= pos / 32;
    } else {
      assert forall i :: 0 <= i < |r| ==> r[i] >= s[i];
    }
  }

  // ------------------------------------------------------------- the main loop

  /** The one case in which the test of the first bit goes wrong: shifting the
      divisor has left a zero chunk on top, so that it is taken for the larger number. */
  predicate TopBitMissed(n: int, num: nat, d: int, den: nat) {
    den < num && num % CHUNK_BITS == 0 && n >= d * Pow2(num - den)
  }

  /** With `k` bits to go: the division equation, and the bound on the remainder.
      Once the bit at `top` has been missed, all bits below it are set. */
  ghost predicate Dividing(n: int, d: int, q: int, rem: int, k: nat, missed: bool, first: bool, top: nat)
  {
    true == (
      && n == q * d + rem && q >= 0 && rem >= 0 && q % Pow2(k) == 0
      && (if !missed then rem < d * Pow2(k)
          else if first then k == top + 1 && q == 0 && d * Pow2(top) <= rem
          else q == Pow2(top) - Pow2(k) && d * Pow2(k) <= rem))
  }

  lemma {:induction false} DivStep(n: int, d: int, q: int, rem: int, k: nat, missed: bool, first: bool, take: bool,
                                   top: nat)
    requires Dividing(n, d, q, rem, k + 1, missed, first, top) && d > 0
    requires take ==> d * Pow2(k) <= rem
    requires !take ==> rem < d * Pow2(k) || (missed && first)
    requires missed && first ==> !take
    ensures Dividing(n, d, if take then q + Pow2(k) else q,
              if take then rem - d * Pow2(k) else rem, k, missed, false, top)
  {
    var p := Pow2(k);
    assert Pow2(k + 1) == 2 * p;
    assert d * (2 * p) == d * p + d * p;
    var a := q / (2 * p);
    assert q == a * (2 * p) && q == (2 * a) * p;
    if take {
      assert (q + p) * d == q * d + d * p;
      assert q + p == (2 * a + 1) * p;
      ModMultiple(2 * a + 1, p);
    } else {
      ModMultiple(2 * a, p);
    }
  }

  /** The bit that is about to be set is clear. */
  lemma {:induction false} ClearBit(q: int, k: nat)
    requires q % Pow2(k + 1) == 0
    ensures !BitOf(q, k)
  {
    var p := Pow2(k);
    assert Pow2(k + 1) == 2 * p;
    var a := q / (2 * p);
    assert q == a * (2 * p) && q == (2 * a) * p;
    ModMultiple(2 * a, p);
  }

  lemma {:induction false} PowersAround(k: nat)
    requires k > 0
    ensures Pow2(k + 1) == 2 * Pow2(k) && Pow2(k) == 2 * Pow2(k - 1) && Pow2(k) >= 2 && Pow2(0) == 1 && Pow2(1) == 2
  {
    Pow2Monotone(1, k);
    assert Pow2(1) == 2;
  }

  lemma {:induction false} DivStart(n: int, num: nat, d: int, den: nat, k: nat)
    requires HasBits(n, num) && HasBits(d, den) && den > 0 && k == (if den < num then num - den else 0) + 1
    ensures Dividing(n, d, 0, n, k, TopBitMissed(n, num, d, den), true, k - 1)
  {
    PowersAround(k);
    PowersAround(den);
    hide Pow2;
    DivModUnique(0, Pow2(k), 0, 0);
    Pow2Sum(den, k - 1);
    Pow2Monotone(num, den + (k - 1));
    StartBound(n, d, Pow2(den - 1), Pow2(k - 1));
  }

  lemma {:induction false} StartBound(n: int, d: int, h: int, p: int)
    requires h <= d && p >= 1 && n < (2 * h) * p
    ensures n < d * (2 * p)
  {
    MulMonotone(2 * p, h, d);
    assert (2 * p) * h == (2 * h) * p;
  }

  /** What the first comparison finds. */
  lemma {:induction false} FirstCompare(v: seq<int>, sd: seq<int>, rem: seq<int>, n: int, num: nat, d: int, den: nat,
                                        cmp: int)
    requires Normal(v) && Chain(sd) && Normal(rem) && Value(v) == d && Value(rem) == n && HasBits(n, num)
    requires HasBits(d, den) && den < num
    requires |sd| == |Extended(v, num)| && Value(sd) == d * Pow2(num - den)
    requires (|sd| == |rem| ==> cmp == Sign(Value(sd) - Value(rem))) && (|sd| > |rem| ==> cmp == 1)
    requires |sd| < |rem| ==> cmp == -1
    ensures cmp <= 0 <==> Value(sd) <= Value(rem) && !TopBitMissed(n, num, d, den)
  {
    hide Value;
    NormalChunks(v, den);
    NormalChunks(rem, num);
    assert ChunksFor(den) <= ChunksFor(num);
    if num % CHUNK_BITS == 0 {
      ExactChunks(rem, num);
    } else {
      EnoughChunks(rem, num);
    }
  }

  lemma {:induction false} ExactChunks(s: seq<int>, num: nat)
    requires Normal(s) && HasBits(Value(s), num) && num > 0 && num % CHUNK_BITS == 0
    ensures |s| < 4 * ChunksFor(num)
  {
    if |s| >= 4 * ChunksFor(num) {
      NormalLarge(s);
      PowerPow2(|s| - 4);
      Pow2Monotone(num, 32 * (|s| - 4));
    }
  }

  lemma {:induction false} EnoughChunks(s: seq<int>, num: nat)
    requires Normal(s) && HasBits(Value(s), num) && num > 0 && num % CHUNK_BITS != 0
    ensures |s| >= 4 * ChunksFor(num)
  {
    if |s| < 4 * ChunksFor(num) {
      ValueBound(s);
      PowerPow2(|s|);
      Pow2Monotone(32 * |s|, num - 1);
    }
  }

  /** The state of the loop: the shifted divisor, what is left and the bits so far. */
  ghost predicate LoopState(n: int, d: int, quot: Bint, rem: Bint, sdiv: Bint, k: nat, missed: bool, first: bool,
                            top: nat)
    reads quot, rem, sdiv
  {
    true == (
      && Normal(quot.limbs) && Normal(rem.limbs) && Chain(sdiv.limbs) && (!first ==> Normal(sdiv.limbs))
      && (k > 0 ==> Value(sdiv.limbs) == d * Pow2(k - 1))
      && !quot.negative && !rem.negative
      && Dividing(n, d, Value(quot.limbs), Value(rem.limbs), k, missed, first, top))
  }

  /** It goes well exactly if every request made on the way has been granted; and where all
      fits into one chunk none is made. */
  ghost predicate Asked(mem: Allocator, from: nat, small: bool, ok: bool)
    reads mem
  {
    from <= mem.asked && (ok <==> mem.Granted(from)) && (small ==> mem.asked == from)
  }

  /** One round: test, subtract, and halve the shifted divisor. */
  method DivideOnce(quot: Bint, rem: Bint, sdiv: Bint, pos: nat, take: bool, ghost n: int, ghost d: int,
                    ghost missed: bool, ghost first: bool, ghost top: nat, mem: Allocator) returns (ok: bool)
    requires quot != rem && quot != sdiv && rem != sdiv && d > 0
    requires LoopState(n, d, quot, rem, sdiv, pos + 1, missed, first, top)
    requires take <==> Value(sdiv.limbs) <= Value(rem.limbs) && !(missed && first)
    modifies quot`limbs, rem`limbs, sdiv`limbs, mem`asked
    ensures Asked(mem, old(mem.asked), pos < CHUNK_BITS, ok)
    ensures ok ==> LoopState(n, d, quot, rem, sdiv, pos, missed, false, top)
  {
    hide Value, Pow2, BitOf, Dividing;
    DivStep(n, d, Value(quot.limbs), Value(rem.limbs), pos, missed, first, take, top);
    QuotientBits(n, d, Value(quot.limbs), Value(rem.limbs), pos, missed, first, top);
    ok := true;
    if take {
      ok := BitSet(quot, pos, mem);
      if !ok {
        return;
      }
      rem.MagSub(rem, sdiv);
    }
    ShiftRight(sdiv, 1);
    HalfShifted(d, pos);
  }

  lemma {:induction false} QuotientBits(n: int, d: int, q: int, rem: int, k: nat, missed: bool, first: bool, top: nat)
    requires Dividing(n, d, q, rem, k + 1, missed, first, top)
    ensures !BitOf(q, k)
  {
    ClearBit(q, k);
  }

  lemma {:induction false} HalfShifted(d: int, k: nat)
    ensures Pow2(1) == 2 && (k > 0 ==> (d * Pow2(k)) / 2 == d * Pow2(k - 1))
  {
    assert Pow2(1) == 2;
    if k > 0 {
      assert d * Pow2(k) == 2 * (d * Pow2(k - 1));
    }
  }

  /** Setting up the shifted divisor and the remainder. */
  method DivideSetup(dividend: Bint, divisor: Bint, rem: Bint, sdiv: Bint, num: nat, den: nat, mem: Allocator)
    returns (ok: bool, pos: nat)
    requires Normal(dividend.limbs) && Normal(divisor.limbs) && Normal(rem.limbs) && Normal(sdiv.limbs) && rem != sdiv
    requires rem != dividend && rem != divisor && sdiv != dividend && sdiv != divisor
    requires HasBits(Value(dividend.limbs), num) && HasBits(Value(divisor.limbs), den) && den > 0
    modifies rem, sdiv, mem`asked
    ensures Asked(mem, old(mem.asked), num < CHUNK_BITS && den < CHUNK_BITS, ok)
    ensures ok ==>
      rem.limbs == dividend.limbs && !rem.negative && !sdiv.negative && pos == if den < num then num - den else 0
    ensures ok ==> Chain(sdiv.limbs) && Value(sdiv.limbs) == Value(divisor.limbs) * Pow2(pos)
    ensures ok ==> if den < num then |sdiv.limbs| == |Extended(divisor.limbs, num)| else sdiv.limbs == divisor.limbs
  {
    hide Value, Power, Pow2, Extended;
    pos := 0;
    NoShift(divisor.limbs, den);
    BitsAre(divisor.limbs, den);
    BitsAre(dividend.limbs, num);
    ok := Copy(sdiv, divisor, mem);
    if ok && den < num {
      pos := num - den;
      ok := ShiftLeft(sdiv, pos, mem);
    }
    if ok {
      ok := Copy(rem, dividend, mem);
      sdiv.negative := false;
      rem.negative := false;
    }
  }

  lemma {:induction false} NoShift(s: seq<int>, den: nat)
    requires HasBits(Value(s), den) && den > 0
    ensures Value(s) != 0 && Value(s) * Pow2(0) == Value(s)
  {
    assert Pow2(0) == 1;
  }

  /** The loop over the bits of the quotient. */
  method DivideLoop(dividend: Bint, divisor: Bint, quot: Bint, rem: Bint, sdiv: Bint, num: nat, den: nat,
                    pos0: nat, mem: Allocator) returns (ok: bool)
    requires quot != rem && quot != sdiv && rem != sdiv && dividend !in {quot, rem, sdiv}
    requires divisor !in {quot, rem, sdiv}
    requires Normal(dividend.limbs) && Normal(divisor.limbs) && rem.limbs == dividend.limbs && !rem.negative
    requires HasBits(Value(dividend.limbs), num) && HasBits(Value(divisor.limbs), den) && den > 0
    requires pos0 == (if den < num then num - den else 0) && Chain(sdiv.limbs)
    requires Value(sdiv.limbs) == Value(divisor.limbs) * Pow2(pos0)
    requires if den < num then |sdiv.limbs| == |Extended(divisor.limbs, num)| else sdiv.limbs == divisor.limbs
    requires Normal(quot.limbs) && Value(quot.limbs) == 0 && !quot.negative
    modifies quot`limbs, rem`limbs, sdiv`limbs, mem`asked
    ensures Asked(mem, old(mem.asked), pos0 < CHUNK_BITS, ok)
    ensures ok ==> Normal(quot.limbs) && Normal(rem.limbs) && !quot.negative && !rem.negative
    ensures ok ==> Value(dividend.limbs) == Value(quot.limbs) * Value(divisor.limbs) + Value(rem.limbs)
    ensures ok ==> (Value(rem.limbs) < Value(divisor.limbs) <==>
      !TopBitMissed(Value(dividend.limbs), num, Value(divisor.limbs), den))
    ensures ok && TopBitMissed(Value(dividend.limbs), num, Value(divisor.limbs), den) ==>
      Value(quot.limbs) == Pow2(num - den) - 1
  {
    ghost var n, d := Value(dividend.limbs), Value(divisor.limbs);
    ghost var missed := TopBitMissed(n, num, d, den);
    assert d > 0;
    DivStart(n, num, d, den, pos0 + 1);
    hide Value, Pow2, HasBits, Dividing, TopBitMissed, Extended, Sign;
    var c := Bint.MagCmp(sdiv, rem);
    FirstTest(divisor.limbs, sdiv.limbs, rem.limbs, n, num, d, den, c);
    ok := DivideOnce(quot, rem, sdiv, pos0, c <= 0, n, d, missed, true, pos0, mem);
    if ok {
      ok := DivideRest(quot, rem, sdiv, pos0, n, d, missed, mem);
    }
  }

  /** All bits after the first. */
  method DivideRest(quot: Bint, rem: Bint, sdiv: Bint, pos0: nat, ghost n: int, ghost d: int,
                    ghost missed: bool, mem: Allocator) returns (ok: bool)
    requires quot != rem && quot != sdiv && rem != sdiv && d > 0
    requires LoopState(n, d, quot, rem, sdiv, pos0, missed, false, pos0)
    modifies quot`limbs, rem`limbs, sdiv`limbs, mem`asked
    ensures Asked(mem, old(mem.asked), pos0 <= CHUNK_BITS, ok)
    ensures ok ==> Normal(quot.limbs) && Normal(rem.limbs) && !quot.negative && !rem.negative
    ensures ok ==> n == Value(quot.limbs) * d + Value(rem.limbs) && (Value(rem.limbs) < d <==> !missed)
    ensures ok && missed ==> Value(quot.limbs) == Pow2(pos0) - 1
  {
    hide Value, Pow2, Dividing;
    var k := pos0;
    ok := true;
    while k > 0 && ok
      invariant 0 <= k <= pos0 && Asked(mem, old(mem.asked), pos0 <= CHUNK_BITS, ok)
      invariant ok ==> LoopState(n, d, quot, rem, sdiv, k, missed, false, pos0)
    {
      var c := Bint.MagCmp(sdiv, rem);
      CompareNormal(sdiv.limbs, rem.limbs, c);
      ok := DivideOnce(quot, rem, sdiv, k - 1, c <= 0, n, d, missed, false, pos0, mem);
      k := k - 1;
    }
    if ok {
      DivideDone(n, d, Value(quot.limbs), Value(rem.limbs), missed, pos0);
    }
  }

  lemma {:induction false} DivideDone(n: int, d: int, q: int, rem: int, missed: bool, top: nat)
    requires Dividing(n, d, q, rem, 0, missed, false, top)
    ensures n == q * d + rem && (rem < d <==> !missed) && (missed ==> q == Pow2(top) - 1)
  {
    assert Pow2(0) == 1;
  }

  lemma {:induction false} FirstTest(v: seq<int>, sd: seq<int>, rem: seq<int>, n: int, num: nat, d: int, den: nat,
                                     cmp: int)
    requires Normal(v) && Chain(sd) && Normal(rem) && Value(v) == d && Value(rem) == n && HasBits(n, num)
    requires HasBits(d, den)
    requires Value(sd) == d * Pow2(if den < num then num - den else 0)
    requires if den < num then |sd| == |Extended(v, num)| else sd == v
    requires (|sd| == |rem| ==> cmp == Sign(Value(sd) - Value(rem))) && (|sd| > |rem| ==> cmp == 1)
    requires |sd| < |rem| ==> cmp == -1
    ensures cmp <= 0 <==> Value(sd) <= Value(rem) && !TopBitMissed(n, num, d, den)
  {
    if den < num {
      FirstCompare(v, sd, rem, n, num, d, den, cmp);
    } else {
      CompareNormal(sd, rem, cmp);
    }
  }

  // ------------------------------------------------------------------ the signs

  predicate Missed(n: nat, d: nat) { TopBitMissed(n, BitCount(n), d, BitCount(d)) }

  /** The magnitude of the quotient that the loop arrives at. */
  function Quotient(n: nat, d: nat): (q: nat)
    requires d > 0
  {
    if Missed(n, d) then Pow2(BitCount(n) - BitCount(d)) - 1
    else n / d
  }

  lemma {:induction false} QuotientIs(n: nat, num: nat, d: nat, den: nat, q: int, r: int)
    requires HasBits(n, num) && HasBits(d, den) && d > 0 && n == q * d + r && r >= 0
    requires (r < d <==> !TopBitMissed(n, num, d, den)) && (TopBitMissed(n, num, d, den) ==> q == Pow2(num - den) - 1)
    ensures q == Quotient(n, d)
  {
    BitCountBits(n);
    BitCountBits(d);
    BitsUnique(n, num, BitCount(n));
    BitsUnique(d, den, BitCount(d));
    if !Missed(n, d) {
      DivModUnique(n, d, q, r);
    }
  }

  /** The remainder that goes with it is not above the divisor, unless the top bit is
      missed and more than that bit is there. */
  lemma {:induction false} RemainderFits(n: nat, d: nat)
    requires d > 0
    ensures n - Quotient(n, d) * d >= 0
    ensures n - Quotient(n, d) * d <= d <==> (Missed(n, d) ==> n == d * Pow2(BitCount(n) - BitCount(d)))
  {
    hide Pow2, BitCount;
    if Missed(n, d) {
      OneLess(Pow2(BitCount(n) - BitCount(d)), d);
    } else {
      DivRemainder(n, d);
    }
  }

  lemma {:induction false} OneLess(p: int, d: int)
    ensures (p - 1) * d == d * p - d
  {
  }

  lemma {:induction false} DivRemainder(n: int, d: int)
    requires d > 0
    ensures n - (n / d) * d == n % d && 0 <= n % d < d
  {
  }

  /** What `bint_div` promises of a quotient and a remainder: the remainder may be
      as large as the divisor. */
  predicate Divides(n: int, d: int, q: int, r: int) { n == q * d + r && (if d < 0 then d <= r <= 0 else 0 <= r <= d) }

  function Signed(neg: bool, n: int): int { if neg then -n else n }

  function Distance(a: int, b: int): int { if a <= b then b - a else a - b }

  /** With the same signs. */
  lemma {:induction false} SameSigns(neg: bool, n: int, d: int, q: int, r: int)
    requires n == q * d + r && d > 0 && r >= 0
    ensures Divides(Signed(neg, n), Signed(neg, d), q, Signed(neg, r)) <==> r <= d
  {
  }

  /** With opposite signs, after borrowing from the quotient: right if the remainder
      was not above the divisor and nothing was lost in adding one. */
  lemma {:induction false} OppositeSigns(neg: bool, n: int, d: int, q: int, r: int, lost: int)
    requires n == q * d + r && d > 0 && r >= 0 && (lost == 0 || lost >= 2)
    ensures Divides(Signed(!neg, n), Signed(neg, d), -(q + 1 - lost), Signed(neg, Distance(r, d))) <==>
      r <= d && lost == 0
  {
    var e := lost * d;
    assert e == 0 <==> lost == 0;
    BorrowProduct(d, q, lost);
    if lost >= 2 {
      MulMonotone(d, 2, lost);
    }
  }

  lemma {:induction false} BorrowProduct(d: int, q: int, lost: int)
    ensures -(q + 1 - lost) * d == lost * d - q * d - d
    ensures -(q + 1 - lost) * -d == q * d + d - lost * d
  {
    assert (q + 1 - lost) * d == q * d + d - lost * d;
  }

  /** Adding one to a chain loses something exactly if the sum is a multiple of 2^160. */
  lemma {:induction false} LostOne(q: seq<int>)
    requires Normal(q)
    ensures Lost(q, [1, 0, 0, 0]) == if (Value(q) + 1) % Power(5) == 0 then Power(5) else 0
  {
    hide Power;
    OneValue();
    ValueBound(q);
    PowerSum(4, 1);
    BasePower();
    if |q| <= 4 {
      PowerFive();
      DivModUnique(Value(q) + 1, Power(5), 0, Value(q) + 1);
    } else {
      ValueAt(q, 4);
      ValueBound(q[..4]);
      LostDigits(Value(q), Value(q[..4]), q[4], Value(q[5..]), Power(4), Power(5));
    }
  }

  lemma {:induction false} PowerFive()
    ensures Power(4) < Power(5)
  {
  }

  lemma {:induction false} OneValue()
    ensures Value([1, 0, 0, 0]) == 1
  {
    assert [1, 0, 0, 0] == [1] + Zeros(3);
    ValueExtended([1], 3);
    assert Value([1]) == 1;
  }

  lemma {:induction false} LostDigits(v: int, low: int, x: int, high: int, p: int, b: int)
    requires v == low + p * x + b * high && 0 <= low < p && 0 <= x < BASE && b == p * BASE && p >= 1
    ensures low + 1 >= p && x == BASE - 1 <==> (v + 1) % b == 0
  {
    MulMonotone(p, x, BASE - 1);
    MulMonotone(p, 0, x);
    assert p * (BASE - 1) == b - p;
    var t := low + p * x + 1;
    assert 1 <= t <= b;
    if t == b {
      assert v + 1 == (high + 1) * b;
      ModMultiple(high + 1, b);
      assert p * (x + 1) == p * x + p;
      if x < BASE - 1 {
        MulMonotone(p, x + 1, BASE - 1);
      }
    } else {
      assert v + 1 == high * b + t;
      DivModUnique(v + 1, b, high, t);
    }
  }

  lemma {:induction false} Power160()
    ensures Power(5) == Pow2(160)
  {
    PowerPow2(5);
  }

  /** When the result of a division is right, as far as the operands say. */
  predicate Exact(n: nat, d: nat, opposite: bool)
    requires d > 0
  {
    && (Missed(n, d) ==> n == d * Pow2(BitCount(n) - BitCount(d)))
    && (opposite ==> (Quotient(n, d) + 1) % Pow2(160) != 0)
  }

  /** The magnitude of the quotient: one more for opposite signs, with what is lost
      in adding it. */
  function FinalQuotient(n: nat, d: nat, opposite: bool): int
    requires d > 0
  {
    var q := Quotient(n, d);
    if !opposite then q else q + 1 - (if (q + 1) % Pow2(160) == 0 then Pow2(160) else 0)
  }

  /** The magnitude of the remainder. */
  function FinalRemainder(n: nat, d: nat, opposite: bool): int
    requires d > 0
  {
    var r := n - Quotient(n, d) * d;
    if !opposite then r else Distance(r, d)
  }

  lemma {:induction false} ExactIff(neg: bool, n: nat, d: nat, opposite: bool)
    requires d > 0
    ensures var q, r := Signed(opposite, FinalQuotient(n, d, opposite)), Signed(neg, FinalRemainder(n, d, opposite));
      Divides(Signed(neg != opposite, n), Signed(neg, d), q, r) <==> Exact(n, d, opposite)
  {
    hide Missed, Pow2, Quotient, Divides, Distance;
    RemainderFits(n, d);
    var q := Quotient(n, d);
    if opposite {
      TwoPowers();
      OppositeSigns(neg, n, d, q, n - q * d, if (q + 1) % Pow2(160) == 0 then Pow2(160) else 0);
    } else {
      SameSigns(neg, n, d, q, n - q * d);
    }
  }

  lemma {:induction false} TwoPowers()
    ensures Pow2(160) >= 2
  {
    Pow2Monotone(1, 160);
    assert Pow2(1) == 2;
  }

  /** `bint_div`: what comes out for every pair of operands, and that it is right
      exactly if `Exact` holds of them. */
  method Div(dividend: Bint, divisor: Bint, mem: Allocator) returns (status: int, quot: Bint, rem: Bint)
    requires Normal(dividend.limbs) && Normal(divisor.limbs)
    modifies mem`asked
    ensures status == 0 <==> Value(divisor.limbs) != 0 && mem.Granted(old(mem.asked))
    ensures old(mem.asked) <= mem.asked
    ensures Bits(dividend.limbs) <= 126 && Bits(divisor.limbs) <= 126 ==> mem.asked == old(mem.asked)
    ensures fresh(quot) && fresh(rem) && status in {-1, 0, 1} && (status == 1 <==> Value(divisor.limbs) == 0)
    ensures status == 0 ==>
      Normal(quot.limbs) && Normal(rem.limbs) && Value(dividend.limbs) >= 0 && Value(divisor.limbs) > 0
    ensures status == 0 ==> rem.negative == divisor.negative && quot.negative == (dividend.negative != divisor.negative)
    ensures status == 0 ==>
      Value(quot.limbs) ==
        FinalQuotient(Value(dividend.limbs), Value(divisor.limbs), dividend.negative != divisor.negative)
    ensures status == 0 ==>
      Value(rem.limbs) ==
        FinalRemainder(Value(dividend.limbs), Value(divisor.limbs), dividend.negative != divisor.negative)
    ensures status == 0 ==>
      (Divides(dividend.Int(), divisor.Int(), quot.Int(), rem.Int()) <==>
        Exact(Value(dividend.limbs), Value(divisor.limbs), dividend.negative != divisor.negative))
  {
    hide Value, Power, Pow2, Missed, Quotient, Divides, Exact, Asked;
    status, quot, rem := DivideMagnitudes(dividend, divisor, mem);
    AskedIs(mem, old(mem.asked), Bits(dividend.limbs) < CHUNK_BITS && Bits(divisor.limbs) < CHUNK_BITS, status == 0);
    if status == 0 {
      ghost var n, d := Value(dividend.limbs), Value(divisor.limbs);
      ghost var q0, asked := quot.limbs, mem.asked;
      rem.negative := divisor.negative;
      if dividend.negative != divisor.negative {
        QuotientBelow(dividend.limbs, divisor.limbs, q0);
        var ok := Borrow(quot, rem, divisor, mem);
        AskedIs(mem, asked, Bits(q0) <= 126 && Bits(divisor.limbs) < CHUNK_BITS, ok);
        status := if ok then 0 else -1;
        LostOne(q0);
        Power160();
      }
      ExactIff(divisor.negative, n, d, dividend.negative != divisor.negative);
    }
  }

  lemma {:induction false} AskedIs(mem: Allocator, from: nat, small: bool, ok: bool)
    ensures Asked(mem, from, small, ok) <==>
      from <= mem.asked && (ok <==> mem.Granted(from)) && (small ==> mem.asked == from)
  {
  }

  /** A quotient has no more bits than the dividend. */
  lemma {:induction false} QuotientBelow(n: seq<int>, d: seq<int>, q: seq<int>)
    requires Normal(n) && Value(n) >= 0 && Value(d) > 0 && Value(q) == Quotient(Value(n), Value(d)) && Normal(q)
    ensures Bits(q) <= Bits(n)
  {
    hide Value, Quotient, BitCount;
    RemainderFits(Value(n), Value(d));
    MulMonotone(Value(q), 1, Value(d));
    BitCountGrows(Value(q), Value(n));
  }

  /** The division of the magnitudes. */
  method DivideMagnitudes(dividend: Bint, divisor: Bint, mem: Allocator) returns (status: int, quot: Bint, rem: Bint)
    requires Normal(dividend.limbs) && Normal(divisor.limbs)
    modifies mem`asked
    ensures status != 1 ==>
      Asked(mem, old(mem.asked), Bits(dividend.limbs) < CHUNK_BITS && Bits(divisor.limbs) < CHUNK_BITS, status == 0)
    ensures status == 1 ==> mem.asked == old(mem.asked)
    ensures fresh(quot) && fresh(rem) && quot != rem && status in {-1, 0, 1}
    ensures status == 1 <==> Value(divisor.limbs) == 0
    ensures Value(dividend.limbs) >= 0 && Value(divisor.limbs) >= 0
    ensures status == 0 ==> Normal(quot.limbs) && Normal(rem.limbs) && !quot.negative && Value(divisor.limbs) > 0
    ensures status == 0 ==> Value(quot.limbs) == Quotient(Value(dividend.limbs), Value(divisor.limbs))
    ensures status == 0 ==> Value(dividend.limbs) == Value(quot.limbs) * Value(divisor.limbs) + Value(rem.limbs)
  {
    hide Value, Pow2, TopBitMissed, Extended, Power, Quotient;
    quot := new Bint(0);
    rem := new Bint(0);
    var sdiv := new Bint(0);
    var num := dividend.BitLength();
    var den := divisor.BitLength();
    ZeroBits(Value(divisor.limbs), den);
    ValueBound(dividend.limbs);
    ValueBound(divisor.limbs);
    if den == 0 {
      status := 1;
      return;
    }
    BitsAre(dividend.limbs, num);
    BitsAre(divisor.limbs, den);
    var ok, pos := DivideSetup(dividend, divisor, rem, sdiv, num, den, mem);
    if ok {
      ok := DivideLoop(dividend, divisor, quot, rem, sdiv, num, den, pos, mem);
    }
    if !ok {
      status := -1;
      return;
    }
    ValueBound(rem.limbs);
    QuotientIs(Value(dividend.limbs), num, Value(divisor.limbs), den, Value(quot.limbs), Value(rem.limbs));
    status := 0;
  }

  lemma {:induction false} ZeroBits(v: int, len: nat)
    requires HasBits(v, len)
    ensures len == 0 <==> v == 0
  {
    assert Pow2(0) == 1;
  }

  /** Opposite signs: one more in the quotient, and the rest of the divisor remains. */
  method Borrow(quot: Bint, rem: Bint, divisor: Bint, mem: Allocator) returns (ok: bool)
    requires quot != rem && quot != divisor && rem != divisor && Normal(quot.limbs) && Normal(rem.limbs)
    requires Normal(divisor.limbs)
    requires !quot.negative && rem.negative == divisor.negative
    modifies quot, rem, mem`asked
    ensures Asked(mem, old(mem.asked), Bits(old(quot.limbs)) <= 126 && Bits(divisor.limbs) < CHUNK_BITS, ok)
    ensures ok ==> Normal(quot.limbs) && Normal(rem.limbs) && quot.negative && rem.negative == divisor.negative
    ensures ok ==> Value(quot.limbs) == old(Value(quot.limbs)) + 1 - Lost(old(quot.limbs), [1, 0, 0, 0])
    ensures ok ==> Value(rem.limbs) == Distance(old(Value(rem.limbs)), Value(divisor.limbs))
  {
    hide Value, Power;
    var one := new Bint(1);
    OneLimbs(one.limbs);
    ok := quot.Add(one, mem);
    if ok {
      ok := rem.Sub(divisor, mem);
      ValueBound(rem.limbs);
      quot.negative := true;
      rem.negative := divisor.negative;
    }
  }

  lemma {:induction false} OneLimbs(s: seq<int>)
    requires Normal(s) && |s| == 4 && Value(s) == 1
    ensures s == [1, 0, 0, 0]
  {
    OneValue();
    SameLength(s, [1, 0, 0, 0]);
  }

  // ------------------------------------------------------------ wrong divisions

  /** (2^127 + 1) / 1: the dividend has 128 bits, so the shifted divisor gets a second
      chunk and is taken for the larger number. The quotient is 2^127 - 1, the
      remainder 2. */
  lemma {:induction false} TopBitMissedExample()
    ensures Missed(Pow2(127) + 1, 1) && Quotient(Pow2(127) + 1, 1) == Pow2(127) - 1
    ensures FinalRemainder(Pow2(127) + 1, 1, false) == 2 && !Exact(Pow2(127) + 1, 1, false)
  {
    hide Pow2, BitCount;
    PowersAround(127);
    CountIs(Pow2(127) + 1, 128);
    CountIs(1, 1);
  }

  /** (2^160 - 1) / -1: the quotient before the borrow has 160 ones, and adding one
      to it gives zero. */
  lemma {:induction false} LostQuotientExample()
    ensures !Missed(Pow2(160) - 1, 1) && FinalQuotient(Pow2(160) - 1, 1, true) == 0 && !Exact(Pow2(160) - 1, 1, true)
  {
    hide Pow2, BitCount;
    PowersAround(160);
    CountIs(Pow2(160) - 1, 160);
    CountIs(1, 1);
    ModMultiple(1, Pow2(160));
  }

  /** What `bint_div` makes of the first of these. */
  method DivideWrong(dividend: Bint, divisor: Bint, mem: Allocator) returns (status: int, quot: Bint, rem: Bint)
    requires Normal(dividend.limbs) && Normal(divisor.limbs) && dividend.negative == divisor.negative
    requires Value(dividend.limbs) == Pow2(127) + 1 && Value(divisor.limbs) == 1
    modifies mem`asked
    ensures status == 0 <==> mem.Granted(old(mem.asked))
    ensures status == 0 ==> Value(quot.limbs) == Pow2(127) - 1 && Value(rem.limbs) == 2
    ensures status == 0 ==> !Divides(dividend.Int(), divisor.Int(), quot.Int(), rem.Int())
  {
    hide Value, Pow2, Divides, Exact, Quotient, FinalRemainder, Missed;
    TopBitMissedExample();
    status, quot, rem := Div(dividend, divisor, mem);
  }
}
