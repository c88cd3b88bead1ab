/** `bint_digit_push` and `bint_digit_pop` of src/bint.c. */
module BintDigits {
  import opened Arith
  import opened BintLimbs
  import opened Bint
  import opened Memory

  /** After all components, nothing is left to carry if the result fits. */
  lemma {:induction false} CarryOut(out: seq<int>, carry: int, k: int, d: seq<int>, x: seq<int>, c: int)
    requires Limbs(out) && carry >= 0 && |x| == |d| && Carried(out, carry, k, d, 0, x, c, |d|)
    requires k * Value(d) + c < Power(|d|)
    ensures carry == 0 && Value(out) == k * Value(d) + c
  {
    hide Value, Power;
    assert d[..|d|] == d && 0 * Value(x[..|d|]) == 0;
    ValueBound(out);
    NoMultiple(Value(out), Power(|d|), carry);
    assert Power(|d|) * 0 == 0;
  }

  /** With nothing left to carry, the rest stays as it is. */
  lemma {:induction false} CarryStops(out: seq<int>, d: seq<int>, x: seq<int>, c: int, j: nat)
    requires |x| == |d| && Carried(out, 0, 1, d, 0, x, c, j)
    ensures Value(out + d[j..]) == Value(d) + c
  {
    hide Value, Power;
    assert d == d[..j] + d[j..] && 0 * Value(x[..j]) == 0;
    ValueConcat(d[..j], d[j..]);
    ValueConcat(out, d[j..]);
    assert Power(j) * 0 == 0;
  }

  lemma {:induction false} MultiplyCarry(d: int, base: int, carry: int)
    requires 0 <= d < BASE && 1 <= base && 0 <= carry < base
    ensures 0 <= (d * base + carry) / BASE < base
  {
    MulMonotone(base, d, BASE - 1);
    assert base * (BASE - 1) == BASE * base - base;
    MulMonotone(base, 0, d);
    DivBelow(d * base + carry, BASE, base);
  }

  /** The short multiplication. */
  method Multiply(b: Bint, base: int)
    requires Chain(b.limbs) && 1 <= base < BASE && base * Value(b.limbs) < Power(|b.limbs|)
    modifies b`limbs
    ensures Chain(b.limbs) && |b.limbs| == old(|b.limbs|) && Value(b.limbs) == base * old(Value(b.limbs))
  {
    hide Value, Power, Carried;
    ghost var d, x := b.limbs, Zeros(|b.limbs|);
    var j, carry, n := 0, 0, |b.limbs|;
    StartCarry(0, base, d, x);
    while j < n
      invariant 0 <= j <= n == |d| == |b.limbs| && Limbs(b.limbs) && b.limbs[j..] == d[j..] && 0 <= carry < base
      invariant Carried(b.limbs[..j], carry, base, d, 0, x, 0, j)
    {
      SameTail(b.limbs, d, j);
      var r := b.limbs[j] * base + carry;
      MultiplyCarry(b.limbs[j], base, carry);
      CarryStep(b.limbs[..j], carry, base, d, 0, x, 0, j, r % BASE, r / BASE);
      SetAt(b.limbs, j, r % BASE);
      b.limbs := b.limbs[j := r % BASE];
      carry := r / BASE;
      j := j + 1;
    }
    assert b.limbs[..n] == b.limbs;
    CarryOut(b.limbs, carry, base, d, x, 0);
  }

  lemma {:induction false} StartCarry(carry: int, k: int, d: seq<int>, x: seq<int>)
    ensures Carried([], carry, k, d, 0, x, carry, 0)
  {
  }

  /** Adding the digit: the carry is looked at before each chunk only. */
  method AddDigit(b: Bint, digit: int)
    requires Chain(b.limbs) && 0 <= digit < BASE && Value(b.limbs) + digit < Power(|b.limbs|)
    modifies b`limbs
    ensures Chain(b.limbs) && Value(b.limbs) == old(Value(b.limbs)) + digit
  {
    hide Value, Power, Carried;
    ghost var d, x := b.limbs, Zeros(|b.limbs|);
    var j, carry, n := 0, digit, |b.limbs|;
    StartCarry(digit, 1, d, x);
    while j < n && (carry != 0 || j % 4 != 0)
      invariant 0 <= j <= n == |d| == |b.limbs| && Limbs(b.limbs) && b.limbs[j..] == d[j..] && 0 <= carry < BASE
      invariant Carried(b.limbs[..j], carry, 1, d, 0, x, digit, j)
    {
      SameTail(b.limbs, d, j);
      var r := b.limbs[j] + carry;
      CarryStep(b.limbs[..j], carry, 1, d, 0, x, digit, j, r % BASE, r / BASE);
      SetAt(b.limbs, j, r % BASE);
      b.limbs := b.limbs[j := r % BASE];
      carry := r / BASE;
      j := j + 1;
    }
    assert b.limbs == b.limbs[..j] + d[j..];
    if carry == 0 {
      CarryStops(b.limbs[..j], d, x, digit, j);
    } else {
      assert b.limbs[..n] == b.limbs;
      CarryOut(b.limbs, carry, 1, d, x, digit);
    }
  }

  lemma {:induction false} PushRoom(v: int, len: nat, base: int, bits: nat, digit: int, n: nat)
    requires HasBits(v, len) && HasBits(base, bits) && 0 <= digit < base && n >= 4 * ChunksFor(len + bits + 1)
    ensures 0 <= base * v && base * v + digit < Power(n)
  {
    var p := Pow2(len);
    MulMonotone(base, v + 1, p);
    assert base * (v + 1) == base * v + base;
    MulMonotone(p, base, Pow2(bits));
    Pow2Sum(len, bits);
    Pow2Monotone(len + bits, len + bits + 1);
    MulMonotone(base, 0, v);
    RoomFor(base * v + digit, len + bits + 1, n);
  }

  /** `bint_digit_push` */
  method DigitPush(b: Bint, base: int, digit: int, mem: Allocator) returns (ok: bool)
    requires Normal(b.limbs) && 0 <= base < BASE && 0 <= digit < BASE
    modifies b`limbs, mem`asked
    ensures digit >= base ==> !ok && mem.asked == old(mem.asked)
    ensures digit < base ==>
      mem.Served(old(mem.asked), Missing(old(b.limbs), Bits(old(b.limbs)) + BitCount(base) + 1), ok)
    ensures !ok ==> b.limbs == old(b.limbs)
    ensures ok ==> Normal(b.limbs) && Value(b.limbs) == base * old(Value(b.limbs)) + digit
  {
    hide Value, Power, HasBits;
    if digit >= base {
      return false;
    }
    var len := b.BitLength();
    var bits := WordBits(base);
    BitsAre(b.limbs, len);
    CountIs(base, bits);
    ok := b.ExtendLength(len + bits + 1, mem);
    if ok {
      ExtendedFacts(old(b.limbs), len + bits + 1);
      PushRoom(Value(b.limbs), len, base, bits, digit, |b.limbs|);
      Multiply(b, base);
      AddDigit(b, digit);
      b.TrimChunks();
    }
  }

  lemma {:induction false} DivideWord(x: int, rem: int, base: int)
    requires 0 <= x < BASE && 1 <= base && 0 <= rem < base
    ensures var d := x + rem * BASE; 0 <= d / base < BASE && d == base * (d / base) + d % base
  {
    var d := x + rem * BASE;
    MulMonotone(BASE, rem + 1, base);
    assert BASE * (rem + 1) == rem * BASE + BASE;
    DivBelow(d, base, BASE);
  }

  /** `bint_digit_pop` */
  method DigitPop(b: Bint, base: int) returns (rem: int)
    requires Normal(b.limbs) && 0 <= base < BASE
    modifies b`limbs
    ensures base == 0 ==> rem == 0 && b.limbs == old(b.limbs)
    ensures Normal(b.limbs)
    ensures base > 0 ==> 0 <= rem < base && old(Value(b.limbs)) == base * Value(b.limbs) + rem
  {
    hide Value, Power, Divided;
    rem := 0;
    if base == 0 {
      return;
    }
    ghost var d := b.limbs;
    var j := |b.limbs|;
    StartDivide(base);
    assert d[j..] == [];
    while j > 0
      invariant 0 <= j <= |d| == |b.limbs| && Limbs(b.limbs) && b.limbs[..j] == d[..j] && 0 <= rem < base
      invariant Divided(d[j..], base, b.limbs[j..], rem)
    {
      j := j - 1;
      assert b.limbs[j] == d[..j + 1][j];
      var x := b.limbs[j] + rem * BASE;
      DivideWord(b.limbs[j], rem, base);
      DivideStep(d[j + 1..], base, b.limbs[j + 1..], rem, b.limbs[j], x / base, x % base);
      assert d[j..] == [d[j]] + d[j + 1..];
      assert b.limbs[j := x / base][j..] == [x / base] + b.limbs[j + 1..];
      b.limbs := b.limbs[j := x / base];
      rem := x % base;
    }
    DivideEnds(d, b.limbs, base, rem);
    b.TrimChunks();
  }

  lemma {:induction false} StartDivide(base: int)
    requires base > 0
    ensures Divided([], base, [], 0)
  {
  }

  lemma {:induction false} DivideEnds(d: seq<int>, out: seq<int>, base: int, rem: int)
    requires Divided(d[0..], base, out[0..], rem)
    ensures Value(d) == base * Value(out) + rem
  {
    assert d[0..] == d && out[0..] == out;
  }

  // --------------------------------------------------------------- round trip

  predicate Digits(ds: seq<int>, base: int) { forall i :: 0 <= i < |ds| ==> 0 <= ds[i] < base }

  /** The number that results from pushing the digits `ds` onto `v`. */
  function Pushed(v: int, base: int, ds: seq<int>): int {
    if ds == [] then v else base * Pushed(v, base, ds[..|ds| - 1]) + ds[|ds| - 1]
  }

  method PushAll(b: Bint, base: int, ds: seq<int>, mem: Allocator) returns (ok: bool)
    requires Normal(b.limbs) && 1 <= base < BASE && Digits(ds, base)
    modifies b`limbs, mem`asked
    ensures ok <==> mem.Granted(old(mem.asked))
    ensures Normal(b.limbs) && (ok ==> Value(b.limbs) == Pushed(old(Value(b.limbs)), base, ds))
  {
    hide Value;
    ok := true;
    var k := 0;
    while k < |ds| && ok
      invariant 0 <= k <= |ds| && Normal(b.limbs) && old(mem.asked) <= mem.asked
      invariant ok <==> mem.Granted(old(mem.asked))
      invariant ok ==> Value(b.limbs) == Pushed(old(Value(b.limbs)), base, ds[..k])
    {
      assert ds[..k + 1][..k] == ds[..k];
      ok := DigitPush(b, base, ds[k], mem);
      k := k + 1;
    }
    assert ds[..|ds|] == ds;
  }

  /** Pushing digits and popping as many gives them back in reverse, and leaves the
      very chain that was there before. */
  method PushThenPop(b: Bint, base: int, ds: seq<int>, mem: Allocator) returns (ok: bool, out: seq<int>)
    requires Normal(b.limbs) && 1 <= base < BASE && Digits(ds, base)
    modifies b`limbs, mem`asked
    ensures ok <==> mem.Granted(old(mem.asked))
    ensures ok ==> b.limbs == old(b.limbs) && |out| == |ds| && forall i :: 0 <= i < |ds| ==> out[i] == ds[|ds| - 1 - i]
  {
    hide Value;
    out := [];
    ok := PushAll(b, base, ds, mem);
    if ok {
      ghost var v, asked := old(Value(b.limbs)), mem.asked;
      var k := |ds|;
      assert ds[..|ds|] == ds;
      while k > 0
        invariant 0 <= k <= |ds| && mem.asked == asked && Normal(b.limbs) && Value(b.limbs) == Pushed(v, base, ds[..k])
        invariant |out| == |ds| - k && forall i :: 0 <= i < |out| ==> out[i] == ds[|ds| - 1 - i]
      {
        ghost var was := Value(b.limbs);
        assert ds[..k][..k - 1] == ds[..k - 1];
        var rem := DigitPop(b, base);
        DivModUnique(was, base, Pushed(v, base, ds[..k - 1]), ds[k - 1]);
        DivModUnique(was, base, Value(b.limbs), rem);
        out := out + [rem];
        k := k - 1;
      }
      NormalUnique(b.limbs, old(b.limbs));
    }
  }
}
