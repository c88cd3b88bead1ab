/** `bint_shift_left` and `bint_shift_right` of src/bint.c: first whole chunks,
    then components and bits, chunk by chunk. */
module BintShift {
  import opened Arith
  import opened BintLimbs
  import opened Bint
  import opened Memory

  // --------------------------------------------------------- shifting one word

  /** `BASE` as a product. */
  lemma {:induction false} BaseSplit(s: nat)
    requires s <= 32
    ensures Pow2(s) * Pow2(32 - s) == BASE
  {
    Pow2Sum(s, 32 - s);
    BasePow2();
  }

  lemma {:induction false} WordUp(d: int, p: int, q: int, carry: int)
    requires 0 <= d < BASE && p >= 1 && q >= 1 && p * q == BASE && 0 <= carry < p
    ensures 0 <= (d * p) % BASE + carry < BASE && 0 <= d / q < p
    ensures (d * p) % BASE + carry + BASE * (d / q) == p * d + carry
  {
    var a, r := d / q, d % q;
    assert d == q * a + r;
    assert d * p == a * (p * q) + p * r by {
      assert (q * a) * p == a * (p * q);
      assert (q * a + r) * p == (q * a) * p + r * p;
    }
    MulMonotone(p, r, q - 1);
    assert p * (q - 1) == p * q - p;
    MulMonotone(p, 0, r);
    DivModUnique(d * p, BASE, a, p * r);
    assert q * p == p * q;
    DivBelow(d, q, p);
  }

  lemma {:induction false} WordDown(x: int, p: int, q: int, rem: int)
    requires 0 <= x < BASE && p >= 1 && q >= 1 && p * q == BASE && 0 <= rem < p
    ensures 0 <= x / p + rem * q < BASE && 0 <= x % p < p
    ensures x + rem * BASE == p * (x / p + rem * q) + x % p
  {
    DivBelow(x, p, q);
    MulMonotone(q, rem, p - 1);
    MulMonotone(q, 0, rem);
    assert q * (p - 1) == p * q - q;
    assert p * (x / p + rem * q) == p * (x / p) + rem * (p * q) by {
      assert p * (rem * q) == rem * (p * q);
      assert p * (x / p + rem * q) == p * (x / p) + p * (rem * q);
    }
  }

  /** The bits of one chunk, from its low end. */
  method BitsUp(sh: seq<int>, s: nat, carry0: int) returns (out: seq<int>, carry: int)
    requires Limbs(sh) && s < 32 && 0 <= carry0 < Pow2(s)
    ensures |out| == |sh| && Limbs(out) && 0 <= carry < Pow2(s)
    ensures Value(out) + Power(|sh|) * carry == Pow2(s) * Value(sh) + carry0
  {
    hide Value, Power, Pow2, Carried;
    ghost var x := Zeros(|sh|);
    out, carry := sh, carry0;
    var i := 0;
    BaseSplit(s);
    StartShift(carry0, Pow2(s), sh, x);
    while i < |sh|
      invariant 0 <= i <= |sh| == |out| && Limbs(out) && 0 <= carry < Pow2(s) && out[i..] == sh[i..]
      invariant Carried(out[..i], carry, Pow2(s), sh, 0, x, carry0, i)
    {
      SameTail(out, sh, i);
      var d := out[i];
      WordUp(d, Pow2(s), Pow2(32 - s), carry);
      var v := (d * Pow2(s)) % BASE + carry;
      CarryStep(out[..i], carry, Pow2(s), sh, 0, x, carry0, i, v, d / Pow2(32 - s));
      SetAt(out, i, v);
      out := out[i := v];
      carry := d / Pow2(32 - s);
      i := i + 1;
    }
    assert out[..i] == out;
    EndShift(out, carry, Pow2(s), sh, x, carry0);
  }

  lemma {:induction false} StartShift(c: int, k: int, sh: seq<int>, x: seq<int>)
    ensures Carried([], c, k, sh, 0, x, c, 0)
  {
  }

  lemma {:induction false} EndShift(out: seq<int>, carry: int, k: int, sh: seq<int>, x: seq<int>, c: int)
    requires |x| == |sh| && Carried(out, carry, k, sh, 0, x, c, |sh|)
    ensures Value(out) + Power(|sh|) * carry == k * Value(sh) + c
  {
    hide Value, Power;
    assert sh[..|sh|] == sh && 0 * Value(x[..|sh|]) == 0;
  }

  /** The bits of one chunk, from its high end. */
  method BitsDown(sh: seq<int>, s: nat, rem0: int) returns (out: seq<int>, rem: int)
    requires Limbs(sh) && s < 32 && 0 <= rem0 < Pow2(s)
    ensures |out| == |sh| && Limbs(out) && 0 <= rem < Pow2(s)
    ensures Value(sh) + Power(|sh|) * rem0 == Pow2(s) * Value(out) + rem
  {
    hide Value, Power, Pow2, Divided;
    out, rem := sh, rem0;
    var i := |sh|;
    BaseSplit(s);
    StartDown(rem0, Pow2(s));
    assert sh[i..] + [rem0] == [rem0] && out[i..] + [0] == [0];
    while i > 0
      invariant 0 <= i <= |sh| == |out| && Limbs(out) && out[..i] == sh[..i] && 0 <= rem < Pow2(s)
      invariant Divided(sh[i..] + [rem0], Pow2(s), out[i..] + [0], rem)
    {
      i := i - 1;
      assert out[i] == sh[..i + 1][i];
      var d := out[i];
      WordDown(d, Pow2(s), Pow2(32 - s), rem);
      var v := d / Pow2(s) + rem * Pow2(32 - s);
      DivideStep(sh[i + 1..] + [rem0], Pow2(s), out[i + 1..] + [0], rem, d, v, d % Pow2(s));
      assert sh[i..] + [rem0] == [d] + (sh[i + 1..] + [rem0]);
      assert out[i := v][i..] + [0] == [v] + (out[i + 1..] + [0]);
      out := out[i := v];
      rem := d % Pow2(s);
    }
    EndDown(sh, rem0, Pow2(s), out, rem);
  }

  lemma {:induction false} Single(x: int)
    ensures Value([x]) == x
  {
    assert [x][1..] == [];
    assert Value([x]) == x + BASE * Value([x][1..]);
  }

  lemma {:induction false} StartDown(r: int, q: int)
    requires 0 <= r < q
    ensures Divided([r], q, [0], r)
  {
    Single(r);
    Single(0);
  }

  lemma {:induction false} EndDown(sh: seq<int>, r: int, q: int, out: seq<int>, rem: int)
    requires Divided(sh[0..] + [r], q, out[0..] + [0], rem)
    ensures Value(sh) + Power(|sh|) * r == q * Value(out) + rem
  {
    assert sh[0..] == sh && out[0..] == out;
    ValueSnoc(sh, r);
    ValueSnoc(out, 0);
    assert Power(|out|) * 0 == 0;
  }

  // ------------------------------------------------------- components and bits

  /** `out` holds what has been read, moved up by `c` components and `s` bits; what
      does not fit is in `tmp` and `carry`. */
  ghost predicate MovedUp(out: seq<int>, carry: int, tmp: seq<int>, c: nat, s: nat, d: seq<int>, j: nat)
  {
    j <= |d| && |out| == j && |tmp| == c &&
    Value(out) + Power(j) * (carry + Pow2(s) * Value(tmp)) == Pow2(s) * (Power(c) * Value(d[..j]))
  }

  lemma {:induction false} UpAlgebra(v: int, p: int, q: int, t: int, n: int, x: int, x': int, ch: int, w: int, r: int,
                                     d: int,
                                     carry: int, carry': int)
    requires v + p * (carry + w * t) == w * (r * d) && x + q * n == t + r * ch && x' + q * carry' == w * x + carry
    ensures (v + p * x') + (p * q) * (carry' + w * n) == w * (r * (d + p * ch))
  {
    assert (p * q) * (carry' + w * n) == p * (q * carry') + p * (w * (q * n)) by {
      assert (p * q) * (carry' + w * n) == (p * q) * carry' + (p * q) * (w * n);
      assert (p * q) * (w * n) == p * (w * (q * n));
    }
    assert p * x' + p * (q * carry') == p * (w * x) + p * carry by {
      assert p * (x' + q * carry') == p * (w * x + carry);
    }
    assert p * (w * x) + p * (w * (q * n)) == p * (w * t) + p * (w * (r * ch)) by {
      assert p * (w * (x + q * n)) == p * (w * (t + r * ch));
      assert w * (x + q * n) == w * x + w * (q * n) && w * (t + r * ch) == w * t + w * (r * ch);
    }
    assert p * (carry + w * t) == p * carry + p * (w * t);
    assert w * (r * (d + p * ch)) == w * (r * d) + p * (w * (r * ch)) by {
      assert r * (d + p * ch) == r * d + p * (r * ch);
      assert w * (p * (r * ch)) == p * (w * (r * ch));
    }
  }

  lemma {:induction false} MoveUpStep(out: seq<int>, carry: int, tmp: seq<int>, c: nat, s: nat, d: seq<int>, j: nat,
                                      chunk: seq<int>, sh: seq<int>, next: seq<int>, sh': seq<int>, carry': int)
    requires MovedUp(out, carry, tmp, c, s, d, j) && j + 4 <= |d| && chunk == d[j..j + 4] && sh + next == tmp + chunk
    requires |sh| == |sh'| == 4 && |next| == c && Value(sh') + Power(4) * carry' == Pow2(s) * Value(sh) + carry
    ensures MovedUp(out + sh', carry', next, c, s, d, j + 4)
  {
    hide Value, Power, Pow2;
    ValueConcat(sh, next);
    ValueConcat(tmp, chunk);
    ValueConcat(out, sh');
    assert d[..j + 4] == d[..j] + chunk;
    ValueConcat(d[..j], chunk);
    PowerSum(j, 4);
    UpAlgebra(Value(out), Power(j), Power(4), Value(tmp), Value(next), Value(sh), Value(sh'),
              Value(chunk), Pow2(s), Power(c),
              Value(d[..j]), carry, carry');
  }

  lemma {:induction false} MoveUpStart(c: nat, s: nat, d: seq<int>)
    ensures MovedUp([], 0, Zeros(c), c, s, d, 0)
  {
    ValueZeros(c);
    assert d[..0] == [];
    assert Power(c) * 0 == 0;
  }

  lemma {:induction false} MoveUpDone(out: seq<int>, carry: int, tmp: seq<int>, c: nat, s: nat, d: seq<int>)
    requires Limbs(out) && Limbs(tmp) && carry >= 0 && MovedUp(out, carry, tmp, c, s, d, |d|)
    requires Pow2(s) * (Power(c) * Value(d)) < Power(|d|)
    ensures Value(out) == Pow2(s) * (Power(c) * Value(d))
  {
    hide Value, Power, Pow2;
    assert d[..|d|] == d;
    ValueBound(out);
    ValueBound(tmp);
    MulMonotone(Pow2(s), 0, Value(tmp));
    NoMultiple(Value(out), Power(|d|), carry + Pow2(s) * Value(tmp));
    assert Power(|d|) * 0 == 0;
  }

  /** One chunk of the loop of `bint_shift_left` over components and bits. */
  method ChunkUp(chunk: seq<int>, tmp: seq<int>, carry0: int, c: nat, s: nat)
    returns (out: seq<int>, next: seq<int>, carry: int, ghost sh: seq<int>)
    requires |chunk| == 4 && |tmp| == c < 4 && Limbs(chunk) && Limbs(tmp) && s < 32 && 0 <= carry0 < Pow2(s)
    ensures |out| == |sh| == 4 && |next| == c && Limbs(out) && Limbs(next) && sh + next == tmp + chunk
    ensures 0 <= carry < Pow2(s) && Value(out) + Power(4) * carry == Pow2(s) * Value(sh) + carry0
  {
    next := chunk[4 - c..];
    out, carry := tmp + chunk[..4 - c], carry0;
    sh := out;
    assert chunk == chunk[..4 - c] + chunk[4 - c..];
    if s > 0 {
      out, carry := BitsUp(out, s, carry0);
    } else {
      assert Pow2(0) == 1;
    }
  }

  method BitsAndComponentsUp(b: Bint, c: nat, s: nat)
    requires Chain(b.limbs) && c < 4 && s < 32 && Pow2(s) * (Power(c) * Value(b.limbs)) < Power(|b.limbs|)
    modifies b`limbs
    ensures Chain(b.limbs) && |b.limbs| == old(|b.limbs|)
    ensures Value(b.limbs) == Pow2(s) * (Power(c) * old(Value(b.limbs)))
  {
    hide Value, Power, Pow2, MovedUp, UpState;
    ghost var d := b.limbs;
    var j, tmp, carry, n := 0, Zeros(c), 0, |b.limbs|;
    UpStart(c, s, d);
    while j < n
      invariant 0 <= j <= n == |d| && j % 4 == 0 && 0 <= carry < Pow2(s) && UpState(b.limbs, d, j, carry, tmp, c, s)
    {
      carry, tmp := UpOnce(b, j, carry, tmp, c, s, d);
      j := j + 4;
    }
    UpDone(b.limbs, d, carry, tmp, c, s);
  }

  lemma {:induction false} UpStart(c: nat, s: nat, d: seq<int>)
    requires Limbs(d)
    ensures UpState(d, d, 0, 0, Zeros(c), c, s)
  {
    MoveUpStart(c, s, d);
  }

  lemma {:induction false} UpDone(l: seq<int>, d: seq<int>, carry: int, tmp: seq<int>, c: nat, s: nat)
    requires UpState(l, d, |d|, carry, tmp, c, s) && carry >= 0 && Pow2(s) * (Power(c) * Value(d)) < Power(|d|)
    ensures |l| == |d| && Limbs(l) && Value(l) == Pow2(s) * (Power(c) * Value(d))
  {
    hide Value, Power, Pow2, MovedUp;
    assert l[..|d|] == l;
    MoveUpDone(l, carry, tmp, c, s, d);
  }

  ghost predicate UpState(l: seq<int>, d: seq<int>, j: nat, carry: int, tmp: seq<int>, c: nat, s: nat)
  {
    true == (j <= |d| == |l| && Limbs(l) && Limbs(tmp) && |tmp| == c &&
      l[j..] == d[j..] && MovedUp(l[..j], carry, tmp, c, s, d, j))
  }

  method UpOnce(b: Bint, j: nat, carry0: int, tmp: seq<int>, c: nat, s: nat, ghost d: seq<int>)
    returns (carry: int, next: seq<int>)
    requires c < 4 && s < 32 && j + 4 <= |d| && 0 <= carry0 < Pow2(s) && UpState(b.limbs, d, j, carry0, tmp, c, s)
    modifies b`limbs
    ensures 0 <= carry < Pow2(s) && UpState(b.limbs, d, j + 4, carry, next, c, s)
  {
    hide Value, Power, Pow2, MovedUp;
    var chunk := b.limbs[j..j + 4];
    ChunkAt(b.limbs, d, j);
    ghost var sh;
    var out;
    out, next, carry, sh := ChunkUp(chunk, tmp, carry0, c, s);
    MoveUpStep(b.limbs[..j], carry0, tmp, c, s, d, j, chunk, sh, next, out, carry);
    SetChunk(b.limbs, j, out);
    b.limbs := b.limbs[..j] + out + b.limbs[j + 4..];
  }

  lemma {:induction false} ChunkAt(s: seq<int>, d: seq<int>, j: nat)
    requires |s| == |d| && j + 4 <= |s| && s[j..] == d[j..]
    ensures s[j..j + 4] == d[j..j + 4] && s[j + 4..] == d[j + 4..]
  {
    assert s[j..j + 4] == s[j..][..4] && d[j..j + 4] == d[j..][..4];
    assert s[j + 4..] == s[j..][4..] && d[j + 4..] == d[j..][4..];
  }

  lemma {:induction false} SetChunk(s: seq<int>, j: nat, out: seq<int>)
    requires j + 4 <= |s| && |out| == 4 && Limbs(s) && Limbs(out)
    ensures var s' := s[..j] + out + s[j + 4..];
      |s'| == |s| && Limbs(s') && s'[..j + 4] == s[..j] + out &&
      s'[j + 4..] == s[j + 4..] && s'[..j] == s[..j] && s'[j..] == out + s[j + 4..]
  {
  }

  /** What has been read, from the top, is `out` moved up plus what was shifted out. */
  ghost predicate MovedDown(d: seq<int>, out: seq<int>, rem: int, tmp: seq<int>, c: nat, s: nat)
  {
    |tmp| == c && 0 <= rem < Pow2(s) && Value(d) == Power(c) * (Pow2(s) * Value(out) + rem) + Value(tmp)
  }

  lemma {:induction false} DownAlgebra(n: int, r: int, y: int, q: int, q': int, w: int, o: int, rb: int, t: int, x: int,
                                       x': int, rb': int)
    requires x == y + q' * t && q == r * q' && x + q * rb == w * x' + rb'
    ensures (n + r * y) + q * (r * (w * o + rb) + t) == r * (w * (x' + q * o) + rb') + n
  {
    assert q * t == r * (q' * t);
    assert q * (r * (w * o + rb)) == r * (w * (q * o)) + r * (q * rb) by {
      assert q * (r * (w * o + rb)) == r * (q * (w * o + rb));
      assert q * (w * o + rb) == w * (q * o) + q * rb;
    }
    assert q * (r * (w * o + rb) + t) == q * (r * (w * o + rb)) + q * t;
    assert r * y + r * (q' * t) == r * x;
    assert r * x + r * (q * rb) == r * (w * x' + rb');
    assert w * (x' + q * o) == w * x' + w * (q * o);
    assert r * (w * (x' + q * o) + rb') == r * (w * x' + rb') + r * (w * (q * o)) by {
      assert w * (x' + q * o) + rb' == (w * x' + rb') + w * (q * o);
    }
  }

  lemma {:induction false} MoveDownStep(d: seq<int>, out: seq<int>, rem: int, tmp: seq<int>, c: nat, s: nat,
                                        chunk: seq<int>, sh: seq<int>, sh': seq<int>, rem': int)
    requires MovedDown(d, out, rem, tmp, c, s) && c < 4 && |chunk| == |sh| == |sh'| == 4 && sh == chunk[c..] + tmp
    requires 0 <= rem' < Pow2(s) && Value(sh) + Power(4) * rem == Pow2(s) * Value(sh') + rem'
    ensures MovedDown(chunk + d, sh' + out, rem', chunk[..c], c, s)
  {
    hide Value, Power, Pow2;
    assert chunk == chunk[..c] + chunk[c..];
    ValueConcat(chunk[..c], chunk[c..]);
    ValueConcat(chunk, d);
    ValueConcat(chunk[c..], tmp);
    ValueConcat(sh', out);
    PowerSum(c, 4 - c);
    DownAlgebra(Value(chunk[..c]), Power(c), Value(chunk[c..]), Power(4), Power(4 - c),
                Pow2(s), Value(out), rem, Value(tmp),
                Value(sh), Value(sh'), rem');
  }

  lemma {:induction false} MoveDownStart(c: nat, s: nat)
    ensures MovedDown([], [], 0, Zeros(c), c, s)
  {
    ValueZeros(c);
    assert Pow2(s) * 0 == 0 && Power(c) * 0 == 0;
  }

  /** The factor of `c` components and `s` bits. */
  function Scale(c: nat, s: nat): (p: int)
    ensures p > 0
  {
    MulAtLeast(Power(c), Pow2(s));
    Power(c) * Pow2(s)
  }

  lemma {:induction false} MoveDownDone(d: seq<int>, out: seq<int>, rem: int, tmp: seq<int>, c: nat, s: nat)
    requires MovedDown(d, out, rem, tmp, c, s) && Limbs(tmp)
    ensures Value(out) == Value(d) / Scale(c, s)
  {
    hide Value, Power, Pow2;
    var p, w := Power(c), Pow2(s);
    ValueBound(tmp);
    MulMonotone(p, rem + 1, w);
    assert p * (rem + 1) == p * rem + p;
    assert p * (w * Value(out) + rem) == Value(out) * (p * w) + p * rem by {
      assert p * (w * Value(out)) == Value(out) * (p * w);
      assert p * (w * Value(out) + rem) == p * (w * Value(out)) + p * rem;
    }
    MulMonotone(p, 0, rem);
    DivModUnique(Value(d), p * w, Value(out), p * rem + Value(tmp));
  }

  /** One chunk of the loop of `bint_shift_right` over components and bits. */
  method ChunkDown(chunk: seq<int>, tmp: seq<int>, rem0: int, c: nat, s: nat)
    returns (out: seq<int>, rem: int, ghost sh: seq<int>)
    requires |chunk| == 4 && |tmp| == c < 4 && Limbs(chunk) && Limbs(tmp) && s < 32 && 0 <= rem0 < Pow2(s)
    ensures |out| == |sh| == 4 && Limbs(out) && sh == chunk[c..] + tmp
    ensures 0 <= rem < Pow2(s) && Value(sh) + Power(4) * rem0 == Pow2(s) * Value(out) + rem
  {
    out, rem := chunk[c..] + tmp, rem0;
    sh := out;
    if s > 0 {
      out, rem := BitsDown(out, s, rem0);
    } else {
      assert Pow2(0) == 1;
    }
  }

  method BitsAndComponentsDown(b: Bint, c: nat, s: nat)
    requires Chain(b.limbs) && c < 4 && s < 32
    modifies b`limbs
    ensures Chain(b.limbs) && |b.limbs| == old(|b.limbs|) && Value(b.limbs) == old(Value(b.limbs)) / Scale(c, s)
  {
    hide Value, Pow2, Scale, DownState;
    ghost var d := b.limbs;
    var j, tmp, rem, n := |b.limbs|, Zeros(c), 0, |b.limbs|;
    DownStart(c, s, d);
    while j > 0
      invariant 0 <= j <= n == |d| && j % 4 == 0 && 0 <= rem < Pow2(s) && DownState(b.limbs, d, j, rem, tmp, c, s)
    {
      rem, tmp := DownOnce(b, j, rem, tmp, c, s, d);
      j := j - 4;
    }
    DownDone(b.limbs, d, rem, tmp, c, s);
  }

  lemma {:induction false} DownStart(c: nat, s: nat, d: seq<int>)
    requires Limbs(d)
    ensures DownState(d, d, |d|, 0, Zeros(c), c, s)
  {
    assert d[|d|..] == [];
    MoveDownStart(c, s);
  }

  lemma {:induction false} DownDone(l: seq<int>, d: seq<int>, rem: int, tmp: seq<int>, c: nat, s: nat)
    requires DownState(l, d, 0, rem, tmp, c, s)
    ensures |l| == |d| && Limbs(l) && Value(l) == Value(d) / Scale(c, s)
  {
    hide Value, Power, Pow2, MovedDown;
    assert d[0..] == d && l[0..] == l;
    MoveDownDone(d, l, rem, tmp, c, s);
  }

  ghost predicate DownState(l: seq<int>, d: seq<int>, j: nat, rem: int, tmp: seq<int>, c: nat, s: nat)
  {
    true == (j <= |d| == |l| && Limbs(l) && Limbs(tmp) && |tmp| == c &&
      l[..j] == d[..j] && MovedDown(d[j..], l[j..], rem, tmp, c, s))
  }

  method DownOnce(b: Bint, j: nat, rem0: int, tmp: seq<int>, c: nat, s: nat, ghost d: seq<int>)
    returns (rem: int, next: seq<int>)
    requires c < 4 && s < 32 && 4 <= j <= |d| && 0 <= rem0 < Pow2(s) && DownState(b.limbs, d, j, rem0, tmp, c, s)
    modifies b`limbs
    ensures 0 <= rem < Pow2(s) && DownState(b.limbs, d, j - 4, rem, next, c, s)
  {
    hide Value, Power, Pow2, MovedDown;
    var chunk := b.limbs[j - 4..j];
    LastChunk(b.limbs, d, j);
    ghost var sh;
    var out;
    out, rem, sh := ChunkDown(chunk, tmp, rem0, c, s);
    MoveDownStep(d[j..], b.limbs[j..], rem0, tmp, c, s, chunk, sh, out, rem);
    SetChunk(b.limbs, j - 4, out);
    b.limbs := b.limbs[..j - 4] + out + b.limbs[j..];
    next := chunk[..c];
  }

  lemma {:induction false} LastChunk(s: seq<int>, d: seq<int>, j: nat)
    requires |s| == |d| && 4 <= j <= |s| && s[..j] == d[..j]
    ensures s[j - 4..j] == d[j - 4..j] && s[..j - 4] == d[..j - 4] && d[j - 4..] == d[j - 4..j] + d[j..]
  {
    assert s[j - 4..j] == s[..j][j - 4..] && d[j - 4..j] == d[..j][j - 4..];
    assert s[..j - 4] == s[..j][..j - 4] && d[..j - 4] == d[..j][..j - 4];
  }

  // ------------------------------------------------------------- whole chunks

  /** Moving the chain up by `c` chunks: copy from the top, then clear the rest. */
  method ChunksUp(b: Bint, c: nat)
    requires Chain(b.limbs) && 4 * c <= |b.limbs|
    modifies b`limbs
    ensures b.limbs == Zeros(4 * c) + old(b.limbs)[..old(|b.limbs|) - 4 * c]
  {
    CopyUp(b, 4 * c);
    ClearLow(b, 4 * c);
  }

  method CopyUp(b: Bint, k: nat)
    requires Chain(b.limbs) && k <= |b.limbs| && k % 4 == 0
    modifies b`limbs
    ensures |b.limbs| == old(|b.limbs|) && b.limbs[k..] == old(b.limbs)[..old(|b.limbs|) - k]
  {
    ghost var d := b.limbs;
    var n := |b.limbs|;
    var j := n;
    while j > k
      invariant k <= j <= n == |d| && j % 4 == 0 && CopiedUp(b.limbs, d, j, k)
    {
      var i := j - 4;
      var chunk := b.limbs[i - k..j - k];
      CopyFacts(b.limbs, d, j, k, chunk);
      b.limbs := b.limbs[..i] + chunk + b.limbs[j..];
      j := i;
    }
    assert d[0..n - k] == d[..n - k];
  }

  ghost predicate CopiedUp(s: seq<int>, d: seq<int>, j: nat, k: nat) {
    true == (|s| == |d| && k <= j <= |d| && s[..j] == d[..j] && s[j..] == d[j - k..|d| - k])
  }

  lemma {:induction false} CopyFacts(s: seq<int>, d: seq<int>, j: nat, k: nat, chunk: seq<int>)
    requires CopiedUp(s, d, j, k) && k + 4 <= j && chunk == s[j - 4 - k..j - k]
    ensures CopiedUp(s[..j - 4] + chunk + s[j..], d, j - 4, k)
  {
    assert chunk == s[..j][j - 4 - k..j - k] && chunk == d[j - 4 - k..j - k];
    assert d[j - 4 - k..|d| - k] == d[j - 4 - k..j - k] + d[j - k..|d| - k];
    assert s[..j - 4] == s[..j][..j - 4] && d[..j - 4] == d[..j][..j - 4];
  }

  method ClearLow(b: Bint, k: nat)
    requires k <= |b.limbs| && k % 4 == 0
    modifies b`limbs
    ensures b.limbs == Zeros(k) + old(b.limbs)[k..]
  {
    ghost var d := b.limbs;
    var j := k;
    while j > 0
      invariant 0 <= j <= k && j % 4 == 0 && |b.limbs| == |d| && b.limbs[j..] == Zeros(k - j) + d[k..]
    {
      assert Zeros(k - (j - 4)) == Zeros(4) + Zeros(k - j);
      b.limbs := b.limbs[..j - 4] + Zeros(4) + b.limbs[j..];
      j := j - 4;
    }
    assert b.limbs[0..] == b.limbs;
  }

  lemma {:induction false} ChunksUpValue(d: seq<int>, c: nat)
    requires Chain(d) && 4 * c <= |d| && Power(4 * c) * Value(d) < Power(|d|)
    ensures var r := Zeros(4 * c) + d[..|d| - 4 * c]; Chain(r) && |r| == |d| && Value(r) == Power(4 * c) * Value(d)
  {
    hide Value, Power;
    var n := |d| - 4 * c;
    PowerSum(4 * c, n);
    assert Value(d) < Power(n) by {
      if Value(d) >= Power(n) {
        MulMonotone(Power(4 * c), Power(n), Value(d));
      }
    }
    HighZeros(d, n);
    ValueConcat(Zeros(4 * c), d[..n]);
    ValueZeros(4 * c);
  }

  /** Moving the chain down by `c` chunks; what is copied is followed by one chunk of zeros. */
  method ChunksDown(b: Bint, c: nat)
    requires Chain(b.limbs) && 1 <= c && 4 * c <= |b.limbs|
    modifies b`limbs
    ensures b.limbs == old(b.limbs)[4 * c..] + Zeros(4)
  {
    CopyDown(b, 4 * c);
  }

  method CopyDown(b: Bint, k: nat)
    requires Chain(b.limbs) && 4 <= k <= |b.limbs| && k % 4 == 0
    modifies b`limbs
    ensures b.limbs == old(b.limbs)[k..] + Zeros(4)
  {
    ghost var d := b.limbs;
    var n := |b.limbs|;
    var j := 0;
    assert d[k..k] == [];
    while j + k < n
      invariant 0 <= j <= n - k && j % 4 == 0 && n == |d| && CopiedDown(b.limbs, d, j, k)
    {
      var chunk := b.limbs[j + k..j + k + 4];
      CopyDownFacts(b.limbs, d, j, k, chunk);
      b.limbs := b.limbs[..j] + chunk + b.limbs[j + 4..];
      j := j + 4;
    }
    assert d[k..k + j] == d[k..];
    b.limbs := b.limbs[..j] + Zeros(4);
  }

  ghost predicate CopiedDown(s: seq<int>, d: seq<int>, j: nat, k: nat) {
    true == (|s| == |d| && k + j <= |d| && s[..j] == d[k..k + j] && s[j..] == d[j..])
  }

  lemma {:induction false} CopyDownFacts(s: seq<int>, d: seq<int>, j: nat, k: nat, chunk: seq<int>)
    requires CopiedDown(s, d, j, k) && k >= 4 && j + k + 4 <= |s| && chunk == s[j + k..j + k + 4]
    ensures CopiedDown(s[..j] + chunk + s[j + 4..], d, j + 4, k)
  {
    assert chunk == s[j..][k..k + 4] && chunk == d[j..][k..k + 4] && chunk == d[j + k..j + k + 4];
    ChunkAt(s, d, j);
    assert d[k..k + j + 4] == d[k..k + j] + d[k + j..k + j + 4];
  }

  lemma {:induction false} ChunksDownValue(d: seq<int>, c: nat)
    requires Chain(d) && 4 * c <= |d|
    ensures Chain(d[4 * c..] + Zeros(4)) && Value(d[4 * c..] + Zeros(4)) == Value(d) / Power(4 * c)
  {
    hide Value, Power;
    var lo, hi := d[..4 * c], d[4 * c..];
    assert d == lo + hi;
    ValueConcat(lo, hi);
    ValueBound(lo);
    ValueExtended(hi, 4);
    DivModUnique(Value(d), Power(4 * c), Value(hi), Value(lo));
  }

  // --------------------------------------------------------------- the shifts

  /** The shift in parts. */
  lemma {:induction false} ShiftParts(count: nat)
    ensures var left := count % CHUNK_BITS;
      Pow2(count) == Pow2(left % 32) * Power(left / 32) * Power(4 * (count / CHUNK_BITS))
  {
    var chunks, left := count / CHUNK_BITS, count % CHUNK_BITS;
    PowerPow2(4 * chunks);
    PowerPow2(left / 32);
    Pow2Sum(left % 32, 32 * (left / 32));
    Pow2Sum(left, 128 * chunks);
  }

  /** The chunks that a shift to the left asks for. */
  function ShiftNeeds(s: seq<int>, count: nat): nat { if Value(s) == 0 then 0 else Missing(s, Bits(s) + count) }

  /** `bint_shift_left` */
  method ShiftLeft(b: Bint, count: nat, mem: Allocator) returns (ok: bool)
    requires Normal(b.limbs)
    modifies b`limbs, mem`asked
    ensures mem.Served(old(mem.asked), ShiftNeeds(old(b.limbs), count), ok)
    ensures !ok ==> b.limbs == old(b.limbs)
    ensures ok ==> Chain(b.limbs) && Value(b.limbs) == Pow2(count) * old(Value(b.limbs))
    ensures ok && old(Value(b.limbs)) == 0 ==> b.limbs == old(b.limbs)
    ensures ok && old(Value(b.limbs)) != 0 ==>
      forall len: nat :: HasBits(old(Value(b.limbs)), len) ==> |b.limbs| == |Extended(old(b.limbs), len + count)|
  {
    hide Value, Power, Pow2, HasBits;
    var len := b.BitLength();
    if |b.limbs| == 4 && LastChunkZero(b.limbs) {
      assert b.limbs == Zeros(4);
      ValueZeros(4);
      return true;
    }
    NotZero(b.limbs);
    BitsAre(b.limbs, len);
    ok := b.ExtendLength(len + count, mem);
    if ok {
      ExtendedFacts(old(b.limbs), len + count);
      ShiftRoom(Value(b.limbs), len, count, |b.limbs|);
      ShiftUp(b, count);
      forall l: nat | HasBits(old(Value(b.limbs)), l) ensures l == len {
        BitsUnique(old(Value(b.limbs)), l, len);
      }
    }
  }

  lemma {:induction false} NotZero(s: seq<int>)
    requires Normal(s) && !(|s| == 4 && LastChunkZero(s))
    ensures Value(s) > 0
  {
    ValueBound(s);
    if Value(s) == 0 {
      ZeroValue(s);
    }
  }

  lemma {:induction false} ShiftRoom(v: int, len: nat, count: nat, n: nat)
    requires HasBits(v, len) && n >= 4 * ChunksFor(len + count)
    ensures Pow2(count) * v < Power(n) && n >= 4 * (count / CHUNK_BITS)
  {
    Pow2Sum(count, len);
    if v < Pow2(len) {
      HighDecides(Pow2(count), 0, v, 0, Pow2(len));
    }
    MulMonotone(Pow2(count), 0, v);
    RoomFor(Pow2(count) * v, len + count, n);
  }

  method ShiftUp(b: Bint, count: nat)
    requires Chain(b.limbs) && Pow2(count) * Value(b.limbs) < Power(|b.limbs|) && |b.limbs| >= 4 * (count / CHUNK_BITS)
    modifies b`limbs
    ensures Chain(b.limbs) && |b.limbs| == old(|b.limbs|) && Value(b.limbs) == Pow2(count) * old(Value(b.limbs))
  {
    hide Value, Power, Pow2;
    var chunks, left := count / CHUNK_BITS, count % CHUNK_BITS;
    UpParts(count, Value(b.limbs), |b.limbs|, b.limbs);
    ChunksUpValue(b.limbs, chunks);
    if count >= CHUNK_BITS {
      ChunksUp(b, chunks);
    } else {
      assert Zeros(0) + b.limbs[..|b.limbs|] == b.limbs;
    }
    BitsAndComponentsUp(b, left / 32, left % 32);
  }

  lemma {:induction false} UpParts(count: nat, v: int, n: nat, s: seq<int>)
    requires v == Value(s) && Limbs(s) && Pow2(count) * v < Power(n)
    ensures var left := count % CHUNK_BITS;
      var p := Power(4 * (count / CHUNK_BITS));
      p * v < Power(n) && Pow2(left % 32) * (Power(left / 32) * (p * v)) == Pow2(count) * v
  {
    hide Value, Power, Pow2;
    var left := count % CHUNK_BITS;
    var p, r, w := Power(4 * (count / CHUNK_BITS)), Power(left / 32), Pow2(left % 32);
    ShiftParts(count);
    ValueBound(s);
    assert w * (r * (p * v)) == (w * r * p) * v;
    MulMonotone(p, 0, v);
    MulMonotone(p * v, 1, w * r) by { MulAtLeast(w, r); }
    assert (w * r) * (p * v) == (w * r * p) * v;
  }

  /** `bint_shift_right` */
  method ShiftRight(b: Bint, count: nat)
    requires Chain(b.limbs)
    modifies b`limbs
    ensures Normal(b.limbs) && Value(b.limbs) == old(Value(b.limbs)) / Pow2(count)
  {
    hide Value, Power, Pow2;
    ghost var d := b.limbs;
    var c, left := 0, count;
    if count >= CHUNK_BITS {
      while 4 * c < |b.limbs| && left >= CHUNK_BITS
        invariant 0 <= 4 * c <= |b.limbs| && 0 <= left == count - CHUNK_BITS * c && (left < CHUNK_BITS ==> c > 0)
      {
        left := left - CHUNK_BITS;
        c := c + 1;
      }
      ChunksDown(b, c);
    } else {
      Power0(b.limbs);
    }
    ChunksDownValue(d, c);
    if left >= CHUNK_BITS {
      ShiftedOut(d, c, count);
      return;
    }
    ghost var mid := Value(b.limbs);
    BitsAndComponentsDown(b, left / 32, left % 32);
    DownParts(d, c, left, count);
    b.TrimChunks();
  }

  lemma {:induction false} Power0(s: seq<int>)
    ensures Power(0) == 1 && Value(s) / Power(0) == Value(s) && Value(s[0..] + Zeros(4)) == Value(s)
  {
    assert s[0..] == s;
    ValueExtended(s, 4);
  }

  /** Everything is shifted out. */
  lemma {:induction false} ShiftedOut(d: seq<int>, c: nat, count: nat)
    requires Chain(d) && 4 * c == |d| && count >= CHUNK_BITS * c
    ensures Normal(d[4 * c..] + Zeros(4)) && Value(d[4 * c..] + Zeros(4)) == 0 == Value(d) / Pow2(count)
  {
    assert d[4 * c..] + Zeros(4) == Zeros(4);
    ValueZeros(4);
    ValueBound(d);
    PowerPow2(|d|);
    Pow2Monotone(32 * |d|, count);
    DivModUnique(Value(d), Pow2(count), 0, Value(d));
  }

  lemma {:induction false} DownParts(d: seq<int>, c: nat, left: nat, count: nat)
    requires Chain(d) && left < CHUNK_BITS && count == left + CHUNK_BITS * c
    ensures (Value(d) / Power(4 * c)) / Scale(left / 32, left % 32) == Value(d) / Pow2(count)
  {
    hide Value, Power, Pow2;
    var p, r, w := Power(4 * c), Power(left / 32), Pow2(left % 32);
    ShiftParts(count);
    assert count / CHUNK_BITS == c && count % CHUNK_BITS == left;
    MulAtLeast(r, w);
    assert w * r * p == p * (r * w);
    DivTwice(Value(d), p, r * w);
  }

  lemma {:induction false} DivTwice(x: int, a: int, b: int)
    requires a > 0 && b > 0
    ensures a * b > 0 && (x / a) / b == x / (a * b)
  {
    var q, r := x / a, x % a;
    var q2, r2 := q / b, q % b;
    TwoDivisions(x, a, b, q, r, q2, r2);
    DivModUnique(x, a * b, q2, a * r2 + r);
  }

  lemma {:induction false} TwoDivisions(x: int, a: int, b: int, q: int, r: int, q2: int, r2: int)
    requires a > 0 && b > 0 && x == a * q + r && q == b * q2 + r2 && 0 <= r < a && 0 <= r2 < b
    ensures a * b > 0 && x == q2 * (a * b) + (a * r2 + r) && 0 <= a * r2 + r < a * b
  {
    var e := b * q2;
    assert a * (e + r2) == a * e + a * r2;
    assert a * e == q2 * (a * b);
    MulMonotone(a, r2 + 1, b);
    assert a * (r2 + 1) == a * r2 + a;
    MulMonotone(a, 0, r2);
  }

  lemma {:induction false} TimesOver(p: int, v: int)
    requires p > 0
    ensures (p * v) / p == v
  {
    assert p * v == v * p;
    ModMultiple(v, p);
  }

  /** Left and then right by the same count gives back the very same chain. */
  method LeftThenRight(b: Bint, count: nat, mem: Allocator) returns (ok: bool)
    requires Normal(b.limbs)
    modifies b`limbs, mem`asked
    ensures mem.Served(old(mem.asked), ShiftNeeds(old(b.limbs), count), ok)
    ensures b.limbs == old(b.limbs)
  {
    hide Value, Pow2, HasBits, Extended;
    ok := ShiftLeft(b, count, mem);
    if ok {
      ShiftRight(b, count);
      TimesOver(Pow2(count), old(Value(b.limbs)));
      NormalUnique(b.limbs, old(b.limbs));
    }
  }
}
