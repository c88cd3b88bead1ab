/** The partition of src/arena.c's memory into blocks: alignment, buddies and
    what full coalescing implies. */
module ArenaBlocks {
  import opened Arith

  /** The `order` and `is_free` fields of `struct arena_block`. */
  datatype Header = Header(order: nat, free: bool)

  /** Block headers by offset from the base of the arena. */
  type Blocks = map<nat, Header>

  const ARENA_ORDERS := 32
  const HEADER_SIZE := 24
  /** The smallest order whose blocks can hold a header. */
  const MIN_ORDER := 5

  // ------------------------------------------------------------------ buddies

  /** Bitwise exclusive or. */
  function Xor(a: nat, b: nat): (x: nat)
    decreases a + b
  {
    if a == 0 then b else if b == 0 then a
    else (if a % 2 == b % 2 then 0 else 1) + 2 * Xor(a / 2, b / 2)
  }

  /** The other half of the block of twice the size. */
  function Buddy(off: nat, o: nat): (b: nat)
    requires Aligned(off, o)
    ensures b == off + Pow2(o) || (off >= Pow2(o) && b == off - Pow2(o))
  {
    if Aligned(off, o + 1) then off + Pow2(o)
    else
      NotTheFirst(off, o);
      off - Pow2(o)
  }

  lemma {:induction false} NotTheFirst(off: nat, o: nat)
    requires Aligned(off, o) && !Aligned(off, o + 1)
    ensures off >= Pow2(o)
  {
    if off == 0 {
      ModMultiple(0, Pow2(o + 1));
    } else {
      MultiplesApart(0, off, Pow2(o)) by { ModMultiple(0, Pow2(o)); }
    }
  }

  lemma {:induction false} DoubleMod(x: nat, m: nat)
    requires m > 0
    ensures (2 * x) % (2 * m) == 2 * (x % m)
  {
    var q, r := x / m, x % m;
    assert 2 * x == q * (2 * m) + 2 * r;
    DivModUnique(2 * x, 2 * m, q, 2 * r);
  }

  lemma {:induction false} XorEven(a: nat, b: nat)
    ensures Xor(2 * a, 2 * b) == 2 * Xor(a, b)
  {
    if a > 0 && b > 0 {
      assert (2 * a) % 2 == 0 && (2 * b) % 2 == 0 && (2 * a) / 2 == a && (2 * b) / 2 == b;
    }
  }

  lemma {:induction false} BuddyEven(x: nat, o: nat)
    requires Aligned(x, o)
    ensures Aligned(2 * x, o + 1) && Buddy(2 * x, o + 1) == 2 * Buddy(x, o)
  {
    assert Pow2(o + 1) == 2 * Pow2(o) && Pow2(o + 2) == 2 * Pow2(o + 1);
    DoubleMod(x, Pow2(o));
    DoubleMod(x, Pow2(o + 1));
  }

  /** Flipping bit `o` of an aligned offset, as `buddy_of` does, gives the buddy. */
  lemma {:induction false} XorIsBuddy(off: nat, o: nat)
    requires Aligned(off, o)
    ensures Xor(off, Pow2(o)) == Buddy(off, o)
  {
    if o == 0 {
      assert Pow2(1) == 2;
      if off > 0 {
        assert Xor(off, 1) == (if off % 2 == 1 then 0 else 1) + 2 * (off / 2);
      }
    } else {
      var x := off / 2;
      assert off == 2 * x by {
        AlignedWeaker(off, 1, o);
        assert Pow2(1) == 2;
      }
      assert Aligned(x, o - 1) by {
        DoubleMod(x, Pow2(o - 1));
      }
      XorIsBuddy(x, o - 1);
      XorEven(x, Pow2(o - 1));
      BuddyEven(x, o - 1);
    }
  }

  /** A block and its buddy: both halves of an aligned block of twice the size. */
  lemma {:induction false} BuddyPair(off: nat, o: nat)
    requires Aligned(off, o)
    ensures Aligned(Buddy(off, o), o) && Buddy(Buddy(off, o), o) == off
    ensures var q := if off < Buddy(off, o) then off else Buddy(off, o);
      Aligned(q, o + 1) && (off == q || off == q + Pow2(o)) && (Buddy(off, o) == q || Buddy(off, o) == q + Pow2(o))
  {
    var m := Pow2(o);
    assert Pow2(o + 1) == 2 * m;
    HalfMultiple(off, m);
    MultipleSum(off, m, m) by { ModMultiple(1, m); }
    if Aligned(off, o + 1) {
      assert (off + m) % (2 * m) == m by {
        DivModUnique(off + m, 2 * m, off / (2 * m), m);
      }
    }
  }

  // ------------------------------------------------------------------- tilings

  ghost function End(m: Blocks, b: nat): nat
    requires b in m
  {
    b + Pow2(m[b].order)
  }

  ghost predicate Covers(m: Blocks, b: nat, x: int) { b in m && b <= x < End(m, b) }

  ghost predicate Covered(m: Blocks, x: int) { exists b :: Covers(m, b, x) }

  /** The blocks are aligned powers of two that tile `[0, top)`. */
  ghost predicate Tiled(m: Blocks, top: nat)
  {
    true == (Fitting(m, top) && Apart(m) && Covering(m, top))
  }

  ghost predicate Fitting(m: Blocks, top: nat) {
    forall b :: b in m ==> Aligned(b, m[b].order) && MIN_ORDER <= m[b].order < ARENA_ORDERS && End(m, b) <= top
  }

  ghost predicate Apart(m: Blocks) { forall b, c :: b in m && c in m && b < c ==> End(m, b) <= c }

  ghost predicate Covering(m: Blocks, top: nat) { forall x :: 0 <= x < top ==> Covered(m, x) }

  /** Two free blocks of the same order that could be joined. */
  ghost predicate FreePair(m: Blocks, b: nat)
  {
    b in m && m[b].free && Aligned(b, m[b].order) &&
    Buddy(b, m[b].order) in m && m[Buddy(b, m[b].order)] == m[b]
  }

  /** Everything that can be joined has been. */
  ghost predicate Coalesced(m: Blocks) { forall b :: b in m ==> !FreePair(m, b) }

  lemma {:induction false} OneCover(m: Blocks, top: nat, b: nat, c: nat, x: int)
    requires Tiled(m, top) && Covers(m, b, x) && Covers(m, c, x)
    ensures b == c
  {
  }

  /** Of two aligned blocks that share a point, the larger contains the smaller. */
  lemma {:induction false} Nested(b: nat, i: nat, c: nat, j: nat, x: nat)
    requires Aligned(b, i) && Aligned(c, j) && i <= j
    requires b <= x < b + Pow2(i) && c <= x < c + Pow2(j)
    ensures c <= b && b + Pow2(i) <= c + Pow2(j)
    ensures i == j ==> b == c
  {
    var m := Pow2(i);
    AlignedWeaker(c, i, j);
    MultipleSum(c, Pow2(j), m);
    if b < c {
      MultiplesApart(b, c, m);
    }
    MultiplesApart(b, c + Pow2(j), m);
    if i == j && c < b {
      MultiplesApart(c, b, m);
    }
  }

  /** The buddy of a block, if inside the arena, is the start of a block that is
      no larger. */
  lemma {:induction false} BuddyIsBlock(m: Blocks, top: nat, b: nat)
    requires Tiled(m, top) && b in m && Buddy(b, m[b].order) < top
    ensures Buddy(b, m[b].order) in m && m[Buddy(b, m[b].order)].order <= m[b].order
  {
    var o := m[b].order;
    var c := Buddy(b, o);
    assert Covered(m, c);
    var d: nat :| Covers(m, d, c);
    BuddyPair(b, o);
    if m[d].order <= o {
      AlignedWeaker(c, m[d].order, o);
      Nested(c, m[d].order, d, m[d].order, c);
    } else {
      LargerHoldsBoth(b, o, d, m[d].order);
    }
  }

  /** A larger aligned block that holds the buddy holds the block as well. */
  lemma {:induction false} LargerHoldsBoth(b: nat, o: nat, d: nat, j: nat)
    requires Aligned(b, o) && Aligned(d, j) && o < j && d <= Buddy(b, o) < d + Pow2(j)
    ensures d <= b < d + Pow2(j)
  {
    var c := Buddy(b, o);
    BuddyPair(b, o);
    assert Pow2(o + 1) == 2 * Pow2(o);
    Nested(if b < c then b else c, o + 1, d, j, c);
  }

  /** Every block that meets `[r, r + 2^k)` is free. */
  ghost predicate FreeRange(m: Blocks, r: nat, k: nat) {
    forall b :: b in m && b < r + Pow2(k) && r < End(m, b) ==> m[b].free
  }

  /** Full coalescing: an aligned free range lies inside one free block. */
  lemma {:induction false} FreeRangeInBlock(m: Blocks, top: nat, r: nat, k: nat) returns (b: nat)
    requires Tiled(m, top) && Coalesced(m) && Aligned(r, k) && r + Pow2(k) <= top && FreeRange(m, r, k)
    ensures Covers(m, b, r) && m[b].free && m[b].order >= k
    decreases k
  {
    if k == 0 {
      assert Covered(m, r);
      b :| Covers(m, b, r);
    } else {
      var p := Pow2(k - 1);
      assert Pow2(k) == 2 * p;
      AlignedWeaker(r, k - 1, k);
      assert Aligned(r + p, k - 1) by {
        ModMultiple(1, p);
        MultipleSum(r, p, p);
      }
      assert FreeRange(m, r, k - 1) && FreeRange(m, r + p, k - 1);
      var c := FreeRangeInBlock(m, top, r, k - 1);
      var d := FreeRangeInBlock(m, top, r + p, k - 1);
      b := JoinHalves(m, top, r, k, c, d);
    }
  }

  lemma {:induction false} JoinHalves(m: Blocks, top: nat, r: nat, k: nat, c: nat, d: nat) returns (b: nat)
    requires k > 0 && Tiled(m, top) && Coalesced(m) && Aligned(r, k) && Aligned(r, k - 1)
    requires Aligned(r + Pow2(k - 1), k - 1)
    requires Covers(m, c, r) && m[c].free && m[c].order >= k - 1
    requires Covers(m, d, r + Pow2(k - 1)) && m[d].free && m[d].order >= k - 1
    ensures Covers(m, b, r) && m[b].free && m[b].order >= k
  {
    var p := Pow2(k - 1);
    assert Pow2(k) == 2 * p;
    if m[c].order >= k {
      b := c;
    } else if m[d].order >= k {
      Nested(r, k, d, m[d].order, r + p);
      b := d;
    } else {
      b := c;
      TwinBlocks(m, r, k - 1, c, d);
    }
  }

  lemma {:induction false} TwinBlocks(m: Blocks, r: nat, o: nat, c: nat, d: nat)
    requires Aligned(r, o + 1) && Aligned(r, o) && Aligned(r + Pow2(o), o)
    requires Covers(m, c, r) && m[c] == Header(o, true) && Aligned(c, o)
    requires Covers(m, d, r + Pow2(o)) && m[d] == Header(o, true) && Aligned(d, o)
    ensures FreePair(m, r)
  {
    Nested(r, o, c, o, r);
    Nested(r + Pow2(o), o, d, o, r + Pow2(o));
  }

  ghost predicate AllFree(m: Blocks) { forall b :: b in m ==> m[b].free }

  /** With nothing allocated there is only one fully coalesced partition. */
  lemma {:induction false} CoalescedUnique(m: Blocks, m': Blocks, top: nat)
    requires Tiled(m, top) && Coalesced(m) && AllFree(m)
    requires Tiled(m', top) && Coalesced(m') && AllFree(m')
    ensures m == m'
  {
    forall b | b in m ensures b in m' && m'[b] == m[b] {
      SameBlock(m, m', top, b);
    }
    forall b | b in m' ensures b in m && m[b] == m'[b] {
      SameBlock(m', m, top, b);
    }
  }

  lemma {:induction false} SameBlock(m: Blocks, m': Blocks, top: nat, b: nat)
    requires Tiled(m, top) && Coalesced(m) && AllFree(m) && b in m
    requires Tiled(m', top) && Coalesced(m') && AllFree(m')
    ensures b in m' && m'[b] == m[b]
  {
    var c := FreeRangeInBlock(m', top, b, m[b].order);
    var d := FreeRangeInBlock(m, top, c, m'[c].order);
    Nested(c, m'[c].order, d, m[d].order, c);
    OneCover(m, top, b, d, b);
    Nested(b, m[b].order, c, m'[c].order, b);
  }

  // --------------------------------------------------- splitting and joining

  /** Block `b` split into two free halves. */
  ghost function Split(m: Blocks, b: nat): Blocks
    requires b in m && m[b].order > 0
  {
    var i := m[b].order - 1;
    m[b := Header(i, true)][b + Pow2(i) := Header(i, true)]
  }

  lemma {:induction false} SplitTiled(m: Blocks, top: nat, b: nat)
    requires Tiled(m, top) && b in m && m[b].order > MIN_ORDER
    ensures b + Pow2(m[b].order - 1) !in m && Tiled(Split(m, b), top)
  {
    SplitFitting(m, top, b);
    SplitApart(m, b);
    SplitCovering(m, top, b);
  }

  lemma {:induction false} SplitFitting(m: Blocks, top: nat, b: nat)
    requires Fitting(m, top) && b in m && m[b].order > MIN_ORDER
    ensures Fitting(Split(m, b), top)
  {
    var i: nat, m' := m[b].order - 1, Split(m, b);
    var c: nat := b + Pow2(i);
    assert Pow2(i + 1) == 2 * Pow2(i);
    assert Aligned(b, i) && Aligned(c, i) by {
      AlignedWeaker(b, i, i + 1);
      ModMultiple(1, Pow2(i));
      MultipleSum(b, Pow2(i), Pow2(i));
    }
    forall x | x in m' ensures Aligned(x, m'[x].order) && MIN_ORDER <= m'[x].order < ARENA_ORDERS && End(m', x) <= top {
      if x != b && x != c {
        assert x in m && m'[x] == m[x];
      }
    }
  }

  lemma {:induction false} SplitCovering(m: Blocks, top: nat, b: nat)
    requires Covering(m, top) && b in m && m[b].order > 0 && b + Pow2(m[b].order - 1) !in m
    ensures Covering(Split(m, b), top)
  {
    var i: nat, m' := m[b].order - 1, Split(m, b);
    var c: nat := b + Pow2(i);
    assert Pow2(i + 1) == 2 * Pow2(i);
    forall x | 0 <= x < top ensures Covered(m', x) {
      assert Covered(m, x);
      var d: nat :| Covers(m, d, x);
      if d == b {
        assert Covers(m', if x < c then b else c, x);
      } else {
        assert Covers(m', d, x);
      }
    }
  }

  lemma {:induction false} SplitApart(m: Blocks, b: nat)
    requires Apart(m) && b in m && m[b].order > 0
    ensures Apart(Split(m, b)) && b + Pow2(m[b].order - 1) !in m
  {
    var i, m' := m[b].order - 1, Split(m, b);
    var c := b + Pow2(i);
    assert Pow2(i + 1) == 2 * Pow2(i);
    forall x, y | x in m' && y in m' && x < y ensures End(m', x) <= y {
      var x0, y0 := if x == c then b else x, if y == c then b else y;
      assert x0 in m && y0 in m;
    }
  }

  /** The two blocks of order `o` at `q` joined into one. */
  ghost function Joined(m: Blocks, q: nat, o: nat): Blocks {
    (m - {q + Pow2(o)})[q := Header(o + 1, true)]
  }

  lemma {:induction false} JoinTiled(m: Blocks, top: nat, q: nat, o: nat)
    requires Tiled(m, top) && Aligned(q, o + 1) && o + 1 < ARENA_ORDERS
    requires q in m && q + Pow2(o) in m && m[q].order == o && m[q + Pow2(o)].order == o
    ensures Tiled(Joined(m, q, o), top)
  {
    hide Fitting, Apart, Covering, Joined;
    JoinFitting(m, top, q, o);
    JoinApart(m, q, o);
    JoinCovering(m, top, q, o);
  }

  lemma {:induction false} JoinFitting(m: Blocks, top: nat, q: nat, o: nat)
    requires Fitting(m, top) && Aligned(q, o + 1) && o + 1 < ARENA_ORDERS
    requires q in m && q + Pow2(o) in m && m[q].order == o && m[q + Pow2(o)].order == o
    ensures Fitting(Joined(m, q, o), top)
  {
    var m' := Joined(m, q, o);
    assert End(m', q) == End(m, q + Pow2(o));
    forall x | x in m' ensures Aligned(x, m'[x].order) && MIN_ORDER <= m'[x].order < ARENA_ORDERS && End(m', x) <= top {
      assert x != q ==> x in m && m'[x] == m[x];
    }
  }

  lemma {:induction false} JoinApart(m: Blocks, q: nat, o: nat)
    requires Apart(m) && q in m && q + Pow2(o) in m && m[q].order == o && m[q + Pow2(o)].order == o
    ensures Apart(Joined(m, q, o))
  {
    var c, m' := q + Pow2(o), Joined(m, q, o);
    assert End(m', q) == End(m, c);
    forall x, y | x in m' && y in m' && x < y ensures End(m', x) <= y {
      assert x != q ==> x in m && End(m', x) == End(m, x);
      assert y in m && y != c;
    }
  }

  lemma {:induction false} JoinCovering(m: Blocks, top: nat, q: nat, o: nat)
    requires Covering(m, top) && q in m && q + Pow2(o) in m && m[q].order == o && m[q + Pow2(o)].order == o
    ensures Covering(Joined(m, q, o), top)
  {
    var c, m' := q + Pow2(o), Joined(m, q, o);
    assert End(m', q) == End(m, c);
    forall x | 0 <= x < top ensures Covered(m', x) {
      assert Covered(m, x);
      var d: nat :| Covers(m, d, x);
      assert Covers(m', if d == c then q else d, x);
    }
  }

  /** `m` with `b` marked as allocated. */
  ghost function Taken(m: Blocks, b: nat): Blocks
    requires b in m
  {
    m[b := m[b].(free := false)]
  }

  /** Nothing can be joined, except possibly `b` with its buddy. */
  ghost predicate CoalescedBut(m: Blocks, b: nat) { b in m && Coalesced(Taken(m, b)) }

  lemma {:induction false} TakenTiled(m: Blocks, top: nat, b: nat, f: bool)
    requires Tiled(m, top) && b in m
    ensures Tiled(m[b := m[b].(free := f)], top)
  {
    var m' := m[b := m[b].(free := f)];
    assert Fitting(m', top) && Apart(m');
    assert Covering(m', top) by {
      forall x | 0 <= x < top ensures Covered(m', x) {
        assert Covered(m, x);
        var d: nat :| Covers(m, d, x);
        assert Covers(m', d, x);
      }
    }
  }

  /** Splitting the one exception leaves its upper half as the one exception. */
  lemma {:induction false} SplitCoalesced(m: Blocks, top: nat, b: nat)
    requires Tiled(m, top) && CoalescedBut(m, b) && m[b].order > MIN_ORDER
    ensures CoalescedBut(Split(m, b), b + Pow2(m[b].order - 1))
  {
    SplitApart(m, b);
    var t := Taken(m, b);
    var t' := Taken(Split(m, b), b + Pow2(m[b].order - 1));
    forall x | x in t' ensures !FreePair(t', x) {
      SplitPair(m, b, x, t, t');
    }
  }

  lemma {:induction false} SplitPair(m: Blocks, b: nat, x: nat, t: Blocks, t': Blocks)
    requires b in m && m[b].order > 0 && Aligned(b, m[b].order) && b + Pow2(m[b].order - 1) !in m
    requires t == Taken(m, b) && t' == Taken(Split(m, b), b + Pow2(m[b].order - 1))
    ensures FreePair(t', x) ==> FreePair(t, x)
  {
    var i: nat := m[b].order - 1;
    assert Aligned(b, i) && Buddy(b, i) == b + Pow2(i) by { AlignedWeaker(b, i, i + 1); }
    if FreePair(t', x) {
      BuddyPair(x, t'[x].order);
    }
  }

  /** Joining the one exception with its buddy leaves the join as the one exception. */
  lemma {:induction false} JoinCoalesced(m: Blocks, q: nat, o: nat, b: nat)
    requires CoalescedBut(m, b) && (b == q || b == q + Pow2(o)) && q in m && q + Pow2(o) in m
    ensures CoalescedBut(Joined(m, q, o), q)
  {
    var t, t' := Taken(m, b), Taken(Joined(m, q, o), q);
    forall x | x in t' ensures !FreePair(t', x) {
      JoinPair(t, t', q, x);
    }
  }

  lemma {:induction false} JoinPair(t: Blocks, t': Blocks, q: nat, x: nat)
    requires q in t' && !t'[q].free && forall d :: d in t' && d != q ==> d in t && t[d] == t'[d]
    ensures FreePair(t', x) ==> FreePair(t, x)
  {
  }

  /** The exception is no exception if its buddy is not free or of another order. */
  lemma {:induction false} NotAnException(m: Blocks, b: nat)
    requires CoalescedBut(m, b) && Aligned(b, m[b].order) && !FreePair(m, b)
    ensures Coalesced(m)
  {
    forall x | x in m ensures !FreePair(m, x) {
      PairElsewhere(m, b, x);
    }
  }

  lemma {:induction false} PairElsewhere(m: Blocks, b: nat, x: nat)
    requires b in m && Aligned(b, m[b].order) && x in m
    ensures FreePair(m, x) ==> FreePair(Taken(m, b), x) || FreePair(m, b)
  {
    if FreePair(m, x) {
      BuddyPair(x, m[x].order);
    }
  }

  /** Freeing a block makes it the one possible exception. */
  lemma {:induction false} FreedException(m: Blocks, b: nat)
    requires Coalesced(m) && b in m && !m[b].free
    ensures CoalescedBut(m[b := m[b].(free := true)], b)
  {
    assert Taken(m[b := m[b].(free := true)], b) == m;
  }

  /** Without exceptions, any block can be the exception. */
  lemma {:induction false} TakenCoalesced(m: Blocks, b: nat)
    requires Coalesced(m) && b in m
    ensures CoalescedBut(m, b)
  {
    forall x | x in m ensures !FreePair(Taken(m, b), x) {
      assert FreePair(Taken(m, b), x) ==> FreePair(m, x);
    }
  }
}
