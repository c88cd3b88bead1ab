/** The partition that `arena_init` in src/arena.c builds. */
module ArenaCarving {
  import opened Arith
  import opened ArenaBlocks

  /** The rest of the carving loop, with `rem` bytes left from offset `off`. */
  function Carving(off: nat, rem: nat, o: nat): Blocks
    decreases rem, o
  {
    if o < MIN_ORDER then map[]
    else if Pow2(o) > rem then Carving(off, rem, o - 1)
    else Carving(off + Pow2(o), rem - Pow2(o), o)[off := Header(o, true)]
  }

  /** The partition of an arena of `size` bytes in which nothing is allocated. */
  function Initial(size: nat): Blocks { Carving(0, size, ARENA_ORDERS - 1) }

  /** Free blocks of different orders that tile `[lo, hi)`. */
  ghost predicate Carved(m: Blocks, lo: nat, hi: nat)
  {
    true == (
      && (forall b :: b in m ==> lo <= b && m[b].free)
      && Fitting(m, hi) && Apart(m)
      && (forall x :: lo <= x < hi ==> Covered(m, x))
      && (forall b, c :: b in m && c in m && b != c ==> m[b].order != m[c].order))
  }

  lemma {:induction false} CarvingOrders(off: nat, rem: nat, o: nat, b: nat)
    ensures b in Carving(off, rem, o) ==> b >= off && Pow2(Carving(off, rem, o)[b].order) <= rem
    decreases rem, o
  {
    if o < MIN_ORDER {
    } else if Pow2(o) > rem {
      CarvingOrders(off, rem, o - 1, b);
    } else {
      CarvingOrders(off + Pow2(o), rem - Pow2(o), o, b);
    }
  }

  lemma {:induction false} CarvedMore(m: Blocks, lo: nat, hi: nat, o: nat)
    requires Carved(m, lo + Pow2(o), hi) && Aligned(lo, o) && MIN_ORDER <= o < ARENA_ORDERS && lo + Pow2(o) <= hi
    requires forall b :: b in m ==> m[b].order < o
    ensures Carved(m[lo := Header(o, true)], lo, hi)
  {
    var m' := m[lo := Header(o, true)];
    assert Fitting(m', hi) && Apart(m');
    forall x | lo <= x < hi ensures Covered(m', x) {
      if x < lo + Pow2(o) {
        assert Covers(m', lo, x);
      } else {
        assert Covered(m, x);
        var d: nat :| Covers(m, d, x);
        assert Covers(m', d, x);
      }
    }
  }

  /** Rounding down to a multiple of 32 commutes with adding a block. */
  lemma {:induction false} BlockRounds(rem: nat, o: nat)
    requires MIN_ORDER <= o && Pow2(o) <= rem
    ensures (rem - Pow2(o)) % 32 == rem % 32 && Pow2(o) <= rem - rem % 32
  {
    AlignedWeaker(0, 5, o) by { ModMultiple(0, Pow2(o)); }
    FivePower();
    hide Pow2;
    Rounds(rem, Pow2(o));
  }

  lemma {:induction false} FivePower()
    ensures Pow2(5) == 32
  {
  }

  lemma {:induction false} Rounds(rem: nat, p: nat)
    requires p % 32 == 0 && p <= rem
    ensures (rem - p) % 32 == rem % 32 && p <= rem - rem % 32
  {
  }

  lemma {:induction false} SmallerOrders(off: nat, rem: nat, o: nat)
    requires rem < Pow2(o)
    ensures forall b :: b in Carving(off, rem, o) ==> Carving(off, rem, o)[b].order < o
  {
    var m := Carving(off, rem, o);
    forall b | b in m ensures m[b].order < o {
      CarvingOrders(off, rem, o, b);
      if m[b].order >= o {
        Pow2Monotone(o, m[b].order);
      }
    }
  }

  lemma {:induction false} NextAligned(off: nat, o: nat)
    requires Aligned(off, o)
    ensures Aligned(off + Pow2(o), o)
  {
    ModMultiple(1, Pow2(o));
    MultipleSum(off, Pow2(o), Pow2(o));
  }

  lemma {:induction false} CarvingCarved(off: nat, rem: nat, o: nat, hi: nat)
    requires Aligned(off, o) && MIN_ORDER - 1 <= o < ARENA_ORDERS && rem < 2 * Pow2(o) && hi == off + (rem - rem % 32)
    ensures Carved(Carving(off, rem, o), off, hi)
    decreases rem, o
  {
    if o < MIN_ORDER {
      assert Pow2(4) == 16;
      assert hi == off;
      assert Carved(map[], off, hi);
    } else if Pow2(o) > rem {
      AlignedWeaker(off, o - 1, o);
      CarvingCarved(off, rem, o - 1, hi);
    } else {
      hide Carved, Aligned;
      var next, left := off + Pow2(o), rem - Pow2(o);
      NextAligned(off, o);
      BlockRounds(rem, o);
      CarvingCarved(next, left, o, hi);
      SmallerOrders(next, left, o);
      CarvedMore(Carving(next, left, o), off, hi, o);
    }
  }

  /** The initial partition tiles everything but a tail too short for a block, and
      no two of its blocks can be joined. */
  lemma {:induction false} InitialPartition(size: nat)
    requires size < Pow2(ARENA_ORDERS - 1)
    ensures Tiled(Initial(size), size - size % 32) && Coalesced(Initial(size)) && AllFree(Initial(size))
  {
    CarvingCarved(0, size, ARENA_ORDERS - 1, size - size % 32);
    var m := Initial(size);
    forall b | b in m ensures !FreePair(m, b) {
      if FreePair(m, b) {
        BuddyPair(b, m[b].order);
      }
    }
    assert Covering(m, size - size % 32);
  }

  /** With nothing allocated, a fully coalesced partition is the initial one. */
  lemma {:induction false} NothingAllocated(m: Blocks, size: nat)
    requires size < Pow2(ARENA_ORDERS - 1)
    requires Tiled(m, size - size % 32) && Coalesced(m) && AllFree(m)
    ensures m == Initial(size)
  {
    InitialPartition(size);
    CoalescedUnique(m, Initial(size), size - size % 32);
  }
}
