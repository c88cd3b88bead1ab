/** src/arena.c: the buddy allocator. Offsets are relative to `a->base`. */
module Arena {
  import opened Arith
  import opened ArenaBlocks
  import opened ArenaCarving
  import opened Sequences

  datatype Pointer = Null | At(off: nat)

  /** The free lists hold exactly the free blocks of their order, each once. */
  ghost predicate Listed(lists: seq<seq<nat>>, m: Blocks)
  {
    true == (
      && |lists| == ARENA_ORDERS
      && (forall o :: 0 <= o < |lists| ==> Once(lists[o]))
      && (forall o, b :: 0 <= o < |lists| ==> (b in lists[o] <==> b in m && m[b] == Header(o, true))))
  }

  /** Byte `x` belongs to the payload of an allocated block. */
  ghost predicate Live(m: Blocks, x: int) {
    exists b :: b in m && !m[b].free && b + HEADER_SIZE <= x < End(m, b)
  }

  function Drop(s: seq<nat>, b: nat): (r: seq<nat>)
    ensures forall x :: x in r ==> x in s
    ensures forall x :: x in s && x != b ==> x in r
  {
    if s == [] then [] else if s[0] == b then s[1..] else [s[0]] + Drop(s[1..], b)
  }

  lemma {:induction false} DropFacts(s: seq<nat>, b: nat)
    requires Once(s)
    ensures b !in Drop(s, b) && Once(Drop(s, b))
  {
    if s != [] && s[0] != b {
      DropFacts(s[1..], b);
      var r := Drop(s[1..], b);
      assert s[0] !in s[1..] && s[0] !in r;
      assert forall i :: 0 < i < |r| + 1 ==> ([s[0]] + r)[i] == r[i - 1];
    }
  }

  predicate InHeaders(offs: set<nat>, x: int) { exists b :: b in offs && b <= x < b + HEADER_SIZE }

  /** Only bytes of the headers at `offs` changed. */
  ghost predicate KeptOutside(offs: set<nat>, was: seq<int>, now: seq<int>) {
    true == (|now| == |was| && forall x :: 0 <= x < |now| && !InHeaders(offs, x) ==> now[x] == was[x])
  }

  lemma {:induction false} KeptThen(a: set<nat>, a': set<nat>, c: set<nat>, x: seq<int>, y: seq<int>, z: seq<int>)
    requires KeptOutside(a, x, y) && KeptOutside(a', y, z) && a <= c && a' <= c
    ensures KeptOutside(c, x, z)
  {
    forall i | 0 <= i < |z| && !InHeaders(c, i) ensures !InHeaders(a, i) && !InHeaders(a', i) {
    }
  }

  function Members(s: seq<nat>): set<nat> { set b | b in s }

  /** Bytes that belong to an allocated block's payload keep their value. */
  ghost predicate Kept(m: Blocks, was: seq<int>, now: seq<int>) {
    true == (|now| == |was| && forall x :: 0 <= x < |now| && Live(m, x) ==> now[x] == was[x])
  }

  /** Headers of free blocks hold no live payload. */
  lemma {:induction false} HeadersNotLive(m: Blocks, top: nat, offs: set<nat>, was: seq<int>, now: seq<int>)
    requires Tiled(m, top) && KeptOutside(offs, was, now)
    requires forall b :: b in offs ==> b in m && m[b].free
    ensures Kept(m, was, now)
  {
    forall x | 0 <= x < |now| && Live(m, x) ensures !InHeaders(offs, x) {
      var b :| b in m && !m[b].free && b + HEADER_SIZE <= x < End(m, b);
      forall c | c in offs ensures !(c <= x < c + HEADER_SIZE) {
        assert HEADER_SIZE <= Pow2(m[c].order) by { Pow2Monotone(MIN_ORDER, m[c].order); assert Pow2(MIN_ORDER) == 32; }
        assert c < b || b < c;
      }
    }
  }

  /** The end of the carved region of an arena of `size` bytes. */
  function TopOf(size: nat): nat { size - size % 32 }

  /** Everything but coalescing: the blocks tile the carved region, their headers
      are in memory and the free lists hold the free ones. */
  ghost predicate WellFormed(size: nat, lists: seq<seq<nat>>, headers: map<nat, Header>, m: Blocks)
  {
    true == (
      && size < Pow2(31) && Tiled(m, TopOf(size)) && Listed(lists, m)
      && (forall b :: b in m ==> b in headers && headers[b] == m[b])
      && (forall b :: b in headers ==> b < TopOf(size)))
  }

  /** Moving block `b` out of one free list. */
  lemma {:induction false} ListedDrop(lists: seq<seq<nat>>, m: Blocks, o: nat, b: nat, m': Blocks)
    requires Listed(lists, m) && o < ARENA_ORDERS && b in m && m[b] == Header(o, true)
    requires (b in m' ==> !m'[b].free) && forall x :: x != b ==> (x in m' <==> x in m) && (x in m ==> m'[x] == m[x])
    ensures Listed(lists[o := Drop(lists[o], b)], m')
  {
    DropFacts(lists[o], b);
  }

  /** Adding block `b` at the head of a free list. */
  lemma {:induction false} ListedAdd(lists: seq<seq<nat>>, m: Blocks, o: nat, b: nat, m': Blocks)
    requires Listed(lists, m) && o < ARENA_ORDERS && (b in m ==> !m[b].free) && b in m' && m'[b] == Header(o, true)
    requires forall x :: x != b ==> (x in m' <==> x in m) && (x in m ==> m'[x] == m[x])
    ensures Listed(lists[o := [b] + lists[o]], m')
  {
    assert b !in lists[o];
  }

  lemma {:induction false} SplitListed(lists: seq<seq<nat>>, m: Blocks, b: nat)
    requires Listed(lists, m) && b in m && m[b].free && 0 < m[b].order < ARENA_ORDERS && b + Pow2(m[b].order - 1) !in m
    ensures var i := m[b].order;
      var l1 := lists[i := Drop(lists[i], b)];
      var l2 := l1[i - 1 := [b] + l1[i - 1]];
      Listed(l2[i - 1 := [b + Pow2(i - 1)] + l2[i - 1]], Split(m, b))
  {
    var i, c := m[b].order, b + Pow2(m[b].order - 1);
    var l1 := lists[i := Drop(lists[i], b)];
    var m1, m2 := Taken(m, b), m[b := Header(i - 1, true)];
    ListedDrop(lists, m, i, b, m1);
    ListedAdd(l1, m1, i - 1, b, m2);
    ListedAdd(l1[i - 1 := [b] + l1[i - 1]], m2, i - 1, c, Split(m, b));
  }

  lemma {:induction false} JoinListed(lists: seq<seq<nat>>, m: Blocks, q: nat, o: nat)
    requires Listed(lists, m) && o + 1 < ARENA_ORDERS && q in m && q + Pow2(o) in m
    requires m[q] == Header(o, true) && m[q + Pow2(o)] == Header(o, true)
    ensures var l1 := lists[o := Drop(lists[o], q)];
      var l2 := l1[o := Drop(l1[o], q + Pow2(o))];
      Listed(l2[o + 1 := [q] + l2[o + 1]], Joined(m, q, o))
  {
    var c := q + Pow2(o);
    var m1 := Taken(m, q);
    var m2 := m1 - {c};
    var l1 := lists[o := Drop(lists[o], q)];
    ListedDrop(lists, m, o, q, m1);
    ListedDrop(l1, m1, o, c, m2);
    ListedAdd(l1[o := Drop(l1[o], c)], m2, o + 1, q, Joined(m, q, o));
  }

  /** The same blocks are allocated. */
  ghost predicate SameUsed(m: Blocks, m': Blocks)
  {
    true == (
      && (forall d :: d in m && !m[d].free ==> d in m' && m'[d] == m[d])
      && (forall d :: d in m' && !m'[d].free ==> d in m && m[d] == m'[d]))
  }

  lemma {:induction false} SameLive(m: Blocks, m': Blocks)
    requires SameUsed(m, m')
    ensures forall x :: Live(m', x) <==> Live(m, x)
  {
    forall x ensures Live(m', x) <==> Live(m, x) {
      if Live(m', x) {
        var d :| d in m' && !m'[d].free && d + HEADER_SIZE <= x < End(m', d);
        assert End(m, d) == End(m', d);
      }
      if Live(m, x) {
        var d :| d in m && !m[d].free && d + HEADER_SIZE <= x < End(m, d);
        assert End(m, d) == End(m', d);
      }
    }
  }

  lemma {:induction false} SplitWellFormed(size: nat, lists: seq<seq<nat>>, headers: map<nat, Header>, m: Blocks,
                                           i: nat, b: nat,
                                           lists': seq<seq<nat>>, headers': map<nat, Header>)
    requires WellFormed(size, lists, headers, m) && MIN_ORDER < i < ARENA_ORDERS && b in m && m[b] == Header(i, true)
    requires var l1 := lists[i := Drop(lists[i], b)];
      var l2 := l1[i - 1 := [b] + l1[i - 1]];
      lists' == l2[i - 1 := [b + Pow2(i - 1)] + l2[i - 1]]
    requires headers' == headers[b + Pow2(i - 1) := Header(i - 1, true)][b := Header(i - 1, true)]
    ensures WellFormed(size, lists', headers', Split(m, b))
  {
    hide Tiled, Listed, Split;
    SplitTiled(m, TopOf(size), b);
    SplitListed(lists, m, b);
    SplitHeaders(size, headers, m, i, b, headers');
  }

  lemma {:induction false} SplitHeaders(size: nat, headers: map<nat, Header>, m: Blocks, i: nat, b: nat,
                                        headers': map<nat, Header>)
    requires Tiled(m, TopOf(size)) && MIN_ORDER < i < ARENA_ORDERS && b in m && m[b] == Header(i, true)
    requires forall x :: x in m ==> x in headers && headers[x] == m[x]
    requires forall x :: x in headers ==> x < TopOf(size)
    requires headers' == headers[b + Pow2(i - 1) := Header(i - 1, true)][b := Header(i - 1, true)]
    ensures forall x :: x in Split(m, b) ==> x in headers' && headers'[x] == Split(m, b)[x]
    ensures forall x :: x in headers' ==> x < TopOf(size)
  {
    var m', c := Split(m, b), b + Pow2(i - 1);
    assert Fitting(m, TopOf(size));
    assert Pow2(i) == 2 * Pow2(i - 1) && End(m, b) <= TopOf(size);
    forall x | x in m' ensures x in headers' && headers'[x] == m'[x] {
      assert x != b && x != c ==> x in m && m'[x] == m[x];
    }
  }

  lemma {:induction false} SplitKept(lists: seq<seq<nat>>, m: Blocks, top: nat, i: nat, b: nat, c: nat, m': Blocks,
                                     was: seq<int>, now: seq<int>)
    requires Listed(lists, m) && 0 < i < ARENA_ORDERS && b in m && m[b] == Header(i, true) && c !in m
    requires m' == m[b := Header(i - 1, true)][c := Header(i - 1, true)] && Tiled(m', top)
    requires KeptOutside(Members(lists[i]) + Members(lists[i - 1]) + {b, c}, was, now)
    ensures Kept(m, was, now)
  {
    SameLive(m, m');
    var offs := Members(lists[i]) + Members(lists[i - 1]) + {b, c};
    forall x | x in offs ensures x in m' && m'[x].free {
      if x != b && x != c {
        assert x in lists[i] || x in lists[i - 1];
        assert x in m && m[x].free;
      }
    }
    HeadersNotLive(m', top, offs, was, now);
  }

  lemma {:induction false} SplitWellFormedKept(size: nat, lists: seq<seq<nat>>, headers: map<nat, Header>, m: Blocks,
                                               i: nat,
                                               b: nat, was: seq<int>, now: seq<int>)
    requires WellFormed(size, lists, headers, m) && MIN_ORDER < i < ARENA_ORDERS && b in m && m[b] == Header(i, true)
    requires KeptOutside(Members(lists[i]) + Members(lists[i - 1]) + {b, b + Pow2(i - 1)}, was, now)
    ensures Kept(m, was, now)
  {
    hide Tiled, Listed, KeptOutside, Kept;
    SplitTiled(m, TopOf(size), b);
    SplitKept(lists, m, TopOf(size), i, b, b + Pow2(i - 1), Split(m, b), was, now);
  }

  lemma {:induction false} JoinWellFormed(size: nat, lists: seq<seq<nat>>, headers: map<nat, Header>, m: Blocks, o: nat,
                                          q: nat,
                                          lists': seq<seq<nat>>, headers': map<nat, Header>)
    requires WellFormed(size, lists, headers, m) && o + 1 < ARENA_ORDERS && q in m && q + Pow2(o) in m
    requires Aligned(q, o + 1)
    requires m[q] == Header(o, true) && m[q + Pow2(o)] == Header(o, true)
    requires var l1 := lists[o := Drop(lists[o], q)];
      var l2 := l1[o := Drop(l1[o], q + Pow2(o))];
      lists' == l2[o + 1 := [q] + l2[o + 1]]
    requires headers' == headers[q := Header(o + 1, true)]
    ensures WellFormed(size, lists', headers', Joined(m, q, o))
  {
    JoinTiled(m, TopOf(size), q, o);
    JoinListed(lists, m, q, o);
    var m' := Joined(m, q, o);
    forall x | x in m' ensures x in headers' && headers'[x] == m'[x] {
      assert x != q ==> x in m && m'[x] == m[x];
    }
  }

  lemma {:induction false} JoinKept(size: nat, lists: seq<seq<nat>>, headers: map<nat, Header>, m: Blocks, o: nat,
                                    q: nat,
                                    was: seq<int>, now: seq<int>)
    requires WellFormed(size, lists, headers, m) && o + 1 < ARENA_ORDERS && q in m && m[q] == Header(o, true)
    requires KeptOutside(Members(lists[o]) + Members(lists[o + 1]) + {q}, was, now)
    ensures Kept(m, was, now)
  {
    var offs := Members(lists[o]) + Members(lists[o + 1]) + {q};
    forall x | x in offs ensures x in m && m[x].free {
      assert x != q ==> x in lists[o] || x in lists[o + 1];
    }
    HeadersNotLive(m, TopOf(size), offs, was, now);
  }

  /** Where the buddy that `arena_free` looks at can be. */
  lemma {:induction false} BuddyPlace(size: nat, lists: seq<seq<nat>>, headers: map<nat, Header>, m: Blocks, b: nat)
    requires WellFormed(size, lists, headers, m) && b in m
    ensures Aligned(b, m[b].order) && m[b].order + 1 < ARENA_ORDERS
    ensures Buddy(b, m[b].order) in m ||
      (Buddy(b, m[b].order) == TopOf(size) == End(m, b) && Aligned(b, m[b].order + 1))
  {
    var o := m[b].order;
    assert Tiled(m, TopOf(size)) && Fitting(m, TopOf(size));
    if o >= 31 {
      Pow2Monotone(31, o);
    }
    if Buddy(b, o) < TopOf(size) {
      BuddyIsBlock(m, TopOf(size), b);
    }
  }

  /** A free block taken off its list. */
  lemma {:induction false} TakeWellFormed(size: nat, lists: seq<seq<nat>>, headers: map<nat, Header>, m: Blocks, o: nat,
                                          b: nat)
    requires WellFormed(size, lists, headers, m) && o < ARENA_ORDERS && b in m && m[b] == Header(o, true)
    ensures WellFormed(size, lists[o := Drop(lists[o], b)], headers[b := Header(o, false)], Taken(m, b))
  {
    TakenTiled(m, TopOf(size), b, false);
    ListedDrop(lists, m, o, b, Taken(m, b));
  }

  /** An allocated block put on its list. */
  lemma {:induction false} GiveWellFormed(size: nat, lists: seq<seq<nat>>, headers: map<nat, Header>, m: Blocks, o: nat,
                                          b: nat)
    requires WellFormed(size, lists, headers, m) && o < ARENA_ORDERS && b in m && m[b] == Header(o, false)
    ensures WellFormed(size, lists[o := [b] + lists[o]], headers[b := Header(o, true)], m[b := Header(o, true)])
  {
    TakenTiled(m, TopOf(size), b, true);
    ListedAdd(lists, m, o, b, m[b := Header(o, true)]);
  }

  /** No aligned free range can hold `n` bytes and a header. */
  ghost predicate NoRoom(m: Blocks, top: nat, n: nat) {
    forall r: nat, k: nat :: Aligned(r, k) && r + Pow2(k) <= top && Pow2(k) >= n + HEADER_SIZE ==> !FreeRange(m, r, k)
  }

  /** If every list from the required order up is empty, there is no room: the
      consequence of full coalescing. */
  lemma {:induction false} EmptyListsNoRoom(size: nat, lists: seq<seq<nat>>, headers: map<nat, Header>, m: Blocks,
                                            n: nat, o: nat)
    requires WellFormed(size, lists, headers, m) && Coalesced(m) && o <= ARENA_ORDERS
    requires forall k: nat :: k < o ==> Pow2(k) < n + HEADER_SIZE
    requires forall k :: o <= k < ARENA_ORDERS ==> lists[k] == []
    ensures NoRoom(m, TopOf(size), n)
  {
    forall r: nat, k: nat | Aligned(r, k) && r + Pow2(k) <= TopOf(size) && Pow2(k) >= n + HEADER_SIZE
      ensures !FreeRange(m, r, k)
    {
      if FreeRange(m, r, k) {
        var b := FreeRangeInBlock(m, TopOf(size), r, k);
        FreeBlockListed(size, lists, headers, m, b);
      }
    }
  }

  lemma {:induction false} FreeBlockListed(size: nat, lists: seq<seq<nat>>, headers: map<nat, Header>, m: Blocks,
                                           b: nat)
    requires WellFormed(size, lists, headers, m) && b in m && m[b].free
    ensures m[b].order < |lists| && b in lists[m[b].order]
  {
  }

  lemma {:induction false} SplitUsed(m0: Blocks, m: Blocks, b: nat, b0: seq<int>, was: seq<int>, now: seq<int>)
    requires SameUsed(m0, m) && b in m && m[b].free && m[b].order > 0 && b + Pow2(m[b].order - 1) !in m
    requires Kept(m0, b0, was) && Kept(m, was, now)
    ensures SameUsed(m0, Split(m, b)) && Kept(m0, b0, now)
  {
    SameLive(m0, m);
  }

  /** Any block that meets a part of the free block `d` is `d`. */
  lemma {:induction false} InsideFree(m: Blocks, top: nat, d: nat, b: nat, o: nat)
    requires Tiled(m, top) && d in m && m[d].free && d <= b && b + Pow2(o) <= End(m, d)
    ensures FreeRange(m, b, o)
  {
  }

  lemma {:induction false} HeadMember(s: seq<nat>)
    requires s != []
    ensures s[0] in s && {s[0]} <= Members(s)
  {
  }

  lemma {:induction false} TakenIsCoalesced(m: Blocks, b: nat)
    requires CoalescedBut(m, b)
    ensures b in m && Coalesced(Taken(m, b))
  {
  }

  lemma {:induction false} KeptLength(m: Blocks, was: seq<int>, now: seq<int>)
    requires Kept(m, was, now)
    ensures |now| == |was|
  {
  }

  /** What the head of a free list is. */
  lemma {:induction false} HeadOfList(size: nat, lists: seq<seq<nat>>, headers: map<nat, Header>, m: Blocks, i: nat)
    requires WellFormed(size, lists, headers, m) && i < ARENA_ORDERS && i < |lists| && lists[i] != []
    ensures |lists| == ARENA_ORDERS && Tiled(m, TopOf(size)) && Apart(m)
    ensures lists[i][0] in m && m[lists[i][0]] == Header(i, true)
    ensures lists[i][0] in headers && headers[lists[i][0]] == Header(i, true)
  {
    assert lists[i][0] in lists[i];
  }

  lemma {:induction false} ListCount(size: nat, lists: seq<seq<nat>>, headers: map<nat, Header>, m: Blocks)
    requires WellFormed(size, lists, headers, m)
    ensures |lists| == ARENA_ORDERS && Tiled(m, TopOf(size)) && size < Pow2(31)
  {
  }

  /** Where the narrowing starts, and where it leads. */
  lemma {:induction false} NarrowedStart(size: nat, lists: seq<seq<nat>>, headers: map<nat, Header>, m: Blocks, i: nat,
                                         s: seq<int>)
    requires WellFormed(size, lists, headers, m) && Coalesced(m) && i < ARENA_ORDERS && i < |lists| && lists[i] != []
    ensures Narrowed(m, s, lists[i][0], m, s, lists, i, lists[i][0])
  {
    HeadOfList(size, lists, headers, m, i);
    TakenCoalesced(m, lists[i][0]);
  }

  lemma {:induction false} NarrowedEnd(m0: Blocks, top: nat, b0: seq<int>, d: nat, m: Blocks, now: seq<int>,
                                       lists: seq<seq<nat>>,
                                       i: nat, b: nat)
    requires Tiled(m0, top) && Narrowed(m0, b0, d, m, now, lists, i, b)
    ensures i < |lists| && lists[i] != [] && lists[i][0] == b && CoalescedBut(m, b) && FreeRange(m0, b, i)
    ensures SameUsed(m0, m) && Kept(m0, b0, now)
    ensures d in m0 && d <= b && b + Pow2(i) == End(m0, d) && Pieces(m0, m, d, i)
  {
    hide Tiled, FreeRange, CoalescedBut, SameUsed, Kept, Pieces;
    InsideFree(m0, top, d, b, i);
  }

  /** One split on the way down. */
  lemma {:induction false} NarrowedStep(m0: Blocks, b0: seq<int>, d: nat, m: Blocks, was: seq<int>,
                                        lists: seq<seq<nat>>, i: nat, b: nat,
                                        m': Blocks, now: seq<int>, lists': seq<seq<nat>>, k: nat)
    requires Narrowed(m0, b0, d, m, was, lists, i, b) && k + 1 == i && b in m && m[b] == Header(i, true)
    requires b + Pow2(k) !in m
    requires m' == Split(m, b) && Kept(m, was, now) && CoalescedBut(m', b + Pow2(k))
    requires k < |lists'| && lists'[k] != [] && lists'[k][0] == b + Pow2(k)
    ensures Narrowed(m0, b0, d, m', now, lists', k, b + Pow2(k))
  {
    hide CoalescedBut, Kept, Split, Pieces;
    SplitUsed(m0, m, b, b0, was, now);
    PiecesSplit(m0, m, d, b, i, k);
    assert Pow2(i) == 2 * Pow2(k);
  }

  /** On the way down from the free block `d` to a block of the right order: `b`
      heads the list of order `i` and lies inside `d`. */
  ghost predicate Narrowed(m0: Blocks, b0: seq<int>, d: nat, m: Blocks, now: seq<int>, lists: seq<seq<nat>>, i: nat,
                           b: nat)
  {
    true == (
      && i < |lists| && lists[i] != [] && lists[i][0] == b && CoalescedBut(m, b)
      && SameUsed(m0, m) && Kept(m0, b0, now)
      && d in m0 && m0[d].free && d <= b && b + Pow2(i) == End(m0, d) && Pieces(m0, m, d, i))
  }

  /** Of block `d` the last part of order `i` is still in one piece. Before it stand the halves
      that have been split off, one of each order up to that of `d`; nothing outside `d` has
      changed. */
  ghost predicate Pieces(m0: Blocks, m: Blocks, d: nat, i: nat) {
    && d in m0 && i <= m0[d].order
    && (forall k: nat :: i <= k < m0[d].order ==> Piece(m, End(m0, d), k))
    && (forall x :: x < d || x >= End(m0, d) ==> (x in m <==> x in m0) && (x in m ==> m[x] == m0[x]))
  }

  /** A free block of order `k` that ends where the last one of that order begins. */
  ghost predicate Piece(m: Blocks, end: nat, k: nat) {
    var x := end - Pow2(k + 1);
    x in m && m[x] == Header(k, true)
  }

  lemma {:induction false} PiecesSplit(m0: Blocks, m: Blocks, d: nat, b: nat, i: nat, k: nat)
    requires Pieces(m0, m, d, i) && k + 1 == i && d <= b && b + Pow2(i) == End(m0, d)
    requires b in m && m[b] == Header(i, true)
    ensures Pieces(m0, Split(m, b), d, k)
  {
    assert Pow2(i) == 2 * Pow2(k);
    var m' := Split(m, b);
    forall j: nat | k <= j < m0[d].order ensures Piece(m', End(m0, d), j) {
      if j > k {
        assert Piece(m, End(m0, d), j);
        Pow2Monotone(i + 1, j + 1);
      }
    }
  }

  /** A free block that is large enough, and no larger than any other that is. */
  ghost predicate BestFit(m: Blocks, o: nat, d: nat) {
    && d in m && m[d].free && m[d].order >= o
    && forall x :: x in m && m[x].free && m[x].order >= o ==> m[x].order >= m[d].order
  }

  /** Block `b` of order `o` is the last part of `d`, the block at the head of the first list
      that has one large enough; the rest of `d` is free, in halves. */
  ghost predicate CarvedFrom(m0: Blocks, lists: seq<seq<nat>>, m: Blocks, d: nat, b: nat) {
    true == (
      && b in m && BestFit(m0, m[b].order, d) && Pieces(m0, m, d, m[b].order) && b + Pow2(m[b].order) == End(m0, d)
      && m0[d].order < |lists| && lists[m0[d].order] != [] && lists[m0[d].order][0] == d)
  }

  ghost predicate BestCarved(m0: Blocks, lists: seq<seq<nat>>, m: Blocks, b: nat) {
    exists d :: CarvedFrom(m0, lists, m, d, b)
  }

  /** A free block of the very order is granted as it is, the head of its list. */
  lemma {:induction false} ExactFit(m0: Blocks, lists: seq<seq<nat>>, m: Blocks, b: nat, o: nat)
    requires Listed(lists, m0) && BestCarved(m0, lists, m, b) && m[b] == Header(o, false) && o < ARENA_ORDERS
    requires lists[o] != []
    ensures b == lists[o][0]
  {
    var d :| CarvedFrom(m0, lists, m, d, b);
    assert lists[o][0] in lists[o] && m0[lists[o][0]] == Header(o, true);
  }

  /** The first list that is not empty holds the best fit. */
  lemma {:induction false} FirstIsBest(lists: seq<seq<nat>>, m: Blocks, o: nat, i: nat)
    requires Listed(lists, m) && o <= i < |lists| && lists[i] != [] && forall k :: o <= k < i ==> lists[k] == []
    requires forall x :: x in m ==> m[x].order < ARENA_ORDERS
    ensures BestFit(m, o, lists[i][0]) && m[lists[i][0]].order == i
  {
    var d := lists[i][0];
    assert d in lists[i];
    forall x | x in m && m[x].free && m[x].order >= o ensures m[x].order >= i {
      assert m[x] == Header(m[x].order, true);
      assert x in lists[m[x].order];
    }
  }

  lemma {:induction false} TakenPieces(m0: Blocks, m: Blocks, d: nat, b: nat, o: nat)
    requires Pieces(m0, m, d, o) && d <= b && b in m && b + Pow2(o) == End(m0, d)
    ensures Pieces(m0, Taken(m, b), d, o)
  {
    forall k: nat | o <= k < m0[d].order ensures Piece(Taken(m, b), End(m0, d), k) {
      assert Piece(m, End(m0, d), k);
      Pow2Monotone(o, k);
      assert Pow2(k + 1) == 2 * Pow2(k);
    }
  }

  /** The allocated blocks. */
  ghost function Used(m: Blocks): Blocks { map b | b in m && !m[b].free :: m[b] }

  lemma {:induction false} SameUsedMap(m: Blocks, m': Blocks)
    requires SameUsed(m, m')
    ensures Used(m) == Used(m')
  {
  }

  /** What an allocation of `n` bytes gives: the block `b` of least order that
      holds them, out of memory that was free. */
  ghost predicate Granted(m0: Blocks, m: Blocks, n: nat, b: nat)
  {
    true == (
      && b in m && FreeRange(m0, b, m[b].order) && b !in Used(m0) && Used(m) == Used(m0)[b := m[b]]
      && Pow2(m[b].order) >= n + HEADER_SIZE
      && (forall k: nat :: k < m[b].order ==> Pow2(k) < n + HEADER_SIZE))
  }

  /** Allocation succeeds only where there is room. */
  lemma {:induction false} GrantedRoom(m0: Blocks, m: Blocks, top: nat, n: nat, b: nat)
    requires Tiled(m, top) && Granted(m0, m, n, b)
    ensures !NoRoom(m0, top, n)
  {
    var k := m[b].order;
    assert Aligned(b, k) && b + Pow2(k) <= top;
  }

  /** Allocated blocks do not overlap. */
  lemma {:induction false} AllocatedApart(size: nat, lists: seq<seq<nat>>, headers: map<nat, Header>, m: Blocks, b: nat,
                                          c: nat)
    requires WellFormed(size, lists, headers, m) && b in Used(m) && c in Used(m) && b != c
    ensures End(m, b) <= c || End(m, c) <= b
    ensures b + HEADER_SIZE < End(m, b) <= size
  {
    assert Fitting(m, TopOf(size)) && Apart(m);
    Pow2Monotone(MIN_ORDER, m[b].order);
    assert Pow2(MIN_ORDER) == 32;
  }

  lemma {:induction false} TakeKept(size: nat, lists: seq<seq<nat>>, headers: map<nat, Header>, m: Blocks, o: nat,
                                    b: nat,
                                    was: seq<int>, now: seq<int>)
    requires WellFormed(size, lists, headers, m) && o < ARENA_ORDERS && b in lists[o]
    requires KeptOutside(Members(lists[o]), was, now)
    ensures Kept(m, was, now)
  {
    HeadersNotLive(m, TopOf(size), Members(lists[o]), was, now);
  }

  lemma {:induction false} TakeUsed(m0: Blocks, m: Blocks, b: nat, n: nat, o: nat)
    requires SameUsed(m0, m) && b in m && m[b] == Header(o, true) && FreeRange(m0, b, o) && Pow2(o) >= n + HEADER_SIZE
    requires forall k: nat :: k < o ==> Pow2(k) < n + HEADER_SIZE
    ensures Granted(m0, Taken(m, b), n, b)
  {
    assert b !in Used(m0);
    assert Used(Taken(m, b)) == Used(m0)[b := Header(o, false)];
  }

  lemma {:induction false} KeptSame(m0: Blocks, m: Blocks, b0: seq<int>, was: seq<int>, now: seq<int>)
    requires SameUsed(m0, m) && Kept(m0, b0, was) && Kept(m, was, now)
    ensures Kept(m0, b0, now)
  {
    SameLive(m0, m);
  }

  // ---------------------------------------------------------------- freeing

  /** The tail left after carving is long enough for a header, and what memory
      holds there reads as a free block of the order whose blocks end at the top. */
  ghost predicate TailOpen(size: nat, stale: nat -> Header) {
    var t := TopOf(size);
    var o := stale(t).order;
    t + HEADER_SIZE <= size && stale(t).free && Aligned(t, o) && !Aligned(t, o + 1)
  }

  /** Freeing `x` joins everything below an open tail into one block. */
  ghost predicate TailHazard(size: nat, stale: nat -> Header, m: Blocks, x: nat)
  {
    true == (
      && TailOpen(size, stale) && TopOf(size) <= x + Pow2(stale(TopOf(size)).order)
      && forall d :: d in m && !m[d].free && d != x ==> End(m, d) + Pow2(stale(TopOf(size)).order) <= TopOf(size))
  }

  /** The buddy that is looked at for the free block `b` is the open tail. */
  ghost predicate TailHit(size: nat, stale: nat -> Header, m: Blocks, b: nat) {
    && b in m && Aligned(b, m[b].order + 1) && End(m, b) == TopOf(size)
    && TopOf(size) + HEADER_SIZE <= size && stale(TopOf(size)) == Header(m[b].order, true)
  }

  lemma {:induction false} LastAligned(q: nat, t: nat, o: nat)
    requires t == q + Pow2(o)
    ensures Aligned(q, o + 1) <==> Aligned(t, o) && !Aligned(t, o + 1)
  {
    var m := Pow2(o);
    assert Pow2(o + 1) == 2 * m;
    if Aligned(q, o + 1) {
      AlignedWeaker(q, o, o + 1);
      ModMultiple(1, m);
      MultipleSum(q, m, m);
      DivModUnique(t, 2 * m, q / (2 * m), m);
    }
    if Aligned(t, o) {
      HalfMultiple(t, m);
    }
  }

  /** While `b`, which has grown from the freed block `x`, is being joined:
      nothing else changes hands. */
  ghost predicate Growing(m0: Blocks, b0: seq<int>, x: nat, m: Blocks, now: seq<int>, b: nat, o: nat)
  {
    true == (
      && b in m && m[b] == Header(o, true) && CoalescedBut(m, b) && b <= x < b + Pow2(o)
      && SameUsed(m0, m) && Kept(m0, b0, now))
  }

  lemma {:induction false} HitIsHazard(size: nat, stale: nat -> Header, m: Blocks, b: nat, used: Blocks, x: nat)
    requires Tiled(m, TopOf(size)) && b in m && m[b].free && Covers(m, b, x) && TailHit(size, stale, m, b)
    requires forall d :: d in used && !used[d].free && d != x ==> d in m && m[d] == used[d]
    ensures TailHazard(size, stale, used, x)
  {
    var t := TopOf(size);
    LastAligned(b, t, m[b].order);
    forall d | d in used && !used[d].free && d != x ensures End(used, d) + Pow2(stale(t).order) <= t {
      assert d in m && End(m, d) == End(used, d) && End(m, d) <= t;
      assert d != b && (d < b ==> End(m, d) <= b);
    }
  }

  lemma {:induction false} HazardIsHit(size: nat, stale: nat -> Header, m: Blocks, b: nat, used: Blocks, x: nat)
    requires Tiled(m, TopOf(size)) && Coalesced(m) && Covers(m, b, x) && TailHazard(size, stale, used, x)
    requires x < TopOf(size) && forall d :: d in m && !m[d].free ==> d != x && d in used && used[d] == m[d]
    ensures TailHit(size, stale, m, b)
  {
    var t := TopOf(size);
    var o := stale(t).order;
    MultiplesApart(0, t, Pow2(o));
    var q: nat := t - Pow2(o);
    LastAligned(q, t, o);
    AlignedWeaker(q, o, o + 1);
    FreeAbove(m, used, x, q, o, t);
    var c := FreeRangeInBlock(m, t, q, o);
    TopBlock(m, t, q, o, c);
    OneCover(m, t, b, c, x);
  }

  lemma {:induction false} FreeAbove(m: Blocks, used: Blocks, x: nat, q: nat, o: nat, t: nat)
    requires t == q + Pow2(o) && forall d :: d in used && !used[d].free && d != x ==> End(used, d) <= q
    requires forall d :: d in m && !m[d].free ==> d != x && d in used && used[d] == m[d]
    ensures FreeRange(m, q, o)
  {
  }

  lemma {:induction false} TopBlock(m: Blocks, t: nat, q: nat, o: nat, c: nat)
    requires Tiled(m, t) && t == q + Pow2(o) && Aligned(q, o + 1) && Aligned(q, o) && Covers(m, c, q) && m[c].order >= o
    ensures c == q && m[c].order == o
  {
    assert Pow2(o + 1) == 2 * Pow2(o);
    if m[c].order > o {
      Nested(q, o + 1, c, m[c].order, q);
    } else {
      Nested(q, o, c, o, q);
    }
  }

  lemma {:induction false} JoinUsed(m0: Blocks, m: Blocks, q: nat, o: nat, b0: seq<int>, was: seq<int>, now: seq<int>)
    requires SameUsed(m0, m) && q in m && m[q].free && q + Pow2(o) in m && m[q + Pow2(o)].free
    requires Kept(m0, b0, was) && Kept(m, was, now)
    ensures SameUsed(m0, Joined(m, q, o)) && Kept(m0, b0, now)
  {
    SameLive(m0, m);
  }

  lemma {:induction false} JoinGrown(m: Blocks, q: nat, o: nat)
    ensures q in Joined(m, q, o) && Joined(m, q, o)[q] == Header(o + 1, true) && Pow2(o + 1) == 2 * Pow2(o)
  {
  }

  lemma {:induction false} GiveKept(size: nat, lists: seq<seq<nat>>, headers: map<nat, Header>, m: Blocks, o: nat,
                                    b: nat,
                                    was: seq<int>, now: seq<int>)
    requires WellFormed(size, lists, headers, m) && o < ARENA_ORDERS && b in m && m[b].free
    requires KeptOutside(Members(lists[o]) + {b}, was, now)
    ensures Kept(m, was, now)
  {
    var offs := Members(lists[o]) + {b};
    forall x | x in offs ensures x in m && m[x].free {
      assert x != b ==> x in lists[o];
    }
    HeadersNotLive(m, TopOf(size), offs, was, now);
  }

  lemma {:induction false} GiveUsed(m: Blocks, m': Blocks, x: nat, o: nat)
    requires x in m && m[x] == Header(o, false) && SameUsed(m[x := Header(o, true)], m')
    ensures Used(m') == Used(m) - {x}
    ensures forall d :: d in m && !m[d].free && d != x ==> d in m' && m'[d] == m[d]
    ensures forall d :: d in m' && !m'[d].free ==> d != x && d in m && m[d] == m'[d]
  {
    var g := m[x := Header(o, true)];
    SameUsedMap(g, m');
    assert Used(g) == Used(m) - {x};
    forall d | d in m' && !m'[d].free ensures d != x && d in m && m[d] == m'[d] {
      assert d in g && g[d] == m'[d];
    }
    forall d | d in m && !m[d].free && d != x ensures d in m' && m'[d] == m[d] {
      assert d in g && g[d] == m[d];
    }
  }

  lemma {:induction false} FreePairSeen(size: nat, lists: seq<seq<nat>>, headers: map<nat, Header>, m: Blocks, b: nat,
                                        c: nat)
    requires WellFormed(size, lists, headers, m) && FreePair(m, b) && c == Buddy(b, m[b].order)
    ensures c + HEADER_SIZE <= size && c in headers && headers[c] == Header(m[b].order, true)
  {
    Pow2Monotone(MIN_ORDER, m[c].order);
    assert Pow2(MIN_ORDER) == 32 && End(m, c) <= TopOf(size);
  }

  /** When the loop leaves normally, the block cannot be joined. */
  lemma {:induction false} NotFreePair(size: nat, lists: seq<seq<nat>>, headers: map<nat, Header>, m: Blocks, b: nat,
                                       c: nat,
                                       stale: nat -> Header)
    requires WellFormed(size, lists, headers, m) && b in m && Aligned(b, m[b].order) && c == Buddy(b, m[b].order)
    requires c + HEADER_SIZE > size || (if c in headers then headers[c] else stale(c)) != Header(m[b].order, true)
    ensures !FreePair(m, b) && !TailHit(size, stale, m, b)
  {
    if FreePair(m, b) {
      FreePairSeen(size, lists, headers, m, b, c);
    }
  }

  lemma {:induction false} KeptUsed(m: Blocks, was: seq<int>, now: seq<int>)
    ensures Kept(m, was, now) <==> Kept(Used(m), was, now)
  {
    SameLive(m, Used(m));
  }

  /** The joining is over: what has been freed, and whether it ran into the tail. */
  lemma {:induction false} FreeDone(size: nat, stale: nat -> Header, m0: Blocks, b0: seq<int>, x: nat, o: nat,
                                    m: Blocks, now: seq<int>, b: nat, k: nat, ok: bool)
    requires x in m0 && m0[x] == Header(o, false) && Tiled(m0, TopOf(size)) && Tiled(m, TopOf(size))
    requires Growing(m0[x := Header(o, true)], b0, x, m, now, b, k)
    requires if ok then Coalesced(m) && !TailHit(size, stale, m, b) else TailHit(size, stale, m, b)
    ensures ok <==> !TailHazard(size, stale, m0, x)
    ensures Used(m) == Used(m0) - {x} && Kept(Used(m), b0, now)
  {
    GiveUsed(m0, m, x, o);
    SameLive(m0[x := Header(o, true)], m);
    KeptUsed(m, b0, now);
    assert x < TopOf(size) by { assert End(m0, x) <= TopOf(size); }
    if ok {
      if TailHazard(size, stale, m0, x) {
        HazardIsHit(size, stale, m, b, m0, x);
      }
    } else {
      HitIsHazard(size, stale, m, b, m0, x);
    }
  }

  /** A tail too short for a header is never taken for a block. */
  lemma {:induction false} ShortTail(size: nat, stale: nat -> Header, m: Blocks, x: nat)
    ensures size % 32 < HEADER_SIZE ==> !TailOpen(size, stale)
    ensures !TailOpen(size, stale) ==> !TailHazard(size, stale, m, x)
  {
  }

  /** 56 bytes hold one block of 32 and a tail of 24, which memory may present as
      another free block of order 5: freeing the block then joins it with the tail. */
  lemma {:induction false} TailHazardExample()
    ensures Initial(56) == map[0 := Header(5, true)]
    ensures TailHazard(56, _ => Header(5, true), Taken(Initial(56), 0), 0)
  {
    assert Pow2(5) == 32 && Pow2(6) == 64 && TopOf(56) == 32;
    assert Carving(32, 24, 4) == map[];
    assert Carving(32, 24, 5) == map[];
    assert Carving(0, 56, 5) == map[0 := Header(5, true)];
    BigOrders(5, 31);
    assert Aligned(32, 5) && !Aligned(32, 6);
    assert End(Taken(Initial(56), 0), 0) == 32;
  }

  lemma {:induction false} BigOrders(o: nat, k: nat)
    requires 5 <= o <= k && Pow2(5) == 32 && Pow2(6) == 64
    ensures Carving(0, 56, k) == Carving(0, 56, 5)
    decreases k
  {
    if k > 5 {
      Pow2Monotone(6, k);
      BigOrders(5, k - 1);
    }
  }

  // ---------------------------------------------------------- reallocation

  lemma {:induction false} KeptSub(m: Blocks, m': Blocks, was: seq<int>, now: seq<int>)
    requires Kept(m', was, now) && forall b :: b in m ==> b in m' && m[b] == m'[b]
    ensures Kept(m, was, now)
  {
    forall x | 0 <= x < |now| && Live(m, x) ensures Live(m', x) {
      var b :| b in m && !m[b].free && b + HEADER_SIZE <= x < End(m, b);
      assert b in m' && End(m', b) == End(m, b);
    }
  }

  /** The `k` bytes from `src` in `was` are those from `dst` in `now`. */
  ghost predicate Copied(was: seq<int>, src: nat, now: seq<int>, dst: nat, k: nat) {
    src + k <= |was| && dst + k <= |now| && was[src..src + k] == now[dst..dst + k]
  }

  /** Writing into the payload of `b` leaves all other payloads alone. */
  lemma {:induction false} CopyKept(m: Blocks, top: nat, b: nat, k: nat, was: seq<int>, now: seq<int>)
    requires Tiled(m, top) && b in m && !m[b].free && b + HEADER_SIZE + k <= End(m, b)
    requires |was| == |now|
    requires forall x :: 0 <= x < |was| && !(b + HEADER_SIZE <= x < b + HEADER_SIZE + k) ==> now[x] == was[x]
    ensures Kept(Used(m) - {b}, was, now)
  {
    forall x | 0 <= x < |now| && Live(Used(m) - {b}, x) ensures now[x] == was[x] {
      var d :| d in Used(m) - {b} && !(Used(m) - {b})[d].free && d + HEADER_SIZE <= x < End(Used(m) - {b}, d);
      assert d in m && d != b && End(m, d) == End(Used(m) - {b}, d);
      assert d < b || b < d;
    }
  }

  /** A kept payload keeps its bytes. */
  lemma {:induction false} PayloadKept(m: Blocks, b: nat, k: nat, was: seq<int>, now: seq<int>)
    requires Kept(m, was, now) && b in m && !m[b].free && b + HEADER_SIZE + k <= End(m, b) <= |was|
    ensures Copied(was, b + HEADER_SIZE, now, b + HEADER_SIZE, k)
  {
    var s := b + HEADER_SIZE;
    forall i | s <= i < s + k ensures was[i] == now[i] {
      assert Live(m, i);
    }
    assert was[s..s + k] == now[s..s + k];
  }

  /** `n` bytes and a header fit into block `b`. */
  ghost predicate Fits(m: Blocks, b: nat, n: nat) {
    true == (b in m && !m[b].free && Pow2(m[b].order) >= n + HEADER_SIZE)
  }

  lemma {:induction false} MoveStart(m0: Blocks, m: Blocks, n: nat, b: nat, c: nat)
    requires Granted(m0, m, n, c) && b in Used(m0)
    ensures c in m && !m[c].free && c !in Used(m0) && Used(m) == Used(m0)[c := m[c]]
    ensures Pow2(m[c].order) >= n + HEADER_SIZE
    ensures b != c && b in Used(m) && Used(m)[b] == m0[b]
  {
    assert c in Used(m);
  }

  lemma {:induction false} MoveEnd(m0: Blocks, m: Blocks, b: nat, c: nat, h: Header, n: nat, was: seq<int>,
                                   now: seq<int>)
    requires b in Used(m0) && c !in Used(m0) && !h.free && Pow2(h.order) >= n + HEADER_SIZE
    requires Used(m) == (Used(m0) - {b})[c := h] && Kept(Used(m0) - {b}, was, now)
    requires Copied(was, b + HEADER_SIZE, now, c + HEADER_SIZE, CopySize(m0[b].order, n))
    ensures Fits(m, c, n) && Moved(m0, m, b, c, n, was, now) && c in m && m[c] == h
  {
    assert c in Used(m) && Used(m)[c] == h;
  }

  /** Other payloads through a move from `b` to the new block `c`. */
  lemma {:induction false} MoveRest(u0: Blocks, u1: Blocks, u2: Blocks, b: nat, c: nat, h: Header,
                                    s0: seq<int>, s1: seq<int>, s2: seq<int>, s3: seq<int>)
    requires c !in u0 && b in u0 && u1 == u0[c := h] && u2 == u1 - {b}
    requires Kept(u0, s0, s1) && Kept(u1 - {c}, s1, s2) && Kept(u2, s2, s3)
    ensures u2 == (u0 - {b})[c := h] && Kept(u0 - {b}, s0, s3)
  {
    var rest := u0 - {b};
    KeptSub(rest, u0, s0, s1);
    KeptSub(rest, u1 - {c}, s1, s2);
    KeptSub(rest, u2, s2, s3);
  }

  lemma {:induction false} MoveAll(u0: Blocks, u1: Blocks, u2: Blocks, b: nat, c: nat, h: Header, k: nat,
                                   s0: seq<int>, s1: seq<int>, s2: seq<int>, s3: seq<int>)
    requires c !in u0 && b in u0 && !u0[b].free && !h.free && u1 == u0[c := h] && u2 == u1 - {b}
    requires Kept(u0, s0, s1) && Kept(u1 - {c}, s1, s2) && Kept(u2, s2, s3)
    requires Copied(s1, b + HEADER_SIZE, s2, c + HEADER_SIZE, k)
    requires b + HEADER_SIZE + k <= End(u0, b) <= |s0| && c + HEADER_SIZE + k <= c + Pow2(h.order) <= |s0|
    ensures u2 == (u0 - {b})[c := h] && Kept(u0 - {b}, s0, s3) && Copied(s0, b + HEADER_SIZE, s3, c + HEADER_SIZE, k)
  {
    MoveRest(u0, u1, u2, b, c, h, s0, s1, s2, s3);
    MoveContents(u0, u2, b, c, k, s0, s1, s2, s3);
  }

  /** The contents of the old block through a move from `b` to the new block `c`. */
  lemma {:induction false} MoveContents(u0: Blocks, u2: Blocks, b: nat, c: nat, k: nat,
                                        s0: seq<int>, s1: seq<int>, s2: seq<int>, s3: seq<int>)
    requires b in u0 && !u0[b].free && b + HEADER_SIZE + k <= End(u0, b) <= |s0|
    requires c in u2 && !u2[c].free && c + HEADER_SIZE + k <= End(u2, c) <= |s2|
    requires Kept(u0, s0, s1) && Kept(u2, s2, s3) && Copied(s1, b + HEADER_SIZE, s2, c + HEADER_SIZE, k)
    ensures Copied(s0, b + HEADER_SIZE, s3, c + HEADER_SIZE, k)
  {
    PayloadKept(u0, b, k, s0, s1);
    PayloadKept(u2, c, k, s2, s3);
  }

  /** The block of a reallocation moved from `b` to `c`, or stayed: no other block
      changed hands, other payloads and the common prefix kept their contents. */
  ghost predicate Moved(m0: Blocks, m: Blocks, b: nat, c: nat, n: nat, was: seq<int>, now: seq<int>)
  {
    true == (
      && b in m0 && c in m && (c == b || c !in Used(m0)) && Used(m) == (Used(m0) - {b})[c := m[c]]
      && (c == b ==> now == was)
      && Kept(Used(m0) - {b}, was, now)
      && Copied(was, b + HEADER_SIZE, now, c + HEADER_SIZE, CopySize(m0[b].order, n)))
  }

  /** The smaller of the old payload and the new size. */
  function CopySize(order: nat, n: nat): nat {
    if Pow2(order) < HEADER_SIZE then 0 else if Pow2(order) - HEADER_SIZE > n then n else Pow2(order) - HEADER_SIZE
  }

  /** A block of this order is kept for `n` bytes: it has the order they need, or one more. */
  predicate StaysInPlace(order: nat, n: nat) {
    Pow2(order) >= n + HEADER_SIZE && (order >= 2 ==> Pow2(order - 2) < n + HEADER_SIZE)
  }

  lemma {:induction false} PlaceTest(order: nat, n: nat, o: nat)
    requires o >= MIN_ORDER && Pow2(o) >= n + HEADER_SIZE && forall k: nat :: k < o ==> Pow2(k) < n + HEADER_SIZE
    ensures StaysInPlace(order, n) <==> order == o || order == o + 1
  {
    if order > o + 1 {
      Pow2Monotone(o, order - 2);
    } else if order > o {
      Pow2Monotone(o, order);
    }
  }

  lemma {:induction false} TooLarge(m: Blocks, top: nat, b: nat, n: nat)
    requires Tiled(m, top) && b in m && forall k: nat :: k < ARENA_ORDERS ==> Pow2(k) < n + HEADER_SIZE
    ensures !StaysInPlace(m[b].order, n)
  {
    assert Fitting(m, top);
  }

  /** The hazard depends on the allocated blocks only. */
  lemma {:induction false} HazardOfUsed(size: nat, stale: nat -> Header, m: Blocks, x: nat)
    ensures TailHazard(size, stale, m, x) <==> TailHazard(size, stale, Used(m), x)
  {
    var t := TopOf(size);
    forall d | d in Used(m) ensures End(Used(m), d) == End(m, d) {
    }
  }

  lemma {:induction false} OrderRoom(m: Blocks, top: nat, b: nat)
    requires Tiled(m, top) && b in m
    ensures Pow2(m[b].order) >= 32 && End(m, b) <= top
  {
    Pow2Monotone(MIN_ORDER, m[b].order);
    assert Pow2(MIN_ORDER) == 32;
  }

  lemma {:induction false} InPlace(m: Blocks, top: nat, b: nat, n: nat, o: nat, s: seq<int>)
    requires Tiled(m, top) && top <= |s| && b in Used(m) && (m[b].order == o || o + 1 == m[b].order)
    requires Pow2(o) >= n + HEADER_SIZE
    ensures Fits(m, b, n) && Moved(m, m, b, b, n, s, s)
  {
    OrderRoom(m, top, b);
    Pow2Monotone(o, m[b].order);
    assert Used(m) == (Used(m) - {b})[b := m[b]];
  }

  // ---------------------------------------------------------------- counting

  /** Byte `x` is in the payload of the free block `b`. */
  ghost predicate FreeByteIn(m: Blocks, b: nat, x: int) { b in m && m[b].free && b + HEADER_SIZE <= x < End(m, b) }

  /** Byte `x` is in the payload of a free block of order below `i`. */
  ghost predicate FreeByte(m: Blocks, x: int, i: nat) { exists b :: FreeByteIn(m, b, x) && m[b].order < i }

  ghost predicate ByteOf(m: Blocks, s: seq<nat>, x: int) { exists b :: b in s && FreeByteIn(m, b, x) }

  ghost function FreeBytes(m: Blocks, top: nat, i: nat): set<int> { set x: int | 0 <= x < top && FreeByte(m, x, i) }

  ghost function BytesOf(m: Blocks, top: nat, s: seq<nat>): set<int> { set x: int | 0 <= x < top && ByteOf(m, s, x) }

  predicate Between(lo: int, x: int, hi: int) { lo <= x < hi }

  function Interval(lo: int, hi: int): set<int> { set x: int | lo <= x < hi && Between(lo, x, hi) }

  lemma {:induction false} IntervalSize(lo: int, hi: int)
    requires lo <= hi
    ensures |Interval(lo, hi)| == hi - lo
    decreases hi - lo
  {
    if lo < hi {
      IntervalSize(lo, hi - 1);
      assert Interval(lo, hi) == Interval(lo, hi - 1) + {hi - 1};
    }
  }

  lemma {:induction false} UnionSize<T>(a: set<T>, b: set<T>)
    requires a !! b
    ensures |a + b| == |a| + |b|
  {
  }

  /** Distinct free blocks of order `o`. */
  ghost predicate ListOf(m: Blocks, s: seq<nat>, o: nat)
  {
    true == (Once(s) && forall b :: b in s ==> b in m && m[b] == Header(o, true))
  }

  lemma {:induction false} RestOf(m: Blocks, s: seq<nat>, o: nat)
    requires ListOf(m, s, o) && s != []
    ensures s[0] !in s[1..] && s[0] in m && m[s[0]] == Header(o, true) && ListOf(m, s[1..], o)
  {
    assert s[0] in s;
  }

  lemma {:induction false} EmptyBytes(m: Blocks, top: nat)
    ensures BytesOf(m, top, []) == {}
  {
  }

  lemma {:induction false} NextMultiple(k: nat, w: int)
    ensures (k + 1) * w == k * w + w
  {
  }

  lemma {:induction false} ListSize(m: Blocks, top: nat, s: seq<nat>, o: nat)
    requires Tiled(m, top) && ListOf(m, s, o)
    ensures |BytesOf(m, top, s)| == |s| * (Pow2(o) - HEADER_SIZE)
  {
    hide *;
    if s == [] {
      EmptyBytes(m, top);
    } else {
      RestOf(m, s, o);
      ListSize(m, top, s[1..], o);
      HeadSize(m, top, s, o);
      NextMultiple(|s| - 1, Pow2(o) - HEADER_SIZE);
    }
  }

  lemma {:induction false} HeadSize(m: Blocks, top: nat, s: seq<nat>, o: nat)
    requires Tiled(m, top) && s != [] && s[0] !in s[1..] && s[0] in m && m[s[0]] == Header(o, true)
    ensures |BytesOf(m, top, s)| == |BytesOf(m, top, s[1..])| + (Pow2(o) - HEADER_SIZE)
  {
    hide Tiled, BytesOf, Interval;
    var lo, hi := s[0] + HEADER_SIZE, End(m, s[0]);
    HeadBytes(m, top, s, Interval(lo, hi));
    OrderRoom(m, top, s[0]);
    IntervalSize(lo, hi);
    UnionSize(BytesOf(m, top, s[1..]), Interval(lo, hi));
  }

  lemma {:induction false} HeadBytes(m: Blocks, top: nat, s: seq<nat>, mine: set<int>)
    requires Tiled(m, top) && s != [] && s[0] !in s[1..] && s[0] in m && m[s[0]].free
    requires mine == Interval(s[0] + HEADER_SIZE, End(m, s[0]))
    ensures BytesOf(m, top, s) == BytesOf(m, top, s[1..]) + mine && BytesOf(m, top, s[1..]) !! mine
  {
    var b, rest := s[0], s[1..];
    assert End(m, b) <= top;
    forall x | 0 <= x < top ensures ByteOf(m, s, x) <==> ByteOf(m, rest, x) || x in mine {
      assert s == [b] + rest;
      if ByteOf(m, s, x) {
        var d :| d in s && FreeByteIn(m, d, x);
        assert d == b || d in rest;
      }
      if x in mine {
        assert FreeByteIn(m, b, x);
      }
      if ByteOf(m, rest, x) {
        var d :| d in rest && FreeByteIn(m, d, x);
        assert d in s;
      }
    }
    forall x | 0 <= x < top && ByteOf(m, rest, x) ensures x !in mine {
      var d :| d in rest && FreeByteIn(m, d, x);
      assert d < b || b < d;
    }
  }

  /** One more list. */
  lemma {:induction false} NextOrder(m: Blocks, top: nat, lists: seq<seq<nat>>, i: nat)
    requires Tiled(m, top) && Listed(lists, m) && i < ARENA_ORDERS == |lists|
    ensures |FreeBytes(m, top, i + 1)| == |FreeBytes(m, top, i)| + |lists[i]| * (Pow2(i) - HEADER_SIZE)
  {
    hide *;
    ListedOf(m, lists, i);
    NextBytes(m, top, lists[i], i);
    UnionSize(FreeBytes(m, top, i), BytesOf(m, top, lists[i]));
    ListSize(m, top, lists[i], i);
  }

  lemma {:induction false} ListedOf(m: Blocks, lists: seq<seq<nat>>, i: nat)
    requires Listed(lists, m) && i < |lists|
    ensures ListOf(m, lists[i], i) && forall b :: b in m && m[b] == Header(i, true) ==> b in lists[i]
  {
  }

  lemma {:induction false} NextBytes(m: Blocks, top: nat, s: seq<nat>, i: nat)
    requires Tiled(m, top) && ListOf(m, s, i) && forall b :: b in m && m[b] == Header(i, true) ==> b in s
    ensures FreeBytes(m, top, i + 1) == FreeBytes(m, top, i) + BytesOf(m, top, s)
    ensures FreeBytes(m, top, i) !! BytesOf(m, top, s)
  {
    forall x | 0 <= x < top ensures FreeByte(m, x, i + 1) <==> FreeByte(m, x, i) || ByteOf(m, s, x) {
      if FreeByte(m, x, i + 1) {
        var d :| FreeByteIn(m, d, x) && m[d].order < i + 1;
        assert m[d].order < i || d in s;
      }
      if ByteOf(m, s, x) {
        var d :| d in s && FreeByteIn(m, d, x);
      }
    }
    forall x | 0 <= x < top && FreeByte(m, x, i) ensures !ByteOf(m, s, x) {
      OtherOrder(m, s, i, x);
    }
  }

  lemma {:induction false} OtherOrder(m: Blocks, s: seq<nat>, i: nat, x: int)
    requires Apart(m) && FreeByte(m, x, i) && forall b :: b in s ==> b in m && m[b] == Header(i, true)
    ensures !ByteOf(m, s, x)
  {
    var d :| FreeByteIn(m, d, x) && m[d].order < i;
    forall b | b in s ensures !FreeByteIn(m, b, x) {
      assert d != b;
    }
  }

  lemma {:induction false} NothingUsed(size: nat, m: Blocks)
    requires size < Pow2(ARENA_ORDERS - 1) && Tiled(m, TopOf(size)) && Coalesced(m) && Used(m) == map[]
    ensures m == Initial(size)
  {
    forall b | b in m ensures m[b].free {
      assert b in Used(m) <==> !m[b].free;
    }
    NothingAllocated(m, size);
  }

  // ---------------------------------------------------------- initialisation

  lemma {:induction false} InitialWellFormed(size: nat, lists: seq<seq<nat>>, m: Blocks)
    requires size < Pow2(ARENA_ORDERS - 1) && m == Initial(size) && Listed(lists, m)
    ensures WellFormed(size, lists, m, m) && Coalesced(m)
  {
    InitialPartition(size);
    assert Fitting(m, TopOf(size));
  }

  /** `m` holds the blocks below `off`, and the rest of the carving is to come. */
  ghost predicate Started(m: Blocks, off: nat, left: nat, o: nat, size: nat)
  {
    true == ((forall b :: b in m ==> b < off) && m + Carving(off, left, o) == Initial(size))
  }

  lemma {:induction false} NothingListed(lists: seq<seq<nat>>, m: Blocks, size: nat)
    requires |lists| == ARENA_ORDERS && m == map[] && forall o :: 0 <= o < |lists| ==> lists[o] == []
    ensures Listed(lists, m) && Started(m, 0, size, ARENA_ORDERS - 1, size)
  {
  }

  lemma {:induction false} OrderDown(o: nat)
    requires Pow2(o) >= HEADER_SIZE
    ensures o >= MIN_ORDER
  {
    assert Pow2(4) == 16;
    if o < MIN_ORDER {
      Pow2Monotone(o, 4);
    }
  }

  lemma {:induction false} StartDown(m: Blocks, off: nat, left: nat, o: nat, size: nat)
    requires Started(m, off, left, o, size) && Pow2(o) >= HEADER_SIZE && Pow2(o) > left
    ensures o >= MIN_ORDER && Started(m, off, left, o - 1, size)
  {
    OrderDown(o);
  }

  lemma {:induction false} StartMore(m: Blocks, lists: seq<seq<nat>>, off: nat, left: nat, o: nat, size: nat)
    requires Listed(lists, m) && Started(m, off, left, o, size) && o < ARENA_ORDERS && HEADER_SIZE <= Pow2(o) <= left
    ensures Listed(lists[o := [off] + lists[o]], m[off := Header(o, true)])
    ensures Started(m[off := Header(o, true)], off + Pow2(o), left - Pow2(o), o, size)
  {
    ListedAdd(lists, m, o, off, m[off := Header(o, true)]);
    OrderDown(o);
    var rest := Carving(off + Pow2(o), left - Pow2(o), o);
    forall b | b in rest ensures b > off {
      CarvingOrders(off + Pow2(o), left - Pow2(o), o, b);
    }
    assert m[off := Header(o, true)] + rest == m + rest[off := Header(o, true)];
  }

  lemma {:induction false} StartDone(m: Blocks, off: nat, left: nat, o: nat, size: nat)
    requires Started(m, off, left, o, size) && Pow2(o) < HEADER_SIZE
    ensures m == Initial(size)
  {
    assert Pow2(MIN_ORDER) == 32;
    if o >= MIN_ORDER {
      Pow2Monotone(MIN_ORDER, o);
    }
    assert m + map[] == m;
  }

  class Arena {
    const size: nat
    /** What the memory reads as, where no header has been written. */
    const stale: nat -> Header
    var lists: seq<seq<nat>>
    var headers: map<nat, Header>
    var bytes: seq<int>
    ghost var blocks: Blocks

    ghost predicate Shaped()
      reads this
    {
      true == (|bytes| == size && WellFormed(size, lists, headers, blocks))
    }

    /** The state between calls: nothing that could be joined is left apart. */
    ghost predicate Valid()
      reads this
    {
      true == (Shaped() && Coalesced(blocks))
    }

    /** The bytes of the headers at `offs` are overwritten. */
    method Overwrite(offs: set<nat>)
      modifies this`bytes
      ensures KeptOutside(offs, old(bytes), bytes)
    {
      var was := bytes;
      var junk: seq<int> :| |junk| == |was|;
      bytes := seq(|was|, x requires 0 <= x < |was| => if InHeaders(offs, x) then junk[x] else was[x]);
    }

    /** `block_link` */
    method Link(o: nat, b: nat)
      requires o < |lists|
      modifies this`lists, this`bytes
      ensures lists == old(lists)[o := [b] + old(lists)[o]]
      ensures KeptOutside({b} + Members(old(lists)[o]), old(bytes), bytes)
    {
      Overwrite({b} + Members(lists[o]));
      lists := lists[o := [b] + lists[o]];
    }

    /** `block_unlink` */
    method Unlink(o: nat, b: nat)
      requires o < |lists|
      modifies this`lists, this`bytes
      ensures lists == old(lists)[o := Drop(old(lists)[o], b)]
      ensures KeptOutside(Members(old(lists)[o]), old(bytes), bytes)
    {
      Overwrite(Members(lists[o]));
      lists := lists[o := Drop(lists[o], b)];
    }

    /** A write to the `order` and `is_free` fields. */
    method SetHeader(b: nat, h: Header)
      modifies this`headers, this`bytes
      ensures headers == old(headers)[b := h] && KeptOutside({b}, old(bytes), bytes)
    {
      Overwrite({b});
      headers := headers[b := h];
    }

    method SplitHead(i: nat) returns (b: nat)
      requires 0 < i < |lists| && lists[i] != [] && lists[i][0] in headers && headers[lists[i][0]].free
      modifies this`lists, this`headers, this`bytes
      ensures b == old(lists[i][0])
      ensures var l1 := old(lists)[i := Drop(old(lists)[i], b)];
        var l2 := l1[i - 1 := [b] + l1[i - 1]];
        lists == l2[i - 1 := [b + Pow2(i - 1)] + l2[i - 1]]
      ensures headers == old(headers)[b + Pow2(i - 1) := Header(i - 1, true)][b := Header(i - 1, true)]
      ensures KeptOutside(Members(old(lists)[i]) + Members(old(lists)[i - 1]) + {b, b + Pow2(i - 1)}, old(bytes), bytes)
    {
      b := lists[i][0];
      var c := b + Pow2(i - 1);
      ghost var l, b0 := lists, bytes;
      ghost var all := Members(l[i]) + Members(l[i - 1]) + {b, c};
      Unlink(i, b);
      ghost var b1 := bytes;
      SetHeader(c, Header(i - 1, true));
      KeptThen(Members(l[i]), {c}, all, b0, b1, bytes);
      b1 := bytes;
      SetHeader(b, Header(i - 1, true));
      KeptThen(all, {b}, all, b0, b1, bytes);
      b1 := bytes;
      Link(i - 1, b);
      KeptThen(all, {b} + Members(l[i - 1]), all, b0, b1, bytes);
      b1 := bytes;
      ghost var l1 := lists;
      Link(i - 1, c);
      KeptThen(all, {c} + Members(l1[i - 1]), all, b0, b1, bytes);
    }

    /** One round of the splitting loop of `arena_alloc`. */
    method SplitStep(i: nat)
      requires Shaped() && MIN_ORDER < i < ARENA_ORDERS && lists[i] != [] && CoalescedBut(blocks, lists[i][0])
      modifies this
      ensures Shaped() && old(lists[i][0]) in old(blocks) && old(blocks[lists[i][0]]) == Header(i, true)
      ensures blocks == Split(old(blocks), old(lists[i][0])) && old(lists[i][0]) + Pow2(i - 1) !in old(blocks)
      ensures lists[i - 1] != [] && lists[i - 1][0] == old(lists[i][0]) + Pow2(i - 1)
      ensures CoalescedBut(blocks, lists[i - 1][0])
      ensures Kept(old(blocks), old(bytes), bytes)
    {
      hide WellFormed, Tiled, Split, Kept, KeptOutside, CoalescedBut, Drop, Members, Apart;
      ListCount(size, lists, headers, blocks);
      HeadOfList(size, lists, headers, blocks, i);
      SplitCoalesced(blocks, TopOf(size), lists[i][0]);
      var b := SplitHead(i);
      SplitApart(blocks, b);
      SplitWellFormed(size, old(lists), old(headers), blocks, i, b, lists, headers);
      SplitWellFormedKept(size, old(lists), old(headers), blocks, i, b, old(bytes), bytes);
      KeptLength(blocks, old(bytes), bytes);
      blocks := Split(blocks, b);
    }

    method JoinRaw(o: nat, q: nat, c: nat)
      requires o + 1 < |lists|
      modifies this`lists, this`headers, this`bytes
      ensures var l1 := old(lists)[o := Drop(old(lists)[o], q)];
        var l2 := l1[o := Drop(l1[o], c)];
        lists == l2[o + 1 := [q] + l2[o + 1]]
      ensures headers == old(headers)[q := Header(o + 1, true)]
      ensures KeptOutside(Members(old(lists)[o]) + Members(old(lists)[o + 1]) + {q}, old(bytes), bytes)
    {
      ghost var l, b0 := lists, bytes;
      ghost var all := Members(l[o]) + Members(l[o + 1]) + {q};
      Unlink(o, q);
      ghost var b1, l1 := bytes, lists;
      Unlink(o, c);
      KeptThen(Members(l[o]), Members(l1[o]), all, b0, b1, bytes);
      b1 := bytes;
      SetHeader(q, Header(o + 1, true));
      KeptThen(all, {q}, all, b0, b1, bytes);
      b1 := bytes;
      Link(o + 1, q);
      KeptThen(all, {q} + Members(l[o + 1]), all, b0, b1, bytes);
    }

    /** One round of the joining loop of `arena_free`. */
    method JoinStep(o: nat, q: nat, c: nat, ghost b: nat)
      requires Shaped() && q in blocks && c in blocks && blocks[q] == blocks[c] == Header(o, true) && c == q + Pow2(o)
      requires o + 1 < ARENA_ORDERS && Aligned(q, o + 1) && CoalescedBut(blocks, b) && (b == q || b == c)
      modifies this
      ensures Shaped() && blocks == Joined(old(blocks), q, o) && CoalescedBut(blocks, q)
      ensures Kept(old(blocks), old(bytes), bytes)
    {
      hide WellFormed, CoalescedBut, Joined, Kept, KeptOutside, Drop, Members, Aligned;
      ListCount(size, lists, headers, blocks);
      JoinCoalesced(blocks, q, o, b);
      JoinRaw(o, q, c);
      JoinWellFormed(size, old(lists), old(headers), blocks, o, q, lists, headers);
      JoinKept(size, old(lists), old(headers), blocks, o, q, old(bytes), bytes);
      KeptLength(blocks, old(bytes), bytes);
      blocks := Joined(blocks, q, o);
    }

    /** The order of the smallest block that holds `n` bytes and a header. */
    static method RequiredOrder(n: nat) returns (o: nat)
      ensures 1 <= o <= ARENA_ORDERS
      ensures o < ARENA_ORDERS ==> Pow2(o) >= n + HEADER_SIZE && o >= MIN_ORDER
      ensures forall k: nat :: k < o ==> Pow2(k) < n + HEADER_SIZE
    {
      if n / Pow2(ARENA_ORDERS - 1) > 0 {
        o := ARENA_ORDERS;
        forall k: nat | k < o ensures Pow2(k) < n + HEADER_SIZE { Pow2Monotone(k, ARENA_ORDERS - 1); }
        return;
      }
      o := 1;
      assert Pow2(0) == 1;
      while o < ARENA_ORDERS && Pow2(o) < n + HEADER_SIZE
        invariant 1 <= o <= ARENA_ORDERS
        invariant forall k: nat :: k < o ==> Pow2(k) < n + HEADER_SIZE
      {
        o := o + 1;
      }
      assert Pow2(4) == 16;
      if o < MIN_ORDER {
        Pow2Monotone(o, 4);
      }
    }

    /** Split free blocks until one of order `o` heads its list. */
    method SplitDown(i0: nat, o: nat) returns (ghost b: nat)
      requires Valid() && MIN_ORDER <= o <= i0 < ARENA_ORDERS && lists[i0] != []
      modifies this
      ensures Shaped() && lists[o] != [] && lists[o][0] == b && CoalescedBut(blocks, b)
      ensures SameUsed(old(blocks), blocks) && Kept(old(blocks), old(bytes), bytes)
      ensures FreeRange(old(blocks), b, o)
      ensures var d := old(lists[i0][0]);
        d in old(blocks) && d <= b && b + Pow2(o) == End(old(blocks), d) && Pieces(old(blocks), blocks, d, o)
    {
      hide WellFormed, Narrowed, Coalesced, CoalescedBut, SameUsed, Kept, FreeRange, Pieces;
      ListCount(size, lists, headers, blocks);
      var i := i0;
      ghost var m0, b0, d := blocks, bytes, lists[i][0];
      b := d;
      NarrowedStart(size, lists, headers, blocks, i, bytes);
      while i > o
        invariant o <= i <= i0 && Shaped() && Narrowed(m0, b0, d, blocks, bytes, lists, i, b)
      {
        var k := i - 1;
        b := SplitOnce(i, k, b, m0, b0, d);
        i := k;
      }
      NarrowedEnd(m0, TopOf(size), b0, d, blocks, bytes, lists, o, b);
    }

    method SplitOnce(i: nat, k: nat, ghost b: nat, ghost m0: Blocks, ghost b0: seq<int>,
                     ghost d: nat) returns (ghost c: nat)
      requires Shaped() && MIN_ORDER < i < ARENA_ORDERS && k + 1 == i && Narrowed(m0, b0, d, blocks, bytes, lists, i, b)
      modifies this
      ensures Shaped() && Narrowed(m0, b0, d, blocks, bytes, lists, k, c)
    {
      hide WellFormed, CoalescedBut, SameUsed, Kept, Split;
      ghost var m, was, l := blocks, bytes, lists;
      ListCount(size, lists, headers, blocks);
      SplitStep(i);
      ListCount(size, lists, headers, blocks);
      c := b + Pow2(k);
      NarrowedStep(m0, b0, d, m, was, l, i, b, blocks, bytes, lists, k);
    }

    /** The head of list `o` leaves it and is marked as allocated. */
    method TakeHead(o: nat) returns (b: nat)
      requires Shaped() && MIN_ORDER <= o < ARENA_ORDERS && lists[o] != [] && CoalescedBut(blocks, lists[o][0])
      modifies this
      ensures Valid() && b == old(lists[o][0]) && b in old(blocks) && old(blocks[b]) == Header(o, true)
      ensures blocks == Taken(old(blocks), b) && Kept(old(blocks), old(bytes), bytes)
    {
      hide WellFormed, Tiled, CoalescedBut, Kept, KeptOutside, Drop, Members;
      ListCount(size, lists, headers, blocks);
      HeadOfList(size, lists, headers, blocks, o);
      b := lists[o][0];
      ghost var b0, l := bytes, lists;
      Unlink(o, b);
      ghost var b1 := bytes;
      SetHeader(b, Header(o, false));
      HeadMember(l[o]);
      KeptThen(Members(l[o]), {b}, Members(l[o]), b0, b1, bytes);
      TakeKept(size, l, old(headers), blocks, o, b, b0, bytes);
      TakeWellFormed(size, l, old(headers), blocks, o, b);
      TakenIsCoalesced(blocks, b);
      KeptLength(blocks, b0, bytes);
      blocks := Taken(blocks, b);
    }

    /** The first non-empty list from order `o` up. */
    method FirstList(o: nat) returns (i: nat)
      requires |lists| == ARENA_ORDERS && o <= ARENA_ORDERS
      ensures o <= i <= ARENA_ORDERS && (i < ARENA_ORDERS ==> lists[i] != [])
      ensures forall k :: o <= k < i ==> lists[k] == []
    {
      i := o;
      while i < ARENA_ORDERS && lists[i] == []
        invariant o <= i <= ARENA_ORDERS && forall k :: o <= k < i ==> lists[k] == []
      {
        i := i + 1;
      }
    }

    /** `arena_alloc` */
    method Alloc(n: nat) returns (p: Pointer)
      requires Valid()
      modifies this
      ensures Valid() && Kept(old(blocks), old(bytes), bytes)
      ensures p.Null? <==> NoRoom(old(blocks), TopOf(size), n)
      ensures p.Null? ==> lists == old(lists) && headers == old(headers) && bytes == old(bytes) && blocks == old(blocks)
      ensures p.At? ==> p.off >= HEADER_SIZE && Granted(old(blocks), blocks, n, p.off - HEADER_SIZE)
      ensures p.At? ==> BestCarved(old(blocks), old(lists), blocks, p.off - HEADER_SIZE)
    {
      var o := RequiredOrder(n);
      var i := FirstList(o);
      if i >= ARENA_ORDERS {
        EmptyListsNoRoom(size, lists, headers, blocks, n, o);
        return Null;
      }
      var b := Carve(n, o, i);
      GrantedRoom(old(blocks), blocks, TopOf(size), n, b);
      return At(b + HEADER_SIZE);
    }

    method Carve(n: nat, o: nat, i: nat) returns (b: nat)
      requires Valid() && MIN_ORDER <= o <= i < ARENA_ORDERS && i < |lists| && lists[i] != []
      requires forall k :: o <= k < i ==> lists[k] == []
      requires Pow2(o) >= n + HEADER_SIZE && forall k: nat :: k < o ==> Pow2(k) < n + HEADER_SIZE
      modifies this
      ensures Valid() && Kept(old(blocks), old(bytes), bytes) && Granted(old(blocks), blocks, n, b)
      ensures CarvedFrom(old(blocks), old(lists), blocks, old(lists[i][0]), b)
    {
      hide WellFormed, Coalesced, CoalescedBut, SameUsed, Kept, FreeRange, Pieces, Granted, BestFit;
      BestNow(o, i);
      ghost var m0, b0, d := blocks, bytes, lists[i][0];
      ghost var b' := SplitDown(i, o);
      ghost var m, b1 := blocks, bytes;
      b := TakeHead(o);
      TakeUsed(m0, m, b, n, o);
      TakenPieces(m0, m, d, b, o);
      KeptSame(m0, m, b0, b1, bytes);
    }

    lemma {:induction false} BestNow(o: nat, i: nat)
      requires Valid() && o <= i < ARENA_ORDERS && i < |lists| && lists[i] != []
      requires forall k :: o <= k < i ==> lists[k] == []
      ensures |lists| == ARENA_ORDERS
      ensures BestFit(blocks, o, lists[i][0]) && lists[i][0] in blocks && blocks[lists[i][0]].order == i
    {
      ListCount(size, lists, headers, blocks);
      FirstIsBest(lists, blocks, o, i);
    }

    /** The freed block goes to the head of its list. */
    method Give(x: nat) returns (o: nat)
      requires Valid() && x in Used(blocks)
      modifies this
      ensures Shaped() && o < ARENA_ORDERS && old(blocks[x]) == Header(o, false)
      ensures blocks == old(blocks)[x := Header(o, true)]
      ensures Growing(blocks, old(bytes), x, blocks, bytes, x, o)
    {
      o := headers[x].order;
      assert blocks[x] == Header(o, false) && o < ARENA_ORDERS;
      ghost var m, l, b0 := blocks[x := Header(o, true)], lists, bytes;
      SetHeader(x, Header(o, true));
      ghost var b1 := bytes;
      Link(o, x);
      KeptThen({x}, {x} + Members(l[o]), Members(lists[o]) + {x}, b0, b1, bytes);
      GiveWellFormed(size, l, old(headers), blocks, o, x);
      FreedException(blocks, x);
      blocks := m;
      GiveKept(size, lists, headers, blocks, o, x, b0, bytes);
    }

    /** One round of the loop of `arena_free`, up to its three ways out: the
        buddy is out of bounds, not free or of another order, or it is the tail
        that was never a block. */
    method JoinTry(b: nat, o: nat, ghost m0: Blocks, ghost b0: seq<int>, ghost x: nat)
      returns (done: bool, ok: bool, q: nat)
      requires Shaped() && Growing(m0, b0, x, blocks, bytes, b, o) && o + 1 < ARENA_ORDERS
      modifies this
      ensures Shaped() && (!done ==> Growing(m0, b0, x, blocks, bytes, q, o + 1))
      ensures done ==> q == b && Growing(m0, b0, x, blocks, bytes, b, o)
      ensures done && ok ==> Coalesced(blocks) && !TailHit(size, stale, blocks, b)
      ensures done && !ok ==> TailHit(size, stale, blocks, b)
    {
      BuddyPlace(size, lists, headers, blocks, b);
      XorIsBuddy(b, o);
      var c: nat := Xor(b, Pow2(o));
      var h := if c in headers then headers[c] else stale(c);
      q := b;
      if c + HEADER_SIZE > size || h != Header(o, true) {
        NotFreePair(size, lists, headers, blocks, b, c, stale);
        NotAnException(blocks, b);
        return true, true, b;
      }
      if c !in headers {
        return true, false, b;
      }
      q := JoinGrow(b, o, c, m0, b0, x);
      return false, true, q;
    }

    /** Joining `b` with its free buddy `c`, the lower of the two first. */
    method JoinGrow(b: nat, o: nat, c: nat, ghost m0: Blocks, ghost b0: seq<int>, ghost x: nat) returns (q: nat)
      requires Shaped() && Growing(m0, b0, x, blocks, bytes, b, o) && o + 1 < ARENA_ORDERS
      requires Aligned(b, o) && c == Buddy(b, o) && c in blocks && blocks[c] == Header(o, true)
      modifies this
      ensures Shaped() && Growing(m0, b0, x, blocks, bytes, q, o + 1)
    {
      hide Shaped, CoalescedBut, Joined, SameUsed, Kept, Aligned, Pow2;
      BuddyPair(b, o);
      q := if b > c then c else b;
      var hi := if b > c then b else c;
      ghost var m, was := blocks, bytes;
      JoinStep(o, q, hi, b);
      JoinUsed(m0, m, q, o, b0, was, bytes);
      JoinGrown(m, q, o);
    }

    /** `arena_free`. The result is false where the code would join a block with
        a tail that was never a block. */
    method Free(p: Pointer) returns (ok: bool)
      requires Valid() && (p.At? ==> p.off >= HEADER_SIZE && p.off - HEADER_SIZE in Used(blocks))
      modifies this
      ensures ok <==> !(p.At? && TailHazard(size, stale, old(blocks), p.off - HEADER_SIZE))
      ensures ok ==> Valid()
      ensures Used(blocks) == if p.Null? then Used(old(blocks)) else Used(old(blocks)) - {p.off - HEADER_SIZE}
      ensures Kept(Used(blocks), old(bytes), bytes)
    {
      if p.Null? {
        return true;
      }
      var x: nat := p.off - HEADER_SIZE;
      ghost var m0, b0 := blocks, bytes;
      var o0 := Give(x);
      ghost var g := blocks;
      var b, o, done := x, o0, false;
      ok := true;
      while !done && o + 1 < ARENA_ORDERS
        invariant Shaped() && Growing(g, b0, x, blocks, bytes, b, o)
        invariant done && ok ==> Coalesced(blocks) && !TailHit(size, stale, blocks, b)
        invariant done && !ok ==> TailHit(size, stale, blocks, b)
        decreases ARENA_ORDERS - o, !done
      {
        done, ok, b := JoinTry(b, o, g, b0, x);
        if !done {
          o := o + 1;
        }
      }
      BuddyPlace(size, lists, headers, blocks, b);
      FreeDone(size, stale, m0, b0, x, o0, blocks, bytes, b, o, ok);
    }

    /** `memcpy` between two payloads. */
    method Copy(dst: nat, src: nat, k: nat)
      requires dst + k <= |bytes| && src + k <= |bytes| && (dst + k <= src || src + k <= dst)
      modifies this`bytes
      ensures |bytes| == old(|bytes|) && Copied(old(bytes), src, bytes, dst, k)
      ensures forall x :: 0 <= x < |bytes| && !(dst <= x < dst + k) ==> bytes[x] == old(bytes)[x]
    {
      bytes := bytes[..dst] + bytes[src..src + k] + bytes[dst + k..];
    }

    /** `arena_realloc` */
    method Realloc(p: Pointer, n: nat) returns (r: Pointer, ok: bool)
      requires Valid() && (p.At? ==> p.off >= HEADER_SIZE && p.off - HEADER_SIZE in Used(blocks))
      modifies this
      ensures ok ==> Valid()
      ensures r.Null? <==>
        NoRoom(old(blocks), TopOf(size), n) && !(p.At? && StaysInPlace(Used(old(blocks))[p.off - HEADER_SIZE].order, n))
      ensures r.Null? ==> ok
      ensures r.Null? ==> lists == old(lists) && headers == old(headers) && bytes == old(bytes) && blocks == old(blocks)
      ensures r.At? ==> r.off >= HEADER_SIZE && r.off - HEADER_SIZE in blocks
      ensures r.At? && p.Null? ==> ok && Granted(old(blocks), blocks, n, r.off - HEADER_SIZE)
      ensures r.At? && p.Null? ==> BestCarved(old(blocks), old(lists), blocks, r.off - HEADER_SIZE)
      ensures r.At? && p.Null? ==> Kept(old(blocks), old(bytes), bytes)
      ensures r.At? && p.At? ==> Fits(blocks, r.off - HEADER_SIZE, n)
      ensures r.At? && p.At? ==>
        Moved(old(blocks), blocks, p.off - HEADER_SIZE, r.off - HEADER_SIZE, n, old(bytes), bytes)
      ensures r.At? && p.At? ==> (r == p <==> StaysInPlace(Used(old(blocks))[p.off - HEADER_SIZE].order, n))
      ensures r.At? && p.At? ==>
        (!ok <==> r != p && Hazard(old(blocks), blocks, p.off - HEADER_SIZE, r.off - HEADER_SIZE))
    {
      hide *;
      if p.Null? {
        r := Alloc(n);
        ok := true;
      } else {
        r, ok := Resize(p.off - HEADER_SIZE, n);
      }
    }

    /** Freeing `b` after `c` has been allocated runs into the tail. */
    ghost predicate Hazard(m0: Blocks, m: Blocks, b: nat, c: nat) {
      c in m && TailHazard(size, stale, Used(m0)[c := m[c]], b)
    }

    method Resize(b: nat, n: nat) returns (r: Pointer, ok: bool)
      requires Valid() && b in Used(blocks)
      modifies this
      ensures ok ==> Valid()
      ensures r.Null? <==> NoRoom(old(blocks), TopOf(size), n) && !StaysInPlace(Used(old(blocks))[b].order, n)
      ensures r.Null? ==> ok
      ensures r.Null? ==> lists == old(lists) && headers == old(headers) && bytes == old(bytes) && blocks == old(blocks)
      ensures r.At? ==> r.off >= HEADER_SIZE && r.off - HEADER_SIZE in blocks && Fits(blocks, r.off - HEADER_SIZE, n)
      ensures r.At? ==> Moved(old(blocks), blocks, b, r.off - HEADER_SIZE, n, old(bytes), bytes)
      ensures r.At? ==> (r == At(b + HEADER_SIZE) <==> StaysInPlace(Used(old(blocks))[b].order, n))
      ensures r.At? ==> (!ok <==> r != At(b + HEADER_SIZE) && Hazard(old(blocks), blocks, b, r.off - HEADER_SIZE))
    {
      hide NoRoom, Moved, Fits, Granted, Kept, Coalesced, Tiled, Listed, StaysInPlace, TailHazard;
      var o := RequiredOrder(n);
      var order := headers[b].order;
      ghost var m0, s0 := blocks, bytes;
      if o >= ARENA_ORDERS {
        EmptyListsNoRoom(size, lists, headers, blocks, n, o);
        TooLarge(blocks, TopOf(size), b, n);
        return Null, true;
      }
      PlaceTest(order, n, o);
      if order == o || o + 1 == order {
        InPlace(blocks, TopOf(size), b, n, o, bytes);
        return At(b + HEADER_SIZE), true;
      }
      r := Alloc(n);
      if r.Null? {
        return r, true;
      }
      MoveStart(m0, blocks, n, b, r.off - HEADER_SIZE);
      ok := MoveTo(b, r.off - HEADER_SIZE, n, m0, s0);
    }

    /** The end of `arena_realloc`: copy what fits and free the old block. */
    method MoveTo(b: nat, c: nat, n: nat, ghost m0: Blocks, ghost s0: seq<int>) returns (ok: bool)
      requires Valid() && b in Used(m0) && Granted(m0, blocks, n, c) && |s0| == size && Kept(m0, s0, bytes)
      modifies this
      ensures ok ==> Valid()
      ensures Fits(blocks, c, n) && Moved(m0, blocks, b, c, n, s0, bytes)
      ensures c in blocks && (ok <==> !TailHazard(size, stale, Used(m0)[c := blocks[c]], b))
    {
      hide NoRoom, Moved, Fits, Granted, Kept, Coalesced, Tiled, TailHazard, TailOpen;
      ghost var u0, u1, h, s1 := Used(m0), Used(blocks), Header(0, false), bytes;
      MoveStart(m0, blocks, n, b, c);
      h := blocks[c];
      KeptUsed(m0, s0, s1);
      var k := CopyOver(b, c, n);
      ghost var s2 := bytes;
      HazardOfUsed(size, stale, blocks, b);
      ok := Free(At(b + HEADER_SIZE));
      MoveAll(u0, u1, Used(blocks), b, c, h, k, s0, s1, s2, bytes);
      MoveEnd(m0, blocks, b, c, h, n, s0, bytes);
    }

    method CopyOver(b: nat, c: nat, n: nat) returns (k: nat)
      requires Valid() && b in Used(blocks) && c in Used(blocks) && b != c && Pow2(blocks[c].order) >= n + HEADER_SIZE
      modifies this`bytes
      ensures Valid() && k == CopySize(blocks[b].order, n)
      ensures b + HEADER_SIZE + k <= End(blocks, b) <= size && c + HEADER_SIZE + k <= End(blocks, c) <= size
      ensures Kept(Used(blocks) - {c}, old(bytes), bytes)
      ensures Copied(old(bytes), b + HEADER_SIZE, bytes, c + HEADER_SIZE, k)
    {
      hide Coalesced, Listed, Copied;
      var room := Pow2(headers[b].order) - HEADER_SIZE;
      OrderRoom(blocks, TopOf(size), b);
      OrderRoom(blocks, TopOf(size), c);
      k := if room > n then n else room;
      assert End(blocks, b) <= c || End(blocks, c) <= b;
      Copy(c + HEADER_SIZE, b + HEADER_SIZE, k);
      CopyKept(blocks, TopOf(size), c, k, old(bytes), bytes);
    }

    /** `arena_count_free`: the bytes in the payloads of free blocks. */
    method CountFree() returns (count: int)
      requires Valid()
      ensures count == |FreeBytes(blocks, TopOf(size), ARENA_ORDERS)|
      ensures Used(blocks) == map[] ==> count == |FreeBytes(Initial(size), TopOf(size), ARENA_ORDERS)|
    {
      count := 0;
      assert FreeBytes(blocks, TopOf(size), 0) == {};
      for i := 0 to ARENA_ORDERS
        invariant count == |FreeBytes(blocks, TopOf(size), i)|
      {
        NextOrder(blocks, TopOf(size), lists, i);
        count := count + |lists[i]| * (Pow2(i) - HEADER_SIZE);
      }
      if Used(blocks) == map[] {
        NothingUsed(size, blocks);
      }
    }

    /** One more block is carved off. */
    method PlaceBlock(off: nat, ghost left: nat, o: nat)
      requires Listed(lists, headers) && |lists| == ARENA_ORDERS && Started(headers, off, left, o, size)
      requires o < ARENA_ORDERS && HEADER_SIZE <= Pow2(o) <= left
      modifies this
      ensures Listed(lists, headers) && |lists| == ARENA_ORDERS && blocks == headers && |bytes| == old(|bytes|)
      ensures Started(headers, off + Pow2(o), left - Pow2(o), o, size)
    {
      hide Listed, Started, InHeaders, Members;
      StartMore(headers, lists, off, left, o, size);
      SetHeader(off, Header(o, true));
      Link(o, off);
      blocks := headers;
    }

    /** `arena_init` */
    constructor (memory: seq<int>, stale: nat -> Header)
      requires |memory| < Pow2(ARENA_ORDERS - 1)
      ensures Valid() && size == |memory| && this.stale == stale && blocks == Initial(size)
    {
      this.size := |memory|;
      this.stale := stale;
      lists := seq(ARENA_ORDERS, _ => []);
      headers := map[];
      bytes := memory;
      blocks := map[];
      new;
      CarveAll();
      InitialWellFormed(size, lists, headers);
    }

    /** The loop of `arena_init`. */
    method CarveAll()
      requires |lists| == ARENA_ORDERS && headers == map[] && blocks == headers && |bytes| == size
      requires forall o :: 0 <= o < |lists| ==> lists[o] == []
      modifies this
      ensures Listed(lists, headers) && blocks == headers == Initial(size) && |bytes| == size
    {
      hide Listed, Started, Initial, WellFormed, Coalesced;
      NothingListed(lists, headers, size);
      var o: nat, off: nat, left: nat := ARENA_ORDERS - 1, 0, size;
      while Pow2(o) >= HEADER_SIZE
        invariant 4 <= o < ARENA_ORDERS && |bytes| == size && off + left == size
        invariant Listed(lists, headers) && |lists| == ARENA_ORDERS && blocks == headers
        invariant Started(headers, off, left, o, size)
        decreases left, o
      {
        if Pow2(o) > left {
          StartDown(headers, off, left, o, size);
          o := o - 1;
        } else {
          PlaceBlock(off, left, o);
          left := left - Pow2(o);
          off := off + Pow2(o);
        }
      }
      StartDone(headers, off, left, o, size);
    }
  }
}
