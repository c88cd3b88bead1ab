/** src/hash.c: a chained hash table that grows and shrinks. Nodes are objects,
    linked through `next`; a chain is also given as the sequence of its keys. */
module Hash {
  import opened Primes
  import opened Sequences
  import opened Memory

  /** A `struct hash_node` with the key of the item that it is part of. */
  class HashNode {
    var key: int
    var code: nat
    var next: HashNode?

    constructor (key: int)
      ensures this.key == key
    {
      this.key := key;
      next := null;
    }
  }

  // -------------------------------------------------------------------- chains

  /** The keys are in the buckets of their codes, each once, and nothing else is. */
  ghost predicate Filed(func: int -> nat, chains: seq<seq<int>>, keys: set<int>)
  {
    true == (
      && (chains == [] ==> keys == {})
      && (forall j :: 0 <= j < |chains| ==> Once(chains[j]))
      && (forall j, k :: 0 <= j < |chains| ==> (k in chains[j] <==> k in keys && func(k) % |chains| == j)))
  }

  /** Bucket `j` of a table of the given size, after `ks` have been put in one by one,
      each in front. */
  function Bucket(func: int -> nat, ks: seq<int>, size: nat, j: nat): seq<int>
    requires size > 0
  {
    if ks == [] then [] else
      var k, rest := ks[|ks| - 1], Bucket(func, ks[..|ks| - 1], size, j);
      if func(k) % size == j then [k] + rest else rest
  }

  function Buckets(func: int -> nat, ks: seq<int>, size: nat): (b: seq<seq<int>>)
    requires size > 0
    ensures |b| == size
  {
    seq(size, j requires 0 <= j < size => Bucket(func, ks, size, j))
  }

  /** All keys, bucket by bucket. */
  function Flat(chains: seq<seq<int>>): seq<int> {
    if chains == [] then [] else Flat(chains[..|chains| - 1]) + chains[|chains| - 1]
  }

  lemma {:induction false} BucketHas(func: int -> nat, ks: seq<int>, size: nat, j: nat)
    requires size > 0
    ensures forall k :: k in Bucket(func, ks, size, j) <==> k in ks && func(k) % size == j
    ensures Once(ks) ==> Once(Bucket(func, ks, size, j))
  {
    if ks != [] {
      var k, front := ks[|ks| - 1], ks[..|ks| - 1];
      BucketHas(func, front, size, j);
      assert ks == front + [k];
      if Once(ks) {
        assert k !in front;
        OnceFront(Bucket(func, front, size, j), k);
      }
    }
  }

  lemma {:induction false} OnceFront(ks: seq<int>, k: int)
    requires Once(ks) && k !in ks
    ensures Once([k] + ks)
  {
  }

  /** One more key goes to the front of its bucket. */
  lemma {:induction false} BucketsPush(func: int -> nat, ks: seq<int>, k: int, size: nat)
    requires size > 0
    ensures var b, j := Buckets(func, ks, size), func(k) % size; Buckets(func, ks + [k], size) == b[j := [k] + b[j]]
  {
    assert (ks + [k])[..|ks|] == ks;
  }

  lemma {:induction false} FlatHas(chains: seq<seq<int>>, k: int)
    ensures k in Flat(chains) <==> exists j :: 0 <= j < |chains| && k in chains[j]
  {
    if chains != [] {
      var front := chains[..|chains| - 1];
      FlatHas(front, k);
      if k in Flat(chains) && k in Flat(front) {
        var j :| 0 <= j < |front| && k in front[j];
        assert k in chains[j];
      }
      if j :| 0 <= j < |chains| && k in chains[j] {
        assert j < |front| ==> k in front[j];
      }
    }
  }

  lemma {:induction false} FlatOnce(chains: seq<seq<int>>)
    requires forall j :: 0 <= j < |chains| ==> Once(chains[j])
    requires forall i, j, k :: 0 <= i < j < |chains| && k in chains[i] ==> k !in chains[j]
    ensures Once(Flat(chains))
  {
    if chains != [] {
      var front, last := chains[..|chains| - 1], chains[|chains| - 1];
      FlatOnce(front);
      forall k | k in Flat(front) ensures k !in last {
        FlatHas(front, k);
        var i :| 0 <= i < |front| && k in front[i];
        assert k in chains[i];
      }
      OnceAppend(Flat(front), last);
    }
  }

  lemma {:induction false} OnceAppend(a: seq<int>, b: seq<int>)
    requires Once(a) && Once(b) && forall k :: k in a ==> k !in b
    ensures Once(a + b)
  {
    var c := a + b;
    forall i, j | 0 <= i < j < |c| ensures c[i] != c[j] {
      assert i < |a| ==> a[i] in a;
      assert j >= |a| ==> b[j - |a|] in b;
    }
  }

  /** Putting all keys into a table of another size loses none and doubles none. */
  lemma {:induction false} Rehashed(func: int -> nat, chains: seq<seq<int>>, keys: set<int>, size: nat)
    requires Filed(func, chains, keys) && size > 0
    ensures Filed(func, Buckets(func, Flat(chains), size), keys)
  {
    forall i, j, k | 0 <= i < j < |chains| && k in chains[i] ensures k !in chains[j] {
      assert func(k) % |chains| == i;
    }
    FlatOnce(chains);
    forall k ensures k in Flat(chains) <==> k in keys {
      FlatHas(chains, k);
      if k in keys {
        assert k in chains[func(k) % |chains|];
      }
    }
    var b := Buckets(func, Flat(chains), size);
    forall j, k | 0 <= j < size ensures k in b[j] <==> k in keys && func(k) % size == j {
      BucketHas(func, Flat(chains), size, j);
    }
    forall j | 0 <= j < size ensures Once(b[j]) {
      BucketHas(func, Flat(chains), size, j);
    }
  }

  // --------------------------------------------------------------------- links

  type Nodes = map<int, HashNode>

  /** The `next` pointers of the nodes. */
  type Links = map<int, HashNode?>

  function Head(m: Nodes, ks: seq<int>): HashNode? { if ks != [] && ks[0] in m then m[ks[0]] else null }

  /** From `start` the pointers lead through exactly the nodes of `ks`. */
  ghost predicate Linked(x: Links, m: Nodes, start: HashNode?, ks: seq<int>) {
    start == Head(m, ks) && (ks != [] ==> ks[0] in m && ks[0] in x && Linked(x, m, x[ks[0]], ks[1..]))
  }

  /** Key `k` has the same node and the same pointer. */
  predicate SameAt(x: Links, m: Nodes, x': Links, m': Nodes, k: int) {
    k in m && k in x ==> k in m' && k in x' && m'[k] == m[k] && x'[k] == x[k]
  }

  /** A chain does not depend on nodes that are not in it. */
  lemma {:induction false} LinkedFrame(x: Links, m: Nodes, x': Links, m': Nodes, start: HashNode?, ks: seq<int>)
    requires Linked(x, m, start, ks)
    requires forall k :: k in ks ==> SameAt(x, m, x', m', k)
    ensures Linked(x', m', start, ks)
  {
    if ks != [] {
      assert SameAt(x, m, x', m', ks[0]);
      LinkedFrame(x, m, x', m', x[ks[0]], ks[1..]);
    }
  }

  /** A pointer is null exactly at the end of its chain. */
  lemma {:induction false} LinkedStep(x: Links, m: Nodes, start: HashNode?, ks: seq<int>)
    requires Linked(x, m, start, ks)
    ensures start == null <==> ks == []
    ensures ks != [] ==> ks[0] in m && start == m[ks[0]] && ks[0] in x && Linked(x, m, x[ks[0]], ks[1..])
  {
  }

  lemma {:induction false} LinkedLast(x: Links, m: Nodes, key: int)
    requires key in m && key in x && x[key] == null
    ensures Linked(x, m, m[key], [key])
  {
    assert [key][1..] == [];
  }

  lemma {:induction false} LinkedKeys(x: Links, m: Nodes, start: HashNode?, ks: seq<int>)
    requires Linked(x, m, start, ks)
    ensures forall k :: k in ks ==> k in m && k in x
  {
    if ks != [] {
      LinkedKeys(x, m, x[ks[0]], ks[1..]);
    }
  }

  /** A null pointer at position `p` ends the chain there. */
  lemma {:induction false} LinkedCut(x: Links, m: Nodes, start: HashNode?, ks: seq<int>, p: nat)
    requires Linked(x, m, start, ks) && Once(ks) && p < |ks|
    ensures Linked(x[ks[p] := null], m, start, ks[..p + 1])
  {
    var cut := ks[..p + 1];
    if p > 0 {
      LinkedCut(x, m, x[ks[0]], ks[1..], p - 1);
      assert cut[1..] == ks[1..][..p];
    } else {
      assert cut[1..] == [];
    }
  }

  /** A pointer past position `p` takes its node out of the chain. */
  lemma {:induction false} LinkedSkip(x: Links, m: Nodes, start: HashNode?, ks: seq<int>, p: nat)
    requires Linked(x, m, start, ks) && Once(ks) && 0 < p < |ks|
    ensures ks[p - 1] in m && ks[p] in m && ks[p] in x && x[ks[p - 1] := x[ks[p]]].Keys == x.Keys
    ensures Linked(x[ks[p - 1] := x[ks[p]]], m, start, Without(ks, p))
  {
    LinkedKeys(x, m, start, ks);
    var x', out := x[ks[p - 1] := x[ks[p]]], Without(ks, p);
    if p == 1 {
      assert out[1..] == ks[2..] && ks[1..][1..] == ks[2..] && ks[1..][0] == ks[1];
      LinkedFrame(x, m, x', m, x[ks[1]], ks[2..]);
    } else {
      LinkedSkip(x, m, x[ks[0]], ks[1..], p - 1);
      assert out[1..] == Without(ks[1..], p - 1);
    }
  }

  ghost predicate AllLinked(x: Links, m: Nodes, table: seq<HashNode?>, chains: seq<seq<int>>) {
    |table| == |chains| && forall j :: 0 <= j < |table| ==> Linked(x, m, table[j], chains[j])
  }

  ghost function Nexts(m: Nodes): (x: Links)
    reads m.Values
    ensures x.Keys == m.Keys
  {
    map k | k in m :: m[k].next
  }

  /** Every node is known by its own key and carries its code. */
  ghost predicate Coded(func: int -> nat, m: Nodes)
    reads m.Values
  {
    forall k :: k in m ==> m[k].key == k && m[k].code == func(k)
  }

  ghost predicate Keyed(m: Nodes)
    reads m.Values
  {
    forall k :: k in m ==> m[k].key == k
  }

  /** `n->next = v` */
  method SetNext(n: HashNode, v: HashNode?, ghost m: Nodes)
    requires Keyed(m)
    modifies n`next
    ensures n.next == v
    ensures Nexts(m) == if n.key in m && m[n.key] == n then old(Nexts(m))[n.key := v] else old(Nexts(m))
    ensures forall k :: k in m && k != n.key ==> m[k].next == old(m[k].next)
  {
    n.next := v;
    assert forall k :: k in m && k != n.key ==> m[k] != n;
  }

  // --------------------------------------------------------------- inserting

  /** The walk of `hash_insert` over a chain: the new node goes to the end, the node
      with its key is left out, the others are reversed. */
  function Turned(ks: seq<int>, key: int): seq<int> {
    if ks == [] then [key] else
      var k, rest := ks[|ks| - 1], Turned(ks[..|ks| - 1], key);
      if k != key then [k] + rest else rest
  }

  lemma {:induction false} TurnedHas(ks: seq<int>, key: int)
    ensures forall k :: k in Turned(ks, key) <==> k in ks || k == key
    ensures Once(ks) ==> Once(Turned(ks, key))
  {
    if ks != [] {
      var k, front := ks[|ks| - 1], ks[..|ks| - 1];
      TurnedHas(front, key);
      assert ks == front + [k];
      if Once(ks) && k != key {
        assert k !in front;
        OnceFront(Turned(front, key), k);
      }
    }
  }

  /** What is left of a chain when the `next` pointer of `key` is cleared. */
  function UpTo(ks: seq<int>, key: int): (r: seq<int>)
    ensures |r| <= |ks| && r == ks[..|r|]
  {
    if ks == [] then [] else if ks[0] == key then [key] else [ks[0]] + UpTo(ks[1..], key)
  }

  lemma {:induction false} UpToEnds(ks: seq<int>, key: int)
    requires key in ks
    ensures UpTo(ks, key) != [] && UpTo(ks, key)[|UpTo(ks, key)| - 1] == key
  {
    if ks[0] != key {
      UpToEnds(ks[1..], key);
    }
  }

  ghost function BucketOf(func: int -> nat, chains: seq<seq<int>>, key: int): seq<int> {
    if chains == [] then [] else chains[func(key) % |chains|]
  }

  ghost predicate IsLinked(m: Nodes, key: int, n: HashNode) { key in m && m[key] == n }

  /** What the walk of `hash_insert` finds after the pointer of the new node has been
      cleared: of a node that is linked already, nothing behind it. */
  ghost function Cut(func: int -> nat, chains: seq<seq<int>>, m: Nodes, key: int, ins: HashNode): seq<int> {
    var ks := BucketOf(func, chains, key);
    if IsLinked(m, key, ins) then UpTo(ks, key) else ks
  }

  /** The keys that are lost then. */
  ghost function Lost(func: int -> nat, chains: seq<seq<int>>, m: Nodes, key: int, ins: HashNode): set<int> {
    Behind(BucketOf(func, chains, key), |Cut(func, chains, m, key, ins)|)
  }

  /** The new node is not linked already, or it is the last of its chain. */
  ghost predicate Safe(func: int -> nat, chains: seq<seq<int>>, m: Nodes, key: int, ins: HashNode) {
    var ks := BucketOf(func, chains, key);
    IsLinked(m, key, ins) ==> ks != [] && ks[|ks| - 1] == key
  }

  lemma {:induction false} SafeIff(func: int -> nat, chains: seq<seq<int>>, m: Nodes, key: int, ins: HashNode)
    requires Filed(func, chains, m.Keys)
    ensures Lost(func, chains, m, key, ins) == {} <==> Safe(func, chains, m, key, ins)
  {
    var ks, cut := BucketOf(func, chains, key), Cut(func, chains, m, key, ins);
    if IsLinked(m, key, ins) {
      assert key in ks;
      UpToEnds(ks, key);
    }
    if |cut| < |ks| {
      assert ks[|ks| - 1] in Behind(ks, |cut|) && ks[|cut| - 1] == key;
    } else {
      assert ks[|cut|..] == [];
    }
  }

  /** The chains after the insertion. */
  ghost function Put(func: int -> nat, chains: seq<seq<int>>, m: Nodes, key: int, ins: HashNode): seq<seq<int>> {
    if chains == [] then [] else chains[func(key) % |chains| := Turned(Cut(func, chains, m, key, ins), key)]
  }

  lemma {:induction false} CutLinked(func: int -> nat, x: Links, m: Nodes, table: seq<HashNode?>, chains: seq<seq<int>>,
                                     key: int, ins: HashNode, x': Links)
    requires Filed(func, chains, m.Keys) && AllLinked(x, m, table, chains) && table != []
    requires x' == if IsLinked(m, key, ins) then x[key := null] else x
    ensures var cut := Cut(func, chains, m, key, ins);
      Linked(x', m, table[func(key) % |table|], cut) && Once(cut) && (key in cut <==> key in m)
  {
    var ks, cut := BucketOf(func, chains, key), Cut(func, chains, m, key, ins);
    assert key in ks <==> key in m;
    if IsLinked(m, key, ins) {
      UpToEnds(ks, key);
      LinkedCut(x, m, table[func(key) % |table|], ks, |cut| - 1);
    }
  }

  /** The bucket of `key` after the insertion, when all behind `cut` has been lost. */
  lemma {:induction false} InsertFiled(func: int -> nat, chains: seq<seq<int>>, keys: set<int>, key: int,
                                       cut: seq<int>, ks: seq<int>, lost: set<int>)
    requires Filed(func, chains, keys) && chains != []
    requires var old_ := chains[func(key) % |chains|];
      |cut| <= |old_| && cut == old_[..|cut|] && (key in old_ ==> key in cut) && lost == Behind(old_, |cut|)
    requires Once(ks) && forall k :: k in ks <==> k in cut || k == key
    ensures key !in lost && Filed(func, chains[func(key) % |chains| := ks], keys + {key} - lost)
  {
    var j0 := func(key) % |chains|;
    var old_, new_ := chains[j0], chains[j0 := ks];
    assert old_ == cut + old_[|cut|..];
    forall k | k in cut ensures k !in lost {
    }
    forall j, k | 0 <= j < |new_| ensures k in new_[j] <==> k in keys + {key} - lost && func(k) % |new_| == j {
      assert k in chains[j] <==> k in keys && func(k) % |chains| == j;
      if k in lost {
        assert k in old_;
      }
    }
  }

  /** The keys of a chain from position `n` on. */
  function Behind(ks: seq<int>, n: nat): set<int>
    requires n <= |ks|
  {
    set k | k in ks[n..]
  }

  lemma {:induction false} RemoveFiled(func: int -> nat, chains: seq<seq<int>>, keys: set<int>, key: int, p: nat)
    requires Filed(func, chains, keys) && chains != [] && p < |chains[func(key) % |chains|]|
    requires chains[func(key) % |chains|][p] == key
    ensures var j := func(key) % |chains|; Filed(func, chains[j := Without(chains[j], p)], keys - {key})
  {
    var j0 := func(key) % |chains|;
    var ks := chains[j0];
    var out := Without(ks, p);
    var new_ := chains[j0 := out];
    assert ks == ks[..p] + [key] + ks[p + 1..];
    assert forall k :: k in out <==> k in ks && k != key;
    forall j, k | 0 <= j < |new_| ensures k in new_[j] <==> k in keys - {key} && func(k) % |new_| == j {
      assert k in chains[j] <==> k in keys && func(k) % |chains| == j;
    }
  }

  // ----------------------------------------------------------------- rehashing

  /** A node goes to the front of bucket `j`. */
  lemma {:induction false} PushLinked(x: Links, m: Nodes, table: seq<HashNode?>, b: seq<seq<int>>, k: int, j: nat)
    requires AllLinked(x, m, table, b) && k in m && j < |table| && forall i :: 0 <= i < |b| ==> k !in b[i]
    ensures AllLinked(x[k := table[j]], m, table[j := m[k]], b[j := [k] + b[j]])
  {
    var x' := x[k := table[j]];
    forall i | 0 <= i < |table| ensures Linked(x', m, table[i], b[i]) {
      LinkedFrame(x, m, x', m, table[i], b[i]);
    }
    assert ([k] + b[j])[1..] == b[j];
  }

  /** A node of bucket `i` has not been moved before its turn. */
  lemma {:induction false} NotMoved(func: int -> nat, chains: seq<seq<int>>, keys: set<int>, i: nat, c: nat, size: nat)
    requires Filed(func, chains, keys) && i < |chains| && c < |chains[i]| && size > 0
    ensures forall j :: 0 <= j < size ==> chains[i][c] !in Buckets(func, Flat(chains[..i]) + chains[i][..c], size)[j]
  {
    var k, done := chains[i][c], Flat(chains[..i]) + chains[i][..c];
    FlatHas(chains[..i], k);
    assert k in chains[i] && func(k) % |chains| == i;
    assert k !in done;
    forall j | 0 <= j < size ensures k !in Buckets(func, done, size)[j] {
      BucketHas(func, done, size, j);
    }
  }

  lemma {:induction false} EmptyLinked(func: int -> nat, x: Links, m: Nodes, table: seq<HashNode?>)
    requires |table| > 0 && forall j :: 0 <= j < |table| ==> table[j] == null
    ensures AllLinked(x, m, table, Buckets(func, [], |table|))
  {
  }

  // ----------------------------------------------------------- the new chain

  /** The walk of `hash_insert`, which relinks each node in front of the last. */
  method Walk(start: HashNode?, ins: HashNode, key: int, ghost m: Nodes, ghost ks: seq<int>)
    returns (cur: HashNode, old_: HashNode?)
    requires Keyed(m) && ins.key == key && ins.next == null && Linked(Nexts(m), m, start, ks) && Once(ks)
    modifies m.Values`next
    ensures Linked(Nexts(m[key := ins]), m[key := ins], cur, Turned(ks, key))
    ensures old_ == (if key in ks && key in m then m[key] else null) && ins.next == null
    ensures Unchanged(old(Nexts(m)), Nexts(m[key := ins]), ks, key)
  {
    hide Linked, Turned;
    ghost var m', i := m[key := ins], 0;
    var n := start;
    cur, old_ := ins, null;
    assert ks[0..] == ks && Turned(ks[..0], key) == [key] by { TurnedStart(ks, key); }
    LinkedLast(Nexts(m'), m', key);
    LinkedStep(Nexts(m), m, n, ks);
    while n != null
      invariant 0 <= i <= |ks| && (n == null <==> i == |ks|) && ins.next == null
      invariant Linked(Nexts(m), m, n, ks[i..]) && Linked(Nexts(m'), m', cur, Turned(ks[..i], key))
      invariant old_ == if key in ks[..i] && key in m then m[key] else null
      invariant forall k :: k in m && k !in ks ==> m[k].next == old(m[k].next)
      decreases |ks| - i
    {
      LinkedStep(Nexts(m), m, n, ks[i..]);
      assert ks[..i + 1] == ks[..i] + [ks[i]] && n.key == ks[i..][0] == ks[i];
      if n.key == key {
        old_ := n;
      }
      n, cur := WalkStep(n, cur, ins, key, m, ks, i);
      i := i + 1;
    }
    assert ks[..i] == ks;
  }

  lemma {:induction false} TurnedStart(ks: seq<int>, key: int)
    ensures Turned(ks[..0], key) == [key]
  {
  }

  method WalkStep(n: HashNode, cur0: HashNode, ins: HashNode, key: int, ghost m: Nodes, ghost ks: seq<int>,
                  ghost i: nat)
    returns (next: HashNode?, cur: HashNode)
    requires Keyed(m) && ins.key == key && i < |ks| && Once(ks)
    requires Linked(Nexts(m), m, n, ks[i..])
    requires Linked(Nexts(m[key := ins]), m[key := ins], cur0, Turned(ks[..i], key))
    modifies n`next
    ensures Linked(Nexts(m), m, next, ks[i + 1..]) && (next == null <==> i + 1 == |ks|)
    ensures Linked(Nexts(m[key := ins]), m[key := ins], cur, Turned(ks[..i + 1], key))
    ensures n.key == key ==> n.next == old(n.next)
    ensures forall k :: k in m && (k != ks[i] || k == key) ==> m[k].next == old(m[k].next)
  {
    hide Linked;
    next, cur := n.next, cur0;
    LinkedStep(Nexts(m), m, n, ks[i..]);
    assert ks[i..][1..] == ks[i + 1..] && ks[..i + 1] == ks[..i] + [ks[i]] && ks[..i + 1][..i] == ks[..i];
    if n.key != key {
      TurnedHas(ks[..i], key);
      assert n.key == ks[i..][0] == ks[i] && ks[i] !in ks[..i];
      Prepend(n, cur, next, m, m[key := ins], ks[i..], Turned(ks[..i], key));
      cur := n;
    }
    LinkedStep(Nexts(m), m, next, ks[i + 1..]);
  }

  /** `n->next = cur`, for the first node of one list, which is not in the other. */
  method Prepend(n: HashNode, cur: HashNode, next: HashNode?, ghost m: Nodes, ghost m': Nodes, ghost rest: seq<int>,
                 ghost out: seq<int>)
    requires Keyed(m) && Keyed(m') && n.next == next && rest != [] && Once(rest) && rest[0] !in out
    requires Linked(Nexts(m), m, n, rest) && Linked(Nexts(m'), m', cur, out) && rest[0] in m' && m'[rest[0]] == n
    modifies n`next
    ensures Linked(Nexts(m), m, next, rest[1..]) && Linked(Nexts(m'), m', n, [rest[0]] + out)
    ensures forall k :: k in m && k != rest[0] ==> m[k].next == old(m[k].next)
  {
    ghost var x, x' := Nexts(m), Nexts(m');
    n.next := cur;
    assert forall k :: k in m' && k != rest[0] ==> m'[k] != n;
    LinkedFrame(x, m, Nexts(m), m, next, rest[1..]);
    LinkedFrame(x', m', Nexts(m'), m', cur, out);
    assert ([rest[0]] + out)[1..] == out;
  }

  /** All chains are linked when the bucket of `key` has its new chain and what was
      behind `cut` is lost. */
  lemma {:induction false} PutLinked(func: int -> nat, x: Links, m: Nodes, table: seq<HashNode?>, chains: seq<seq<int>>,
                                     key: int, x': Links, m': Nodes, cur: HashNode?, ks: seq<int>)
    requires Filed(func, chains, m.Keys) && AllLinked(x, m, table, chains) && table != []
    requires var old_ := chains[func(key) % |chains|];
      forall k :: k in m && k !in old_ ==> SameAt(x, m, x', m', k)
    requires Linked(x', m', cur, ks)
    ensures var j := func(key) % |chains|; AllLinked(x', m', table[j := cur], chains[j := ks])
  {
    var j0 := func(key) % |chains|;
    forall j | 0 <= j < |table| && j != j0 ensures Linked(x', m', table[j], chains[j]) {
      LinkedFrame(x, m, x', m', table[j], chains[j]);
    }
  }

  /** Only the pointers of `key` and of the nodes in `ks` have changed. */
  ghost predicate Unchanged(x: Links, x': Links, ks: seq<int>, key: int) {
    forall k :: k in x && k !in ks && k != key ==> k in x' && x'[k] == x[k]
  }

  /** After the walk. */
  lemma {:induction false} PutDone(func: int -> nat, x: Links, m: Nodes, table: seq<HashNode?>, chains: seq<seq<int>>,
                                   key: int, ins: HashNode, x': Links, cur: HashNode)
    requires Filed(func, chains, m.Keys) && AllLinked(x, m, table, chains) && table != [] && x.Keys == m.Keys
    requires var cut := Cut(func, chains, m, key, ins);
      Linked(x', m[key := ins], cur, Turned(cut, key)) && Unchanged(x, x', cut, key)
    ensures var lost := Lost(func, chains, m, key, ins);
      && key !in lost && lost <= m.Keys
      && Filed(func, Put(func, chains, m, key, ins), (m[key := ins] - lost).Keys)
      && AllLinked(x' - lost, m[key := ins] - lost, table[func(key) % |table| := cur], Put(func, chains, m, key, ins))
  {
    var m', j := m[key := ins], func(key) % |table|;
    var ks, cut, lost := chains[j], Cut(func, chains, m, key, ins), Lost(func, chains, m, key, ins);
    CutKeeps(func, chains, m, key, ins);
    TurnedHas(cut, key);
    InsertFiled(func, chains, m.Keys, key, cut, Turned(cut, key), lost);
    assert (m' - lost).Keys == m.Keys + {key} - lost;
    forall k | k in Turned(cut, key) ensures SameAt(x', m', x' - lost, m' - lost, k) {
      assert k !in lost;
    }
    LinkedFrame(x', m', x' - lost, m' - lost, cur, Turned(cut, key));
    forall k | k in m && k !in ks ensures SameAt(x, m, x' - lost, m' - lost, k) {
      assert k !in cut && k !in lost;
    }
    PutLinked(func, x, m, table, chains, key, x' - lost, m' - lost, cur, Turned(cut, key));
  }

  lemma {:induction false} CutKeeps(func: int -> nat, chains: seq<seq<int>>, m: Nodes, key: int, ins: HashNode)
    requires Filed(func, chains, m.Keys) && chains != []
    ensures var ks, cut := BucketOf(func, chains, key), Cut(func, chains, m, key, ins);
      && |cut| <= |ks| && cut == ks[..|cut|] && (key in ks ==> key in cut) && Once(cut)
      && (forall k :: k in cut ==> k !in Behind(ks, |cut|)) && Behind(ks, |cut|) <= m.Keys
  {
    var ks := BucketOf(func, chains, key);
    if key in ks {
      UpToEnds(ks, key);
    }
    forall k | k in ks ensures k in m {
    }
  }

  lemma {:induction false} PutFirstDone(func: int -> nat, x: Links, m: Nodes, table: seq<HashNode?>,
                                        chains: seq<seq<int>>, key: int, ins: HashNode, x': Links)
    requires Filed(func, chains, m.Keys) && AllLinked(x, m, table, chains) && table != [] && x.Keys == m.Keys
    requires key !in m && key in x' && x'[key] == table[func(key) % |table|] && Unchanged(x, x', [], key)
    ensures var j := func(key) % |table|;
      && Filed(func, chains[j := [key] + chains[j]], m[key := ins].Keys)
      && AllLinked(x', m[key := ins], table[j := ins], chains[j := [key] + chains[j]])
  {
    var m', j := m[key := ins], func(key) % |table|;
    var ks := chains[j];
    OnceFront(ks, key);
    assert ks[..|ks|] == ks && Behind(ks, |ks|) == {};
    InsertFiled(func, chains, m.Keys, key, ks, [key] + ks, {});
    assert m'.Keys == m.Keys + {key} - {};
    forall k | k in m ensures SameAt(x, m, x', m', k) {
    }
    LinkedFrame(x, m, x', m', table[j], ks);
    assert ([key] + ks)[1..] == ks;
    PutLinked(func, x, m, table, chains, key, x', m', ins, [key] + ks);
  }

  /** After the node at position `p` has been unlinked. */
  lemma {:induction false} RemoveDone(func: int -> nat, x: Links, m: Nodes, table: seq<HashNode?>,
                                      chains: seq<seq<int>>, key: int, p: nat, x': Links, head: HashNode?)
    requires Filed(func, chains, m.Keys) && AllLinked(x, m, table, chains) && table != []
    requires var ks := BucketOf(func, chains, key);
      && p < |ks| && ks[p] == key && Linked(x', m, head, Without(ks, p))
      && forall k :: k in m && k !in ks ==> SameAt(x, m, x', m, k)
    ensures var j := func(key) % |table|;
      && Filed(func, chains[j := Without(chains[j], p)], (m - {key}).Keys)
      && AllLinked(x' - {key}, m - {key}, table[j := head], chains[j := Without(chains[j], p)])
  {
    var j, x2, m2 := func(key) % |table|, x' - {key}, m - {key};
    var ks, out := chains[j], Without(chains[j], p);
    RemoveFiled(func, chains, m.Keys, key, p);
    assert m2.Keys == m.Keys - {key};
    assert key !in out;
    LinkedFrame(x', m, x2, m2, head, out);
    forall k | k in m && k !in ks ensures SameAt(x, m, x2, m2, k) {
      assert k != key && SameAt(x, m, x', m, k);
    }
    PutLinked(func, x, m, table, chains, key, x2, m2, head, out);
  }

  /** A node that is not in the table has nothing behind it. */
  lemma {:induction false} NothingLost(func: int -> nat, chains: seq<seq<int>>, m: Nodes, key: int, ins: HashNode)
    ensures ins !in m.Values || key !in m ==> Lost(func, chains, m, key, ins) == {}
  {
    var ks := BucketOf(func, chains, key);
    assert ks[|ks|..] == [];
    assert key in m ==> m[key] in m.Values;
  }

  /** A key is lost exactly if the number of nodes is not what it should be. */
  lemma {:induction false} CountAfter(m: Nodes, key: int, ins: HashNode, lost: set<int>)
    requires lost <= m.Keys && key !in lost
    ensures |m[key := ins]| == |m| + (if key in m then 0 else 1)
    ensures |m[key := ins] - lost| == |m[key := ins]| <==> lost == {}
    ensures lost == {} ==> m[key := ins] - lost == m[key := ins]
  {
    var m' := m[key := ins];
    assert m'.Keys == m.Keys + {key} && |m'.Keys| == |m'| && |m.Keys| == |m|;
    assert (m' - lost).Keys == m'.Keys - lost && |(m' - lost).Keys| == |m' - lost|;
    assert lost <= m'.Keys && |m'.Keys - lost| == |m'.Keys| - |lost|;
  }

  lemma {:induction false} Narrow(func: int -> nat, m: Nodes, lost: set<int>)
    requires Coded(func, m)
    ensures Nexts(m - lost) == Nexts(m) - lost && Coded(func, m - lost)
  {
  }

  class Table {
    const func: int -> nat
    var table: seq<HashNode?>
    var count: nat
    ghost var contents: Nodes
    ghost var chains: seq<seq<int>>

    /** Every node of `contents` is linked into the bucket of its code, and no other
        node is. */
    ghost predicate Shaped()
      reads this`table, this`chains, this`contents, contents.Values
    {
      && Filed(func, chains, contents.Keys) && Coded(func, contents)
      && AllLinked(Nexts(contents), contents, table, chains)
    }

    /** The table refines the finite map `contents`. */
    ghost predicate Valid()
      reads this, contents.Values
    {
      true == (Shaped() && count == |contents| && count <= |table|)
    }

    /** `hash_init` */
    constructor (func: int -> nat)
      ensures Valid() && this.func == func && contents == map[] && table == []
    {
      this.func := func;
      table, count, contents, chains := [], 0, map[], [];
    }

    /** Moving every node to a table of another size. */
    method Rehash(size: nat)
      requires Shaped() && size > 0
      modifies this`table, this`chains, contents.Values`next
      ensures Shaped() && |table| == size && chains == Buckets(func, Flat(old(chains)), size)
    {
      hide Linked, Filed, Bucket;
      var new_: seq<HashNode?> := seq(size, _ => null);
      EmptyLinked(func, Nexts(contents), contents, new_);
      var i := 0;
      while i < |table|
        invariant 0 <= i <= |table| && table == old(table) && chains == old(chains)
        invariant AllLinked(Nexts(contents), contents, new_, Buckets(func, Flat(chains[..i]), size))
        invariant forall j :: i <= j < |table| ==> Linked(Nexts(contents), contents, table[j], chains[j])
      {
        new_ := RehashChain(new_, i);
        assert chains[..i + 1][..i] == chains[..i];
        i := i + 1;
      }
      assert chains[..i] == chains;
      Rehashed(func, chains, contents.Keys, size);
      table, chains := new_, Buckets(func, Flat(chains), size);
    }

    method RehashChain(new0: seq<HashNode?>, i: nat) returns (new_: seq<HashNode?>)
      requires i < |table| == |chains| && |new0| > 0 && Filed(func, chains, contents.Keys) && Coded(func, contents)
      requires AllLinked(Nexts(contents), contents, new0, Buckets(func, Flat(chains[..i]), |new0|))
      requires forall j :: i <= j < |table| ==> Linked(Nexts(contents), contents, table[j], chains[j])
      modifies contents.Values`next
      ensures |new_| == |new0|
      ensures AllLinked(Nexts(contents), contents, new_, Buckets(func, Flat(chains[..i]) + chains[i], |new0|))
      ensures forall j :: i < j < |table| ==> Linked(Nexts(contents), contents, table[j], chains[j])
    {
      new_ := new0;
      ghost var x0 := Nexts(contents);
      var n := table[i];
      ghost var c, ks, done := 0, chains[i], Flat(chains[..i]);
      assert ks[0..] == ks && done + ks[..0] == done;
      while n != null
        invariant 0 <= c <= |ks| && |new_| == |new0| && Linked(Nexts(contents), contents, n, ks[c..])
        invariant AllLinked(Nexts(contents), contents, new_, Buckets(func, done + ks[..c], |new0|))
        invariant forall k :: k in contents && k !in ks ==> contents[k].next == x0[k]
        decreases |ks| - c
      {
        NotMoved(func, chains, contents.Keys, i, c, |new0|);
        assert ks[c..][1..] == ks[c + 1..] && done + ks[..c + 1] == done + ks[..c] + [ks[c]];
        new_, n := MoveNode(new_, n, ks[c..], done + ks[..c]);
        c := c + 1;
      }
      assert ks[..c] == ks;
      forall j | i < j < |table| ensures Linked(Nexts(contents), contents, table[j], chains[j]) {
        LinkedFrame(x0, contents, Nexts(contents), contents, table[j], chains[j]);
      }
    }

    /** The node `n` goes to the front of its new bucket. */
    method MoveNode(new0: seq<HashNode?>, n: HashNode, ghost rest: seq<int>, ghost done: seq<int>)
      returns (new_: seq<HashNode?>, next: HashNode?)
      requires |new0| > 0 && Coded(func, contents) && rest != [] && Once(rest)
      requires AllLinked(Nexts(contents), contents, new0, Buckets(func, done, |new0|))
      requires Linked(Nexts(contents), contents, n, rest)
      requires forall j :: 0 <= j < |new0| ==> rest[0] !in Buckets(func, done, |new0|)[j]
      modifies n`next
      ensures |new_| == |new0|
      ensures AllLinked(Nexts(contents), contents, new_, Buckets(func, done + [rest[0]], |new0|))
      ensures Linked(Nexts(contents), contents, next, rest[1..])
      ensures forall k :: k in contents && k != rest[0] ==> contents[k].next == old(contents[k].next)
    {
      ghost var x, k := Nexts(contents), rest[0];
      var j := n.code % |new0|;
      PushLinked(x, contents, new0, Buckets(func, done, |new0|), k, j);
      BucketsPush(func, done, k, |new0|);
      next := n.next;
      SetNext(n, new0[j], contents);
      new_ := new0[j := n];
      LinkedFrame(x, contents, Nexts(contents), contents, next, rest[1..]);
    }

    /** `hash_capacity_hint` */
    method CapacityHint(hint: nat, mem: Allocator) returns (ok: bool)
      requires Shaped() && count == |contents|
      modifies this`table, this`chains, contents.Values`next, mem`asked
      ensures mem.Served(old(mem.asked), if hint >= count && old(|table|) != SizeFor(hint) then 1 else 0, ok)
      ensures hint >= count && old(|table|) != SizeFor(hint) ==> ok == mem.Grants(old(mem.asked))
      ensures Shaped() && (!ok || hint < count ==> table == old(table) && chains == old(chains))
      ensures ok && hint >= count ==> |table| == SizeFor(hint) && |table| >= hint && Prime(|table|)
      ensures ok && hint >= count ==> chains == old(Resized(chains, SizeFor(hint)))
    {
      hide Shaped;
      if hint < count {
        return true;
      }
      Sized(this);
      var size := TableSize(hint);
      if |table| == size {
        return true;
      }
      ok := mem.Request();
      if ok {
        Rehash(size);
      }
    }

    /** The chains in a table of the given size. */
    ghost function Resized(c: seq<seq<int>>, size: nat): seq<seq<int>> {
      if |c| == size then c else Buckets(func, Flat(c), if size > 0 then size else 1)
    }

    /** `hash_find` */
    method Find(key: int) returns (n: HashNode?)
      requires Shaped()
      ensures n == if key in contents then contents[key] else null
    {
      hide Linked;
      n := null;
      if |table| == 0 {
        assert key !in contents.Keys;
      } else {
        var code := func(key);
        n := table[code % |table|];
        ghost var ks, i := chains[code % |table|], 0;
        assert ks[0..] == ks && (key in ks <==> key in contents);
        LinkedStep(Nexts(contents), contents, n, ks);
        while n != null && n.key != key
          invariant 0 <= i <= |ks| && (n == null <==> i == |ks|) && Linked(Nexts(contents), contents, n, ks[i..])
          invariant key !in ks[..i]
          decreases |ks| - i
        {
          LinkedStep(Nexts(contents), contents, n, ks[i..]);
          assert ks[i..][1..] == ks[i + 1..] && ks[..i + 1] == ks[..i] + [ks[i]];
          n := n.next;
          i := i + 1;
          LinkedStep(Nexts(contents), contents, n, ks[i..]);
        }
        LinkedStep(Nexts(contents), contents, n, ks[i..]);
        if n == null {
          assert ks[..i] == ks;
        } else {
          assert contents[ks[i]].key == ks[i];
        }
      }
    }

    /** The chains as `hash_insert` finds them, after making room for one more. */
    ghost function WithRoom(): seq<seq<int>>
      reads this
    {
      if count < |table| then chains else Resized(chains, SizeFor(count + 1))
    }

    method Grow(mem: Allocator) returns (ok: bool)
      requires Valid()
      modifies this`table, this`chains, contents.Values`next, mem`asked
      ensures mem.Served(old(mem.asked), if count < old(|table|) then 0 else 1, ok)
      ensures ok ==> |table| == if count < old(|table|) then old(|table|) else SizeFor(count + 1)
      ensures Valid() && (ok ==> count < |table| && chains == old(WithRoom()))
      ensures !ok ==> table == old(table) && chains == old(chains)
    {
      ok := true;
      if count >= |table| {
        ok := CapacityHint(count + 1, mem);
      }
    }

    /** `hash_insert`: `prehashed` promises that the node carries its code, `unique` that the
        key is not there yet. A node that is in the table already loses what is linked
        behind it. */
    method Insert(key: int, ins: HashNode, prehashed: bool, unique: bool, mem: Allocator)
      returns (ok: bool, old_: HashNode?)
      requires Valid() && ins.key == key && (unique ==> key !in contents) && (prehashed ==> ins.code == func(key))
      modifies this, ins`code, ins`next, contents.Values`next, mem`asked
      ensures mem.Served(old(mem.asked), if old(count) < old(|table|) then 0 else 1, ok)
      ensures ok ==> |table| == if old(count) < old(|table|) then old(|table|) else SizeFor(old(count) + 1)
      ensures !ok ==> Valid() && contents == old(contents) && chains == old(chains)
      ensures ok ==> Shaped() && contents == old(contents)[key := ins] - old(Lost(func, WithRoom(), contents, key, ins))
      ensures ok ==> old_ == if key in old(contents) then old(contents)[key] else null
      ensures ok ==> count == |old(contents)[key := ins]| <= |table|
      ensures ok ==> (Valid() && contents == old(contents)[key := ins] <==>
        old(Safe(func, WithRoom(), contents, key, ins)))
      ensures ok ==> (Valid() <==> old(Safe(func, WithRoom(), contents, key, ins)))
      ensures ok && ins !in old(contents).Values ==> Valid() && contents == old(contents)[key := ins]
      ensures ok && !unique ==> chains == old(Put(func, WithRoom(), contents, key, ins))
    {
      hide Shaped, Lost, Put, WithRoom, Safe, SizeFor, Allocator.Served;
      old_ := null;
      ok := Grow(mem);
      if ok {
        old_ := InsertInRoom(key, ins, prehashed, unique);
      }
    }

    /** `hash_insert` after making room. */
    method InsertInRoom(key: int, ins: HashNode, prehashed: bool, unique: bool) returns (old_: HashNode?)
      requires Valid() && ins.key == key && (unique ==> key !in contents) && (prehashed ==> ins.code == func(key))
      requires count < |table|
      modifies this`table, this`chains, this`contents, this`count, ins`code, ins`next, contents.Values`next
      ensures Shaped() && contents == old(contents)[key := ins] - old(Lost(func, chains, contents, key, ins))
      ensures |table| == old(|table|) && count == |old(contents)[key := ins]| <= |table|
      ensures old_ == if key in old(contents) then old(contents)[key] else null
      ensures Valid() <==> old(Safe(func, chains, contents, key, ins))
      ensures Valid() ==> contents == old(contents)[key := ins]
      ensures ins !in old(contents).Values ==> Valid()
      ensures !unique ==> chains == old(Put(func, chains, contents, key, ins))
    {
      hide Shaped, Lost, Put, Safe;
      old_ := null;
      ghost var m, lost := contents, Lost(func, chains, contents, key, ins);
      NothingLost(func, chains, m, key, ins);
      SafeNow(key, ins);
      if unique {
        CountAfter(m, key, ins, lost);
        PutFirst(key, ins, prehashed);
        count := count + 1;
      } else {
        old_ := PutLast(key, ins, prehashed);
        CountAfter(m, key, ins, lost);
        if old_ == null {
          count := count + 1;
        }
      }
    }

    lemma {:induction false} SafeNow(key: int, ins: HashNode)
      requires Shaped()
      ensures Lost(func, chains, contents, key, ins) == {} <==> Safe(func, chains, contents, key, ins)
    {
      SafeIff(func, chains, contents, key, ins);
    }

    /** The node is put in front of its bucket. */
    method PutFirst(key: int, ins: HashNode, prehashed: bool)
      requires Shaped() && |table| > 0 && ins.key == key && key !in contents && (prehashed ==> ins.code == func(key))
      modifies this`table, this`chains, this`contents, ins`code, ins`next
      ensures Shaped() && |table| == old(|table|) && contents == old(contents)[key := ins]
    {
      hide Linked, Filed;
      ghost var x, m := Nexts(contents), contents[key := ins];
      Clear(key, ins, prehashed);
      var j := ins.code % |table|;
      ins.next := table[j];
      PutFirstDone(func, x, contents, table, chains, key, ins, Nexts(m));
      Store(table[j := ins], m, chains[j := [key] + chains[j]]);
    }

    method Clear(key: int, ins: HashNode, prehashed: bool)
      requires Coded(func, contents) && ins.key == key && (prehashed ==> ins.code == func(key))
      modifies ins`next, ins`code
      ensures ins.next == null && ins.code == func(key) && Coded(func, contents)
      ensures Nexts(contents) ==
        if IsLinked(contents, key, ins) then old(Nexts(contents))[key := null] else old(Nexts(contents))
    {
      SetNext(ins, null, contents);
      if !prehashed {
        ins.code := func(key);
      }
    }

    method Store(table: seq<HashNode?>, ghost contents: Nodes, ghost chains: seq<seq<int>>)
      requires Filed(func, chains, contents.Keys) && Coded(func, contents)
      requires AllLinked(Nexts(contents), contents, table, chains)
      modifies this`table, this`contents, this`chains
      ensures Shaped() && this.table == table && this.contents == contents && this.chains == chains
    {
      hide Filed, AllLinked;
      this.table, this.contents, this.chains := table, contents, chains;
    }

    /** The node is put at the end of its bucket, in place of one with its key. */
    method PutLast(key: int, ins: HashNode, prehashed: bool) returns (old_: HashNode?)
      requires Shaped() && |table| > 0 && ins.key == key && (prehashed ==> ins.code == func(key))
      modifies this`table, this`chains, this`contents, ins`code, ins`next, contents.Values`next
      ensures Shaped() && |table| == old(|table|)
      ensures contents == old(contents)[key := ins] - old(Lost(func, chains, contents, key, ins))
      ensures old(Lost(func, chains, contents, key, ins)) <= old(contents).Keys - {key}
      ensures chains == old(Put(func, chains, contents, key, ins))
      ensures old_ == if key in old(contents) then old(contents)[key] else null
    {
      hide Linked, Filed, Nexts, Cut, Turned, Lost, Put;
      ghost var x, m, cut := Nexts(contents), contents, Cut(func, chains, contents, key, ins);
      Clear(key, ins, prehashed);
      var j := ins.code % |table|;
      CutLinked(func, x, m, table, chains, key, ins, Nexts(m));
      var cur;
      cur, old_ := Walk(table[j], ins, key, m, cut);
      PutDone(func, x, m, table, chains, key, ins, Nexts(m[key := ins]), cur);
      Narrow(func, m[key := ins], Lost(func, chains, m, key, ins));
      Store(table[j := cur], m[key := ins] - Lost(func, chains, m, key, ins), Put(func, chains, m, key, ins));
    }

    /** `hash_remove`. A node that is not in the table changes nothing but, perhaps,
        the size. The table must have been allocated: the code divides by its size. */
    method Remove(n: HashNode, mem: Allocator)
      requires Valid() && |table| > 0
      modifies this, contents.Values`next, mem`asked
      ensures Valid() && count == |contents|
      ensures |table| ==
        if count * 4 < old(|table|) && mem.Grants(old(mem.asked)) then SizeFor(count) else old(|table|)
      ensures contents == if IsLinked(old(contents), n.key, n) then old(contents) - {n.key} else old(contents)
    {
      hide Shaped, SizeFor, Allocator.Granted;
      ghost var m := contents;
      var found := TakeOut(n);
      if found {
        assert m.Keys == (m - {n.key}).Keys + {n.key};
        count := count - 1;
      }
      if count * 4 < |table| {
        var ok := CapacityHint(count, mem);
      }
    }

    method TakeOut(n: HashNode) returns (found: bool)
      requires Shaped() && |table| > 0
      modifies this`table, this`chains, this`contents, contents.Values`next
      ensures Shaped() && |table| == old(|table|) && (found <==> IsLinked(old(contents), n.key, n))
      ensures contents == if found then old(contents) - {n.key} else old(contents)
    {
      hide Linked, Filed;
      var j := n.code % |table|;
      if table[j] == n {
        TakeFirst(j, n);
        return true;
      }
      var s, i := FindBefore(j, n);
      if s == null {
        return false;
      }
      TakeBehind(j, s, n, i);
      return true;
    }

    method TakeFirst(j: nat, n: HashNode)
      requires Shaped() && j < |table| && j == n.code % |table| && table[j] == n
      modifies this`table, this`chains, this`contents
      ensures Shaped() && |table| == old(|table|) && IsLinked(old(contents), n.key, n)
      ensures contents == old(contents) - {n.key}
    {
      hide Linked, Filed;
      ghost var ks, x, m := chains[j], Nexts(contents), contents;
      LinkedStep(x, m, table[j], ks);
      assert n.key == ks[0] && Without(ks, 0) == ks[1..];
      RemoveDone(func, x, m, table, chains, n.key, 0, x, n.next);
      Narrow(func, m, {n.key});
      Store(table[j := n.next], m - {n.key}, chains[j := Without(ks, 0)]);
    }

    method TakeBehind(j: nat, s: HashNode, n: HashNode, ghost i: nat)
      requires Shaped() && j < |table| && j == n.code % |table| && i + 1 < |chains[j]| && chains[j][i + 1] == n.key
      requires IsLinked(contents, n.key, n) && IsLinked(contents, chains[j][i], s)
      modifies this`table, this`chains, this`contents, s`next
      ensures Shaped() && |table| == old(|table|) && contents == old(contents) - {n.key}
    {
      hide Linked;
      ghost var ks, x, m := chains[j], Nexts(contents), contents;
      LinkedSkip(x, m, table[j], ks, i + 1);
      SetNext(s, n.next, m);
      assert Nexts(m) == x[ks[i] := x[n.key]];
      RemoveDone(func, x, m, table, chains, n.key, i + 1, Nexts(m), table[j]);
      Narrow(func, m, {n.key});
      assert table[j := table[j]] == table;
      Store(table, m - {n.key}, chains[j := Without(ks, i + 1)]);
    }

    /** The node whose pointer leads to `n`, if there is one. */
    method FindBefore(j: nat, n: HashNode) returns (s: HashNode?, ghost i: nat)
      requires Shaped() && j < |table| && j == n.code % |table| && table[j] != n
      ensures s != null ==> i + 1 < |chains[j]| && chains[j][i] in contents && s == contents[chains[j][i]]
      ensures s != null ==> chains[j][i + 1] == n.key && IsLinked(contents, n.key, n)
      ensures s == null <==> !IsLinked(contents, n.key, n)
    {
      hide Linked;
      s, i := table[j], 0;
      ghost var ks, x := chains[j], Nexts(contents);
      assert ks[0..] == ks;
      LinkedKeys(x, contents, s, ks);
      LinkedStep(x, contents, s, ks);
      while s != null && s.next != n
        invariant 0 <= i <= |ks| && (s == null <==> i == |ks|) && Linked(x, contents, s, ks[i..])
        invariant forall q :: 0 <= q <= i && q < |ks| ==> ks[q] in contents && contents[ks[q]] != n
        decreases |ks| - i
      {
        LinkedStep(x, contents, s, ks[i..]);
        assert ks[i..][1..] == ks[i + 1..];
        LinkedStep(x, contents, s.next, ks[i + 1..]);
        s, i := s.next, i + 1;
      }
      if s != null {
        LinkedStep(x, contents, s, ks[i..]);
        assert ks[i..][1..] == ks[i + 1..];
        LinkedStep(x, contents, n, ks[i + 1..]);
        assert contents[ks[i + 1]].key == ks[i + 1];
      }
    }
  }

  // -------------------------------------------------- a node inserted twice

  /** All keys have the code 0, and these are in its bucket. */
  ghost predicate AllInOne(t: Table, ks: seq<int>)
    reads t, t.contents.Values
  {
    && t.Valid() && (forall k :: t.func(k) == 0)
    && t.count < |t.table| && 3 <= |t.table| == |t.chains| && t.chains[0] == ks
  }

  lemma {:induction false} Sized(t: Table)
    requires t.Shaped()
    ensures |t.table| == |t.chains|
  {
  }

  lemma {:induction false} PutLastInZero(func: int -> nat, chains: seq<seq<int>>, m: Nodes, key: int, n: HashNode)
    requires func(key) == 0 && chains != [] && n !in m.Values
    ensures Put(func, chains, m, key, n) == chains[0 := Turned(chains[0], key)]
  {
    assert key in m ==> m[key] in m.Values;
  }

  method PutIn(t: Table, key: int, n: HashNode, ghost ks: seq<int>, mem: Allocator) returns (ok: bool)
    requires AllInOne(t, ks) && n.key == key && n !in t.contents.Values && t.count < 2
    modifies t, n`code, n`next, t.contents.Values`next, mem`asked
    ensures mem.asked == old(mem.asked) && ok
    ensures ok ==> AllInOne(t, Turned(ks, key)) && t.contents == old(t.contents)[key := n]
  {
    hide Turned, Table.Shaped, Put, Lost, Safe;
    CountAfter(t.contents, key, n, {});
    PutLastInZero(t.func, t.chains, t.contents, key, n);
    var o;
    ok, o := t.Insert(key, n, false, false, mem);
    if ok {
      Sized(t);
    }
  }

  lemma {:induction false} ExampleChains()
    ensures Turned([], 1) == [1] && Turned([1], 2) == [1, 2] && UpTo([1, 2], 1) == [1] && Behind([1, 2], 1) == {2}
  {
    assert [1][..0] == [] && Turned([], 2) == [2];
    assert [1, 2][1..] == [2];
  }

  /** Two nodes in one bucket, and the first of them inserted again: the second is lost,
      and is still counted. */
  method InsertTwice(mem: Allocator) returns (ok: bool, count: nat, found: HashNode?)
    modifies mem`asked
    ensures ok <==> mem.Grants(old(mem.asked))
    ensures ok ==> count == 2 && found == null
  {
    hide Table.Shaped, Turned;
    count, found := 0, null;
    ExampleChains();
    var t := NewTable(mem);
    var x := new HashNode(1);
    var y := new HashNode(2);
    ok := t != null;
    if ok {
      ok := PutIn(t, 1, x, [], mem);
    }
    if ok {
      ok := PutIn(t, 2, y, [1], mem);
    }
    if ok {
      ok, count, found := PutAgain(t, x, y, mem);
    }
  }

  method NewTable(mem: Allocator) returns (t: Table?)
    modifies mem`asked
    ensures t != null <==> mem.Grants(old(mem.asked))
    ensures t != null ==> fresh(t) && AllInOne(t, []) && t.contents == map[]
  {
    hide Table.Shaped, Table.Valid, Buckets;
    t := new Table(_ => 0);
    ValidIs(t);
    Sized(t);
    var ok := t.CapacityHint(3, mem);
    if ok {
      Sized(t);
      NothingIn(t.func, |t.table|);
      ValidIs(t);
    } else {
      t := null;
    }
  }

  lemma {:induction false} ValidIs(t: Table)
    ensures t.Valid() <==> t.Shaped() && t.count == |t.contents| <= |t.table|
  {
  }

  lemma {:induction false} NothingIn(func: int -> nat, size: nat)
    requires size > 0
    ensures |Buckets(func, Flat([]), size)| == size && Buckets(func, Flat([]), size)[0] == []
  {
  }

  lemma {:induction false} LostInZero(func: int -> nat, chains: seq<seq<int>>, x: HashNode, y: HashNode)
    requires func(1) == 0 && chains != [] && chains[0] == [1, 2]
    ensures Lost(func, chains, map[1 := x, 2 := y], 1, x) == {2}
  {
    ExampleChains();
  }

  method PutAgain(t: Table, x: HashNode, y: HashNode, mem: Allocator)
    returns (ok: bool, count: nat, found: HashNode?)
    requires AllInOne(t, [1, 2]) && t.contents == map[1 := x, 2 := y] && x.key == 1
    modifies t, x`code, x`next, t.contents.Values`next, mem`asked
    ensures ok
    ensures ok ==> count == 2 && found == null
  {
    hide Turned, UpTo, Behind, Table.Shaped, Put, Safe, Lost;
    count, found := 0, null;
    LostInZero(t.func, t.chains, x, y);
    assert t.contents[1 := x] == t.contents;
    var o;
    ok, o := t.Insert(1, x, false, false, mem);
    if ok {
      count := t.count;
      found := t.Find(2);
    }
  }
}
