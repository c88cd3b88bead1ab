/** When removing a timer calls the wake-up hook of io/waitq.c. `wset_remove`
    asks for the predecessor of a node that is no longer in the tree. A key stands
    for a deadline and an address, in the order of `cmp_by_deadline`. */
module WaitqHook {
  import opened Sequences
  import opened RbtTree
  import opened RbtStore
  import opened RbtInsert
  import opened RbtUnlink
  import opened Rbt
  import opened RbtRange
  import opened RbtIter

  /** A node outside the tree is nobody's child. */
  lemma {:induction false} NobodysChild(tr: RbTree, n: RbtNode, p: RbtNode)
    requires tr.Valid() && n !in tr.nodes && p in tr.nodes
    ensures p.left != n && p.right != n
  {
    AtLinked(tr.Heap(), tr.root, tr.tree);
    assert tr.Heap()[p] == RecOf(p);
  }

  /** `rbt_iter_prev` on a node that has been removed: down its left pointer if it
      has kept one; otherwise the climb ends where it starts. */
  method PrevOfRemoved(tr: RbTree, n: RbtNode) returns (r: RbtNode?)
    requires tr.Valid() && n !in tr.nodes
    requires (n.left != null ==> n.left in tr.nodes) && (n.parent != null ==> n.parent in tr.nodes)
    ensures r == null <==> n.left == null && n.parent == null
  {
    if n.left != null {
      ghost var path, t := Locate(tr.Heap(), tr.root, Top, tr.tree, null, tr.root, n.left);
      assert LeadsTo(tr, n.left, t);
      r := Down(tr, n.left, false, t);
    } else {
      if n.parent != null {
        NobodysChild(tr, n, n.parent);
      }
      r := n.parent;
    }
  }

  /** The root comes first exactly if it has no left child. */
  lemma {:induction false} RootIsFirst(t: Tree)
    requires t.Bin? && Distinct(t)
    ensures InOrder(t)[0] == t.cell.node <==> t.left.Leaf?
  {
    if t.left.Bin? {
      EndBelow(t, true);
      NodesInOrder(t.left, InOrder(t.left)[0]);
      assert InOrder(t.left)[0] in InOrder(t.left);
    }
  }

  /** The root of a red-black tree comes first only in a tree of at most two nodes. */
  lemma {:induction false} SmallTree(t: Tree)
    requires RedBlack(t) && t.Bin? && t.left.Leaf?
    ensures |InOrder(t)| <= 2
  {
    if t.right.Bin? {
      NoBlacks(t.right);
    }
  }

  lemma {:induction false} NoBlacks(t: Tree)
    requires t.Bin? && Balanced(t) && NoRedRed(t) && BlackCount(t) == 0
    ensures t.left.Leaf? && t.right.Leaf?
  {
  }

  ghost predicate FirstHas(s: seq<RbtNode>, key: int) { s != [] && s[0].key == key }

  lemma {:induction false} KeyDecides(s: seq<RbtNode>, i: nat, j: nat)
    requires Ascending(s) && i < |s| && j < |s| && s[i].key == s[j].key
    ensures i == j
  {
  }

  /** `wset_remove`. The hook runs exactly if the removed timer was both the earliest
      and the root of the tree: so it follows a change of the earliest timer exactly
      if that timer was the root, and with three timers or more it never runs. */
  method WsetRemove(tr: RbTree, key: int) returns (found: bool, wake: bool)
    requires tr.Valid()
    modifies tr, tr.nodes
    ensures tr.Valid() && (found <==> HasKey(old(InOrder(tr.tree)), key))
    ensures !found ==> !wake && InOrder(tr.tree) == old(InOrder(tr.tree))
    ensures found ==> Lost(old(InOrder(tr.tree)), key, InOrder(tr.tree))
    ensures found ==> old(tr.root) != null
    ensures found ==> (wake <==> FirstHas(old(InOrder(tr.tree)), key) && old(tr.root).key == key)
    ensures found ==> ((FirstHas(old(InOrder(tr.tree)), key) ==> wake) <==>
      !FirstHas(old(InOrder(tr.tree)), key) || old(tr.root).key == key)
    ensures |old(InOrder(tr.tree))| >= 3 ==> !wake
  {
    var n := Find(tr, key);
    if n == null {
      return false, false;
    }
    NodesInOrder(tr.tree, n);
    BeforeRemoval(tr, n);
    tr.Remove(n);
    var p := PrevOfRemoved(tr, n);
    return true, p == null;
  }

  /** The node with the key is gone, and only it. */
  ghost predicate Lost(s: seq<RbtNode>, key: int, s': seq<RbtNode>) {
    exists k: nat :: k < |s| && s[k].key == key && s' == Without(s, k)
  }

  /** What the pointers of a node say about its place. */
  lemma {:induction false} BeforeRemoval(tr: RbTree, n: RbtNode)
    requires tr.Valid() && n in tr.nodes
    ensures tr.root != null && (n.parent == null <==> n == tr.root) && (tr.root.key == n.key <==> n == tr.root)
    ensures n == tr.root ==> (n.left == null <==> FirstHas(InOrder(tr.tree), n.key))
    ensures n == tr.root && n.left == null ==> |InOrder(tr.tree)| <= 2
  {
    var t, s := tr.tree, InOrder(tr.tree);
    AtLinked(tr.Heap(), tr.root, t);
    assert tr.Heap()[n] == RecOf(n);
    RepRoot(tr.Heap(), t, null, tr.root);
    assert tr.root in tr.nodes;
    NodesInOrder(t, n);
    NodesInOrder(t, tr.root);
    var i :| 0 <= i < |s| && s[i] == n;
    var j :| 0 <= j < |s| && s[j] == tr.root;
    if n.key == tr.root.key {
      KeyDecides(s, i, j);
    }
    if n == tr.root {
      RepRoot(tr.Heap(), t.left, n, n.left);
      RootIsFirst(t);
      if FirstHas(s, n.key) {
        KeyDecides(s, 0, i);
      }
      if t.left.Leaf? {
        SmallTree(t);
      }
    }
  }

  // --------------------------------------------------------- the hook is missed

  lemma {:induction false} InsertedKeys(s: seq<RbtNode>, k: nat, n: RbtNode, key: int)
    requires k <= |s|
    ensures HasKey(s[..k] + [n] + s[k..], key) <==> HasKey(s, key) || n.key == key
  {
    var r := s[..k] + [n] + s[k..];
    assert r[k] == n;
    assert forall i :: 0 <= i < k ==> r[i] == s[i];
    assert forall i :: k <= i < |s| ==> r[i + 1] == s[i];
    if HasKey(r, key) {
      var i :| 0 <= i < |r| && r[i].key == key;
      assert i < k ==> s[i].key == key;
      assert i > k ==> s[i - 1].key == key;
    }
    if HasKey(s, key) {
      var i :| 0 <= i < |s| && s[i].key == key;
      assert r[if i < k then i else i + 1].key == key;
    }
  }

  method Enter(tr: RbTree, key: int, ghost others: set<int>)
    requires tr.Valid() && key !in others && (forall x :: HasKey(InOrder(tr.tree), x) <==> x in others)
    modifies tr, tr.nodes
    ensures tr.Valid() && fresh(tr.nodes - old(tr.nodes)) && |InOrder(tr.tree)| == old(|InOrder(tr.tree)|) + 1
    ensures forall x :: HasKey(InOrder(tr.tree), x) <==> x in others || x == key
  {
    var n := new RbtNode(key, 0);
    ghost var s := InOrder(tr.tree);
    var o := tr.Insert(key, n);
    ghost var r := InOrder(tr.tree);
    if o == null {
      ghost var k: nat :| k <= |s| && r == s[..k] + [n] + s[k..];
      forall x ensures HasKey(r, x) <==> x in others || x == key {
        InsertedKeys(s, k, n, x);
      }
    }
  }

  lemma {:induction false} ThreeKeys(s: seq<RbtNode>)
    requires Ascending(s) && |s| == 3 && HasKey(s, 1) && HasKey(s, 2) && HasKey(s, 3)
    ensures s[0].key == 1 && s[1].key == 2 && s[2].key == 3
  {
    var i :| 0 <= i < 3 && s[i].key == 1;
    var j :| 0 <= j < 3 && s[j].key == 2;
    var k :| 0 <= k < 3 && s[k].key == 3;
    assert i != 2 && j != 0 && j != 2;
  }

  lemma {:induction false} WithoutFirst(s: seq<RbtNode>, s': seq<RbtNode>)
    requires Ascending(s) && |s| == 3 && s[0].key == 1 && Lost(s, 1, s')
    ensures s' == s[1..]
  {
    var k: nat :| k < |s| && s[k].key == 1 && s' == Without(s, k);
    KeyDecides(s, 0, k);
  }

  /** With the deadlines 1, 2 and 3, removing 1 makes 2 the earliest, and the hook
      does not run. */
  method HookMissed() returns (before: int, wake: bool, after: int)
    ensures before == 1 && after == 2 && !wake
  {
    var tr := new RbTree();
    Enter(tr, 1, {});
    Enter(tr, 2, {1});
    Enter(tr, 3, {1, 2});
    ghost var s := InOrder(tr.tree);
    ThreeKeys(s);
    var first := First(tr);
    before := first.key;
    var found;
    found, wake := WsetRemove(tr, 1);
    WithoutFirst(s, InOrder(tr.tree));
    first := First(tr);
    after := first.key;
  }
}
