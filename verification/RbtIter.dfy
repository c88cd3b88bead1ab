/** src/rbt_iter.c and `rbt_find` of src/rbt.c: moving through a tree without
    changing it. */
module RbtIter {
  import opened RbtTree
  import opened RbtStore
  import opened RbtUnlink
  import opened Rbt
  import opened RbtRange

  /** The first (`d`) or the last node of a subtree. */
  ghost function End(t: Tree, d: bool): RbtNode
    requires t.Bin?
  {
    if d then InOrder(t)[0] else InOrder(t)[|InOrder(t)| - 1]
  }

  lemma {:induction false} EndBelow(t: Tree, d: bool)
    requires t.Bin?
    ensures End(t, d) == if Sub(t, d).Bin? then End(Sub(t, d), d) else t.cell.node
  {
    assert InOrder(t) == InOrder(t.left) + [t.cell.node] + InOrder(t.right);
    if Sub(t, d).Bin? {
      assert |InOrder(Sub(t, d))| > 0;
    }
  }

  /** Left (`d`) or right as far as possible. */
  method Down(tr: RbTree, n0: RbtNode, d: bool, ghost t: Tree) returns (n: RbtNode)
    requires LeadsTo(tr, n0, t)
    ensures t.Bin? && n == End(t, d)
  {
    n := n0;
    ghost var u := t;
    LeadsDown(tr, n, u);
    var next := if d then n.left else n.right;
    EndBelow(u, d);
    LeadsNowhere(tr, next, Sub(u, d));
    while next != null
      invariant LeadsTo(tr, n, u) && u.Bin? && u.cell.node == n && End(u, d) == End(t, d)
      invariant n in tr.nodes && next == (if d then n.left else n.right) && LeadsTo(tr, next, Sub(u, d))
      invariant (next != null <==> Sub(u, d).Bin?) && (next == null ==> End(u, d) == n)
      decreases u
    {
      n, u := next, Sub(u, d);
      LeadsDown(tr, n, u);
      next := if d then n.left else n.right;
      EndBelow(u, d);
      LeadsNowhere(tr, next, Sub(u, d));
    }
  }

  /** `rbt_iter_first` */
  method First(tr: RbTree) returns (n: RbtNode?)
    requires tr.Valid()
    ensures n == if InOrder(tr.tree) == [] then null else InOrder(tr.tree)[0]
    ensures n != null ==> n in tr.nodes && forall x :: x in tr.nodes ==> n.key <= x.key
  {
    n := Extreme(tr, true);
    Extremes(tr);
  }

  /** `rbt_iter_last` */
  method Last(tr: RbTree) returns (n: RbtNode?)
    requires tr.Valid()
    ensures n == if InOrder(tr.tree) == [] then null else InOrder(tr.tree)[|InOrder(tr.tree)| - 1]
    ensures n != null ==> n in tr.nodes && forall x :: x in tr.nodes ==> x.key <= n.key
  {
    n := Extreme(tr, false);
    Extremes(tr);
  }

  /** The ends of the in-order sequence are nodes with the least and the greatest key. */
  lemma {:induction false} Extremes(tr: RbTree)
    requires tr.Valid()
    ensures var s := InOrder(tr.tree); s != [] ==> s[0] in tr.nodes && s[|s| - 1] in tr.nodes
    ensures var s := InOrder(tr.tree);
      s != [] ==> forall x :: x in tr.nodes ==> s[0].key <= x.key <= s[|s| - 1].key
  {
    var s := InOrder(tr.tree);
    if s != [] {
      assert s[0] in s && s[|s| - 1] in s;
      NodesInOrder(tr.tree, s[0]);
      NodesInOrder(tr.tree, s[|s| - 1]);
      forall x | x in tr.nodes ensures s[0].key <= x.key <= s[|s| - 1].key {
        NodesInOrder(tr.tree, x);
        var i :| 0 <= i < |s| && s[i] == x;
        assert i > 0 ==> s[0].key < s[i].key;
        assert i < |s| - 1 ==> s[i].key < s[|s| - 1].key;
      }
    }
  }

  method Extreme(tr: RbTree, d: bool) returns (n: RbtNode?)
    requires tr.Valid()
    ensures n == null <==> InOrder(tr.tree) == []
    ensures n != null ==> n == if d then InOrder(tr.tree)[0] else InOrder(tr.tree)[|InOrder(tr.tree)| - 1]
  {
    n := tr.root;
    RepRoot(tr.Heap(), tr.tree, null, tr.root);
    if n != null {
      n := Down(tr, n, d, tr.tree);
    }
  }

  /** The nodes on the side to which iteration goes. */
  ghost function Beyond(path: Path, d: bool): seq<RbtNode> { if d then After(path) else Before(path) }

  ghost function Nearest(s: seq<RbtNode>, d: bool): RbtNode?
  {
    if s == [] then null else if d then s[0] else s[|s| - 1]
  }

  /** Up until the next node on that side. */
  method Climb(tr: RbTree, n0: RbtNode, d: bool, ghost path: Path, ghost t: Tree) returns (r: RbtNode?)
    requires n0 in tr.nodes && At(tr.Heap(), tr.root, path, t, n0.parent, n0)
    ensures r == Nearest(Beyond(path, d), d)
  {
    var n := n0;
    ghost var p, u := path, t;
    while n.parent != null && (if d then n.parent.right else n.parent.left) == n
      invariant n in tr.nodes && At(tr.Heap(), tr.root, p, u, n.parent, n) && Beyond(p, d) == Beyond(path, d)
      decreases p
    {
      UpStep(tr, n, d, p, u);
      u := Join(p.leftward, u, p.cell, p.sibling);
      p := p.up;
      n := n.parent;
    }
    UpEnd(tr, n, d, p, u);
    r := n.parent;
  }

  lemma {:induction false} UpStep(tr: RbTree, n: RbtNode, d: bool, p: Path, u: Tree)
    requires n in tr.nodes && At(tr.Heap(), tr.root, p, u, n.parent, n)
    requires n.parent != null && (if d then n.parent.right else n.parent.left) == n
    ensures n.parent in tr.nodes && p.Step? && p.leftward == !d && Beyond(p.up, d) == Beyond(p, d)
    ensures At(tr.Heap(), tr.root, p.up, Join(p.leftward, u, p.cell, p.sibling), n.parent.parent, n.parent)
  {
    assert p.Step?;
    SiblingAt(tr.Heap(), tr.root, p.leftward, p.cell, p.sibling, p.up, u, n.parent, n);
    MoveUp(tr.Heap(), tr.root, p.leftward, p.cell, p.sibling, p.up, u, n.parent, n);
  }

  lemma {:induction false} UpEnd(tr: RbTree, n: RbtNode, d: bool, p: Path, u: Tree)
    requires n in tr.nodes && At(tr.Heap(), tr.root, p, u, n.parent, n)
    requires n.parent != null && n.parent in tr.nodes ==> (if d then n.parent.right else n.parent.left) != n
    ensures n.parent == Nearest(Beyond(p, d), d)
  {
    if p.Step? {
      SiblingAt(tr.Heap(), tr.root, p.leftward, p.cell, p.sibling, p.up, u, n.parent, n);
      assert n.parent == p.cell.node && n.parent in tr.nodes;
    }
  }

  ghost predicate FollowsAt(s: seq<RbtNode>, n: RbtNode, r: RbtNode?, d: bool, i: int)
  {
    0 <= i < |s| && s[i] == n &&
    if d then r == (if i + 1 < |s| then s[i + 1] else null) else r == (if i > 0 then s[i - 1] else null)
  }

  /** `r` follows `n` in `s` (`d`), or comes before it; at the end there is nothing. */
  ghost predicate Follows(s: seq<RbtNode>, n: RbtNode, r: RbtNode?, d: bool) { exists i :: FollowsAt(s, n, r, d, i) }

  lemma {:induction false} Neighbours(a: seq<RbtNode>, n: RbtNode, b: seq<RbtNode>, d: bool)
    ensures Follows(a + [n] + b, n, Nearest(if d then b else a, d), d)
  {
    var s := a + [n] + b;
    assert s[|a|] == n;
    assert FollowsAt(s, n, Nearest(if d then b else a, d), d, |a|);
  }

  lemma {:induction false} NearestOf(x: seq<RbtNode>, y: seq<RbtNode>)
    ensures Nearest(x + y, true) == if x != [] then Nearest(x, true) else Nearest(y, true)
    ensures Nearest(x + y, false) == if y != [] then Nearest(y, false) else Nearest(x, false)
  {
  }

  /** What is next to the root of a subtree at the end of a path. */
  lemma {:induction false} NextTo(path: Path, t: Tree, d: bool)
    requires t.Bin?
    ensures Follows(InOrder(Plug(path, t)), t.cell.node,
                    if Sub(t, !d).Bin? then End(Sub(t, !d), d) else Nearest(Beyond(path, d), d), d)
  {
    hide Follows, Plug, Before, After, End;
    PlugInOrder(path, t);
    var n, l, r := t.cell.node, InOrder(t.left), InOrder(t.right);
    assert Before(path) + (l + [n] + r) + After(path) == (Before(path) + l) + [n] + (r + After(path));
    Neighbours(Before(path) + l, n, r + After(path), d);
    NearestOf(Before(path), l);
    NearestOf(r, After(path));
    SubNearest(Sub(t, !d), d);
  }

  lemma {:induction false} SubNearest(t: Tree, d: bool)
    ensures InOrder(t) == [] <==> t.Leaf?
    ensures t.Bin? ==> Nearest(InOrder(t), d) == End(t, d)
  {
  }

  method Neighbour(tr: RbTree, n: RbtNode, d: bool) returns (r: RbtNode?)
    requires tr.Valid() && n in tr.nodes
    ensures Follows(InOrder(tr.tree), n, r, d)
  {
    hide Follows, End;
    ghost var path, t := Locate(tr.Heap(), tr.root, Top, tr.tree, null, tr.root, n);
    NextTo(path, t, d);
    assert LeadsTo(tr, n, t);
    LeadsDown(tr, n, t);
    var k := if d then n.right else n.left;
    LeadsNowhere(tr, k, Sub(t, !d));
    if k != null {
      r := Down(tr, k, d, Sub(t, !d));
    } else {
      r := Climb(tr, n, d, path, t);
    }
  }

  lemma {:induction false} NeighbourInTree(tr: RbTree, n: RbtNode, r: RbtNode?, d: bool)
    requires tr.Valid() && Follows(InOrder(tr.tree), n, r, d)
    ensures r != null ==> r in tr.nodes
  {
    if r != null {
      var i :| FollowsAt(InOrder(tr.tree), n, r, d, i);
      assert r in InOrder(tr.tree);
      NodesInOrder(tr.tree, r);
    }
  }

  /** `rbt_iter_next` */
  method Next(tr: RbTree, n: RbtNode) returns (r: RbtNode?)
    requires tr.Valid() && n in tr.nodes
    ensures Follows(InOrder(tr.tree), n, r, true) && (r != null ==> r in tr.nodes)
  {
    r := Neighbour(tr, n, true);
    NeighbourInTree(tr, n, r, true);
  }

  /** `rbt_iter_prev` */
  method Prev(tr: RbTree, n: RbtNode) returns (r: RbtNode?)
    requires tr.Valid() && n in tr.nodes
    ensures Follows(InOrder(tr.tree), n, r, false) && (r != null ==> r in tr.nodes)
  {
    r := Neighbour(tr, n, false);
    NeighbourInTree(tr, n, r, false);
  }

  /** The nodes of a tree are those of its in-order sequence. */
  lemma {:induction false} NodesInOrder(t: Tree, x: RbtNode)
    ensures x in Nodes(t) <==> x in InOrder(t)
  {
    if t.Bin? {
      NodesInOrder(t.left, x);
      NodesInOrder(t.right, x);
    }
  }

  // ------------------------------------------------------------------- search

  ghost predicate HasKey(s: seq<RbtNode>, key: int) { exists i :: 0 <= i < |s| && s[i].key == key }

  /** `rbt_find` */
  method Find(tr: RbTree, key: int) returns (n: RbtNode?)
    requires tr.Valid()
    ensures n == null ==> !HasKey(InOrder(tr.tree), key)
    ensures n != null ==> n.key == key && n in InOrder(tr.tree)
  {
    n := tr.root;
    ghost var u := tr.tree;
    RepRoot(tr.Heap(), tr.tree, null, tr.root);
    while n != null
      invariant LeadsTo(tr, n, u) && Ascending(InOrder(u))
      invariant HasKey(InOrder(tr.tree), key) ==> HasKey(InOrder(u), key)
      invariant forall x :: x in InOrder(u) ==> x in InOrder(tr.tree)
      decreases u
    {
      LeadsDown(tr, n, u);
      assert n in InOrder(u);
      if key == n.key {
        return;
      }
      SearchBelow(u, key);
      if key < n.key {
        n, u := n.left, u.left;
      } else {
        n, u := n.right, u.right;
      }
    }
    LeadsNowhere(tr, n, u);
  }

  lemma {:induction false} SearchBelow(u: Tree, key: int)
    requires u.Bin? && Ascending(InOrder(u)) && key != u.cell.node.key
    ensures var v := if key < u.cell.node.key then u.left else u.right;
      Ascending(InOrder(v)) && (HasKey(InOrder(u), key) ==> HasKey(InOrder(v), key)) &&
      forall x :: x in InOrder(v) ==> x in InOrder(u)
  {
    var l, n, r := InOrder(u.left), u.cell.node, InOrder(u.right);
    assert InOrder(u) == l + [n] + r;
    SidesAscend(l, n, r);
    if HasKey(l + [n] + r, key) {
      KeyOnSide(l, n, r, key);
    }
  }

  lemma {:induction false} SidesAscend(l: seq<RbtNode>, n: RbtNode, r: seq<RbtNode>)
    requires Ascending(l + [n] + r)
    ensures Ascending(l) && Ascending(r)
  {
    var s := l + [n] + r;
    assert forall i :: 0 <= i < |l| ==> s[i] == l[i];
    forall i, j | 0 <= i < j < |r| ensures r[i].key < r[j].key {
      assert s[|l| + 1 + i] == r[i] && s[|l| + 1 + j] == r[j];
    }
  }

  lemma {:induction false} KeyOnSide(l: seq<RbtNode>, n: RbtNode, r: seq<RbtNode>, key: int)
    requires Ascending(l + [n] + r) && HasKey(l + [n] + r, key) && key != n.key
    ensures HasKey(if key < n.key then l else r, key)
  {
    var s := l + [n] + r;
    var i :| 0 <= i < |s| && s[i].key == key;
    assert s[|l|] == n;
    if i < |l| {
      assert l[i].key == key && s[i].key < s[|l|].key;
    } else {
      assert i > |l| && s[|l|].key < s[i].key;
      assert r[i - |l| - 1].key == key;
    }
  }

  /** The node lies below (`down`) or above the key, or at it unless `strict`. */
  predicate Beside(x: RbtNode, key: int, down: bool, strict: bool) {
    (!strict && x.key == key) || (if down then x.key < key else x.key > key)
  }

  /** `x` is no nearer to the key than `m`. */
  predicate NoNearer(x: RbtNode, m: RbtNode, down: bool) { if down then x.key <= m.key else x.key >= m.key }

  /** `r` is the nearest node beside the key, if there is one. */
  ghost predicate NearestBeside(s: seq<RbtNode>, key: int, down: bool, strict: bool, r: RbtNode?)
  {
    if r == null then
      forall x :: x in s ==> !Beside(x, key, down, strict)
    else
      && r in s
      && Beside(r, key, down, strict)
      && forall x :: x in s && Beside(x, key, down, strict) ==> NoNearer(x, r, down)
  }

  /** During the search: what is not below the current node is no nearer than `m`. */
  ghost predicate Narrowing(s: seq<RbtNode>, u: seq<RbtNode>, key: int, down: bool, strict: bool, m: RbtNode?)
  {
    true == (
      && Ascending(u) && (forall x :: x in u ==> x in s)
      && (m != null ==> m in s && Beside(m, key, down, strict) && forall x :: x in u ==> NoNearer(m, x, down))
      && (forall x :: x in s && Beside(x, key, down, strict) ==> x in u || (m != null && NoNearer(x, m, down))))
  }

  lemma {:induction false} Parts(l: seq<RbtNode>, n: RbtNode, r: seq<RbtNode>)
    requires Ascending(l + [n] + r)
    ensures Ascending(l) && Ascending(r)
    ensures (forall x :: x in l ==> x.key < n.key) && (forall x :: x in r ==> x.key > n.key)
    ensures forall x :: x in l + [n] + r <==> x in l || x == n || x in r
  {
    var u := l + [n] + r;
    SidesAscend(l, n, r);
    assert u[|l|] == n;
    forall x | x in l ensures x.key < n.key {
      var i :| 0 <= i < |l| && l[i] == x;
      assert u[i] == x;
    }
    forall x | x in r ensures x.key > n.key {
      var i :| 0 <= i < |r| && r[i] == x;
      assert u[|l| + 1 + i] == x;
    }
  }

  lemma {:induction false} NarrowStep(s: seq<RbtNode>, l: seq<RbtNode>, n: RbtNode, r: seq<RbtNode>, key: int,
                                      down: bool, strict: bool,
                                      m: RbtNode?)
    requires Narrowing(s, l + [n] + r, key, down, strict, m)
    ensures Beside(n, key, down, strict) ==> Narrowing(s, if down then r else l, key, down, strict, n)
    ensures !Beside(n, key, down, strict) ==> Narrowing(s, if down then l else r, key, down, strict, m)
  {
    hide Ascending;
    Parts(l, n, r);
    NarrowTo(s, l + [n] + r, l, n, r, key, down, strict, m);
  }

  lemma {:induction false} NarrowTo(s: seq<RbtNode>, u: seq<RbtNode>, l: seq<RbtNode>, n: RbtNode, r: seq<RbtNode>,
                                    key: int, down: bool,
                                    strict: bool, m: RbtNode?)
    requires Narrowing(s, u, key, down, strict, m) && Ascending(l) && Ascending(r)
    requires (forall x :: x in l ==> x.key < n.key) && (forall x :: x in r ==> x.key > n.key)
    requires forall x :: x in u <==> x in l || x == n || x in r
    ensures Beside(n, key, down, strict) ==> Narrowing(s, if down then r else l, key, down, strict, n)
    ensures !Beside(n, key, down, strict) ==> Narrowing(s, if down then l else r, key, down, strict, m)
  {
    hide Ascending;
    assert n in u;
  }

  /** The four searches differ in the side they look at and in whether an equal key
      counts. */
  method Search(tr: RbTree, key: int, down: bool, strict: bool) returns (m: RbtNode?)
    requires tr.Valid()
    ensures NearestBeside(InOrder(tr.tree), key, down, strict, m)
  {
    hide Narrowing, NearestBeside, Ascending;
    var n := tr.root;
    ghost var s, u := InOrder(tr.tree), tr.tree;
    m := null;
    RepRoot(tr.Heap(), tr.tree, null, tr.root);
    NarrowStart(s, key, down, strict);
    while n != null
      invariant LeadsTo(tr, n, u) && Narrowing(s, InOrder(u), key, down, strict, m)
      decreases u
    {
      LeadsDown(tr, n, u);
      assert InOrder(u) == InOrder(u.left) + [n] + InOrder(u.right);
      if !strict && key == n.key {
        NarrowHit(s, InOrder(u.left), n, InOrder(u.right), key, down, m);
        return n;
      }
      NarrowStep(s, InOrder(u.left), n, InOrder(u.right), key, down, strict, m);
      if Beside(n, key, down, strict) {
        m := n;
        n, u := if down then n.right else n.left, if down then u.right else u.left;
      } else {
        n, u := if down then n.left else n.right, if down then u.left else u.right;
      }
    }
    LeadsNowhere(tr, n, u);
    NarrowEnd(s, key, down, strict, m);
  }

  lemma {:induction false} NarrowStart(s: seq<RbtNode>, key: int, down: bool, strict: bool)
    requires Ascending(s)
    ensures Narrowing(s, s, key, down, strict, null)
  {
  }

  lemma {:induction false} NarrowEnd(s: seq<RbtNode>, key: int, down: bool, strict: bool, m: RbtNode?)
    requires Narrowing(s, [], key, down, strict, m)
    ensures NearestBeside(s, key, down, strict, m)
  {
  }

  lemma {:induction false} NarrowHit(s: seq<RbtNode>, l: seq<RbtNode>, n: RbtNode, r: seq<RbtNode>, key: int,
                                     down: bool, m: RbtNode?)
    requires Narrowing(s, l + [n] + r, key, down, false, m) && n.key == key
    ensures NearestBeside(s, key, down, false, n)
  {
    assert n in l + [n] + r;
  }

  /** `rbt_iter_le` */
  method Le(tr: RbTree, key: int) returns (r: RbtNode?)
    requires tr.Valid()
    ensures NearestBeside(InOrder(tr.tree), key, true, false, r)
  {
    r := Search(tr, key, true, false);
  }

  /** `rbt_iter_ge` */
  method Ge(tr: RbTree, key: int) returns (r: RbtNode?)
    requires tr.Valid()
    ensures NearestBeside(InOrder(tr.tree), key, false, false, r)
  {
    r := Search(tr, key, false, false);
  }

  /** `rbt_iter_lt` */
  method Lt(tr: RbTree, key: int) returns (r: RbtNode?)
    requires tr.Valid()
    ensures NearestBeside(InOrder(tr.tree), key, true, true, r)
  {
    r := Search(tr, key, true, true);
  }

  /** `rbt_iter_gt` */
  method Gt(tr: RbTree, key: int) returns (r: RbtNode?)
    requires tr.Valid()
    ensures NearestBeside(InOrder(tr.tree), key, false, true, r)
  {
    r := Search(tr, key, false, true);
  }
}
