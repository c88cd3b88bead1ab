/** The cases of `repair_after_insert`, on trees and paths. */
module RbtInsert {
  import opened RbtTree

  ghost function Black(c: Cell): Cell { c.(red := false) }
  ghost function Red(c: Cell): Cell { c.(red := true) }
  ghost function Marked(c: Cell): Cell { c.(modified := true) }

  /** What holds at each step of the climb: the subtree has a red root, and the
      only thing wrong with the tree can be that the root's parent is red too. */
  ghost predicate RedAt(path: Path, t: Tree)
  {
    true == (
      && IsRed(t) && NoRedRed(t) && Balanced(t)
      && NoRedRedPath(path, false) && BalancedPath(path, BlackCount(t))
      && IsMarked(t) && MarksSound(t) && MarkedPath(path))
  }

  /** A red-black tree with sound marks. */
  ghost predicate Sound(t: Tree) { true == (RedBlack(t) && MarksSound(t)) }

  ghost predicate SameOrder(path: Path, t: Tree, path': Path, t': Tree) {
    InOrder(Plug(path, t)) == InOrder(Plug(path', t'))
  }

  /** Two subtrees with the same nodes in order, at the same place. */
  lemma {:induction false} SameOrderHere(path: Path, t: Tree, t': Tree)
    requires InOrder(t) == InOrder(t')
    ensures SameOrder(path, t, path, t')
  {
    PlugInOrder(path, t);
    PlugInOrder(path, t');
  }

  lemma {:induction false} RotationOrder(d: bool, a: Tree, cn: Cell, c: Tree, cr: Cell, e: Tree)
    ensures InOrder(Join(d, a, cn, Join(d, c, cr, e))) == InOrder(Join(d, Join(d, a, cn, c), cr, e))
  {
    if d {
      Regroup(InOrder(a), [cn.node], InOrder(c), [cr.node], InOrder(e));
      assert InOrder(a) + [cn.node] + (InOrder(c) + [cr.node] + InOrder(e))
          == (InOrder(a) + [cn.node] + InOrder(c)) + [cr.node] + InOrder(e);
    } else {
      assert (InOrder(e) + [cr.node] + InOrder(c)) + [cn.node] + InOrder(a)
          == InOrder(e) + [cr.node] + (InOrder(c) + [cn.node] + InOrder(a));
    }
  }

  lemma {:induction false} JoinFacts(d: bool, x: Tree, c: Cell, y: Tree)
    ensures IsRed(Join(d, x, c, y)) == c.red && IsMarked(Join(d, x, c, y)) == c.modified
    ensures NoRedRed(Join(d, x, c, y)) <==> NoRedRed(x) && NoRedRed(y) && (c.red ==> !IsRed(x) && !IsRed(y))
    ensures Balanced(Join(d, x, c, y)) <==> Balanced(x) && Balanced(y) && BlackCount(x) == BlackCount(y)
    ensures BlackCount(x) == BlackCount(y) ==>
      BlackCount(Join(d, x, c, y)) == BlackCount(x) + if c.red then 0 else 1
    ensures MarksSound(Join(d, x, c, y)) ==> MarksSound(x) && MarksSound(y)
    ensures c.modified && MarksSound(x) && MarksSound(y) ==> MarksSound(Join(d, x, c, y))
  {
  }

  /** No parent: paint the root black. */
  lemma {:induction false} AtRoot(d: bool, x: Tree, c: Cell, y: Tree)
    requires RedAt(Top, Join(d, x, c, y))
    ensures Sound(Join(d, x, Black(c), y))
    ensures InOrder(Join(d, x, Black(c), y)) == InOrder(Join(d, x, c, y))
  {
  }

  /** Black parent: nothing to do. */
  lemma {:induction false} BlackParent(d: bool, c: Cell, s: Tree, up: Path, t: Tree)
    requires RedAt(Step(d, c, s, up), t) && !c.red
    ensures Sound(Plug(Step(d, c, s, up), t))
  {
    RedBlackPlug(Step(d, c, s, up), t);
    MarksPlug(Step(d, c, s, up), t);
  }

  /** Red parent and red uncle: recolour and climb two levels. */
  lemma {:induction false} RedUncle(d: bool, c: Cell, s: Tree, d2: bool, g: Cell,
                                    e: bool, x: Tree, u: Cell, y: Tree, up: Path, t: Tree)
    requires RedAt(Step(d, c, s, Step(d2, g, Join(e, x, u, y), up)), t) && c.red && u.red
    ensures RedAt(up, Join(d2, Join(d, t, Black(c), s), Red(g), Join(e, x, Black(u), y)))
    ensures SameOrder(Step(d, c, s, Step(d2, g, Join(e, x, u, y), up)), t,
                      up, Join(d2, Join(d, t, Black(c), s), Red(g), Join(e, x, Black(u), y)))
  {
    var u1, u2 := Join(e, x, u, y), Join(e, x, Black(u), y);
    var p1, p2 := Join(d, t, c, s), Join(d, t, Black(c), s);
    assert NoRedRedPath(Step(d2, g, u1, up), true) && BalancedPath(Step(d2, g, u1, up), BlackCount(t));
    assert MarkedPath(Step(d2, g, u1, up));
    JoinFacts(e, x, u, y);
    JoinFacts(e, x, Black(u), y);
    JoinFacts(d, t, c, s);
    JoinFacts(d, t, Black(c), s);
    JoinFacts(d2, p2, Red(g), u2);
    UncleMarks(e, x, u, y);
    assert InOrder(u1) == InOrder(u2) && InOrder(p1) == InOrder(p2);
    SameOrderHere(up, Join(d2, p1, g, u1), Join(d2, p2, Red(g), u2));
  }

  /** Marks do not depend on colours. */
  lemma {:induction false} UncleMarks(d: bool, x: Tree, c: Cell, y: Tree)
    requires MarksSound(Join(d, x, c, y))
    ensures MarksSound(Join(d, x, Black(c), y)) && MarksSound(Join(d, x, Red(c), y))
  {
    assert InOrder(Join(d, x, Black(c), y)) == InOrder(Join(d, x, c, y)) == InOrder(Join(d, x, Red(c), y));
  }

  /** Black uncle, node and parent on different sides: rotate the parent. The
      violation moves to the old parent, now below the node on the outer side. */
  lemma {:induction false} InnerNode(d: bool, c: Cell, s: Tree, g: Cell, u: Tree, up: Path,
                                     x: Tree, n: Cell, y: Tree)
    requires RedAt(Step(!d, c, s, Step(d, g, u, up)), Join(d, x, n, y)) && c.red
    ensures RedAt(Step(d, n, y, Step(d, g, u, up)), Join(d, s, c, x)) && n.red
    ensures SameOrder(Step(!d, c, s, Step(d, g, u, up)), Join(d, x, n, y),
                      Step(d, n, y, Step(d, g, u, up)), Join(d, s, c, x))
  {
    var t := Join(d, x, n, y);
    assert NoRedRedPath(Step(d, g, u, up), true) && BalancedPath(Step(d, g, u, up), BlackCount(t));
    assert MarkedPath(Step(d, g, u, up));
    JoinFacts(d, x, n, y);
    JoinFacts(d, s, c, x);
    RotationOrder(d, s, c, x, n, y);
    SameOrderHere(Step(d, g, u, up), Join(d, s, c, t), Join(d, Join(d, s, c, x), n, y));
  }

  /** Black uncle, node and parent on the same side: recolour and rotate the grandparent. */
  lemma {:induction false} OuterNode(d: bool, c: Cell, s: Tree, g: Cell, u: Tree, up: Path, t: Tree)
    requires RedAt(Step(d, c, s, Step(d, g, u, up)), t) && c.red && !IsRed(u)
    ensures Sound(Plug(up, Join(!d, Join(!d, u, Red(g), s), Black(c), t)))
    ensures SameOrder(Step(d, c, s, Step(d, g, u, up)), t, up, Join(!d, Join(!d, u, Red(g), s), Black(c), t))
  {
    var p, p' := Join(d, t, c, s), Join(!d, u, Red(g), s);
    var new_ := Join(!d, p', Black(c), t);
    assert NoRedRedPath(Step(d, g, u, up), true) && BalancedPath(Step(d, g, u, up), BlackCount(t));
    assert MarkedPath(Step(d, g, u, up));
    JoinFacts(!d, u, Red(g), s);
    JoinFacts(!d, p', Black(c), t);
    RedBlackPlug(up, new_);
    MarksPlug(up, new_);
    RotationOrder(!d, u, Red(g), s, Black(c), t);
    assert InOrder(Join(!d, u, Red(g), Join(!d, s, Black(c), t))) == InOrder(Join(d, p, g, u));
    SameOrderHere(up, Join(d, p, g, u), new_);
  }

  // ------------------------------------------------------- descent to the key

  ghost predicate Below(s: seq<RbtNode>, key: int) { forall i :: 0 <= i < |s| ==> s[i].key < key }
  ghost predicate Above(s: seq<RbtNode>, key: int) { forall i :: 0 <= i < |s| ==> key < s[i].key }

  /** What holds on the way down from the root, looking for `key` and marking
      every node passed. */
  ghost predicate Descending(path: Path, t: Tree, key: int, order: seq<RbtNode>)
  {
    true == (
      && RedBlack(Plug(path, t)) && MarkedPath(path) && MarksSound(t)
      && InOrder(Plug(path, t)) == order && Ascending(order)
      && Below(Before(path), key) && Above(After(path), key))
  }

  /** One step down, towards the smaller keys if `d`. */
  lemma {:induction false} Descend(path: Path, d: bool, x: Tree, c: Cell, y: Tree, key: int, order: seq<RbtNode>)
    requires Descending(path, Join(d, x, c, y), key, order) && (if d then key < c.node.key else c.node.key < key)
    ensures Descending(Step(d, Marked(c), y, path), x, key, order)
  {
    var t, m := Join(d, x, c, y), Join(d, x, Marked(c), y);
    assert InOrder(Plug(path, m)) == order by {
      assert InOrder(m) == InOrder(t);
      SameOrderHere(path, t, m);
    }
    assert RedBlack(Plug(path, m)) by {
      RedBlackPlug(path, t);
      RedBlackPlug(path, m);
      JoinFacts(d, x, c, y);
      JoinFacts(d, x, Marked(c), y);
    }
    JoinFacts(d, x, c, y);
    DescendKeys(path, d, x, c, y, key, order);
  }

  lemma {:induction false} DescendKeys(path: Path, d: bool, x: Tree, c: Cell, y: Tree, key: int, order: seq<RbtNode>)
    requires InOrder(Plug(path, Join(d, x, c, y))) == order && Ascending(order)
    requires Below(Before(path), key) && Above(After(path), key)
    requires if d then key < c.node.key else c.node.key < key
    ensures Below(Before(Step(d, Marked(c), y, path)), key) && Above(After(Step(d, Marked(c), y, path)), key)
  {
    PlugInOrder(path, Join(d, x, c, y));
    var b, a := Before(path), After(path);
    if d {
      BeyondNode(b, InOrder(x), c.node, InOrder(y), a);
      assert After(Step(d, Marked(c), y, path)) == [c.node] + (InOrder(y) + a);
    } else {
      BeyondNode(b, InOrder(y), c.node, InOrder(x), a);
      assert Before(Step(d, Marked(c), y, path)) == (b + InOrder(y)) + [c.node];
    }
  }

  /** In an ascending sequence everything left of a node is below it. */
  lemma {:induction false} BeyondNode(b: seq<RbtNode>, l: seq<RbtNode>, n: RbtNode, r: seq<RbtNode>, a: seq<RbtNode>)
    requires Ascending(b + (l + [n] + r) + a)
    ensures Below(b + l, n.key) && Above(r + a, n.key)
  {
    var s, k := b + (l + [n] + r) + a, |b| + |l|;
    assert s[k] == n && s[..k] == b + l && s[k + 1..] == r + a;
    forall i | 0 <= i < |b + l| ensures (b + l)[i].key < n.key { assert s[i] == (b + l)[i]; }
    forall i | 0 <= i < |r + a| ensures n.key < (r + a)[i].key { assert s[k + 1 + i] == (r + a)[i]; }
  }

  /** The descent ended at a null pointer: the key is not in the tree and a red
      leaf goes here. */
  lemma {:induction false} DescentEnds(path: Path, key: int, order: seq<RbtNode>, c: Cell)
    requires Descending(path, Leaf, key, order) && c.red && c.modified && c.node.key == key
    ensures RedAt(path, Bin(Leaf, c, Leaf))
    ensures order == Before(path) + After(path)
    ensures InOrder(Plug(path, Bin(Leaf, c, Leaf))) == Before(path) + [c.node] + After(path)
    ensures Ascending(Before(path) + [c.node] + After(path))
    ensures forall x <- order :: x.key != key
  {
    PlugInOrder(path, Leaf);
    PlugInOrder(path, Bin(Leaf, c, Leaf));
    RedBlackPlug(path, Leaf);
    assert Before(path) + [] + After(path) == Before(path) + After(path);
    assert InOrder(Bin(Leaf, c, Leaf)) == [c.node];
    InsertionAscends(Before(path), c.node, After(path));
  }

  lemma {:induction false} InsertionAscends(b: seq<RbtNode>, n: RbtNode, a: seq<RbtNode>)
    requires Ascending(b + a) && Below(b, n.key) && Above(a, n.key)
    ensures Ascending(b + [n] + a)
    ensures forall x <- b + a :: x.key != n.key
  {
    var s, s' := b + a, b + [n] + a;
    forall i, j | 0 <= i < j < |s'| ensures s'[i].key < s'[j].key {
      if i != |b| && j != |b| {
        assert s'[i] == s[if i < |b| then i else i - 1] && s'[j] == s[if j < |b| then j else j - 1];
      }
    }
  }

  lemma {:induction false} ReplacedInOrder(b: seq<RbtNode>, l: seq<RbtNode>, n: RbtNode, n': RbtNode,
                                           r: seq<RbtNode>, a: seq<RbtNode>)
    ensures (b + (l + [n] + r) + a)[|b| + |l|] == n
    ensures (b + (l + [n] + r) + a)[|b| + |l| := n'] == b + (l + [n'] + r) + a
  {
  }

  lemma {:induction false} ReplacedSound(path: Path, x: Tree, c: Cell, y: Tree, c': Cell)
    requires RedBlack(Plug(path, Bin(x, c, y))) && MarkedPath(path) && MarksSound(Bin(x, c, y))
    requires c'.red == c.red && c'.modified
    ensures Sound(Plug(path, Bin(x, c', y)))
  {
    RedBlackPlug(path, Bin(x, c, y));
    RedBlackPlug(path, Bin(x, c', y));
    MarksPlug(path, Bin(x, c', y));
  }

  /** The key was found: the node is replaced by one that takes over its flags. */
  lemma {:induction false} DescentFinds(path: Path, x: Tree, c: Cell, y: Tree, key: int, order: seq<RbtNode>, c': Cell)
    requires Descending(path, Bin(x, c, y), key, order) && c.node.key == key
    requires c'.node.key == key && c'.red == c.red && c'.modified
    ensures var k := |Before(path)| + |InOrder(x)|;
      k < |order| && order[k] == c.node && InOrder(Plug(path, Bin(x, c', y))) == order[k := c'.node]
    ensures Ascending(InOrder(Plug(path, Bin(x, c', y))))
    ensures Sound(Plug(path, Bin(x, c', y)))
  {
    hide Sound, Plug, Ascending;
    PlugInOrder(path, Bin(x, c, y));
    PlugInOrder(path, Bin(x, c', y));
    ReplacedInOrder(Before(path), InOrder(x), c.node, c'.node, InOrder(y), After(path));
    ReplacedAscends(order, |Before(path)| + |InOrder(x)|, c'.node);
    ReplacedSound(path, x, c, y, c');
  }

  lemma {:induction false} ReplacedAscends(s: seq<RbtNode>, k: nat, n: RbtNode)
    requires Ascending(s) && k < |s| && s[k].key == n.key
    ensures Ascending(s[k := n])
  {
  }
}
