/** What the repair cases of `repair_after_remove` do to the pointer structure,
    before their rotations. */
module RbtRemoveCases {
  import opened RbtTree
  import opened RbtStore
  import opened RbtInsert
  import opened RbtCases

  ghost function Repaint(h: Store, c: Cell): Store
    requires c.node in h
  {
    h[c.node := Painted(h[c.node], c)]
  }

  lemma {:induction false} RepaintKid(h: Store, root: RbtNode?, path: Path, d: bool, e: bool, a: Tree, x: Cell, b: Tree,
                                      s: Cell, y: Tree, p: RbtNode?, n: RbtNode?, x': Cell)
    requires At(h, root, path, Join(d, Join(e, a, x, b), s, y), p, n)
    requires x'.node == x.node && x'.load == x.load
    ensures s.node in h && x.node in h && x.node != s.node && h[x.node].Holds(x)
    ensures At(Repaint(h, x'), root, path, Join(d, Join(e, a, x', b), s, y), p, n)
  {
    var t := Join(e, a, x, b);
    MoveDown(h, root, path, d, t, s, y, p, n);
    JoinRep(h, e, a, x, b, n, h[s.node].Kid(d));
    Paint(h, root, Step(d, s, y, path), e, a, x, b, n, h[s.node].Kid(d), x');
    MoveUp(Repaint(h, x'), root, d, s, y, path, Join(e, a, x', b), n, x.node);
    JoinNodes(d, t, s, y);
    JoinNodes(e, a, x, b);
  }

  /** Parent and sibling repainted, seen from the parent. */
  lemma {:induction false} FamilyAt(h: Store, root: RbtNode?, d: bool, c: Cell, x: Tree, s: Cell, y: Tree, up: Path,
                                    t: Tree,
                                    p: RbtNode?, n: RbtNode?, c': Cell, s': Cell)
    requires At(h, root, Step(d, c, Join(d, x, s, y), up), t, p, n)
    requires c'.node == c.node && c'.load == c.load && s'.node == s.node && s'.load == s.load
    ensures p == c.node && c.node in h && s.node in h && s.node != c.node && h[c.node].Holds(c) && h[s.node].Holds(s)
    ensures At(Repaint(Repaint(h, c'), s'), root, up, Join(d, t, c', Join(d, x, s', y)), h[c.node].parent, c.node)
  {
    var o := Join(d, x, s, y);
    var q := h[c.node].parent;
    MoveUp(h, root, d, c, o, up, t, p, n);
    JoinRep(h, d, t, c, o, q, c.node);
    Paint(h, root, up, d, t, c, o, q, c.node, c');
    RepaintKid(h, root, up, !d, d, x, s, y, c, t, q, c.node, s);
    RepaintKid(Repaint(h, c'), root, up, !d, d, x, s, y, c', t, q, c.node, s');
  }

  /** Sibling and near nephew repainted, seen from the sibling. */
  lemma {:induction false} NearNephewAt(h: Store, root: RbtNode?, d: bool, c: Cell, a: Tree, x: Cell, b: Tree, s: Cell,
                                        y: Tree,
                                        up: Path, t: Tree, p: RbtNode?, n: RbtNode?, s': Cell, x': Cell)
    requires At(h, root, Step(d, c, Join(d, Join(d, a, x, b), s, y), up), t, p, n)
    requires x'.node == x.node && x'.load == x.load && s'.node == s.node && s'.load == s.load
    ensures p == c.node && c.node in h && s.node in h && x.node in h && x.node != s.node
    ensures h[s.node].Holds(s) && h[x.node].Holds(x) && h[s.node].parent == c.node && h[s.node].Kid(d) == x.node
    ensures h[c.node].Kid(!d) == s.node
    ensures At(Repaint(Repaint(h, s'), x'), root, Step(!d, c, t, up),
               Join(!d, y, s', Join(!d, b, x', a)), c.node, s.node)
  {
    var i := Join(d, a, x, b);
    var o := Join(d, i, s, y);
    var q := h[c.node].parent;
    MoveUp(h, root, d, c, o, up, t, p, n);
    MoveDown(h, root, up, !d, o, c, t, q, c.node);
    JoinRep(h, d, i, s, y, c.node, h[c.node].Kid(!d));
    RepRoot(h, i, s.node, h[s.node].Kid(d));
    Paint(h, root, Step(!d, c, t, up), d, i, s, y, c.node, s.node, s');
    RepaintKid(h, root, Step(!d, c, t, up), d, d, a, x, b, s, y, c.node, s.node, x);
    RepaintKid(Repaint(h, s'), root, Step(!d, c, t, up), d, d, a, x, b, s', y, c.node, s.node, x');
  }

  /** Parent, sibling and far nephew repainted, seen from the parent. */
  lemma {:induction false} FarNephewAt(h: Store, root: RbtNode?, d: bool, c: Cell, x: Tree, s: Cell, a: Tree, y: Cell,
                                       b: Tree,
                                       up: Path, t: Tree, p: RbtNode?, n: RbtNode?, c': Cell, s': Cell, y': Cell)
    requires At(h, root, Step(d, c, Join(d, x, s, Join(d, a, y, b)), up), t, p, n)
    requires c'.node == c.node && c'.load == c.load && s'.node == s.node && s'.load == s.load
    requires y'.node == y.node && y'.load == y.load
    ensures p == c.node && c.node in h && s.node in h && y.node in h
    ensures c.node != s.node && y.node != s.node && y.node != c.node
    ensures h[c.node].Holds(c) && h[s.node].Holds(s) && h[y.node].Holds(y) && h[s.node].Kid(!d) == y.node
    ensures At(Repaint(Repaint(Repaint(h, s'), c'), y'), root, up,
               Join(d, t, c', Join(d, x, s', Join(d, a, y', b))), h[c.node].parent, c.node)
  {
    var f, f' := Join(d, a, y, b), Join(d, a, y', b);
    var q := h[c.node].parent;
    FamilyAt(h, root, d, c, x, s, f, up, t, p, n, c', s');
    var h1 := Repaint(Repaint(h, c'), s');
    assert h1 == Repaint(Repaint(h, s'), c');
    MoveDown(h1, root, up, !d, Join(d, x, s', f), c', t, q, c.node);
    RepaintKid(h1, root, Step(!d, c', t, up), !d, d, a, y, b, s', x, c.node, h1[c.node].Kid(!d), y');
    var h2 := Repaint(h1, y');
    MoveUp(h2, root, !d, c', t, up, Join(d, x, s', f'), c.node, h1[c.node].Kid(!d));
    assert y.node != c.node && h[s.node].Kid(!d) == y.node by {
      MoveUp(h, root, d, c, Join(d, x, s, f), up, t, p, n);
      JoinNodes(d, t, c, Join(d, x, s, f));
      JoinNodes(d, x, s, f);
      JoinNodes(d, a, y, b);
      JoinRep(h, d, t, c, Join(d, x, s, f), q, c.node);
      JoinRep(h, d, x, s, f, c.node, h[c.node].Kid(!d));
      RepRoot(h, f, s.node, h[s.node].Kid(!d));
    }
  }

  /** After the rotation of the sibling, back to the short subtree. */
  lemma {:induction false} NearNephewBack(h: Store, root: RbtNode?, d: bool, c: Cell, a: Tree, x: Cell, b: Tree,
                                          s: Cell, y: Tree,
                                          up: Path, t: Tree, p: RbtNode?, n: RbtNode?)
    requires At(h, root, Step(!d, c, t, up), Join(!d, Join(!d, y, s, b), x, a), p, x.node)
    requires t.Leaf? ==> n == null
    requires t.Bin? ==> n == t.cell.node
    ensures At(h, root, Step(d, c, Join(d, a, x, Join(d, b, s, y)), up), t, p, n)
    ensures s.node in h && h[s.node].parent == x.node
  {
    var o := Join(d, a, x, Join(d, b, s, y));
    MoveUp(h, root, !d, c, t, up, o, p, x.node);
    MoveDown(h, root, up, d, t, c, o, h[c.node].parent, c.node);
    JoinRep(h, d, a, x, Join(d, b, s, y), p, x.node);
    JoinRep(h, d, b, s, y, x.node, h[x.node].Kid(!d));
  }

  /** The colours the repair reads below the sibling. */
  lemma {:induction false} KidColours(h: Store, st: Tree, p: RbtNode?, s: RbtNode?)
    requires Rep(h, st, p, s) && st.Bin?
    ensures s == st.cell.node && s in h && h[s].red == st.cell.red
    ensures h[s].left != null ==> h[s].left in h
    ensures h[s].right != null ==> h[s].right in h
    ensures IsRed(st.left) <==> h[s].left != null && h[h[s].left].red
    ensures IsRed(st.right) <==> h[s].right != null && h[h[s].right].red
  {
    RepRoot(h, st.left, s, h[s].left);
    RepRoot(h, st.right, s, h[s].right);
  }
}
