/** Pointer structures as values: what a set of nodes holds at one moment, when
    it has the shape of a tree, and how pointer updates change that shape. */
module RbtStore {
  import opened RbtTree

  datatype Rec = Rec(left: RbtNode?, right: RbtNode?, parent: RbtNode?,
                     red: bool, modified: bool, load: Payload)
  {
    ghost function Kid(d: bool): RbtNode? { if d then left else right }

    ghost function WithKid(d: bool, n: RbtNode?): Rec {
      if d then this.(left := n) else this.(right := n)
    }

    /** What `fix_downptr` does to the parent of `old_`. */
    ghost function Redirect(old_: RbtNode?, n: RbtNode?): Rec {
      WithKid(left == old_, n)
    }

    ghost predicate Holds(c: Cell) {
      red == c.red && modified == c.modified && load == c.load
    }
  }

  type Store = map<RbtNode, Rec>

  /** Pointer `n`, with parent `p`, is the root of a structure shaped like `t`. */
  ghost predicate Rep(h: Store, t: Tree, p: RbtNode?, n: RbtNode?)
  {
    match t
    case Leaf => n == null
    case Bin(l, c, r) =>
      && n == c.node && c.node in h && h[c.node].Holds(c) && h[c.node].parent == p
      && Rep(h, l, c.node, h[c.node].left) && Rep(h, r, c.node, h[c.node].right)
  }

  /** The pointers above `n`, up to `root`, are shaped like `path`, and `p` is
      the first node on it. */
  ghost predicate RepPath(h: Store, path: Path, root: RbtNode?, p: RbtNode?, n: RbtNode?)
  {
    match path
    case Top => p == null && root == n
    case Step(d, c, s, up) =>
      && p == c.node && c.node in h && h[c.node].Holds(c)
      && h[c.node].Kid(d) == n && Rep(h, s, c.node, h[c.node].Kid(!d))
      && RepPath(h, up, root, h[c.node].parent, c.node)
  }

  /** The store is one tree: `t` at the end of `path`, with `n` pointing at `t`
      and `p` the parent of `n`. */
  ghost predicate At(h: Store, root: RbtNode?, path: Path, t: Tree, p: RbtNode?, n: RbtNode?)
  {
    true == (
      && Distinct(t) && DistinctPath(path) && Nodes(t) !! PathNodes(path)
      && h.Keys == Nodes(t) + PathNodes(path)
      && Rep(h, t, p, n) && RepPath(h, path, root, p, n))
  }

  lemma {:induction false} RepRoot(h: Store, t: Tree, p: RbtNode?, n: RbtNode?)
    requires Rep(h, t, p, n)
    ensures n == null <==> t.Leaf?
    ensures n != null ==> n in Nodes(t) && n in h && h[n].parent == p
  {
  }

  lemma {:induction false} JoinRep(h: Store, d: bool, x: Tree, c: Cell, y: Tree, p: RbtNode?, n: RbtNode?)
    ensures Rep(h, Join(d, x, c, y), p, n) <==>
      && n == c.node && c.node in h && h[c.node].Holds(c) && h[c.node].parent == p
      && Rep(h, x, c.node, h[c.node].Kid(d)) && Rep(h, y, c.node, h[c.node].Kid(!d))
  {
  }

  lemma {:induction false} JoinNodes(d: bool, x: Tree, c: Cell, y: Tree)
    ensures Distinct(Join(d, x, c, y)) <==>
      && Distinct(x) && Distinct(y)
      && c.node !in Nodes(x) && c.node !in Nodes(y) && Nodes(x) !! Nodes(y)
    ensures Nodes(Join(d, x, c, y)) == Nodes(x) + {c.node} + Nodes(y)
  {
  }

  lemma {:induction false} RepFrame(h: Store, h': Store, t: Tree, p: RbtNode?, n: RbtNode?)
    requires Rep(h, t, p, n)
    requires forall x :: x in Nodes(t) && x in h ==> x in h' && h'[x] == h[x]
    ensures Rep(h', t, p, n)
  {
    if t.Bin? {
      RepFrame(h, h', t.left, n, h[n].left);
      RepFrame(h, h', t.right, n, h[n].right);
    }
  }

  /** The same subtree under another parent. */
  lemma {:induction false} RepMoved(h: Store, h': Store, t: Tree, p: RbtNode?, q: RbtNode?, n: RbtNode?)
    requires Rep(h, t, p, n) && Distinct(t)
    requires forall x :: x in Nodes(t) && x in h ==>
      x in h' && h'[x] == if x == n then h[x].(parent := q) else h[x]
    ensures Rep(h', t, q, n)
  {
    if t.Bin? {
      RepFrame(h, h', t.left, n, h[n].left);
      RepFrame(h, h', t.right, n, h[n].right);
    }
  }

  lemma {:induction false} PathFrame(h: Store, h': Store, path: Path, root: RbtNode?, p: RbtNode?, n: RbtNode?)
    requires RepPath(h, path, root, p, n)
    requires forall x :: x in PathNodes(path) && x in h ==> x in h' && h'[x] == h[x]
    ensures RepPath(h', path, root, p, n)
  {
    match path
    case Top =>
    case Step(d, c, s, up) =>
      RepFrame(h, h', s, c.node, h[c.node].Kid(!d));
      PathFrame(h, h', up, root, h[c.node].parent, c.node);
  }

  /** Child and parent pointers agree: a node is a child of its parent, exactly
      the root has no parent, and a child's parent is the node it hangs off. */
  ghost predicate Linked(h: Store, root: RbtNode?)
  {
    && (root != null ==> root in h)
    && forall x :: x in h ==>
      && (h[x].left != null ==> h[x].left in h && h[h[x].left].parent == x)
      && (h[x].right != null ==> h[x].right in h && h[h[x].right].parent == x && h[x].left != h[x].right)
      && (if h[x].parent == null then x == root
          else x != root && h[x].parent in h && (h[h[x].parent].left == x || h[h[x].parent].right == x))
  }

  /** `Linked` for the part of the store below `n`. */
  ghost predicate LinkedBelow(h: Store, t: Tree, n: RbtNode?)
  {
    forall x :: x in Nodes(t) ==>
      && x in h
      && (h[x].left != null ==> h[x].left in Nodes(t) && h[x].left in h && h[h[x].left].parent == x)
      && (h[x].right != null ==>
            h[x].right in Nodes(t) && h[x].right in h && h[h[x].right].parent == x && h[x].left != h[x].right)
      && (x != n ==> h[x].parent != null && h[x].parent in Nodes(t) && h[x].parent in h &&
                     (h[h[x].parent].left == x || h[h[x].parent].right == x))
  }

  lemma {:induction false} RepLinked(h: Store, t: Tree, p: RbtNode?, n: RbtNode?)
    requires Rep(h, t, p, n) && Distinct(t)
    ensures LinkedBelow(h, t, n)
  {
    if t.Bin? {
      RepLinked(h, t.left, n, h[n].left);
      RepLinked(h, t.right, n, h[n].right);
      RepRoot(h, t.left, n, h[n].left);
      RepRoot(h, t.right, n, h[n].right);
    }
  }

  lemma {:induction false} AtLinked(h: Store, root: RbtNode?, t: Tree)
    requires At(h, root, Top, t, null, root)
    ensures Linked(h, root)
  {
    RepLinked(h, t, null, root);
    RepRoot(h, t, null, root);
  }

  /** `fix_downptr`: only the pointer that led to `old_` changes. */
  ghost predicate FixedDownptr(h: Store, root: RbtNode?, p: RbtNode?, old_: RbtNode?, n: RbtNode?,
                               h': Store, root': RbtNode?)
  {
    if p == null then root' == n
    else root' == root && p in h && p in h' && h'[p] == h[p].Redirect(old_, n)
  }

  lemma {:induction false} PathRedirected(h: Store, h': Store, path: Path, root: RbtNode?, root': RbtNode?,
                                          p: RbtNode?, old_: RbtNode, n: RbtNode?)
    requires RepPath(h, path, root, p, old_) && DistinctPath(path) && old_ !in PathNodes(path)
    requires FixedDownptr(h, root, p, old_, n, h', root')
    requires forall x :: x in PathNodes(path) && x in h && x != p ==> x in h' && h'[x] == h[x]
    ensures RepPath(h', path, root', p, n)
  {
    match path
    case Top =>
    case Step(d, c, s, up) =>
      RepRoot(h, s, c.node, h[c.node].Kid(!d));
      assert (h[p].left == old_) == d;
      RepFrame(h, h', s, c.node, h[c.node].Kid(!d));
      PathFrame(h, h', up, root, h[c.node].parent, c.node);
  }

  /** What `rotate_left` (`d`) and `rotate_right` (`!d`) do to the pointers when
      applied at `n`. */
  ghost predicate Rotated(h: Store, root: RbtNode?, d: bool, n: RbtNode, h': Store, root': RbtNode?)
  {
    && n in h && h[n].Kid(!d) != null && h[n].Kid(!d) in h
    && (var r, p := h[n].Kid(!d), h[n].parent;
        var c := h[r].Kid(d);
        && h'.Keys == h.Keys
        && h'[n] == h[n].WithKid(!d, c).(parent := r)
        && h'[r] == h[r].WithKid(d, n).(parent := p)
        && (c != null ==> c in h && h'[c] == h[c].(parent := n))
        && FixedDownptr(h, root, p, n, r, h', root')
        && forall x :: x in h && x != n && x != r && x != c && x != p ==> h'[x] == h[x])
  }

  lemma {:induction false} RotatedNodes(d: bool, a: Tree, cn: Cell, c: Tree, cr: Cell, e: Tree)
    requires Distinct(Join(d, a, cn, Join(d, c, cr, e)))
    ensures Distinct(Join(d, Join(d, a, cn, c), cr, e))
    ensures Nodes(Join(d, a, cn, Join(d, c, cr, e))) == Nodes(a) + {cn.node, cr.node} + Nodes(c) + Nodes(e)
    ensures Nodes(Join(d, Join(d, a, cn, c), cr, e)) == Nodes(a) + {cn.node, cr.node} + Nodes(c) + Nodes(e)
    ensures Distinct(c) && Nodes(a) !! Nodes(c) && Nodes(c) !! Nodes(e) && cn.node != cr.node
    ensures cn.node !in Nodes(a) + Nodes(c) + Nodes(e) && cr.node !in Nodes(a) + Nodes(c) + Nodes(e)
  {
    JoinNodes(d, a, cn, Join(d, c, cr, e));
    JoinNodes(d, c, cr, e);
    JoinNodes(d, a, cn, c);
    JoinNodes(d, Join(d, a, cn, c), cr, e);
  }

  ghost predicate Rotatable(h: Store, d: bool, n: RbtNode)
  {
    && n in h && h[n].Kid(!d) != null && h[n].Kid(!d) in h
    && (var r, p := h[n].Kid(!d), h[n].parent;
        var c := h[r].Kid(d);
        && r != n && (p != null ==> p in h && p != n && p != r)
        && (c != null ==> c in h && c != n && c != r && c != p))
  }

  /** The pointers a rotation reads are distinct nodes of the store. */
  lemma {:induction false} RotationPointers(h: Store, root: RbtNode?, path: Path, d: bool, a: Tree, cn: Cell, c: Tree,
                                            cr: Cell, e: Tree, p: RbtNode?)
    requires At(h, root, path, Join(d, a, cn, Join(d, c, cr, e)), p, cn.node)
    ensures Rotatable(h, d, cn.node) && h[cn.node].Kid(!d) == cr.node && h[cn.node].parent == p
  {
    var n, r := cn.node, cr.node;
    JoinRep(h, d, a, cn, Join(d, c, cr, e), p, n);
    JoinRep(h, d, c, cr, e, n, h[n].Kid(!d));
    RotatedNodes(d, a, cn, c, cr, e);
    PathHead(h, path, root, p, n);
    RepRoot(h, c, r, h[r].Kid(d));
    assert r in Nodes(Join(d, a, cn, Join(d, c, cr, e)));
  }

  lemma {:induction false} RotatedPointers(h: Store, root: RbtNode?, path: Path, d: bool, a: Tree, cn: Cell, c: Tree,
                                           cr: Cell, e: Tree, p: RbtNode?, h': Store, root': RbtNode?)
    requires At(h, root, path, Join(d, a, cn, Join(d, c, cr, e)), p, cn.node)
    requires Rotated(h, root, d, cn.node, h', root')
    ensures h[cn.node].Kid(!d) == cr.node && h[cn.node].parent == p && cr.node in h
    ensures forall x :: x in Nodes(a) + Nodes(c) + Nodes(e) ==>
      && x in h && x in h'
      && h'[x] == if x == h[cr.node].Kid(d) then h[x].(parent := cn.node) else h[x]
    ensures forall x :: x in PathNodes(path) && x != p ==> x in h' && h'[x] == h[x]
  {
    var n, r := cn.node, cr.node;
    JoinRep(h, d, a, cn, Join(d, c, cr, e), p, n);
    JoinRep(h, d, c, cr, e, n, h[n].Kid(!d));
    RotatedNodes(d, a, cn, c, cr, e);
    PathHead(h, path, root, p, n);
    RepRoot(h, c, r, h[r].Kid(d));
    var t := Join(d, a, cn, Join(d, c, cr, e));
    forall x | x in Nodes(a) + Nodes(c) + Nodes(e)
      ensures x in h && x in h' && h'[x] == if x == h[r].Kid(d) then h[x].(parent := n) else h[x]
    {
      assert x in Nodes(t) && x !in PathNodes(path);
    }
    forall x | x in PathNodes(path) && x != p
      ensures x in h' && h'[x] == h[x]
    {
      assert x !in Nodes(t) && n in Nodes(t) && r in Nodes(t);
    }
  }

  lemma {:induction false} RotatedRep(h: Store, d: bool, a: Tree, cn: Cell, c: Tree, cr: Cell, e: Tree,
                                      p: RbtNode?, h': Store)
    requires Distinct(Join(d, a, cn, Join(d, c, cr, e)))
    requires Rep(h, Join(d, a, cn, Join(d, c, cr, e)), p, cn.node)
    requires cn.node in h' && cr.node in h && cr.node in h'
    requires h'[cn.node] == h[cn.node].WithKid(!d, h[cr.node].Kid(d)).(parent := cr.node)
    requires h'[cr.node] == h[cr.node].WithKid(d, cn.node).(parent := p)
    requires forall x :: x in Nodes(a) + Nodes(c) + Nodes(e) ==>
      && x in h && x in h'
      && h'[x] == if x == h[cr.node].Kid(d) then h[x].(parent := cn.node) else h[x]
    ensures Rep(h', Join(d, Join(d, a, cn, c), cr, e), p, cr.node)
  {
    var n, r := cn.node, cr.node;
    JoinRep(h, d, a, cn, Join(d, c, cr, e), p, n);
    JoinRep(h, d, c, cr, e, n, h[n].Kid(!d));
    RotatedNodes(d, a, cn, c, cr, e);
    RepRoot(h, c, r, h[r].Kid(d));
    RepFrame(h, h', a, n, h[n].Kid(d));
    RepFrame(h, h', e, r, h[r].Kid(!d));
    RepMoved(h, h', c, r, n, h[r].Kid(d));
    JoinRep(h', d, a, cn, c, r, n);
    JoinRep(h', d, Join(d, a, cn, c), cr, e, p, r);
  }

  lemma {:induction false} RotatedAt(h: Store, root: RbtNode?, path: Path, d: bool, a: Tree, cn: Cell, c: Tree,
                                     cr: Cell, e: Tree, p: RbtNode?, h': Store, root': RbtNode?)
    requires At(h, root, path, Join(d, a, cn, Join(d, c, cr, e)), p, cn.node)
    requires Rotated(h, root, d, cn.node, h', root')
    ensures At(h', root', path, Join(d, Join(d, a, cn, c), cr, e), p, cr.node)
  {
    RotatedPointers(h, root, path, d, a, cn, c, cr, e, p, h', root');
    RotatedRep(h, d, a, cn, c, cr, e, p, h');
    RotatedNodes(d, a, cn, c, cr, e);
    PathRedirected(h, h', path, root, root', p, cn.node, cr.node);
  }

  lemma {:induction false} PathHead(h: Store, path: Path, root: RbtNode?, p: RbtNode?, n: RbtNode?)
    requires RepPath(h, path, root, p, n)
    ensures p == null <==> path.Top?
    ensures p != null ==> p in PathNodes(path) && p in h
  {
  }

  // ------------------------------------------------------------ zipper moves

  lemma {:induction false} MoveUp(h: Store, root: RbtNode?, d: bool, c: Cell, s: Tree, up: Path, t: Tree,
                                  p: RbtNode?, n: RbtNode?)
    requires At(h, root, Step(d, c, s, up), t, p, n)
    ensures p == c.node && c.node in h && At(h, root, up, Join(d, t, c, s), h[c.node].parent, c.node)
  {
    JoinRep(h, d, t, c, s, h[c.node].parent, c.node);
    JoinNodes(d, t, c, s);
    assert RepPath(h, up, root, h[c.node].parent, c.node);
    RepRoot(h, t, p, n);
  }

  lemma {:induction false} MoveDown(h: Store, root: RbtNode?, up: Path, d: bool, t: Tree, c: Cell, s: Tree,
                                    p: RbtNode?, n: RbtNode?)
    requires At(h, root, up, Join(d, t, c, s), p, n)
    ensures n == c.node && c.node in h && h[c.node].parent == p
    ensures At(h, root, Step(d, c, s, up), t, n, h[c.node].Kid(d))
  {
    JoinRep(h, d, t, c, s, p, n);
    JoinNodes(d, t, c, s);
  }

  /** Which child of its parent `n` is, and where its sibling is. */
  lemma {:induction false} SiblingAt(h: Store, root: RbtNode?, d: bool, c: Cell, s: Tree, up: Path, t: Tree,
                                     p: RbtNode?, n: RbtNode?)
    requires At(h, root, Step(d, c, s, up), t, p, n)
    ensures p == c.node && c.node in h && h[c.node].Holds(c) && h[c.node].Kid(d) == n
    ensures Rep(h, s, c.node, h[c.node].Kid(!d))
    ensures n != null || s.Bin? ==> (h[c.node].left == n <==> d) && (h[c.node].right == n <==> !d)
  {
    RepRoot(h, t, p, n);
    RepRoot(h, s, c.node, h[c.node].Kid(!d));
  }

  /** From any place in the tree, the whole tree. */
  lemma {:induction false} MoveToTop(h: Store, root: RbtNode?, path: Path, t: Tree, p: RbtNode?, n: RbtNode?)
    requires At(h, root, path, t, p, n)
    ensures At(h, root, Top, Plug(path, t), null, root)
    decreases path
  {
    match path
    case Top =>
    case Step(d, c, s, up) =>
      MoveUp(h, root, d, c, s, up, t, p, n);
      MoveToTop(h, root, up, Join(d, t, c, s), h[c.node].parent, c.node);
  }

  /** `r` with the flags and the payload of `c`. */
  ghost function Painted(r: Rec, c: Cell): Rec { r.(red := c.red, modified := c.modified, load := c.load) }

  lemma {:induction false} Paint(h: Store, root: RbtNode?, path: Path, d: bool, x: Tree, c: Cell, y: Tree,
                                 p: RbtNode?, n: RbtNode?, c': Cell)
    requires At(h, root, path, Join(d, x, c, y), p, n)
    requires c'.node == c.node
    ensures c.node in h && At(h[c.node := Painted(h[c.node], c')], root, path, Join(d, x, c', y), p, n)
  {
    JoinRep(h, d, x, c, y, p, n);
    JoinNodes(d, x, c, y);
    JoinNodes(d, x, c', y);
    var h' := h[c.node := Painted(h[c.node], c')];
    RepFrame(h, h', x, c.node, h[c.node].Kid(d));
    RepFrame(h, h', y, c.node, h[c.node].Kid(!d));
    JoinRep(h', d, x, c', y, p, n);
    PathFrame(h, h', path, root, p, n);
  }
}
