/** What the repair cases of src/rbt.c do to the pointer structure. */
module RbtCases {
  import opened RbtTree
  import opened RbtStore
  import opened RbtInsert

  ghost function Blacken(h: Store, n: RbtNode): Store
    requires n in h
  {
    h[n := h[n].(red := false)]
  }

  ghost function Redden(h: Store, n: RbtNode): Store
    requires n in h
  {
    h[n := h[n].(red := true)]
  }

  lemma {:induction false} BlackenAt(h: Store, root: RbtNode?, path: Path, d: bool, x: Tree, c: Cell, y: Tree,
                                     p: RbtNode?, n: RbtNode?)
    requires At(h, root, path, Join(d, x, c, y), p, n)
    ensures n == c.node && c.node in h && At(Blacken(h, c.node), root, path, Join(d, x, Black(c), y), p, n)
  {
    JoinRep(h, d, x, c, y, p, n);
    Paint(h, root, path, d, x, c, y, p, n, Black(c));
    assert Blacken(h, c.node) == h[c.node := Painted(h[c.node], Black(c))];
  }

  lemma {:induction false} ReddenAt(h: Store, root: RbtNode?, path: Path, d: bool, x: Tree, c: Cell, y: Tree,
                                    p: RbtNode?, n: RbtNode?)
    requires At(h, root, path, Join(d, x, c, y), p, n)
    ensures n == c.node && c.node in h && At(Redden(h, c.node), root, path, Join(d, x, Red(c), y), p, n)
  {
    JoinRep(h, d, x, c, y, p, n);
    Paint(h, root, path, d, x, c, y, p, n, Red(c));
    assert Redden(h, c.node) == h[c.node := Painted(h[c.node], Red(c))];
  }

  /** Parent and uncle painted black, grandparent painted red. */
  lemma {:induction false} RedUncleAt(h: Store, root: RbtNode?, d: bool, c: Cell, s: Tree, d2: bool, g: Cell,
                                      e: bool, x: Tree, u: Cell, y: Tree, up: Path, t: Tree, p: RbtNode?, n: RbtNode?)
    requires At(h, root, Step(d, c, s, Step(d2, g, Join(e, x, u, y), up)), t, p, n)
    ensures p == c.node && p in h && h[p].parent == g.node && g.node in h && u.node in h
    ensures At(Redden(Blacken(Blacken(h, u.node), c.node), g.node), root, up,
               Join(d2, Join(d, t, Black(c), s), Red(g), Join(e, x, Black(u), y)), h[g.node].parent, g.node)
  {
    var u1, u2 := Join(e, x, u, y), Join(e, x, Black(u), y);
    var p1, p2 := Join(d, t, c, s), Join(d, t, Black(c), s);
    var q := h[g.node].parent;
    MoveUp(h, root, d, c, s, Step(d2, g, u1, up), t, p, n);
    MoveUp(h, root, d2, g, u1, up, p1, h[c.node].parent, c.node);
    MoveDown(h, root, up, !d2, u1, g, p1, q, g.node);
    BlackenAt(h, root, Step(!d2, g, p1, up), e, x, u, y, g.node, h[g.node].Kid(!d2));
    var h1 := Blacken(h, u.node);
    MoveUp(h1, root, !d2, g, p1, up, u2, g.node, u.node);
    MoveDown(h1, root, up, d2, p1, g, u2, h1[g.node].parent, g.node);
    BlackenAt(h1, root, Step(d2, g, u2, up), d, t, c, s, g.node, h1[g.node].Kid(d2));
    var h2 := Blacken(h1, c.node);
    MoveUp(h2, root, d2, g, u2, up, p2, g.node, c.node);
    ReddenAt(h2, root, up, d2, p2, g, u2, h2[g.node].parent, g.node);
    assert u.node != g.node && c.node != g.node
      by { JoinNodes(d2, p1, g, u1); JoinNodes(e, x, u, y); JoinNodes(d, t, c, s); }
  }

  /** The pointers `repair_after_insert` reads around a node with a red parent. */
  lemma {:induction false} GrandparentAt(h: Store, root: RbtNode?, d: bool, c: Cell, s: Tree, d2: bool, g: Cell,
                                         u: Tree, up: Path, t: Tree, p: RbtNode?, n: RbtNode)
    requires At(h, root, Step(d, c, s, Step(d2, g, u, up)), t, p, n)
    ensures p == c.node && c.node in h && h[c.node].parent == g.node && g.node in h
    ensures (h[c.node].left == n <==> d) && (h[c.node].right == n <==> !d)
    ensures (h[g.node].left == p <==> d2) && (h[g.node].right == p <==> !d2)
    ensures Rep(h, u, g.node, h[g.node].Kid(!d2))
  {
    SiblingAt(h, root, d, c, s, Step(d2, g, u, up), t, p, n);
    MoveUp(h, root, d, c, s, Step(d2, g, u, up), t, p, n);
    SiblingAt(h, root, d2, g, u, up, Join(d, t, c, s), h[c.node].parent, c.node);
  }

  /** Parent painted black and grandparent red, seen from the grandparent. */
  lemma {:induction false} OuterColoursAt(h: Store, root: RbtNode?, d: bool, c: Cell, s: Tree, g: Cell,
                                          u: Tree, up: Path, t: Tree, p: RbtNode?, n: RbtNode?)
    requires At(h, root, Step(d, c, s, Step(d, g, u, up)), t, p, n)
    ensures c.node in h && g.node in h
    ensures At(Redden(Blacken(h, c.node), g.node), root, up,
               Join(!d, u, Red(g), Join(!d, s, Black(c), t)), h[g.node].parent, g.node)
    ensures c.node != g.node
  {
    var p1, p2 := Join(d, t, c, s), Join(d, t, Black(c), s);
    MoveUp(h, root, d, c, s, Step(d, g, u, up), t, p, n);
    BlackenAt(h, root, Step(d, g, u, up), d, t, c, s, h[c.node].parent, c.node);
    var h1 := Blacken(h, c.node);
    MoveUp(h1, root, d, g, u, up, p2, g.node, c.node);
    ReddenAt(h1, root, up, d, p2, g, u, h1[g.node].parent, g.node);
    JoinNodes(d, p2, g, u);
    JoinNodes(d, t, Black(c), s);
  }

  ghost function Mark(h: Store, n: RbtNode): Store
    requires n in h
  {
    h[n := h[n].(modified := true)]
  }

  lemma {:induction false} MarkAt(h: Store, root: RbtNode?, path: Path, d: bool, x: Tree, c: Cell, y: Tree,
                                  p: RbtNode?, n: RbtNode?)
    requires At(h, root, path, Join(d, x, c, y), p, n)
    ensures n == c.node && c.node in h && At(Mark(h, c.node), root, path, Join(d, x, Marked(c), y), p, n)
  {
    JoinRep(h, d, x, c, y, p, n);
    Paint(h, root, path, d, x, c, y, p, n, Marked(c));
    assert Mark(h, c.node) == h[c.node := Painted(h[c.node], Marked(c))];
  }

  /** `*nptr = n`, where `nptr` is a child pointer of `p`, or the root pointer. */
  ghost predicate Hooked(h: Store, root: RbtNode?, p: RbtNode?, d: bool, n: RbtNode?, h': Store, root': RbtNode?)
  {
    if p == null then root' == n
    else root' == root && p in h && p in h' && h'[p] == h[p].WithKid(d, n)
  }

  lemma {:induction false} PathHooked(h: Store, h': Store, path: Path, root: RbtNode?, root': RbtNode?,
                                      p: RbtNode?, old_: RbtNode?, n: RbtNode?)
    requires RepPath(h, path, root, p, old_) && DistinctPath(path)
    requires Hooked(h, root, p, path.Step? && path.leftward, n, h', root')
    requires forall x :: x in PathNodes(path) && x in h && x != p ==> x in h' && h'[x] == h[x]
    ensures RepPath(h', path, root', p, n)
  {
    match path
    case Top =>
    case Step(d, c, s, up) =>
      RepFrame(h, h', s, c.node, h[c.node].Kid(!d));
      PathFrame(h, h', up, root, h[c.node].parent, c.node);
  }

  /** Node `n` becomes a red, marked leaf below `p`. */
  ghost predicate LeafHooked(h: Store, root: RbtNode?, p: RbtNode?, d: bool, n: RbtNode, load: Payload,
                             h': Store, root': RbtNode?)
  {
    && h'.Keys == h.Keys + {n} && Hooked(h, root, p, d, n, h', root')
    && h'[n] == Rec(null, null, p, true, true, load)
    && forall x :: x in h && x != p ==> h'[x] == h[x]
  }

  /** A new leaf in place of a null pointer. */
  lemma {:induction false} LeafAt(h: Store, root: RbtNode?, path: Path, p: RbtNode?, c: Cell, h': Store,
                                  root': RbtNode?)
    requires At(h, root, path, Leaf, p, null) && c.node !in h && c.red && c.modified
    requires LeafHooked(h, root, p, path.Step? && path.leftward, c.node, c.load, h', root')
    ensures At(h', root', path, Bin(Leaf, c, Leaf), p, c.node)
  {
    PathHooked(h, h', path, root, root', p, null, c.node);
  }

  /** The nodes around `c` are distinct nodes of the store. */
  ghost predicate Surrounded(h: Store, c: RbtNode, l: RbtNode?, r: RbtNode?, p: RbtNode?)
  {
    && c in h && h[c].left == l && h[c].right == r && h[c].parent == p
    && (p != null ==> p in h && p != c)
    && (l != null ==> l in h && l != c && l != p)
    && (r != null ==> r in h && r != c && r != p && r != l)
  }

  /** Node `n` takes the place, the pointers and the flags of `c`. */
  ghost predicate Substituted(h: Store, root: RbtNode?, c: RbtNode, l: RbtNode?, r: RbtNode?, p: RbtNode?, d: bool,
                              n: RbtNode, load: Payload, h': Store, root': RbtNode?)
  {
    && c in h && h'.Keys == h.Keys - {c} + {n}
    && Hooked(h, root, p, d, n, h', root')
    && h'[n] == Rec(l, r, p, h[c].red, h[c].modified, load)
    && forall z :: z in h && z != p && z != c ==> h'[z] == if z == l || z == r then h[z].(parent := n) else h[z]
  }

  lemma {:induction false} SubstitutionPointers(h: Store, root: RbtNode?, path: Path, x: Tree, c: Cell, y: Tree,
                                                p: RbtNode?)
    requires At(h, root, path, Bin(x, c, y), p, c.node)
    ensures c.node in h && h[c.node].Holds(c) && Surrounded(h, c.node, h[c.node].left, h[c.node].right, p)
  {
    PathHead(h, path, root, p, c.node);
    RepRoot(h, x, c.node, h[c.node].left);
    RepRoot(h, y, c.node, h[c.node].right);
  }

  /** Another node in place of `c.node`, with the same children. */
  lemma {:induction false} SubstitutedAt(h: Store, root: RbtNode?, path: Path, x: Tree, c: Cell, y: Tree, p: RbtNode?,
                                         c': Cell, h': Store, root': RbtNode?)
    requires At(h, root, path, Bin(x, c, y), p, c.node) && c'.node !in h && c.node in h
    requires Substituted(h, root, c.node, h[c.node].left, h[c.node].right, p, path.Step? && path.leftward,
                         c'.node, c'.load, h', root')
    requires c'.red == c.red && c'.modified == c.modified
    ensures At(h', root', path, Bin(x, c', y), p, c'.node)
  {
    hide RepPath, DistinctPath;
    var l, r := h[c.node].left, h[c.node].right;
    PathHead(h, path, root, p, c.node);
    RepRoot(h, x, c.node, l);
    RepRoot(h, y, c.node, r);
    assert Nodes(Bin(x, c, y)) == Nodes(x) + {c.node} + Nodes(y);
    assert Nodes(Bin(x, c', y)) == Nodes(x) + {c'.node} + Nodes(y);
    SubstitutedBelow(h, x, c.node, l, c'.node, h', p, r);
    SubstitutedBelow(h, y, c.node, r, c'.node, h', p, l);
    PathHooked(h, h', path, root, root', p, c.node, c'.node);
  }

  /** A subtree of the replaced node hangs off the new one. */
  lemma {:induction false} SubstitutedBelow(h: Store, x: Tree, c: RbtNode, l: RbtNode?, n: RbtNode, h': Store,
                                            p: RbtNode?, r: RbtNode?)
    requires Rep(h, x, c, l) && Distinct(x) && Nodes(x) <= h.Keys && c !in Nodes(x) && (p == null || p !in Nodes(x))
    requires r == null || r !in Nodes(x)
    requires l == null || (l in h && l in h' && h'[l] == h[l].(parent := n))
    requires forall z :: z in h && z != c && z != p && z != l && z != r ==> z in h' && h'[z] == h[z]
    ensures Rep(h', x, n, l)
  {
    RepMoved(h, h', x, c, n, l);
  }
}
