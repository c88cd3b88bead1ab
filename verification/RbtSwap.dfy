/** `swap_with_successor`: exchanging the positions of two nodes is a renaming
    of the whole pointer structure. */
module RbtSwap {
  import opened RbtTree
  import opened RbtStore

  /** The transposition of `n` and `s`. */
  ghost function Pi(n: RbtNode, s: RbtNode, x: RbtNode?): RbtNode? {
    if x == n then s else if x == s then n else x
  }

  /** The record at the position of `x` once `n` and `s` are exchanged. A cached
      payload is not part of `struct rbt_node` and stays with its node. */
  ghost function RenamedRec(h: Store, n: RbtNode, s: RbtNode, x: RbtNode): Rec
    requires x in h && Pi(n, s, x) in h
  {
    Rec(Pi(n, s, h[x].left), Pi(n, s, h[x].right), Pi(n, s, h[x].parent),
        h[x].red, h[x].modified, h[Pi(n, s, x)].load)
  }

  ghost predicate Renamed(h: Store, root: RbtNode?, n: RbtNode, s: RbtNode, h': Store, root': RbtNode?)
  {
    && n in h && s in h && n != s && h'.Keys == h.Keys && root' == Pi(n, s, root)
    && forall x :: x in h ==> h'[Pi(n, s, x)] == RenamedRec(h, n, s, x)
  }

  ghost function RenameCell(n: RbtNode, s: RbtNode, sn: Payload, ss: Payload, c: Cell): Cell {
    if c.node == n then Cell(s, c.red, c.modified, ss)
    else if c.node == s then Cell(n, c.red, c.modified, sn)
    else c
  }

  ghost function Rename(n: RbtNode, s: RbtNode, sn: Payload, ss: Payload, t: Tree): Tree {
    match t
    case Leaf => Leaf
    case Bin(l, c, r) => Bin(Rename(n, s, sn, ss, l), RenameCell(n, s, sn, ss, c), Rename(n, s, sn, ss, r))
  }

  ghost function RenamePath(n: RbtNode, s: RbtNode, sn: Payload, ss: Payload, p: Path): Path {
    match p
    case Top => Top
    case Step(d, c, t, up) =>
      Step(d, RenameCell(n, s, sn, ss, c), Rename(n, s, sn, ss, t), RenamePath(n, s, sn, ss, up))
  }

  lemma {:induction false} RenamedNode(h: Store, root: RbtNode?, n: RbtNode, s: RbtNode, h': Store, root': RbtNode?,
                                       c: Cell, d: bool)
    requires Renamed(h, root, n, s, h', root') && c.node in h && h[c.node].Holds(c)
    ensures var c' := RenameCell(n, s, h[n].load, h[s].load, c);
      && c'.node == Pi(n, s, c.node) && c'.node in h' && h'[c'.node].Holds(c')
      && h'[c'.node].parent == Pi(n, s, h[c.node].parent)
      && h'[c'.node].Kid(d) == Pi(n, s, h[c.node].Kid(d)) && h'[c'.node].Kid(!d) == Pi(n, s, h[c.node].Kid(!d))
  {
    assert h'[Pi(n, s, c.node)] == RenamedRec(h, n, s, c.node);
  }

  lemma {:induction false} RenamedRep(h: Store, root: RbtNode?, n: RbtNode, s: RbtNode, h': Store, root': RbtNode?,
                                      t: Tree, p: RbtNode?, x: RbtNode?)
    requires Renamed(h, root, n, s, h', root') && Rep(h, t, p, x)
    ensures Rep(h', Rename(n, s, h[n].load, h[s].load, t), Pi(n, s, p), Pi(n, s, x))
    decreases t
  {
    if t.Bin? {
      RenamedRep(h, root, n, s, h', root', t.left, x, h[x].left);
      RenamedRep(h, root, n, s, h', root', t.right, x, h[x].right);
      RenamedNode(h, root, n, s, h', root', t.cell, true);
    }
  }

  lemma {:induction false} RenamedRepPath(h: Store, root: RbtNode?, n: RbtNode, s: RbtNode, h': Store, root': RbtNode?,
                                          path: Path, p: RbtNode?, x: RbtNode?)
    requires Renamed(h, root, n, s, h', root') && RepPath(h, path, root, p, x)
    ensures RepPath(h', RenamePath(n, s, h[n].load, h[s].load, path), root', Pi(n, s, p), Pi(n, s, x))
    decreases path
  {
    match path
    case Top =>
    case Step(d, c, t, up) =>
      RenamedRep(h, root, n, s, h', root', t, c.node, h[c.node].Kid(!d));
      RenamedRepPath(h, root, n, s, h', root', up, h[c.node].parent, c.node);
      RenamedNode(h, root, n, s, h', root', c, d);
  }

  lemma {:induction false} RenamedNodes(n: RbtNode, s: RbtNode, sn: Payload, ss: Payload, t: Tree)
    ensures forall x: RbtNode :: Pi(n, s, x) in Nodes(Rename(n, s, sn, ss, t)) <==> x in Nodes(t)
    ensures Distinct(Rename(n, s, sn, ss, t)) <==> Distinct(t)
  {
    match t
    case Leaf =>
    case Bin(l, c, r) =>
      RenamedNodes(n, s, sn, ss, l);
      RenamedNodes(n, s, sn, ss, r);
      var l', r', c' := Rename(n, s, sn, ss, l), Rename(n, s, sn, ss, r), RenameCell(n, s, sn, ss, c);
      assert c'.node == Pi(n, s, c.node);
      assert Nodes(l') !! Nodes(r') <==> Nodes(l) !! Nodes(r)
        by { RenamedDisjoint(n, s, Nodes(l), Nodes(r), Nodes(l'), Nodes(r')); }
  }

  lemma {:induction false} RenamedDisjoint(n: RbtNode, s: RbtNode, a: set<RbtNode>, b: set<RbtNode>, a': set<RbtNode>,
                                           b': set<RbtNode>)
    requires forall x: RbtNode :: Pi(n, s, x) in a' <==> x in a
    requires forall x: RbtNode :: Pi(n, s, x) in b' <==> x in b
    ensures a' !! b' <==> a !! b
  {
    if x :| x in a && x in b {
      assert Pi(n, s, x) in a' && Pi(n, s, x) in b';
    }
    if x :| x in a' && x in b' {
      assert Pi(n, s, Pi(n, s, x)) == x;
      assert Pi(n, s, x) in a && Pi(n, s, x) in b;
    }
  }

  lemma {:induction false} RenamedPathNodes(n: RbtNode, s: RbtNode, sn: Payload, ss: Payload, p: Path)
    ensures forall x: RbtNode :: Pi(n, s, x) in PathNodes(RenamePath(n, s, sn, ss, p)) <==> x in PathNodes(p)
    ensures DistinctPath(RenamePath(n, s, sn, ss, p)) <==> DistinctPath(p)
  {
    match p
    case Top =>
    case Step(d, c, t, up) =>
      RenamedNodes(n, s, sn, ss, t);
      RenamedPathNodes(n, s, sn, ss, up);
      var t', up', c' := Rename(n, s, sn, ss, t), RenamePath(n, s, sn, ss, up), RenameCell(n, s, sn, ss, c);
      assert c'.node == Pi(n, s, c.node);
      assert Nodes(t') !! PathNodes(up') <==> Nodes(t) !! PathNodes(up) by {
        RenamedDisjoint(n, s, Nodes(t), PathNodes(up), Nodes(t'), PathNodes(up'));
      }
  }

  /** The whole structure after the exchange. */
  lemma {:induction false} RenamedAt(h: Store, root: RbtNode?, n: RbtNode, s: RbtNode, h': Store, root': RbtNode?,
                                     path: Path, t: Tree, p: RbtNode?, x: RbtNode?)
    requires Renamed(h, root, n, s, h', root') && At(h, root, path, t, p, x)
    ensures At(h', root', RenamePath(n, s, h[n].load, h[s].load, path),
               Rename(n, s, h[n].load, h[s].load, t),
               Pi(n, s, p), Pi(n, s, x))
  {
    var sn, ss := h[n].load, h[s].load;
    var path', t' := RenamePath(n, s, sn, ss, path), Rename(n, s, sn, ss, t);
    RenamedRep(h, root, n, s, h', root', t, p, x);
    RenamedRepPath(h, root, n, s, h', root', path, p, x);
    RenamedNodes(n, s, sn, ss, t);
    RenamedPathNodes(n, s, sn, ss, path);
    RenamedDisjoint(n, s, Nodes(t), PathNodes(path), Nodes(t'), PathNodes(path'));
    RenamedUnion(n, s, Nodes(t), PathNodes(path), Nodes(t'), PathNodes(path'));
  }

  lemma {:induction false} RenamedUnion(n: RbtNode, s: RbtNode, a: set<RbtNode>, b: set<RbtNode>, a': set<RbtNode>,
                                        b': set<RbtNode>)
    requires forall x: RbtNode :: Pi(n, s, x) in a' <==> x in a
    requires forall x: RbtNode :: Pi(n, s, x) in b' <==> x in b
    requires n in a + b && s in a + b
    ensures a' + b' == a + b
  {
    forall y: RbtNode ensures y in a' + b' <==> y in a + b {
      assert Pi(n, s, Pi(n, s, y)) == y;
    }
  }

  lemma {:induction false} RenamedPlug(n: RbtNode, s: RbtNode, sn: Payload, ss: Payload, p: Path, t: Tree)
    ensures Plug(RenamePath(n, s, sn, ss, p), Rename(n, s, sn, ss, t)) == Rename(n, s, sn, ss, Plug(p, t))
    decreases p
  {
    match p
    case Top =>
    case Step(d, c, u, up) => RenamedPlug(n, s, sn, ss, up, Join(d, t, c, u));
  }

  lemma {:induction false} RenamedColours(n: RbtNode, s: RbtNode, sn: Payload, ss: Payload, t: Tree)
    ensures var t' := Rename(n, s, sn, ss, t);
      IsRed(t') == IsRed(t) && NoRedRed(t') == NoRedRed(t) &&
      BlackCount(t') == BlackCount(t) && Balanced(t') == Balanced(t)
  {
    if t.Bin? {
      RenamedColours(n, s, sn, ss, t.left);
      RenamedColours(n, s, sn, ss, t.right);
    }
  }

  ghost function PiAll(n: RbtNode, s: RbtNode, q: seq<RbtNode>): seq<RbtNode> {
    seq(|q|, i requires 0 <= i < |q| => Pi(n, s, q[i]))
  }

  lemma {:induction false} RenamedInOrder(n: RbtNode, s: RbtNode, sn: Payload, ss: Payload, t: Tree)
    ensures InOrder(Rename(n, s, sn, ss, t)) == PiAll(n, s, InOrder(t))
  {
    if t.Bin? {
      RenamedInOrder(n, s, sn, ss, t.left);
      RenamedInOrder(n, s, sn, ss, t.right);
    }
  }

  /** A subtree without either node is unaffected. */
  lemma {:induction false} RenamedElsewhere(n: RbtNode, s: RbtNode, sn: Payload, ss: Payload, t: Tree)
    requires n !in Nodes(t) && s !in Nodes(t)
    ensures Rename(n, s, sn, ss, t) == t
  {
    if t.Bin? {
      RenamedElsewhere(n, s, sn, ss, t.left);
      RenamedElsewhere(n, s, sn, ss, t.right);
    }
  }

  // ------------------------------------------------------------ pointer level

  /** `s` is the leftmost node right of `n`; these are the pointers around the two. */
  ghost predicate Swappable(h: Store, n: RbtNode, s: RbtNode, p: RbtNode?, l: RbtNode, r: RbtNode, sp: RbtNode,
                            sr: RbtNode?)
  {
    && n in h && h[n].left == l && h[n].right == r && h[n].parent == p
    && s in h && h[s].left == null && h[s].right == sr && h[s].parent == sp
    && n != s && l in h && l != n && l != s && r in h && r != n && r != l && sp in h && sp != s && sp != l
    && (p != null ==> p in h && p != n && p != s && p != l && p != r && p != sp)
    && (sr != null ==> sr in h && sr != n && sr != s && sr != l && sr != p && sr != r && sr != sp)
    && (if r == s then sp == n else sp != n && h[sp].left == s && h[sp].right != s)
  }

  /** What `swap_with_successor` does to the pointers. */
  ghost predicate Swapped(h: Store, root: RbtNode?, n: RbtNode, s: RbtNode, p: RbtNode?, l: RbtNode, r: RbtNode,
                          sp: RbtNode,
                          sr: RbtNode?, h': Store, root': RbtNode?)
  {
    && n in h && s in h && l in h && r in h && sp in h && (sr != null ==> sr in h) && h'.Keys == h.Keys
    && h'[s] == Rec(l, if r == s then n else r, p, h[n].red, h[n].modified, h[s].load)
    && h'[n] == Rec(null, sr, if sp == n then s else sp, h[s].red, h[s].modified, h[n].load)
    && FixedDownptr(h, root, p, n, s, h', root')
    && h'[l] == h[l].(parent := s)
    && (sr != null ==> h'[sr] == h[sr].(parent := n))
    && (r != s && r == sp ==> h'[r] == h[r].(left := n, parent := s))
    && (r != s && r != sp ==> h'[r] == h[r].(parent := s) && h'[sp] == h[sp].(left := n))
    && forall x :: x in h && x != n && x != s && x != p && x != l && x != r && x != sp && x != sr ==> h'[x] == h[x]
  }

  lemma {:induction false} SwappedRenames(h: Store, root: RbtNode?, n: RbtNode, s: RbtNode, p: RbtNode?, l: RbtNode,
                                          r: RbtNode,
                                          sp: RbtNode, sr: RbtNode?, h': Store, root': RbtNode?)
    requires Linked(h, root) && Swappable(h, n, s, p, l, r, sp, sr)
    requires Swapped(h, root, n, s, p, l, r, sp, sr, h', root')
    ensures Renamed(h, root, n, s, h', root')
  {
    assert root' == Pi(n, s, root);
    forall x | x in h ensures Pi(n, s, x) in h && h'[Pi(n, s, x)] == RenamedRec(h, n, s, x) {
      SwappedNode(h, root, n, s, p, l, r, sp, sr, h', root', x);
    }
  }

  lemma {:induction false} SwappedNode(h: Store, root: RbtNode?, n: RbtNode, s: RbtNode, p: RbtNode?, l: RbtNode,
                                       r: RbtNode,
                                       sp: RbtNode, sr: RbtNode?, h': Store, root': RbtNode?, x: RbtNode)
    requires Linked(h, root) && Swappable(h, n, s, p, l, r, sp, sr)
    requires Swapped(h, root, n, s, p, l, r, sp, sr, h', root') && x in h
    ensures Pi(n, s, x) in h && h'[Pi(n, s, x)] == RenamedRec(h, n, s, x)
  {
    if x == n || x == s {
    } else if x == p {
      assert h[p].left == n || h[p].right == n;
      assert h[p].parent != n && h[p].parent != s;
    } else if x == l || x == sr {
    } else if x == r || x == sp {
    } else {
      assert h[x].left != n && h[x].right != n && h[x].parent != n;
      assert h[x].left != s && h[x].right != s && h[x].parent != s;
    }
  }
}
