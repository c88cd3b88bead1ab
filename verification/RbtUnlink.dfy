/** Taking a node out: the exchange with its successor, the marking of its
    ancestors and the pointer that skips it, on trees and paths. */
module RbtUnlink {
  import opened Sequences
  import opened RbtTree
  import opened RbtStore
  import opened RbtInsert
  import opened RbtCases
  import opened RbtRemove
  import opened RbtSwap

  /** The marks beside the path are sound. */
  ghost predicate SoundBeside(p: Path) {
    match p
    case Top => true
    case Step(d, c, s, up) => MarksSound(s) && SoundBeside(up)
  }

  lemma {:induction false} PlugMarks(p: Path, t: Tree)
    requires MarksSound(Plug(p, t))
    ensures SoundBeside(p) && MarksSound(t)
  {
    match p
    case Top =>
    case Step(d, c, s, up) => PlugMarks(up, Join(d, t, c, s));
  }

  /** `n` is at the root of `t`, has at most one child, and `rest` is what the
      tree holds besides it. */
  ghost predicate Removable(path: Path, t: Tree, n: RbtNode, rest: seq<RbtNode>)
  {
    true == (
      && t.Bin? && t.cell.node == n && (t.left.Leaf? || t.right.Leaf?)
      && RedBlack(Plug(path, t)) && SoundBeside(path) && MarksSound(t.left) && MarksSound(t.right)
      && Before(path) + InOrder(t.left) + InOrder(t.right) + After(path) == rest)
  }

  /** A node with a null child can be removed where it is. */
  lemma {:induction false} RemovableHere(path: Path, t: Tree)
    requires t.Bin? && (t.left.Leaf? || t.right.Leaf?) && Sound(Plug(path, t))
    ensures var k := |Before(path)| + |InOrder(t.left)|;
      && k < |InOrder(Plug(path, t))| && InOrder(Plug(path, t))[k] == t.cell.node
      && Removable(path, t, t.cell.node, Without(InOrder(Plug(path, t)), k))
  {
    PlugInOrder(path, t);
    PlugMarks(path, t);
    WithoutNode(Before(path), InOrder(t.left), t.cell.node, InOrder(t.right), After(path));
  }

  lemma {:induction false} WithoutNode(b: seq<RbtNode>, l: seq<RbtNode>, n: RbtNode, r: seq<RbtNode>, a: seq<RbtNode>)
    ensures var s := b + (l + [n] + r) + a;
      s[|b| + |l|] == n && Without(s, |b| + |l|) == b + l + r + a
  {
  }

  // ------------------------------------------------- the exchange, on the tree

  /** `ps` leads from the leftmost node right of `base.cell.node` up to `base`. */
  ghost predicate LeftSpine(ps: Path, base: Path) {
    ps == base || (ps.Step? && ps.leftward && LeftSpine(ps.up, base))
  }

  lemma {:induction false} SpineBefore(ps: Path, base: Path)
    requires LeftSpine(ps, base)
    ensures Before(ps) == Before(base)
    ensures PathNodes(base) <= PathNodes(ps)
  {
    if ps != base {
      SpineBefore(ps.up, base);
    }
  }

  /** A node that is a cell of the path, with the other node below the path. */
  ghost predicate OnPath(p: Path, n: RbtNode) {
    p.Step? && (p.cell.node == n || OnPath(p.up, n))
  }

  lemma {:induction false} SpineOnPath(ps: Path, base: Path)
    requires LeftSpine(ps, base) && base.Step?
    ensures OnPath(ps, base.cell.node)
  {
    if ps != base {
      SpineOnPath(ps.up, base);
    }
  }

  lemma {:induction false} OnPathIsNode(p: Path, n: RbtNode)
    requires OnPath(p, n)
    ensures n in PathNodes(p)
  {
    if p.cell.node != n {
      OnPathIsNode(p.up, n);
    }
  }

  /** Off the path nothing is renamed. */
  lemma {:induction false} RenamedBeside(n: RbtNode, s: RbtNode, sn: Payload, ss: Payload, p: Path)
    requires DistinctPath(p) && s !in PathNodes(p) && (n !in PathNodes(p) || OnPath(p, n)) && SoundBeside(p)
    ensures SoundBeside(RenamePath(n, s, sn, ss, p))
    ensures |Before(RenamePath(n, s, sn, ss, p))| == |Before(p)|
  {
    match p
    case Top =>
    case Step(d, c, t, up) =>
      if c.node != n && OnPath(up, n) {
        OnPathIsNode(up, n);
      }
      RenamedElsewhere(n, s, sn, ss, t);
      RenamedBeside(n, s, sn, ss, up);
  }

  lemma {:induction false} ExchangedOrder(order: seq<RbtNode>, k: nat, n: RbtNode, s: RbtNode)
    requires Ascending(order) && k + 1 < |order| && order[k] == n && order[k + 1] == s
    ensures Without(PiAll(n, s, order), k + 1) == Without(order, k)
  {
    assert forall i :: 0 <= i < |order| && i != k && i != k + 1 ==> order[i] != n && order[i] != s;
  }

  /** After the exchange with its successor the node has at most one child. */
  lemma {:induction false} RemovableAfterExchange(path: Path, l: Tree, c: Cell, ps: Path, cs: Cell, sr: Tree,
                                                  order: seq<RbtNode>, sn: Payload, ss: Payload,
                                                  k: nat, ps': Path, t': Tree)
    requires k == |Before(path)| + |InOrder(l)| && ps' == RenamePath(c.node, cs.node, sn, ss, ps)
    requires t' == Rename(c.node, cs.node, sn, ss, Bin(Leaf, cs, sr))
    requires LeftSpine(ps, Step(false, c, l, path))
    requires DistinctPath(ps) && Distinct(Bin(Leaf, cs, sr)) && Nodes(Bin(Leaf, cs, sr)) !! PathNodes(ps)
    requires Sound(Plug(ps, Bin(Leaf, cs, sr))) && InOrder(Plug(ps, Bin(Leaf, cs, sr))) == order && Ascending(order)
    ensures k < |order| && order[k] == c.node && Removable(ps', t', c.node, Without(order, k))
  {
    var n, s, base, t := c.node, cs.node, Step(false, c, l, path), Bin(Leaf, cs, sr);
    SuccessorPlace(path, l, c, ps, cs, sr, order);
    SpineOnPath(ps, base);
    OnPathIsNode(ps, n);
    PlugMarks(ps, t);
    RenamedBeside(n, s, sn, ss, ps);
    RenamedElsewhere(n, s, sn, ss, sr);
    assert n != s && Rename(n, s, sn, ss, Leaf) == Leaf &&
      RenameCell(n, s, sn, ss, cs) == Cell(n, cs.red, cs.modified, sn);
    assert t' == Bin(Leaf, Cell(n, cs.red, cs.modified, sn), sr);
    assert RedBlack(Plug(ps', t')) by {
      RenamedPlug(n, s, sn, ss, ps, t);
      RenamedColours(n, s, sn, ss, Plug(ps, t));
    }
    ExchangedRest(n, s, sn, ss, ps, cs, sr, order, k);
  }

  lemma {:induction false} ExchangedRest(n: RbtNode, s: RbtNode, sn: Payload, ss: Payload, ps: Path, cs: Cell,
                                         sr: Tree,
                                         order: seq<RbtNode>, k: nat)
    requires cs.node == s && n != s && Rename(n, s, sn, ss, sr) == sr
    requires InOrder(Plug(ps, Bin(Leaf, cs, sr))) == order && Ascending(order)
    requires k + 1 < |order| && order[k] == n && order[k + 1] == s && |Before(ps)| == k + 1
    requires |Before(RenamePath(n, s, sn, ss, ps))| == |Before(ps)|
    ensures var ps' := RenamePath(n, s, sn, ss, ps);
      Before(ps') + [] + InOrder(sr) + After(ps') == Without(order, k)
  {
    var t := Bin(Leaf, cs, sr);
    var ps', t' := RenamePath(n, s, sn, ss, ps), Rename(n, s, sn, ss, t);
    RenamedPlug(n, s, sn, ss, ps, t);
    RenamedInOrder(n, s, sn, ss, Plug(ps, t));
    PlugInOrder(ps', t');
    ExchangedOrder(order, k, n, s);
    RestAround(Before(ps'), n, InOrder(sr), After(ps'));
  }

  lemma {:induction false} SuccessorPlace(path: Path, l: Tree, c: Cell, ps: Path, cs: Cell, sr: Tree,
                                          order: seq<RbtNode>)
    requires LeftSpine(ps, Step(false, c, l, path)) && InOrder(Plug(ps, Bin(Leaf, cs, sr))) == order
    ensures var k := |Before(path)| + |InOrder(l)|;
      k + 1 < |order| && order[k] == c.node && order[k + 1] == cs.node && |Before(ps)| == k + 1
  {
    SpineBefore(ps, Step(false, c, l, path));
    PlugInOrder(ps, Bin(Leaf, cs, sr));
    assert InOrder(Bin(Leaf, cs, sr))[0] == cs.node;
  }

  lemma {:induction false} RestAround(b: seq<RbtNode>, n: RbtNode, m: seq<RbtNode>, a: seq<RbtNode>)
    ensures Without(b + ([] + [n] + m) + a, |b|) == b + [] + m + a
  {
  }

  // -------------------------------------------------------------- the marking

  ghost function MarkUp(p: Path): Path {
    match p
    case Top => Top
    case Step(d, c, s, up) => Step(d, Marked(c), s, MarkUp(up))
  }

  ghost function MarkRoot(t: Tree): Tree
    requires t.Bin?
  {
    Bin(t.left, Marked(t.cell), t.right)
  }

  lemma {:induction false} MarkUpFacts(p: Path)
    ensures SoundBeside(p) ==> MarkedPath(MarkUp(p))
    ensures forall b :: NoRedRedPath(MarkUp(p), b) <==> NoRedRedPath(p, b)
    ensures forall k: nat :: BalancedPath(MarkUp(p), k) <==> BalancedPath(p, k)
    ensures Before(MarkUp(p)) == Before(p) && After(MarkUp(p)) == After(p)
  {
    match p
    case Top =>
    case Step(d, c, s, up) => MarkUpFacts(up);
  }

  // ------------------------------------------------------------ the unlinking

  ghost function OnlyChild(t: Tree): Tree
    requires t.Bin?
  {
    if t.left.Bin? then t.left else t.right
  }

  /** A node with one child is black and the child is a red leaf. */
  lemma {:induction false} UnlinkWithChild(path: Path, t: Tree, n: RbtNode, rest: seq<RbtNode>)
    requires Removable(path, t, n, rest) && OnlyChild(t).Bin?
    ensures var u := OnlyChild(t);
      var u' := Bin(u.left, Black(u.cell), u.right);
      Sound(Plug(MarkUp(path), u')) && InOrder(Plug(MarkUp(path), u')) == rest
  {
    var u := OnlyChild(t);
    var u' := Bin(u.left, Black(u.cell), u.right);
    RedBlackPlug(path, t);
    MarkUpFacts(path);
    assert u.cell.red && !t.cell.red && BlackCount(u) == 0 && BlackCount(t) == 1 && BlackCount(u') == 1;
    UncleMarks(true, u.left, u.cell, u.right);
    RedBlackPlug(MarkUp(path), u');
    MarksPlug(MarkUp(path), u');
    PlugInOrder(MarkUp(path), u');
    assert InOrder(u') == InOrder(u) && InOrder(t.left) + InOrder(t.right) == InOrder(u);
    ConcatMiddle(Before(path), InOrder(t.left), InOrder(t.right), After(path));
  }

  lemma {:induction false} ConcatMiddle(b: seq<RbtNode>, x: seq<RbtNode>, y: seq<RbtNode>, a: seq<RbtNode>)
    ensures b + x + y + a == b + (x + y) + a
  {
  }

  /** A red node without children leaves nothing to repair. */
  lemma {:induction false} UnlinkRed(path: Path, t: Tree, n: RbtNode, rest: seq<RbtNode>)
    requires Removable(path, t, n, rest) && OnlyChild(t).Leaf? && t.cell.red
    ensures Sound(Plug(MarkUp(path), Leaf)) && InOrder(Plug(MarkUp(path), Leaf)) == rest
  {
    RedBlackPlug(path, t);
    MarkUpFacts(path);
    assert NoRedRedPath(path, true) && NoRedRedPath(path, false);
    RedBlackPlug(MarkUp(path), Leaf);
    MarksPlug(MarkUp(path), Leaf);
    PlugInOrder(MarkUp(path), Leaf);
    ConcatMiddle(Before(path), [], [], After(path));
  }

  /** A black node without children leaves its paths one black node short. */
  lemma {:induction false} UnlinkBlack(path: Path, t: Tree, n: RbtNode, rest: seq<RbtNode>)
    requires Removable(path, t, n, rest) && OnlyChild(t).Leaf? && !t.cell.red
    ensures ShortAt(MarkUp(path), Leaf) && InOrder(Plug(MarkUp(path), Leaf)) == rest
  {
    RedBlackPlug(path, t);
    MarkUpFacts(path);
    PlugInOrder(MarkUp(path), Leaf);
    ConcatMiddle(Before(path), [], [], After(path));
  }

  /** The pointer to `n` now leads to its child `u`. */
  ghost predicate Unlinked(h: Store, root: RbtNode?, p: RbtNode?, n: RbtNode, u: RbtNode?, h': Store, root': RbtNode?)
  {
    && n in h && h'.Keys == h.Keys - {n} && FixedDownptr(h, root, p, n, u, h', root')
    && (u != null ==> u in h && u in h' && h'[u] == h[u].(parent := p))
    && forall x :: x in h && x != n && x != u && x != p ==> h'[x] == h[x]
  }

  lemma {:induction false} UnlinkPointers(h: Store, root: RbtNode?, path: Path, d: bool, u: Tree, c: Cell, p: RbtNode?)
    requires At(h, root, path, Join(d, u, c, Leaf), p, c.node)
    ensures c.node in h && h[c.node].parent == p && h[c.node].Kid(!d) == null && h[c.node].red == c.red
    ensures h[c.node].Kid(d) == null <==> u.Leaf?
    ensures h[c.node].Kid(d) != null ==>
      h[c.node].Kid(d) in h && h[c.node].Kid(d) != c.node && h[c.node].Kid(d) != p && h[c.node].Kid(d) == u.cell.node
    ensures p != null ==> p in h && p != c.node
  {
    JoinRep(h, d, u, c, Leaf, p, c.node);
    JoinNodes(d, u, c, Leaf);
    RepRoot(h, u, c.node, h[c.node].Kid(d));
    PathHead(h, path, root, p, c.node);
  }

  lemma {:induction false} UnlinkedAt(h: Store, root: RbtNode?, path: Path, d: bool, u: Tree, c: Cell, p: RbtNode?,
                                      h': Store, root': RbtNode?)
    requires At(h, root, path, Join(d, u, c, Leaf), p, c.node) && c.node in h
    requires Unlinked(h, root, p, c.node, h[c.node].Kid(d), h', root')
    ensures At(h', root', path, u, p, h[c.node].Kid(d))
  {
    JoinRep(h, d, u, c, Leaf, p, c.node);
    JoinNodes(d, u, c, Leaf);
    RepRoot(h, u, c.node, h[c.node].Kid(d));
    PathHead(h, path, root, p, c.node);
    RepMoved(h, h', u, c.node, p, h[c.node].Kid(d));
    PathRedirected(h, h', path, root, root', p, c.node, h[c.node].Kid(d));
  }

  // ------------------------------------------------------- finding one's place

  /** Every node of a tree is the root of some subtree of it. */
  lemma {:induction false} Locate(h: Store, root: RbtNode?, path: Path, t: Tree, p: RbtNode?, n: RbtNode?, x: RbtNode)
    returns (path': Path, t': Tree)
    requires At(h, root, path, t, p, n) && x in Nodes(t)
    ensures t'.Bin? && t'.cell.node == x && x in h && At(h, root, path', t', h[x].parent, x)
    ensures Plug(path', t') == Plug(path, t)
    decreases t
  {
    JoinRep(h, true, t.left, t.cell, t.right, p, n);
    if x == t.cell.node {
      path', t' := path, t;
    } else if x in Nodes(t.left) {
      MoveDown(h, root, path, true, t.left, t.cell, t.right, p, n);
      path', t' := Locate(h, root, Step(true, t.cell, t.right, path), t.left, n, h[n].left, x);
    } else {
      MoveDown(h, root, path, false, t.right, t.cell, t.left, p, n);
      path', t' := Locate(h, root, Step(false, t.cell, t.left, path), t.right, n, h[n].right, x);
    }
  }

  /** The way down again after `MoveToTop`. */
  lemma {:induction false} MoveToPlace(h: Store, root: RbtNode?, path: Path, d: bool, x: Tree, c: Cell, y: Tree)
    requires At(h, root, Top, Plug(path, Join(d, x, c, y)), null, root)
    ensures c.node in h && At(h, root, path, Join(d, x, c, y), h[c.node].parent, c.node)
    decreases path
  {
    match path
    case Top => JoinRep(h, d, x, c, y, null, root);
    case Step(d2, c2, s2, up) =>
      MoveToPlace(h, root, up, d2, Join(d, x, c, y), c2, s2);
      MoveDown(h, root, up, d2, Join(d, x, c, y), c2, s2, h[c2.node].parent, c2.node);
      JoinRep(h, d, x, c, y, c2.node, h[c2.node].Kid(d2));
  }

  // ------------------------------------------------------ reaching the successor

  /** On the way down the left spine of the right subtree of `c.node`. */
  ghost predicate Spine(path: Path, l: Tree, c: Cell, r: Tree, ps: Path, st: Tree)
  {
    true == (
      && r.Bin? && st.Bin? && LeftSpine(ps, Step(false, c, l, path))
      && Plug(ps, st) == Plug(path, Bin(l, c, r))
      && Nodes(st) <= Nodes(r)
      && (if ps == Step(false, c, l, path) then st == r
          else ps.Step? && ps.leftward && ps.cell.node in Nodes(r) && r.cell.node in PathNodes(ps)))
  }

  lemma {:induction false} SpineDown(path: Path, l: Tree, c: Cell, r: Tree, ps: Path, st: Tree)
    requires Spine(path, l, c, r, ps, st) && st.left.Bin?
    ensures Spine(path, l, c, r, Step(true, st.cell, st.right, ps), st.left)
  {
    var base, ps' := Step(false, c, l, path), Step(true, st.cell, st.right, ps);
    assert ps' != base;
    assert ps'.leftward && LeftSpine(ps'.up, base);
    assert st.cell.node in Nodes(st);
    assert r.cell.node in PathNodes(ps');
  }

  /** The pointers around a node and its successor. */
  lemma {:induction false} SwappableAt(h: Store, root: RbtNode?, path: Path, l: Tree, c: Cell, r: Tree, p: RbtNode?,
                                       ps: Path, cs: Cell, sr: Tree, sp: RbtNode?)
    requires l.Bin? && At(h, root, path, Bin(l, c, r), p, c.node)
    requires Spine(path, l, c, r, ps, Bin(Leaf, cs, sr)) && At(h, root, ps, Bin(Leaf, cs, sr), sp, cs.node)
    ensures c.node in h && cs.node in h && sp != null && h[c.node].left != null && h[c.node].right != null
    ensures h[c.node].right == cs.node <==> ps == Step(false, c, l, path)
    ensures Swappable(h, c.node, cs.node, p, h[c.node].left, h[c.node].right, sp, h[cs.node].right)
  {
    var n, s, base := c.node, cs.node, Step(false, c, l, path);
    assert Rep(h, l, n, h[n].left) && Rep(h, r, n, h[n].right) && Rep(h, sr, s, h[s].right);
    RepRoot(h, l, n, h[n].left);
    RepRoot(h, r, n, h[n].right);
    RepRoot(h, sr, s, h[s].right);
    PathHead(h, path, root, p, n);
    PathHead(h, ps, root, sp, s);
    SiblingAt(h, root, ps.leftward, ps.cell, ps.sibling, ps.up, Bin(Leaf, cs, sr), sp, s);
    assert s in Nodes(Bin(Leaf, cs, sr)) && Rep(h, Leaf, s, h[s].left) && h[s].parent == sp;
    if ps != base {
      assert h[n].right in PathNodes(ps);
    }
  }

  /** The exchange as a whole: `c.node` is now at the foot of the path. */
  lemma {:induction false} ExchangeAt(h: Store, root: RbtNode?, path: Path, t: Tree, ps: Path, st: Tree, sp: RbtNode?,
                                      h': Store, root': RbtNode?)
    returns (path': Path, t': Tree, k: nat)
    requires t.Bin? && Spine(path, t.left, t.cell, t.right, ps, st) && st.left.Leaf?
    requires At(h, root, ps, st, sp, st.cell.node)
    requires Sound(Plug(path, t)) && Ascending(InOrder(Plug(path, t)))
    requires Renamed(h, root, t.cell.node, st.cell.node, h', root')
    ensures t.cell.node in h' && At(h', root', path', t', h'[t.cell.node].parent, t.cell.node)
    ensures k < |InOrder(Plug(path, t))| && InOrder(Plug(path, t))[k] == t.cell.node
    ensures Removable(path', t', t.cell.node, Without(InOrder(Plug(path, t)), k))
  {
    var n, s, order := t.cell.node, st.cell.node, InOrder(Plug(path, t));
    assert t == Bin(t.left, t.cell, t.right) && st == Bin(Leaf, st.cell, st.right) && Plug(ps, st) == Plug(path, t);
    RenamedAt(h, root, n, s, h', root', ps, st, sp, s);
    path', t' := RenamePath(n, s, h[n].load, h[s].load, ps), Rename(n, s, h[n].load, h[s].load, st);
    k := |Before(path)| + |InOrder(t.left)|;
    RemovableAfterExchange(path, t.left, t.cell, ps, st.cell, st.right, order, h[n].load, h[s].load, k, path',
                           t');
    RepRoot(h', t', Pi(n, s, sp), n);
  }

  lemma {:induction false} WithoutAscends(s: seq<RbtNode>, k: nat)
    requires Ascending(s) && k < |s|
    ensures Ascending(Without(s, k))
  {
    forall i, j | 0 <= i < j < |s| - 1 ensures Without(s, k)[i].key < Without(s, k)[j].key {
      assert Without(s, k)[i] == s[if i < k then i else i + 1];
      assert Without(s, k)[j] == s[if j < k then j else j + 1];
    }
  }

  lemma {:induction false} KidPointers(h: Store, root: RbtNode?, path: Path, t: Tree, n: RbtNode)
    requires t.Bin? && n in h && At(h, root, path, t, h[n].parent, n)
    ensures (h[n].left == null <==> t.left.Leaf?) && (h[n].right == null <==> t.right.Leaf?) && t.cell.node == n
  {
    RepRoot(h, t.left, n, h[n].left);
    RepRoot(h, t.right, n, h[n].right);
  }
}
