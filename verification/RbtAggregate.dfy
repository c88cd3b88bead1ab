/** Cached aggregates over subtrees, kept as src/rbt_range.h prescribes: a query
    that trusts the summaries of unmarked nodes gives the naive fold. */
module RbtAggregate {
  import opened RbtTree
  import opened RbtStore
  import opened RbtInsert
  import opened RbtUnlink
  import opened Rbt
  import opened RbtRange
  import RbtIter

  /** `t` after `update_subtree` on its root. */
  ghost function Updated(t: Tree): Tree {
    match t
    case Leaf => Leaf
    case Bin(l, c, r) =>
      if !c.modified then t
      else Bin(Updated(l), Settled(c, Data(t)), Updated(r))
  }

  ghost function Settled(c: Cell, sum: seq<int>): Cell {
    c.(modified := false, load := c.load.(summary := sum))
  }

  /** The data that the nodes of `s` hold. */
  ghost function DataOf(h: Store, s: seq<RbtNode>): seq<int> {
    seq(|s|, i requires 0 <= i < |s| => if s[i] in h then h[s[i]].load.datum else 0)
  }

  lemma {:induction false} DataConcat(h: Store, a: seq<RbtNode>, b: seq<RbtNode>)
    ensures DataOf(h, a + b) == DataOf(h, a) + DataOf(h, b)
  {
  }

  /** The data of a tree are those that its nodes hold. */
  lemma {:induction false} RepData(h: Store, t: Tree, p: RbtNode?, n: RbtNode?)
    requires Rep(h, t, p, n)
    ensures Data(t) == DataOf(h, InOrder(t))
  {
    if t.Bin? {
      JoinRep(h, true, t.left, t.cell, t.right, p, n);
      RepData(h, t.left, n, h[n].left);
      RepData(h, t.right, n, h[n].right);
      DataConcat(h, InOrder(t.left) + [t.cell.node], InOrder(t.right));
      DataConcat(h, InOrder(t.left), [t.cell.node]);
    }
  }

  /** Nodes in the sequence hold the same data if the sequence does. */
  lemma {:induction false} SameDataOf(h: Store, h': Store, order: seq<RbtNode>, s: seq<RbtNode>)
    requires DataOf(h, order) == DataOf(h', order) && (forall x :: x in s ==> x in order)
    ensures DataOf(h, s) == DataOf(h', s)
  {
    forall i | 0 <= i < |s| ensures DataOf(h, s)[i] == DataOf(h', s)[i] {
      assert s[i] in order;
      var j :| 0 <= j < |order| && order[j] == s[i];
      assert DataOf(h, order)[j] == DataOf(h', order)[j];
    }
  }

  lemma {:induction false} UpdatedShape(t: Tree)
    ensures Skeleton(Updated(t)) == Skeleton(t) && InOrder(Updated(t)) == InOrder(t)
    ensures IsRed(Updated(t)) == IsRed(t) && NoRedRed(Updated(t)) == NoRedRed(t)
    ensures BlackCount(Updated(t)) == BlackCount(t) && Balanced(Updated(t)) == Balanced(t)
    ensures Data(Updated(t)) == Data(t)
  {
    if t.Bin? {
      UpdatedShape(t.left);
      UpdatedShape(t.right);
    }
  }

  /** After `update_subtree` nothing below is marked and the cache is the fold. */
  lemma {:induction false} UpdatedMarks(t: Tree)
    requires MarksSound(t)
    ensures MarksSound(Updated(t)) && !IsMarked(Updated(t))
    ensures t.Bin? ==> Updated(t).cell.load.summary == Data(t)
  {
    if t.Bin? && t.cell.modified {
      UpdatedMarks(t.left);
      UpdatedMarks(t.right);
      UpdatedShape(t);
    }
  }

  /** Marks elsewhere stay sound when a subtree keeps its data and gains no mark. */
  lemma {:induction false} MarksReplace(p: Path, t: Tree, t': Tree)
    requires MarksSound(Plug(p, t)) && MarksSound(t') && (IsMarked(t') ==> IsMarked(t)) && Data(t') == Data(t)
    ensures MarksSound(Plug(p, t'))
  {
    match p
    case Top =>
    case Step(d, c, s, up) =>
      PlugMarks(up, Join(d, t, c, s));
      MarksReplace(up, Join(d, t, c, s), Join(d, t', c, s));
  }

  lemma {:induction false} DataPlug(p: Path, t: Tree, t': Tree)
    requires Data(t) == Data(t')
    ensures Data(Plug(p, t)) == Data(Plug(p, t'))
  {
    match p
    case Top =>
    case Step(d, c, s, up) => DataPlug(up, Join(d, t, c, s), Join(d, t', c, s));
  }

  lemma {:induction false} SkeletonPlug(p: Path, t: Tree, t': Tree)
    requires Skeleton(t) == Skeleton(t')
    ensures Skeleton(Plug(p, t)) == Skeleton(Plug(p, t'))
  {
    match p
    case Top =>
    case Step(d, c, s, up) => SkeletonPlug(up, Join(d, t, c, s), Join(d, t', c, s));
  }

  lemma {:induction false} SkeletonFacts(t: Tree, n: RbtNode)
    ensures Nodes(Skeleton(t)) == Nodes(t) && InOrder(Skeleton(t)) == InOrder(t)
    ensures Skeleton(SubtreeOf(t, n)) == SubtreeOf(Skeleton(t), n)
  {
    if t.Bin? {
      SkeletonFacts(t.left, n);
      SkeletonFacts(t.right, n);
    }
  }

  /** What a callback stands for does not depend on flags and summaries. */
  lemma {:induction false} SameCover(t: Tree, t': Tree, a: Add)
    requires Skeleton(t) == Skeleton(t')
    ensures Covered(t, a) == Covered(t', a) && (a.node in Nodes(t) <==> a.node in Nodes(t'))
    ensures InOrder(t) == InOrder(t')
  {
    SkeletonFacts(t, a.node);
    SkeletonFacts(t', a.node);
    SkeletonFacts(SubtreeOf(t, a.node), a.node);
    SkeletonFacts(SubtreeOf(t', a.node), a.node);
  }

  lemma {:induction false} DistinctPlug(p: Path, t: Tree)
    requires Distinct(Plug(p, t))
    ensures Distinct(t)
  {
    match p
    case Top =>
    case Step(d, c, s, up) => DistinctPlug(up, Join(d, t, c, s));
  }

  lemma {:induction false} SubtreeOfPlug(p: Path, t: Tree, n: RbtNode)
    requires Distinct(Plug(p, t)) && n in Nodes(t)
    ensures SubtreeOf(Plug(p, t), n) == SubtreeOf(t, n)
  {
    match p
    case Top =>
    case Step(d, c, s, up) =>
      SubtreeOfPlug(up, Join(d, t, c, s), n);
      DistinctPlug(up, Join(d, t, c, s));
  }

  // ----------------------------------------------------------- update_subtree

  ghost function SettledRec(r: Rec, sum: seq<int>): Rec {
    r.(modified := false, load := r.load.(summary := sum))
  }

  /** Store the summary and clear the mark. */
  method Settle(tr: RbTree, n: RbtNode, sum: seq<int>)
    requires n in tr.nodes
    modifies n`load, n`modified
    ensures tr.Heap() == old(tr.Heap())[n := SettledRec(old(tr.Heap())[n], sum)]
  {
    n.load := n.load.(summary := sum);
    n.modified := false;
  }

  method UpdateSubtree(tr: RbTree, n: RbtNode, ghost path: Path, ghost t: Tree)
    requires At(tr.Heap(), tr.root, path, t, n.parent, n) && MarksSound(t) && t.Bin?
    modifies tr.nodes`load, tr.nodes`modified
    ensures At(tr.Heap(), tr.root, path, Updated(t), n.parent, n)
    ensures n.load.summary == Data(t)
    decreases t, 0
  {
    hide At, MarksSound, Data;
    FirstLook(tr.Heap(), tr.root, path, t, n.parent, n);
    if !n.modified {
      return;
    }
    var left := UpdateChild(tr, n, true, path, t.left, t.cell, t.right);
    var right := UpdateChild(tr, n, false, path, t.right, t.cell, Updated(t.left));
    SettleAt(tr, n, left, right, path, Updated(t.left), t.cell, Updated(t.right));
    DataHere(t);
  }

  /** What `update_subtree` reads at its node. */
  lemma {:induction false} FirstLook(h: Store, root: RbtNode?, path: Path, t: Tree, p: RbtNode?, n: RbtNode)
    requires At(h, root, path, t, p, n) && t.Bin? && MarksSound(t)
    ensures n in h && h[n].modified == t.cell.modified && MarksSound(t.left) && MarksSound(t.right)
    ensures !t.cell.modified ==> h[n].load.summary == Data(t)
  {
    JoinRep(h, true, t.left, t.cell, t.right, p, n);
  }

  lemma {:induction false} DataHere(t: Tree)
    requires t.Bin?
    ensures Data(t) == Data(t.left) + [t.cell.load.datum] + Data(t.right)
  {
  }

  /** Add the node's own datum, store the summary and clear the mark. */
  method SettleAt(tr: RbTree, n: RbtNode, left: seq<int>, right: seq<int>, ghost path: Path, ghost l: Tree,
                  ghost c: Cell, ghost r: Tree)
    requires At(tr.Heap(), tr.root, path, Bin(l, c, r), n.parent, n)
    modifies n`load, n`modified
    ensures n.load.summary == left + [c.load.datum] + right
    ensures At(tr.Heap(), tr.root, path, Bin(l, Settled(c, n.load.summary), r), n.parent, n)
  {
    ghost var h := tr.Heap();
    JoinRep(h, true, l, c, r, n.parent, n);
    var sum := left + [n.load.datum] + right;
    Paint(h, tr.root, path, true, l, c, r, n.parent, n, Settled(c, sum));
    Settle(tr, n, sum);
    assert tr.Heap() == h[n := Painted(h[n], Settled(c, sum))];
  }

  /** The summary of a child, brought up to date; nothing for a missing one. */
  method UpdateChild(tr: RbTree, n: RbtNode, d: bool, ghost path: Path, ghost u: Tree, ghost c: Cell, ghost s: Tree)
    returns (sum: seq<int>)
    requires MarksSound(u) && At(tr.Heap(), tr.root, path, Join(d, u, c, s), n.parent, n)
    modifies tr.nodes`load, tr.nodes`modified
    ensures At(tr.Heap(), tr.root, path, Join(d, Updated(u), c, s), n.parent, n)
    ensures sum == Data(u)
    decreases u, 1
  {
    MoveDown(tr.Heap(), tr.root, path, d, u, c, s, n.parent, n);
    RepRoot(tr.Heap(), u, n, tr.Heap()[n].Kid(d));
    var m := if d then n.left else n.right;
    if m == null {
      return [];
    }
    UpdateSubtree(tr, m, Step(d, c, s, path), u);
    MoveUp(tr.Heap(), tr.root, d, c, s, path, Updated(u), n, m);
    sum := m.load.summary;
  }

  /** An updated subtree leaves the tree valid and its shape unchanged. */
  lemma {:induction false} UpdatedInPlace(p: Path, t: Tree)
    requires Sound(Plug(p, t))
    ensures Sound(Plug(p, Updated(t))) && Skeleton(Plug(p, Updated(t))) == Skeleton(Plug(p, t))
    ensures InOrder(Plug(p, Updated(t))) == InOrder(Plug(p, t)) && MarksSound(t)
    ensures Data(Plug(p, Updated(t))) == Data(Plug(p, t))
  {
    PlugMarks(p, t);
    UpdatedShape(t);
    UpdatedMarks(t);
    MarksReplace(p, t, Updated(t));
    RedBlackPlug(p, t);
    RedBlackPlug(p, Updated(t));
    SkeletonPlug(p, t, Updated(t));
    DataPlug(p, t, Updated(t));
    SameOrderHere(p, t, Updated(t));
  }

  lemma {:induction false} SubtreeHere(p: Path, t: Tree, n: RbtNode)
    requires Distinct(Plug(p, t)) && t.Bin? && t.cell.node == n
    ensures SubtreeOf(Plug(p, t), n) == t
  {
    SubtreeOfPlug(p, t, n);
  }

  /** No datum of the tree's nodes has changed. */
  ghost predicate SameData(h: Store, h': Store, t: Tree) { DataOf(h, InOrder(t)) == DataOf(h', InOrder(t)) }

  /** `update_subtree` at a node of the tree: its cached summary is the in-order
      fold of the subtree below it. */
  method UpdateAt(tr: RbTree, n: RbtNode)
    requires tr.Valid() && n in tr.nodes
    modifies tr`tree, tr.nodes`load, tr.nodes`modified
    ensures tr.Valid() && Skeleton(tr.tree) == old(Skeleton(tr.tree))
    ensures n.load.summary == old(DataOf(tr.Heap(), InOrder(SubtreeOf(tr.tree, n))))
    ensures SameData(old(tr.Heap()), tr.Heap(), tr.tree)
  {
    hide Skeleton, Data, DataOf, Updated, SubtreeOf, InOrder, Sound;
    ghost var path, t := Locate(tr.Heap(), tr.root, Top, tr.tree, null, tr.root, n);
    SubtreeHere(path, t, n);
    UpdatedInPlace(path, t);
    RepData(tr.Heap(), t, n.parent, n);
    RepData(tr.Heap(), tr.tree, null, tr.root);
    UpdateSubtree(tr, n, path, t);
    MoveToTop(tr.Heap(), tr.root, path, Updated(t), n.parent, n);
    tr.tree := Plug(path, Updated(t));
    RepData(tr.Heap(), tr.tree, null, tr.root);
  }

  /** Run the callbacks of a query, taking the cached summary for each subtree. */
  method Aggregate(tr: RbTree, out: seq<Add>) returns (sum: seq<int>)
    requires tr.Valid() && Within(tr.tree, out)
    modifies tr`tree, tr.nodes`load, tr.nodes`modified
    ensures tr.Valid() && Skeleton(tr.tree) == old(Skeleton(tr.tree))
    ensures sum == old(DataOf(tr.Heap(), Expand(tr.tree, out))) && SameData(old(tr.Heap()), tr.Heap(), old(tr.tree))
  {
    hide DataOf, Expand, Skeleton;
    sum := [];
    ghost var t0, h0 := tr.tree, tr.Heap();
    NothingExpanded(h0, t0);
    for i := 0 to |out|
      invariant tr.Valid() && Skeleton(tr.tree) == Skeleton(t0) && SameData(h0, tr.Heap(), t0)
      invariant sum == DataOf(h0, Expand(t0, out[..i]))
    {
      var piece := Contribution(tr, out[i], t0, h0);
      ExpandedMore(h0, t0, out, i);
      sum := sum + piece;
    }
    assert out[..|out|] == out;
  }

  /** What one callback adds to the result. */
  method Contribution(tr: RbTree, a: Add, ghost t0: Tree, ghost h0: Store) returns (piece: seq<int>)
    requires tr.Valid() && Skeleton(tr.tree) == Skeleton(t0) && SameData(h0, tr.Heap(), t0) && a.node in Nodes(t0)
    modifies tr`tree, tr.nodes`load, tr.nodes`modified
    ensures tr.Valid() && Skeleton(tr.tree) == Skeleton(t0) && SameData(h0, tr.Heap(), t0)
    ensures piece == DataOf(h0, Covered(t0, a))
  {
    SameCover(t0, tr.tree, a);
    CoveredInTree(t0, a);
    SameDataOf(h0, tr.Heap(), InOrder(t0), Covered(t0, a));
    if a.AddNode? {
      piece := [a.node.load.datum];
    } else {
      UpdateAt(tr, a.node);
      SkeletonSameOrder(tr.tree, t0);
      piece := a.node.load.summary;
    }
  }

  lemma {:induction false} SubtreeWithin(t: Tree, n: RbtNode)
    ensures Nodes(SubtreeOf(t, n)) <= Nodes(t)
  {
    if t.Bin? {
      SubtreeWithin(t.left, n);
      SubtreeWithin(t.right, n);
    }
  }

  lemma {:induction false} CoveredInTree(t: Tree, a: Add)
    requires a.node in Nodes(t)
    ensures forall x :: x in Covered(t, a) ==> x in InOrder(t)
  {
    SubtreeWithin(t, a.node);
    forall x | x in Covered(t, a) ensures x in InOrder(t) {
      RbtIter.NodesInOrder(SubtreeOf(t, a.node), x);
      RbtIter.NodesInOrder(t, x);
    }
  }

  lemma {:induction false} NothingExpanded(h: Store, t: Tree)
    ensures DataOf(h, Expand(t, [])) == []
  {
  }

  lemma {:induction false} ExpandedMore(h: Store, t: Tree, out: seq<Add>, i: nat)
    requires i < |out|
    ensures DataOf(h, Expand(t, out[..i + 1])) == DataOf(h, Expand(t, out[..i])) + DataOf(h, Covered(t, out[i]))
  {
    assert out[..i + 1] == out[..i] + [out[i]];
    ExpandConcat(t, out[..i], [out[i]]);
    assert Expand(t, [out[i]]) == Covered(t, out[i]) + [];
    DataConcat(h, Expand(t, out[..i]), Covered(t, out[i]));
  }

  /** A range query that uses cached summaries gives the fold over the data of exactly
      the nodes inside the range, in order, whatever was inserted, replaced, removed,
      changed and marked, or updated before; and it changes no datum. */
  method RangeAggregate(tr: RbTree, cmp: RbtNode -> int) returns (sum: seq<int>)
    requires tr.Valid() && Contiguous(cmp, InOrder(tr.tree))
    modifies tr`tree, tr.nodes`load, tr.nodes`modified
    ensures tr.Valid() && InOrder(tr.tree) == old(InOrder(tr.tree))
    ensures sum == old(DataOf(tr.Heap(), InRange(cmp, InOrder(tr.tree))))
    ensures SameData(old(tr.Heap()), tr.Heap(), tr.tree)
  {
    var out := RangeQuery(tr, cmp);
    ghost var t0 := tr.tree;
    sum := Aggregate(tr, out);
    SkeletonSameOrder(t0, tr.tree);
  }

  // ----------------------------------------------------------- changing a datum

  /** Marking the way up from a changed node makes all marks sound again. */
  lemma {:induction false} ChangedInPlace(p: Path, t: Tree, load: Payload)
    requires t.Bin? && Sound(Plug(p, t))
    ensures var t' := Plug(MarkUp(p), Bin(t.left, Marked(t.cell.(load := load)), t.right));
      Sound(t') && InOrder(t') == InOrder(Plug(p, t))
  {
    var u, u' := Bin(t.left, Marked(t.cell.(load := load)), t.right), MarkUp(p);
    PlugMarks(p, t);
    MarkUpFacts(p);
    MarksPlug(u', u);
    RedBlackPlug(p, t);
    RedBlackPlug(u', u);
    PlugInOrder(p, t);
    PlugInOrder(u', u);
  }

  /** A caller changes a datum and then calls `rbt_mark_modified`: the tree is valid, with
      the new datum in its place. */
  method ChangeDatum(tr: RbTree, n: RbtNode, datum: int)
    requires tr.Valid() && n in tr.nodes
    modifies tr`tree, n`load, tr.nodes`modified
    ensures tr.Valid() && InOrder(tr.tree) == old(InOrder(tr.tree)) && n.load.datum == datum
  {
    ghost var path, t := Locate(tr.Heap(), tr.root, Top, tr.tree, null, tr.root, n);
    ghost var load := n.load.(datum := datum);
    ghost var t' := Bin(t.left, t.cell.(load := load), t.right);
    ChangedInPlace(path, t, load);
    WriteDatum(tr, n, datum, path, t);
    tr.MarkAncestors(n, path, t');
    MoveToTop(tr.Heap(), tr.root, MarkUp(path), MarkRoot(t'), n.parent, n);
    tr.tree := Plug(MarkUp(path), MarkRoot(t'));
  }

  method WriteDatum(tr: RbTree, n: RbtNode, datum: int, ghost path: Path, ghost t: Tree)
    requires t.Bin? && At(tr.Heap(), tr.root, path, t, n.parent, n)
    modifies n`load
    ensures n.load == old(n.load).(datum := datum)
    ensures At(tr.Heap(), tr.root, path, Bin(t.left, t.cell.(load := n.load), t.right), n.parent, n)
  {
    ghost var h, c' := tr.Heap(), t.cell.(load := n.load.(datum := datum));
    JoinRep(h, true, t.left, t.cell, t.right, n.parent, n);
    Paint(h, tr.root, path, true, t.left, t.cell, t.right, n.parent, n, c');
    n.load := n.load.(datum := datum);
    assert tr.Heap() == h[n := Painted(h[n], c')];
  }

  lemma {:induction false} SkeletonSameOrder(t: Tree, t': Tree)
    requires Skeleton(t) == Skeleton(t')
    ensures InOrder(t) == InOrder(t')
  {
    if t.Bin? {
      SkeletonSameOrder(t.left, t'.left);
      SkeletonSameOrder(t.right, t'.right);
    }
  }
}
