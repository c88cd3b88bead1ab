/** src/rbt_range.c, and the aggregate protocol that src/rbt_range.h prescribes
    for its callbacks. */
module RbtRange {
  import opened Arith
  import opened RbtTree
  import opened RbtStore
  import opened RbtInsert
  import opened RbtUnlink
  import opened Rbt

  /** One call of the `rbt_range_add_t` callback. */
  datatype Add = AddNode(node: RbtNode) | AddTree(node: RbtNode)

  // ------------------------------------------------------------ specification

  /** The tree without flags and summaries. */
  ghost function Skeleton(t: Tree): Tree {
    match t
    case Leaf => Leaf
    case Bin(l, c, r) => Bin(Skeleton(l), Cell(c.node, false, false, Payload(0, [])), Skeleton(r))
  }

  /** The subtree with root `n`. */
  ghost function SubtreeOf(t: Tree, n: RbtNode): Tree {
    match t
    case Leaf => Leaf
    case Bin(l, c, r) =>
      if c.node == n then t else if n in Nodes(l) then SubtreeOf(l, n) else SubtreeOf(r, n)
  }

  /** The nodes a callback stands for, in order. */
  ghost function Covered(t: Tree, a: Add): seq<RbtNode> {
    match a
    case AddNode(n) => [n]
    case AddTree(n) => InOrder(SubtreeOf(t, n))
  }

  ghost function Expand(t: Tree, out: seq<Add>): seq<RbtNode> {
    if out == [] then [] else Covered(t, out[0]) + Expand(t, out[1..])
  }

  ghost predicate Within(t: Tree, out: seq<Add>) {
    forall i :: 0 <= i < |out| ==> out[i].node in Nodes(t)
  }

  /** The nodes inside the range, in order: the naive traversal. */
  ghost function InRange(cmp: RbtNode -> int, s: seq<RbtNode>): seq<RbtNode> {
    if s == [] then [] else (if cmp(s[0]) == 0 then [s[0]] else []) + InRange(cmp, s[1..])
  }

  /** A contiguous range: first the nodes before it, then those inside, then those after. */
  ghost predicate Contiguous(cmp: RbtNode -> int, s: seq<RbtNode>) {
    forall i, j :: 0 <= i < j < |s| ==>
      (cmp(s[j]) < 0 ==> cmp(s[i]) < 0) && (cmp(s[i]) > 0 ==> cmp(s[j]) > 0)
  }

  ghost function Height(t: Tree): nat {
    match t
    case Leaf => 0
    case Bin(l, _, r) => 1 + if Height(l) > Height(r) then Height(l) else Height(r)
  }

  ghost function Size(t: Tree): nat {
    match t
    case Leaf => 0
    case Bin(l, _, r) => Size(l) + 1 + Size(r)
  }

  // ------------------------------------------------------------------- lemmas

  /** Half of the nodes on any path are black, and all black levels are full. */
  lemma {:induction false} HeightAndSize(t: Tree)
    requires NoRedRed(t) && Balanced(t)
    ensures Height(t) <= 2 * BlackCount(t) + if IsRed(t) then 1 else 0
    ensures Pow2(BlackCount(t)) <= Size(t) + 1
  {
    if t.Bin? {
      HeightAndSize(t.left);
      HeightAndSize(t.right);
    }
  }

  /** The height of a valid tree with n nodes is at most 2 log2(n + 1). */
  lemma {:induction false} HeightBound(t: Tree)
    requires RedBlack(t)
    ensures Pow2(Height(t)) <= (Size(t) + 1) * (Size(t) + 1)
  {
    HeightAndSize(t);
    var b := Pow2(BlackCount(t));
    Pow2Monotone(Height(t), BlackCount(t) + BlackCount(t));
    Pow2Sum(BlackCount(t), BlackCount(t));
    SquareMonotone(b, Size(t) + 1);
  }

  lemma {:induction false} InRangeConcat(cmp: RbtNode -> int, a: seq<RbtNode>, b: seq<RbtNode>)
    ensures InRange(cmp, a + b) == InRange(cmp, a) + InRange(cmp, b)
  {
    if a == [] {
      assert a + b == b;
    } else {
      InRangeConcat(cmp, a[1..], b);
      var h := if cmp(a[0]) == 0 then [a[0]] else [];
      assert (a + b)[0] == a[0] && (a + b)[1..] == a[1..] + b;
      assert h + (InRange(cmp, a[1..]) + InRange(cmp, b)) == (h + InRange(cmp, a[1..])) + InRange(cmp, b);
    }
  }

  lemma {:induction false} NoneInRange(cmp: RbtNode -> int, s: seq<RbtNode>)
    requires forall i :: 0 <= i < |s| ==> cmp(s[i]) != 0
    ensures InRange(cmp, s) == []
  {
    if s != [] {
      NoneInRange(cmp, s[1..]);
    }
  }

  lemma {:induction false} AllInRange(cmp: RbtNode -> int, s: seq<RbtNode>)
    requires forall i :: 0 <= i < |s| ==> cmp(s[i]) == 0
    ensures InRange(cmp, s) == s
  {
    if s != [] {
      AllInRange(cmp, s[1..]);
    }
  }

  lemma {:induction false} ExpandConcat(t: Tree, a: seq<Add>, b: seq<Add>)
    ensures Expand(t, a + b) == Expand(t, a) + Expand(t, b)
  {
    hide Covered;
    if a == [] {
      assert a + b == b;
    } else {
      ExpandConcat(t, a[1..], b);
      assert (a + b)[0] == a[0] && (a + b)[1..] == a[1..] + b;
      ConcatAssociative(Covered(t, a[0]), Expand(t, a[1..]), Expand(t, b));
    }
  }

  lemma {:induction false} ConcatAssociative(a: seq<RbtNode>, b: seq<RbtNode>, c: seq<RbtNode>)
    ensures a + (b + c) == a + b + c
  {
  }

  /** A callback below a child stands for the same nodes in the whole subtree. */
  lemma {:induction false} ExpandInChild(t: Tree, d: bool, out: seq<Add>)
    requires t.Bin? && Distinct(t) && Within(Sub(t, d), out)
    ensures Expand(t, out) == Expand(Sub(t, d), out) && Within(t, out)
  {
    if out != [] {
      ExpandInChild(t, d, out[1..]);
      var n := out[0].node;
      assert n in Nodes(Sub(t, d));
      assert SubtreeOf(t, n) == SubtreeOf(Sub(t, d), n);
    }
  }

  /** `u` is a subtree of `t`. */
  ghost predicate IsSub(t: Tree, u: Tree) {
    u == t || (t.Bin? && (IsSub(t.left, u) || IsSub(t.right, u)))
  }

  lemma {:induction false} IsSubDown(t: Tree, u: Tree, d: bool)
    requires IsSub(t, u) && u.Bin?
    ensures IsSub(t, Sub(u, d))
    ensures Height(Sub(u, d)) < Height(u) <= Height(t)
  {
    if u == t {
      assert IsSub(Sub(t, d), Sub(u, d));
    } else if IsSub(t.left, u) {
      IsSubDown(t.left, u, d);
    } else {
      IsSubDown(t.right, u, d);
    }
  }

  lemma {:induction false} ExpandInSub(t: Tree, u: Tree, out: seq<Add>)
    requires IsSub(t, u) && Distinct(t) && Within(u, out)
    ensures Expand(t, out) == Expand(u, out) && Within(t, out)
  {
    if u != t {
      var d := IsSub(t.left, u);
      ExpandInSub(Sub(t, d), u, out);
      ExpandInChild(t, d, out);
    }
  }

  /** A contiguous range is contiguous below, and which side of a node can hold it. */
  lemma {:induction false} ContiguousBelow(cmp: RbtNode -> int, t: Tree)
    requires t.Bin? && Contiguous(cmp, InOrder(t))
    ensures Contiguous(cmp, InOrder(t.left)) && Contiguous(cmp, InOrder(t.right))
    ensures cmp(t.cell.node) < 0 ==> forall i :: 0 <= i < |InOrder(t.left)| ==> cmp(InOrder(t.left)[i]) < 0
    ensures cmp(t.cell.node) > 0 ==> forall i :: 0 <= i < |InOrder(t.right)| ==> cmp(InOrder(t.right)[i]) > 0
    ensures cmp(t.cell.node) <= 0 ==> NotAfter(cmp, InOrder(t.left))
    ensures cmp(t.cell.node) >= 0 ==> NotBefore(cmp, InOrder(t.right))
  {
    hide Contiguous;
    var l, n, r := InOrder(t.left), t.cell.node, InOrder(t.right);
    var s := l + [n] + r;
    assert s[..|l|] == l;
    ContiguousSlice(cmp, s, 0, |l|);
    ContiguousSlice(cmp, s, |l| + 1, |s|);
    assert s[|l| + 1..|s|] == r;
    SidesOf(cmp, l, n, r);
  }

  lemma {:induction false} ContiguousSlice(cmp: RbtNode -> int, s: seq<RbtNode>, i: nat, j: nat)
    requires Contiguous(cmp, s) && i <= j <= |s|
    ensures Contiguous(cmp, s[i..j])
  {
  }

  /** What lies before and after a node. */
  lemma {:induction false} SidesOf(cmp: RbtNode -> int, l: seq<RbtNode>, n: RbtNode, r: seq<RbtNode>)
    requires Contiguous(cmp, l + [n] + r)
    ensures cmp(n) < 0 ==> forall i :: 0 <= i < |l| ==> cmp(l[i]) < 0
    ensures cmp(n) > 0 ==> forall i :: 0 <= i < |r| ==> cmp(r[i]) > 0
    ensures cmp(n) <= 0 ==> NotAfter(cmp, l)
    ensures cmp(n) >= 0 ==> NotBefore(cmp, r)
  {
    var s := l + [n] + r;
    assert s[|l|] == n;
    assert forall i :: 0 <= i < |l| ==> s[i] == l[i];
    assert forall i :: 0 <= i < |r| ==> s[|l| + 1 + i] == r[i];
  }

  /** The range splits at the root of a subtree. */
  lemma {:induction false} SplitAtRoot(cmp: RbtNode -> int, t: Tree)
    requires t.Bin? && Contiguous(cmp, InOrder(t))
    ensures InRange(cmp, InOrder(t)) == InRange(cmp, InOrder(t.left)) +
      (if cmp(t.cell.node) == 0 then [t.cell.node] else []) + InRange(cmp, InOrder(t.right))
    ensures cmp(t.cell.node) < 0 ==> InRange(cmp, InOrder(t.left)) == []
    ensures cmp(t.cell.node) > 0 ==> InRange(cmp, InOrder(t.right)) == []
  {
    var l, n, r := InOrder(t.left), t.cell.node, InOrder(t.right);
    ContiguousBelow(cmp, t);
    InRangeConcat(cmp, l + [n], r);
    InRangeConcat(cmp, l, [n]);
    if cmp(n) < 0 {
      NoneInRange(cmp, l);
    }
    if cmp(n) > 0 {
      NoneInRange(cmp, r);
    }
  }

  ghost predicate NotAfter(cmp: RbtNode -> int, s: seq<RbtNode>) { forall i :: 0 <= i < |s| ==> cmp(s[i]) <= 0 }
  ghost predicate NotBefore(cmp: RbtNode -> int, s: seq<RbtNode>) { forall i :: 0 <= i < |s| ==> cmp(s[i]) >= 0 }

  /** Beside a node inside the range, everything up to the end of the range is inside. */
  lemma {:induction false} FullSide(cmp: RbtNode -> int, t: Tree)
    requires t.Bin? && Contiguous(cmp, InOrder(t)) && cmp(t.cell.node) == 0
    ensures NotAfter(cmp, InOrder(t)) ==> InRange(cmp, InOrder(t.right)) == InOrder(t.right)
    ensures NotBefore(cmp, InOrder(t)) ==> InRange(cmp, InOrder(t.left)) == InOrder(t.left)
  {
    var l, r, s := InOrder(t.left), InOrder(t.right), InOrder(t);
    assert s[|l|] == t.cell.node;
    assert forall i :: 0 <= i < |l| ==> s[i] == l[i];
    assert forall i :: 0 <= i < |r| ==> s[|l| + 1 + i] == r[i];
    if NotAfter(cmp, s) {
      AllInRange(cmp, r);
    }
    if NotBefore(cmp, s) {
      AllInRange(cmp, l);
    }
  }

  /** A half-open side of the range stays one-sided below. */
  lemma {:induction false} SidesBelow(cmp: RbtNode -> int, t: Tree, d: bool)
    requires t.Bin?
    ensures NotAfter(cmp, InOrder(t)) ==> NotAfter(cmp, InOrder(Sub(t, d))) && cmp(t.cell.node) <= 0
    ensures NotBefore(cmp, InOrder(t)) ==> NotBefore(cmp, InOrder(Sub(t, d))) && cmp(t.cell.node) >= 0
  {
    var l, r, s := InOrder(t.left), InOrder(t.right), InOrder(t);
    assert s[|l|] == t.cell.node;
    assert forall i :: 0 <= i < |l| ==> s[i] == l[i];
    assert forall i :: 0 <= i < |r| ==> s[|l| + 1 + i] == r[i];
  }

  /** The callback for a whole child subtree, if there is one. */
  ghost function WholeChild(t: Tree): seq<Add> {
    if t.Leaf? then [] else [AddTree(t.cell.node)]
  }

  lemma {:induction false} ExpandWholeChild(t: Tree, d: bool)
    requires t.Bin? && Distinct(t)
    ensures Within(t, WholeChild(Sub(t, d))) && Expand(t, WholeChild(Sub(t, d))) == InOrder(Sub(t, d))
  {
    var u, a := Sub(t, d), WholeChild(Sub(t, d));
    if u.Bin? {
      assert SubtreeOf(t, u.cell.node) == u;
      assert a[1..] == [] && Expand(t, a) == Covered(t, a[0]) + [];
    }
  }

  lemma {:induction false} ExpandAround(t: Tree, a: seq<Add>, n: RbtNode, b: seq<Add>)
    requires Within(t, a) && Within(t, b) && n in Nodes(t)
    ensures Within(t, a + [AddNode(n)] + b)
    ensures Expand(t, a + [AddNode(n)] + b) == Expand(t, a) + [n] + Expand(t, b)
  {
    hide Expand;
    ExpandOne(t, n);
    ExpandConcat(t, a + [AddNode(n)], b);
    ExpandConcat(t, a, [AddNode(n)]);
  }

  lemma {:induction false} ExpandOne(t: Tree, n: RbtNode)
    requires n in Nodes(t)
    ensures Within(t, [AddNode(n)]) && Expand(t, [AddNode(n)]) == [n]
  {
    assert [AddNode(n)][1..] == [];
  }

  /** What `query_low` passes to the callback at the node where it stops. */
  lemma {:induction false} LowEmits(cmp: RbtNode -> int, t: Tree, low: seq<Add>, out: seq<Add>)
    requires t.Bin? && Distinct(t) && Contiguous(cmp, InOrder(t)) && cmp(t.cell.node) == 0 && NotAfter(cmp, InOrder(t))
    requires Within(t.left, low) && Expand(t.left, low) == InRange(cmp, InOrder(t.left))
    requires out == low + [AddNode(t.cell.node)] + WholeChild(t.right)
    ensures Within(t, out) && Expand(t, out) == InRange(cmp, InOrder(t))
  {
    SplitAtRoot(cmp, t);
    FullSide(cmp, t);
    ExpandInChild(t, true, low);
    ExpandWholeChild(t, false);
    ExpandAround(t, low, t.cell.node, WholeChild(t.right));
  }

  /** What `query_high` passes to the callback at the node where it stops. */
  lemma {:induction false} HighEmits(cmp: RbtNode -> int, t: Tree, high: seq<Add>, out: seq<Add>)
    requires t.Bin? && Distinct(t) && Contiguous(cmp, InOrder(t)) && cmp(t.cell.node) == 0 && NotBefore(cmp, InOrder(t))
    requires Within(t.right, high) && Expand(t.right, high) == InRange(cmp, InOrder(t.right))
    requires out == WholeChild(t.left) + [AddNode(t.cell.node)] + high
    ensures Within(t, out) && Expand(t, out) == InRange(cmp, InOrder(t))
  {
    SplitAtRoot(cmp, t);
    FullSide(cmp, t);
    ExpandInChild(t, false, high);
    ExpandWholeChild(t, true);
    ExpandAround(t, WholeChild(t.left), t.cell.node, high);
  }

  /** What `query_over` passes to the callback at the first node inside the range. */
  lemma {:induction false} OverEmits(cmp: RbtNode -> int, t: Tree, low: seq<Add>, high: seq<Add>, out: seq<Add>)
    requires t.Bin? && Distinct(t) && Contiguous(cmp, InOrder(t)) && cmp(t.cell.node) == 0
    requires Within(t.left, low) && Expand(t.left, low) == InRange(cmp, InOrder(t.left))
    requires Within(t.right, high) && Expand(t.right, high) == InRange(cmp, InOrder(t.right))
    requires out == low + [AddNode(t.cell.node)] + high
    ensures Within(t, out) && Expand(t, out) == InRange(cmp, InOrder(t))
  {
    SplitAtRoot(cmp, t);
    ExpandInChild(t, true, low);
    ExpandInChild(t, false, high);
    ExpandAround(t, low, t.cell.node, high);
  }

  // -------------------------------------------------------------- the queries

  /** Pointer `n` leads to the subtree `t` of the tree `tr`. */
  ghost predicate LeadsTo(tr: RbTree, n: RbtNode?, t: Tree)
    reads tr, tr.nodes
  {
    Distinct(t) && (n != null ==> n in tr.nodes) && Rep(tr.Heap(), t, if n == null then null else n.parent, n)
  }

  lemma {:induction false} LeadsDown(tr: RbTree, n: RbtNode, t: Tree)
    requires LeadsTo(tr, n, t)
    ensures t.Bin? && n == t.cell.node && n in tr.nodes
    ensures LeadsTo(tr, n.left, t.left) && LeadsTo(tr, n.right, t.right)
  {
    assert Rep(tr.Heap(), t.left, n, n.left) && Rep(tr.Heap(), t.right, n, n.right);
  }

  lemma {:induction false} LeadsNowhere(tr: RbTree, n: RbtNode?, t: Tree)
    requires LeadsTo(tr, n, t)
    ensures n == null <==> t.Leaf?
    ensures n != null ==> n == t.cell.node
  {
  }

  method QueryLow(tr: RbTree, n0: RbtNode?, cmp: RbtNode -> int, ghost t: Tree) returns (out: seq<Add>)
    requires LeadsTo(tr, n0, t) && Contiguous(cmp, InOrder(t)) && NotAfter(cmp, InOrder(t))
    ensures Within(t, out) && Expand(t, out) == InRange(cmp, InOrder(t)) && |out| <= 2 * Height(t)
    decreases Height(t)
  {
    var n := n0;
    ghost var u := t;
    out := [];
    while n != null
      invariant LeadsTo(tr, n, u) && IsSub(t, u) && Contiguous(cmp, InOrder(u)) && NotAfter(cmp, InOrder(u))
      invariant InRange(cmp, InOrder(u)) == InRange(cmp, InOrder(t)) && out == []
      decreases u
    {
      LeadsDown(tr, n, u);
      LeadsNowhere(tr, n.right, u.right);
      IsSubDown(t, u, true);
      IsSubDown(t, u, false);
      ContiguousBelow(cmp, u);
      SidesBelow(cmp, u, true);
      SidesBelow(cmp, u, false);
      if cmp(n) < 0 {
        SplitAtRoot(cmp, u);
        n, u := n.right, u.right;
      } else {
        var low := QueryLow(tr, n.left, cmp, u.left);
        out := low + [AddNode(n)];
        if n.right != null {
          out := out + [AddTree(n.right)];
        }
        assert out == low + [AddNode(n)] + WholeChild(u.right);
        LowEmits(cmp, u, low, out);
        ExpandInSub(t, u, out);
        return;
      }
    }
    LeadsNowhere(tr, n, u);
  }

  method QueryHigh(tr: RbTree, n0: RbtNode?, cmp: RbtNode -> int, ghost t: Tree) returns (out: seq<Add>)
    requires LeadsTo(tr, n0, t) && Contiguous(cmp, InOrder(t)) && NotBefore(cmp, InOrder(t))
    ensures Within(t, out) && Expand(t, out) == InRange(cmp, InOrder(t)) && |out| <= 2 * Height(t)
    decreases Height(t)
  {
    var n := n0;
    ghost var u := t;
    out := [];
    while n != null
      invariant LeadsTo(tr, n, u) && IsSub(t, u) && Contiguous(cmp, InOrder(u)) && NotBefore(cmp, InOrder(u))
      invariant InRange(cmp, InOrder(u)) == InRange(cmp, InOrder(t)) && out == []
      decreases u
    {
      LeadsDown(tr, n, u);
      LeadsNowhere(tr, n.left, u.left);
      IsSubDown(t, u, true);
      IsSubDown(t, u, false);
      assert Contiguous(cmp, InOrder(u.left)) && Contiguous(cmp, InOrder(u.right)) by {
        ContiguousBelow(cmp, u);
      }
      SidesBelow(cmp, u, true);
      SidesBelow(cmp, u, false);
      if cmp(n) > 0 {
        SplitAtRoot(cmp, u);
        n, u := n.left, u.left;
      } else {
        if n.left != null {
          out := [AddTree(n.left)];
        }
        assert out == WholeChild(u.left);
        var high := QueryHigh(tr, n.right, cmp, u.right);
        out := out + [AddNode(n)] + high;
        HighEmits(cmp, u, high, out);
        ExpandInSub(t, u, out);
        return;
      }
    }
    LeadsNowhere(tr, n, u);
  }

  method QueryOver(tr: RbTree, n0: RbtNode?, cmp: RbtNode -> int, ghost t: Tree) returns (out: seq<Add>)
    requires LeadsTo(tr, n0, t) && Contiguous(cmp, InOrder(t))
    ensures Within(t, out) && Expand(t, out) == InRange(cmp, InOrder(t))
    ensures t.Bin? ==> |out| <= 4 * Height(t) - 3
    ensures t.Leaf? ==> out == []
  {
    var n := n0;
    ghost var u := t;
    out := [];
    while n != null
      invariant LeadsTo(tr, n, u) && IsSub(t, u) && Contiguous(cmp, InOrder(u))
      invariant InRange(cmp, InOrder(u)) == InRange(cmp, InOrder(t)) && out == []
      decreases u
    {
      LeadsDown(tr, n, u);
      IsSubDown(t, u, true);
      IsSubDown(t, u, false);
      ContiguousBelow(cmp, u);
      SplitAtRoot(cmp, u);
      if cmp(n) < 0 {
        n, u := n.right, u.right;
      } else if cmp(n) > 0 {
        n, u := n.left, u.left;
      } else {
        out := QueryBoth(tr, n, cmp, u);
        ExpandInSub(t, u, out);
        return;
      }
    }
    LeadsNowhere(tr, n, u);
  }

  /** The first node found inside the range, and both its sides. */
  method QueryBoth(tr: RbTree, n: RbtNode, cmp: RbtNode -> int, ghost u: Tree) returns (out: seq<Add>)
    requires LeadsTo(tr, n, u) && Contiguous(cmp, InOrder(u)) && cmp(n) == 0
    ensures u.Bin? && Within(u, out) && Expand(u, out) == InRange(cmp, InOrder(u)) && |out| <= 4 * Height(u) - 3
  {
    LeadsDown(tr, n, u);
    ContiguousBelow(cmp, u);
    var low := QueryLow(tr, n.left, cmp, u.left);
    var high := QueryHigh(tr, n.right, cmp, u.right);
    out := low + [AddNode(n)] + high;
    OverEmits(cmp, u, low, high, out);
  }

  /** `rbt_range_query`: the callbacks cover exactly the nodes inside the range,
      each once and in order, and there are at most 4h - 3 of them. */
  method RangeQuery(tr: RbTree, cmp: RbtNode -> int) returns (out: seq<Add>)
    requires tr.Valid() && Contiguous(cmp, InOrder(tr.tree))
    ensures Within(tr.tree, out) && Expand(tr.tree, out) == InRange(cmp, InOrder(tr.tree))
    ensures tr.tree.Bin? ==> |out| <= 4 * Height(tr.tree) - 3
    ensures tr.tree.Leaf? ==> out == []
  {
    assert Rep(tr.Heap(), tr.tree, null, tr.root);
    out := QueryOver(tr, tr.root, cmp, tr.tree);
  }
}
