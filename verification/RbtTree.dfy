/** The mathematical side of src/rbt.c: trees of node cells, zippers into them,
    the red-black properties and the meaning of RBT_FLAG_MODIFIED. */
module RbtTree {

  /** What a caller keeps beside a node: a datum, and the cached summary of the data in
      the subtree below. Sequences are the free monoid, so a summary that agrees as a
      sequence agrees under every associative aggregate. */
  datatype Payload = Payload(datum: int, summary: seq<int>)

  /** `struct rbt_node`, together with what a caller embeds it in: a key and a payload.
      Keys are integers. */
  class RbtNode {
    const key: int
    var red: bool
    var modified: bool
    var left: RbtNode?
    var right: RbtNode?
    var parent: RbtNode?
    var load: Payload

    constructor (key: int, datum: int)
      ensures this.key == key && this.load.datum == datum
    {
      this.key := key;
      load := Payload(datum, []);
      red, modified, left, right, parent := false, false, null, null, null;
    }
  }

  /** A node together with the values of its non-pointer fields. */
  datatype Cell = Cell(node: RbtNode, red: bool, modified: bool, load: Payload)

  datatype Tree = Leaf | Bin(left: Tree, cell: Cell, right: Tree)

  /** A path from a subtree up to the root. `leftward` says that the subtree
      hangs off the left pointer of `cell.node`; `sibling` hangs off the other. */
  datatype Path = Top | Step(leftward: bool, cell: Cell, sibling: Tree, up: Path)

  ghost function Join(leftward: bool, t: Tree, c: Cell, sibling: Tree): Tree {
    if leftward then Bin(t, c, sibling) else Bin(sibling, c, t)
  }

  /** The left (`d`) or right subtree. */
  ghost function Sub(t: Tree, d: bool): Tree
    requires t.Bin?
  {
    if d then t.left else t.right
  }

  /** The whole tree that has `t` at the end of `p`. */
  ghost function Plug(p: Path, t: Tree): Tree {
    match p
    case Top => t
    case Step(d, c, s, up) => Plug(up, Join(d, t, c, s))
  }

  // ---------------------------------------------------------------- contents

  ghost function InOrder(t: Tree): seq<RbtNode> {
    match t
    case Leaf => []
    case Bin(l, c, r) => InOrder(l) + [c.node] + InOrder(r)
  }

  ghost function Before(p: Path): seq<RbtNode> {
    match p
    case Top => []
    case Step(d, c, s, up) => if d then Before(up) else Before(up) + InOrder(s) + [c.node]
  }

  ghost function After(p: Path): seq<RbtNode> {
    match p
    case Top => []
    case Step(d, c, s, up) => if d then [c.node] + InOrder(s) + After(up) else After(up)
  }

  /** Plugging a subtree in puts its nodes between those before and after the hole. */
  lemma {:induction false} PlugInOrder(p: Path, t: Tree)
    ensures InOrder(Plug(p, t)) == Before(p) + InOrder(t) + After(p)
  {
    match p
    case Top =>
    case Step(d, c, s, up) =>
      PlugInOrder(up, Join(d, t, c, s));
      if d {
        Regroup(Before(up), InOrder(t), [c.node], InOrder(s), After(up));
      } else {
        Regroup(Before(up), InOrder(s), [c.node], InOrder(t), After(up));
      }
  }

  lemma {:induction false} Regroup(b: seq<RbtNode>, x: seq<RbtNode>, y: seq<RbtNode>, z: seq<RbtNode>, a: seq<RbtNode>)
    ensures b + (x + y + z) + a == b + x + (y + z + a)
    ensures b + (x + y + z) + a == (b + x + y) + z + a
  {
  }

  ghost predicate Ascending(s: seq<RbtNode>) {
    forall i, j :: 0 <= i < j < |s| ==> s[i].key < s[j].key
  }

  ghost function Nodes(t: Tree): set<RbtNode> {
    match t
    case Leaf => {}
    case Bin(l, c, r) => Nodes(l) + {c.node} + Nodes(r)
  }

  ghost function PathNodes(p: Path): set<RbtNode> {
    match p
    case Top => {}
    case Step(d, c, s, up) => Nodes(s) + {c.node} + PathNodes(up)
  }

  /** No node occurs twice. */
  ghost predicate Distinct(t: Tree) {
    match t
    case Leaf => true
    case Bin(l, c, r) =>
      && Distinct(l) && Distinct(r)
      && c.node !in Nodes(l) && c.node !in Nodes(r) && Nodes(l) !! Nodes(r)
  }

  ghost predicate DistinctPath(p: Path) {
    match p
    case Top => true
    case Step(d, c, s, up) =>
      && Distinct(s) && DistinctPath(up)
      && c.node !in Nodes(s) && c.node !in PathNodes(up) && Nodes(s) !! PathNodes(up)
  }

  // ------------------------------------------------------ red-black properties

  ghost predicate IsRed(t: Tree) { t.Bin? && t.cell.red }

  ghost predicate NoRedRed(t: Tree) {
    match t
    case Leaf => true
    case Bin(l, c, r) => NoRedRed(l) && NoRedRed(r) && (c.red ==> !IsRed(l) && !IsRed(r))
  }

  /** Number of black nodes on the leftmost path. */
  ghost function BlackCount(t: Tree): nat {
    match t
    case Leaf => 0
    case Bin(l, c, _) => BlackCount(l) + if c.red then 0 else 1
  }

  /** All paths from a node down to a null pointer have the same black count. */
  ghost predicate Balanced(t: Tree) {
    match t
    case Leaf => true
    case Bin(l, _, r) => Balanced(l) && Balanced(r) && BlackCount(l) == BlackCount(r)
  }

  ghost predicate RedBlack(t: Tree) { !IsRed(t) && NoRedRed(t) && Balanced(t) }

  /** The path is fine around a subtree whose root is red iff `red`. */
  ghost predicate NoRedRedPath(p: Path, red: bool) {
    match p
    case Top => !red
    case Step(d, c, s, up) =>
      NoRedRed(s) && (c.red ==> !red && !IsRed(s)) && NoRedRedPath(up, c.red)
  }

  /** The path is balanced around a subtree with black count `k`. */
  ghost predicate BalancedPath(p: Path, k: nat) {
    match p
    case Top => true
    case Step(d, c, s, up) =>
      Balanced(s) && BlackCount(s) == k && BalancedPath(up, if c.red then k else k + 1)
  }

  lemma {:induction false} RedBlackPlug(p: Path, t: Tree)
    ensures RedBlack(Plug(p, t)) <==>
      NoRedRed(t) && Balanced(t) && NoRedRedPath(p, IsRed(t)) && BalancedPath(p, BlackCount(t))
  {
    match p
    case Top =>
    case Step(d, c, s, up) => RedBlackPlug(up, Join(d, t, c, s));
  }

  // ------------------------------------------------------------ modified marks

  ghost predicate IsMarked(t: Tree) { t.Bin? && t.cell.modified }

  /** The data of a tree, in order. */
  ghost function Data(t: Tree): seq<int> {
    match t
    case Leaf => []
    case Bin(l, c, r) => Data(l) + [c.load.datum] + Data(r)
  }

  /** The marks are upward closed and every unmarked node caches the in-order
      fold of exactly the data below it. */
  ghost predicate MarksSound(t: Tree) {
    match t
    case Leaf => true
    case Bin(l, c, r) =>
      && MarksSound(l) && MarksSound(r)
      && (!c.modified ==> !IsMarked(l) && !IsMarked(r) && c.load.summary == Data(t))
  }

  /** Every node of the path is marked, and the marks beside it are sound. */
  ghost predicate MarkedPath(p: Path) {
    match p
    case Top => true
    case Step(d, c, s, up) => c.modified && MarksSound(s) && MarkedPath(up)
  }

  lemma {:induction false} MarksPlug(p: Path, t: Tree)
    requires MarkedPath(p) && MarksSound(t)
    ensures MarksSound(Plug(p, t))
  {
    match p
    case Top =>
    case Step(d, c, s, up) => MarksPlug(up, Join(d, t, c, s));
  }
}
