/** src/rbt.c: the pointer structure, updated in place. */
module Rbt {
  import opened Sequences
  import opened RbtTree
  import opened RbtStore
  import opened RbtInsert
  import opened RbtCases
  import opened RbtRemove
  import opened RbtRemoveCases
  import opened RbtSwap
  import opened RbtUnlink

  ghost function RecOf(n: RbtNode): Rec
    reads n
  {
    Rec(n.left, n.right, n.parent, n.red, n.modified, n.load)
  }

  /** What the nodes of `s` hold now. */
  ghost function Snapshot(s: set<RbtNode>): Store
    reads s
  {
    map n | n in s :: RecOf(n)
  }

  ghost function AsSet(n: RbtNode?): set<RbtNode> { if n == null then {} else {n} }

  ghost predicate Apart(n: RbtNode, r: RbtNode, c: RbtNode?, p: RbtNode?) {
    n != r && n != c && n != p && r != c && r != p && (c != null ==> c != p)
  }

  ghost predicate Turned(d: bool, n: RbtNode, r: RbtNode, c: RbtNode?, p: RbtNode?, oldN: Rec, oldR: Rec)
    reads n, r
  {
    RecOf(n) == oldN.WithKid(!d, c).(parent := r) && RecOf(r) == oldR.WithKid(d, n).(parent := p)
  }

  predicate IsBlack(n: RbtNode?)
    reads n
  {
    n == null || !n.red
  }

  class RbTree {
    var root: RbtNode?
    ghost var nodes: set<RbtNode>
    ghost var tree: Tree

    /** The pointers form the tree `tree` over `nodes`: a red-black search tree
        whose modified marks are sound. */
    ghost predicate Valid()
      reads this, nodes
    {
      true == (At(Heap(), root, Top, tree, null, root) && Sound(tree) && Ascending(InOrder(tree)))
    }

    constructor ()
      ensures Valid() && tree == Leaf && nodes == {}
    {
      root, nodes, tree := null, {}, Leaf;
    }

    ghost function Heap(): Store
      reads this`nodes, nodes
    {
      Snapshot(nodes)
    }

    method MakeBlack(n: RbtNode)
      requires n in nodes
      modifies n`red
      ensures Heap() == Blacken(old(Heap()), n)
    {
      n.red := false;
    }

    method MakeRed(n: RbtNode)
      requires n in nodes
      modifies n`red
      ensures Heap() == Redden(old(Heap()), n)
    {
      n.red := true;
    }

    method MarkOne(n: RbtNode)
      requires n in nodes
      modifies n`modified
      ensures Heap() == Mark(old(Heap()), n)
    {
      n.modified := true;
    }

    method FixDownptr(p: RbtNode?, old_: RbtNode, n: RbtNode?)
      modifies this`root, AsSet(p)`left, AsSet(p)`right
      ensures p == null ==> root == n
      ensures p != null ==> root == old(root) && RecOf(p) == old(RecOf(p)).Redirect(old_, n)
    {
      if p != null {
        if p.left == old_ {
          p.left := n;
        } else {
          p.right := n;
        }
      } else {
        root := n;
      }
    }

    method RotateLeft(n: RbtNode)
      requires n.right != null && Apart(n, n.right, n.right.left, n.parent)
      modifies this`root, n`right, n`parent, n.right`left, n.right`parent, AsSet(n.right.left)`parent,
               AsSet(n.parent)`left, AsSet(n.parent)`right
      ensures Turned(true, n, old(n.right), old(n.right.left), old(n.parent), old(RecOf(n)), old(RecOf(n.right)))
      ensures old(n.right.left) != null ==> RecOf(old(n.right.left)) == old(RecOf(n.right.left)).(parent := n)
      ensures old(n.parent) == null ==> root == old(n.right)
      ensures old(n.parent) != null ==>
        root == old(root) && RecOf(old(n.parent)) == old(RecOf(n.parent)).Redirect(n, old(n.right))
    {
      var p := n.parent;
      var r := n.right;
      n.right := r.left;
      if n.right != null {
        n.right.parent := n;
      }
      r.left := n;
      n.parent := r;
      r.parent := p;
      FixDownptr(r.parent, n, r);
    }

    method RotateRight(n: RbtNode)
      requires n.left != null && Apart(n, n.left, n.left.right, n.parent)
      modifies this`root, n`left, n`parent, n.left`right, n.left`parent, AsSet(n.left.right)`parent,
               AsSet(n.parent)`left, AsSet(n.parent)`right
      ensures Turned(false, n, old(n.left), old(n.left.right), old(n.parent), old(RecOf(n)), old(RecOf(n.left)))
      ensures old(n.left.right) != null ==> RecOf(old(n.left.right)) == old(RecOf(n.left.right)).(parent := n)
      ensures old(n.parent) == null ==> root == old(n.left)
      ensures old(n.parent) != null ==>
        root == old(root) && RecOf(old(n.parent)) == old(RecOf(n.parent)).Redirect(n, old(n.left))
    {
      var p := n.parent;
      var l := n.left;
      n.left := l.right;
      if n.left != null {
        n.left.parent := n;
      }
      l.right := n;
      n.parent := l;
      l.parent := p;
      FixDownptr(l.parent, n, l);
    }

    function Sibling(n: RbtNode): RbtNode?
      requires n.parent != null
      reads n, n.parent
    {
      if n == n.parent.left then n.parent.right else n.parent.left
    }

    /** `rotate_left` or `rotate_right`, as an update of the store. */
    method Turn(n: RbtNode, d: bool)
      requires Rotatable(Heap(), d, n)
      modifies this`root, nodes`left, nodes`right, nodes`parent, nodes`red, nodes`modified
      ensures Rotated(old(Heap()), old(root), d, n, Heap(), root)
    {
      if d {
        RotateLeft(n);
      } else {
        RotateRight(n);
      }
    }

    method Rotate(n: RbtNode, d: bool, ghost path: Path, ghost a: Tree, ghost cn: Cell, ghost c: Tree, ghost cr: Cell,
                  ghost e: Tree)
      requires At(Heap(), root, path, Join(d, a, cn, Join(d, c, cr, e)), n.parent, n)
      modifies this`root, nodes`left, nodes`right, nodes`parent, nodes`red, nodes`modified
      ensures At(Heap(), root, path, Join(d, Join(d, a, cn, c), cr, e), old(n.parent), cr.node)
    {
      RotationPointers(Heap(), root, path, d, a, cn, c, cr, e, n.parent);
      Turn(n, d);
      RotatedAt(old(Heap()), old(root), path, d, a, cn, c, cr, e, old(n.parent), Heap(), root);
    }

    /** The rotations that end `repair_after_insert`, under a black uncle. */
    method RotateAfterInsert(n0: RbtNode, ghost d0: bool, ghost c0: Cell, ghost s0: Tree, ghost d: bool,
                             ghost g: Cell, ghost u: Tree, ghost up: Path, ghost t0: Tree)
      returns (ghost t': Tree)
      requires At(Heap(), root, Step(d0, c0, s0, Step(d, g, u, up)), t0, n0.parent, n0)
      requires RedAt(Step(d0, c0, s0, Step(d, g, u, up)), t0) && c0.red && !IsRed(u)
      modifies this`root, nodes`left, nodes`right, nodes`parent, nodes`red, nodes`modified
      ensures At(Heap(), root, Top, t', null, root) && Sound(t')
      ensures InOrder(t') == InOrder(Plug(Step(d0, c0, s0, Step(d, g, u, up)), t0))
    {
      var n := n0;
      ghost var c, s, t := c0, s0, t0;
      GrandparentAt(Heap(), root, d0, c, s, d, g, u, up, t, n.parent, n);
      if n == n.parent.left && n.parent == n.parent.parent.right {
        InnerNode(false, c, s, g, u, up, t.right, t.cell, t.left);
        n := RotateInner(n, c, s, false, g, u, up, t);
        c, s, t := t.cell, t.left, Join(false, s, c, t.right);
      } else if n == n.parent.right && n.parent == n.parent.parent.left {
        InnerNode(true, c, s, g, u, up, t.left, t.cell, t.right);
        n := RotateInner(n, c, s, true, g, u, up, t);
        c, s, t := t.cell, t.right, Join(true, s, c, t.left);
      }
      t' := RotateOuter(n, d, c, s, g, u, up, t);
    }

    method RotateOuter(n: RbtNode, ghost d: bool, ghost c: Cell, ghost s: Tree, ghost g: Cell, ghost u: Tree,
                       ghost up: Path, ghost t: Tree) returns (ghost t': Tree)
      requires At(Heap(), root, Step(d, c, s, Step(d, g, u, up)), t, n.parent, n)
      requires RedAt(Step(d, c, s, Step(d, g, u, up)), t) && c.red && !IsRed(u)
      modifies this`root, nodes`left, nodes`right, nodes`parent, nodes`red, nodes`modified
      ensures At(Heap(), root, Top, t', null, root) && Sound(t')
      ensures InOrder(t') == InOrder(Plug(Step(d, c, s, Step(d, g, u, up)), t))
    {
      hide Sound, RedAt, InOrder, Plug, At;
      OuterNode(d, c, s, g, u, up, t);
      GrandparentAt(Heap(), root, d, c, s, d, g, u, up, t, n.parent, n);
      OuterColoursAt(Heap(), root, d, c, s, g, u, up, t, n.parent, n);
      var p, q := n.parent, n.parent.parent;
      MakeBlack(p);
      MakeRed(q);
      if n == p.left {
        Rotate(q, false, up, u, Red(g), s, Black(c), t);
      } else {
        Rotate(q, true, up, u, Red(g), s, Black(c), t);
      }
      t' := Plug(up, Join(!d, Join(!d, u, Red(g), s), Black(c), t));
      MoveToTop(Heap(), root, up, Join(!d, Join(!d, u, Red(g), s), Black(c), t), old(Heap())[g.node].parent, c.node);
    }

    method RotateInner(n0: RbtNode, ghost c: Cell, ghost s: Tree, d: bool, ghost g: Cell,
                       ghost u: Tree, ghost up: Path, ghost t: Tree) returns (n: RbtNode)
      requires t.Bin? && At(Heap(), root, Step(!d, c, s, Step(d, g, u, up)), t, n0.parent, n0)
      modifies this`root, nodes`left, nodes`right, nodes`parent, nodes`red, nodes`modified
      ensures At(Heap(), root, Step(d, t.cell, Sub(t, !d), Step(d, g, u, up)), Join(d, s, c, Sub(t, d)), n.parent, n)
      ensures n == c.node
    {
      ghost var x, y := Sub(t, d), Sub(t, !d);
      ghost var gp := Step(d, g, u, up);
      MoveUp(Heap(), root, !d, c, s, gp, t, n0.parent, n0);
      var p := n0.parent;
      Rotate(p, d, gp, s, c, x, t.cell, y);
      MoveDown(Heap(), root, gp, d, Join(d, s, c, x), t.cell, y, old(p.parent), t.cell.node);
      n := p;
    }

    /** Red parent and red uncle: recolour, and go on from the grandparent. */
    method Recolour(n: RbtNode, u: RbtNode, ghost d: bool, ghost c: Cell, ghost s: Tree, ghost d2: bool,
                    ghost g: Cell, ghost ut: Tree, ghost up: Path, ghost t: Tree) returns (q: RbtNode)
      requires ut.Bin? && u == ut.cell.node
      requires At(Heap(), root, Step(d, c, s, Step(d2, g, ut, up)), t, n.parent, n)
      modifies nodes`left, nodes`right, nodes`parent, nodes`red, nodes`modified
      ensures At(Heap(), root, up, Join(d2, Join(d, t, Black(c), s), Red(g), Bin(ut.left, Black(ut.cell), ut.right)),
                 q.parent, q)
    {
      hide At;
      RedUncleAt(Heap(), root, d, c, s, d2, g, true, ut.left, ut.cell, ut.right, up, t, n.parent, n);
      var p := n.parent;
      q := p.parent;
      MakeBlack(u);
      MakeBlack(p);
      MakeRed(q);
    }

    /** The repair has reached the root. */
    method PaintRoot(n: RbtNode, ghost path: Path, ghost t: Tree) returns (ghost t': Tree)
      requires At(Heap(), root, path, t, null, n) && RedAt(path, t)
      modifies nodes`left, nodes`right, nodes`parent, nodes`red, nodes`modified
      ensures At(Heap(), root, Top, t', null, root) && Sound(t') && InOrder(t') == InOrder(Plug(path, t))
    {
      RepRoot(Heap(), t, null, n);
      PathHead(Heap(), path, root, null, n);
      AtRoot(true, t.left, t.cell, t.right);
      BlackenAt(Heap(), root, Top, true, t.left, t.cell, t.right, null, n);
      MakeBlack(n);
      t' := Bin(t.left, Black(t.cell), t.right);
    }

    method RepairAfterInsert(n0: RbtNode, ghost path0: Path, ghost t0: Tree) returns (ghost t': Tree)
      requires At(Heap(), root, path0, t0, n0.parent, n0) && RedAt(path0, t0)
      modifies this`root, nodes`left, nodes`right, nodes`parent, nodes`red, nodes`modified
      ensures At(Heap(), root, Top, t', null, root) && Sound(t')
      ensures InOrder(t') == InOrder(Plug(path0, t0))
    {
      hide Sound, InOrder, Plug, Nodes, PathNodes, Distinct, DistinctPath;
      var n: RbtNode := n0;
      ghost var path, t := path0, t0;
      while true
        invariant At(Heap(), root, path, t, n.parent, n) && RedAt(path, t) && SameOrder(path0, t0, path, t)
        decreases path
      {
        RepRoot(Heap(), t, n.parent, n);
        PathHead(Heap(), path, root, n.parent, n);
        if n.parent == null {
          t' := PaintRoot(n, path, t);
          return;
        }
        if !n.parent.red {
          MoveToTop(Heap(), root, path, t, n.parent, n);
          BlackParent(path.leftward, path.cell, path.sibling, path.up, t);
          t' := Plug(path, t);
          return;
        }
        ghost var d, c, s, up := path.leftward, path.cell, path.sibling, path.up;
        assert NoRedRedPath(up, true) && up.Step?;
        ghost var d2, g, ut := up.leftward, up.cell, up.sibling;
        GrandparentAt(Heap(), root, d, c, s, d2, g, ut, up.up, t, n.parent, n);
        RepRoot(Heap(), ut, g.node, Heap()[g.node].Kid(!d2));
        var u := Sibling(n.parent);
        if u == null || !u.red {
          t' := RotateAfterInsert(n, d, c, s, d2, g, ut, up.up, t);
          return;
        }
        RedUncle(d, c, s, d2, g, true, ut.left, ut.cell, ut.right, up.up, t);
        n := Recolour(n, u, d, c, s, d2, g, ut, up.up, t);
        path, t := up.up, Join(d2, Join(d, t, Black(c), s), Red(g), Bin(ut.left, Black(ut.cell), ut.right));
      }
    }

    /** `*nptr = n`, where `nptr` is a child pointer of `p`, or the root pointer. */
    method Hook(p: RbtNode?, leftward: bool, n: RbtNode?)
      modifies this`root, AsSet(p)`left, AsSet(p)`right
      ensures p == null ==> root == n
      ensures p != null ==> root == old(root) && RecOf(p) == old(RecOf(p)).WithKid(leftward, n)
    {
      if p == null {
        root := n;
      } else if leftward {
        p.left := n;
      } else {
        p.right := n;
      }
    }

    method HookLeaf(n: RbtNode, p: RbtNode?, leftward: bool)
      requires n !in nodes && (p != null ==> p in nodes)
      modifies this`root, this`nodes, n`left, n`right, n`parent, n`red, n`modified, AsSet(p)`left, AsSet(p)`right
      ensures nodes == old(nodes) + {n}
      ensures LeafHooked(old(Heap()), old(root), p, p != null && leftward, n, n.load, Heap(), root)
    {
      Hook(p, leftward, n);
      n.left := null;
      n.right := null;
      n.parent := p;
      n.red := true;
      n.modified := true;
      nodes := nodes + {n};
    }

    method AttachLeaf(n: RbtNode, p: RbtNode?, leftward: bool, ghost path: Path)
      requires At(Heap(), root, path, Leaf, p, null) && n !in nodes
      requires path.Step? ==> path.leftward == leftward
      modifies this`root, this`nodes, n`left, n`right, n`parent, n`red, n`modified, nodes`left, nodes`right,
               nodes`parent, nodes`red, nodes`modified
      ensures nodes == old(nodes) + {n} && n.parent == p && n.load == old(n.load)
      ensures At(Heap(), root, path, Bin(Leaf, Cell(n, true, true, n.load), Leaf), p, n)
    {
      PathHead(Heap(), path, root, p, null);
      HookLeaf(n, p, leftward);
      LeafAt(old(Heap()), old(root), path, p, Cell(n, true, true, n.load), Heap(), root);
    }

    /** `memcpy(n, c, ...)` and the children's parent pointers. */
    method CopyNode(c: RbtNode, n: RbtNode, ghost l: RbtNode?, ghost r: RbtNode?)
      requires c.left == l && c.right == r && n != c && n != l && n != r && c != l && c != r && (l != null ==> l != r)
      modifies n`left, n`right, n`parent, n`red, n`modified, AsSet(l)`parent, AsSet(r)`parent
      ensures RecOf(n) == old(RecOf(c)).(load := old(n.load))
      ensures l != null ==> RecOf(l) == old(RecOf(l)).(parent := n)
      ensures r != null ==> RecOf(r) == old(RecOf(r)).(parent := n)
    {
      n.left, n.right, n.parent, n.red, n.modified := c.left, c.right, c.parent, c.red, c.modified;
      if n.left != null {
        n.left.parent := n;
      }
      if n.right != null {
        n.right.parent := n;
      }
    }

    method TakePlace(c: RbtNode, n: RbtNode, p: RbtNode?, leftward: bool, ghost l: RbtNode?, ghost r: RbtNode?)
      requires n !in nodes && Surrounded(Heap(), c, l, r, p)
      modifies this`root, this`nodes, (nodes + {n})`left, (nodes + {n})`right, (nodes + {n})`parent,
               (nodes + {n})`red, (nodes + {n})`modified
      ensures nodes == old(nodes) - {c} + {n}
      ensures Substituted(old(Heap()), old(root), c, l, r, p, p != null && leftward, n, n.load, Heap(), root)
    {
      CopyNode(c, n, l, r);
      Hook(p, leftward, n);
      nodes := nodes - {c} + {n};
      forall z | z in old(nodes) && z != p && z != c
        ensures RecOf(z) == if z == l || z == r then old(RecOf(z)).(parent := n) else old(RecOf(z))
      {
      }
    }

    /** The key was found at `c`. */
    method Substitute(c: RbtNode, n: RbtNode, p: RbtNode?, leftward: bool, ghost path: Path, ghost t: Tree)
      requires t.Bin? && At(Heap(), root, path, t, p, c) && n !in nodes
      requires path.Step? ==> path.leftward == leftward
      modifies this`root, this`nodes, (nodes + {n})`left, (nodes + {n})`right, (nodes + {n})`parent,
               (nodes + {n})`red, (nodes + {n})`modified
      ensures nodes == old(nodes) - {c} + {n}
      ensures At(Heap(), root, path, Bin(t.left, Cell(n, t.cell.red, t.cell.modified, n.load), t.right), p, n)
    {
      PathHead(Heap(), path, root, p, c);
      SubstitutionPointers(Heap(), root, path, t.left, t.cell, t.right, p);
      TakePlace(c, n, p, leftward, c.left, c.right);
      SubstitutedAt(old(Heap()), old(root), path, t.left, t.cell, t.right, p,
                    Cell(n, t.cell.red, t.cell.modified, n.load), Heap(), root);
    }

    method Replace(c: RbtNode, n: RbtNode, p: RbtNode?, leftward: bool, ghost path: Path, ghost t: Tree,
                   ghost order: seq<RbtNode>)
      requires t.Bin? && At(Heap(), root, path, Bin(t.left, Marked(t.cell), t.right), p, c) && n !in nodes
      requires path.Step? ==> path.leftward == leftward
      requires Descending(path, t, n.key, order) && c.key == n.key
      modifies this, (nodes + {n})`left, (nodes + {n})`right, (nodes + {n})`parent, (nodes + {n})`red,
               (nodes + {n})`modified
      ensures Valid() && nodes == old(nodes) - {c} + {n}
      ensures exists k :: 0 <= k < |order| && order[k] == c && InOrder(tree) == order[k := n]
    {
      hide Plug, InOrder, Descending;
      ghost var m := Marked(t.cell);
      RepRoot(Heap(), Bin(t.left, m, t.right), p, c);
      Substitute(c, n, p, leftward, path, Bin(t.left, m, t.right));
      ghost var c' := Cell(n, m.red, true, n.load);
      DescentFinds(path, t.left, t.cell, t.right, n.key, order, c');
      MoveToTop(Heap(), root, path, Bin(t.left, c', t.right), p, n);
      tree := Plug(path, Bin(t.left, c', t.right));
    }

    /** The descent ended at a null pointer. */
    method AttachAndRepair(n: RbtNode, p: RbtNode?, leftward: bool, ghost path: Path, ghost order: seq<RbtNode>)
      requires At(Heap(), root, path, Leaf, p, null) && n !in nodes
      requires path.Step? ==> path.leftward == leftward
      requires Descending(path, Leaf, n.key, order)
      modifies this, (nodes + {n})`left, (nodes + {n})`right, (nodes + {n})`parent, (nodes + {n})`red,
               (nodes + {n})`modified
      ensures Valid() && nodes == old(nodes) + {n}
      ensures forall x <- order :: x.key != n.key
      ensures exists k :: 0 <= k <= |order| && InOrder(tree) == order[..k] + [n] + order[k..]
    {
      ghost var c := Cell(n, true, true, n.load);
      DescentEnds(path, n.key, order, c);
      AttachLeaf(n, p, leftward, path);
      tree := RepairAfterInsert(n, path, Bin(Leaf, c, Leaf));
      assert order[..|Before(path)|] == Before(path) && order[|Before(path)|..] == After(path);
    }

    /** `rbt_insert`: a node whose key is new goes in at its place; otherwise it
        takes the place of the node that had the key. */
    method Insert(key: int, n: RbtNode) returns (old_: RbtNode?)
      requires Valid() && n !in nodes && n.key == key
      modifies this, (nodes + {n})`left, (nodes + {n})`right, (nodes + {n})`parent, (nodes + {n})`red,
               (nodes + {n})`modified
      ensures Valid() && nodes == old(nodes) - AsSet(old_) + {n}
      ensures old_ == null ==>
        && (forall x <- old(InOrder(tree)) :: x.key != key)
        && exists k :: 0 <= k <= |old(InOrder(tree))| &&
             InOrder(tree) == old(InOrder(tree))[..k] + [n] + old(InOrder(tree))[k..]
      ensures old_ != null ==>
        exists k :: 0 <= k < |old(InOrder(tree))| && old(InOrder(tree))[k] == old_ && old_.key == key &&
          InOrder(tree) == old(InOrder(tree))[k := n]
    {
      ghost var order := InOrder(tree);
      var p: RbtNode? := null;
      var leftward := false;
      var c := root;
      ghost var path, t := Top, tree;
      while c != null
        invariant At(Heap(), root, path, t, p, c) && Descending(path, t, key, order)
        invariant path.Step? ==> path.leftward == leftward
        invariant nodes == old(nodes)
        decreases t
      {
        RepRoot(Heap(), t, p, c);
        MarkAt(Heap(), root, path, true, t.left, t.cell, t.right, p, c);
        MarkOne(c);
        if key == c.key {
          Replace(c, n, p, leftward, path, t, order);
          return c;
        }
        leftward := key < c.key;
        ghost var d, q := leftward, p;
        Descend(path, d, Sub(t, d), t.cell, Sub(t, !d), key, order);
        MoveDown(Heap(), root, path, d, Sub(t, d), Marked(t.cell), Sub(t, !d), q, c);
        p := c;
        c := if leftward then c.left else c.right;
        path, t := Step(d, Marked(t.cell), Sub(t, !d), path), Sub(t, d);
      }
      RepRoot(Heap(), t, p, null);
      AttachAndRepair(n, p, leftward, path, order);
      old_ := null;
    }

    // ------------------------------------------------------------- removal

    method ColourRedSibling(p: RbtNode, s: RbtNode)
      requires p in nodes && s in nodes && p != s
      modifies p`red, s`red, s`modified
      ensures var h := old(Heap());
        Heap() == h[p := h[p].(red := true)][s := h[s].(red := false, modified := true)]
    {
      MakeRed(p);
      MakeBlack(s);
      MarkOne(s);
    }

    /** `rotate_left(t, p)` if `n` is the left child of `p`, else `rotate_right(t, p)`. */
    method RotateTowards(p: RbtNode, n: RbtNode?, ghost d: bool, ghost path: Path, ghost a: Tree, ghost cn: Cell,
                         ghost c: Tree,
                         ghost cr: Cell, ghost e: Tree)
      requires At(Heap(), root, path, Join(d, a, cn, Join(d, c, cr, e)), p.parent, p) && (n == p.left <==> d)
      modifies this`root, nodes`left, nodes`right, nodes`parent, nodes`red, nodes`modified
      ensures At(Heap(), root, path, Join(d, Join(d, a, cn, c), cr, e), old(p.parent), cr.node)
    {
      if n == p.left {
        Rotate(p, true, path, a, cn, c, cr, e);
      } else {
        Rotate(p, false, path, a, cn, c, cr, e);
      }
    }

    /** A red sibling: swap colours with the parent and rotate. */
    method RepairRedSibling(p: RbtNode, n: RbtNode?, s: RbtNode, ghost d: bool, ghost c: Cell, ghost x: Tree,
                            ghost sc: Cell,
                            ghost y: Tree, ghost up: Path, ghost t: Tree)
      requires At(Heap(), root, Step(d, c, Join(d, x, sc, y), up), t, p, n) && s == sc.node
      modifies this`root, nodes`left, nodes`right, nodes`parent, nodes`red, nodes`modified
      ensures At(Heap(), root, Step(d, Red(c), x, Step(d, Black(Marked(sc)), y, up)), t, p, n)
    {
      ghost var q := p.parent;
      ColourFamily(p, n, s, d, c, x, sc, y, up, t);
      RotateTowards(p, n, d, up, t, Red(c), x, Black(Marked(sc)), y);
      MoveDown(Heap(), root, up, d, Join(d, t, Red(c), x), Black(Marked(sc)), y, q, s);
      MoveDown(Heap(), root, Step(d, Black(Marked(sc)), y, up), d, t, Red(c), x, s, p);
    }

    method ColourFamily(p: RbtNode, n: RbtNode?, s: RbtNode, ghost d: bool, ghost c: Cell, ghost x: Tree,
                        ghost sc: Cell,
                        ghost y: Tree, ghost up: Path, ghost t: Tree)
      requires At(Heap(), root, Step(d, c, Join(d, x, sc, y), up), t, p, n) && s == sc.node
      modifies nodes`left, nodes`right, nodes`parent, nodes`red, nodes`modified
      ensures At(Heap(), root, up, Join(d, t, Red(c), Join(d, x, Black(Marked(sc)), y)), p.parent, p)
      ensures n == p.left <==> d
      ensures p.parent == old(p.parent)
    {
      ghost var h := Heap();
      SiblingAt(h, root, d, c, Join(d, x, sc, y), up, t, p, n);
      FamilyAt(h, root, d, c, x, sc, y, up, t, p, n, Red(c), Black(Marked(sc)));
      ColourRedSibling(p, s);
      assert Heap() == Repaint(Repaint(h, Red(c)), Black(Marked(sc)));
    }

    /** Everything around is black: the sibling turns red. */
    method RepairBlackFamily(p: RbtNode, n: RbtNode?, s: RbtNode, ghost d: bool, ghost c: Cell, ghost x: Tree,
                             ghost sc: Cell,
                             ghost y: Tree, ghost up: Path, ghost t: Tree)
      requires At(Heap(), root, Step(d, c, Join(d, x, sc, y), up), t, p, n) && s == sc.node
      modifies nodes`left, nodes`right, nodes`parent, nodes`red, nodes`modified
      ensures At(Heap(), root, up, Join(d, t, c, Join(d, x, Red(sc), y)), p.parent, p)
    {
      ghost var h := Heap();
      FamilyAt(h, root, d, c, x, sc, y, up, t, p, n, c, Red(sc));
      MakeRed(s);
      assert Heap() == Repaint(Repaint(h, c), Red(sc));
    }

    method ColourRedParent(p: RbtNode, s: RbtNode)
      requires p in nodes && s in nodes && p != s
      modifies p`red, s`red
      ensures Heap() == old(Heap())[p := old(Heap())[p].(red := false)][s := old(Heap())[s].(red := true)]
    {
      s.red := true;
      p.red := false;
    }

    /** Red parent, black sibling and nephews: swap colours. */
    method RepairRedParent(p: RbtNode, n: RbtNode?, s: RbtNode, ghost d: bool, ghost c: Cell, ghost x: Tree,
                           ghost sc: Cell,
                           ghost y: Tree, ghost up: Path, ghost t: Tree)
      requires At(Heap(), root, Step(d, c, Join(d, x, sc, y), up), t, p, n) && s == sc.node
      modifies nodes`left, nodes`right, nodes`parent, nodes`red, nodes`modified
      ensures At(Heap(), root, up, Join(d, t, Black(c), Join(d, x, Red(sc), y)), p.parent, p)
    {
      ghost var h := Heap();
      FamilyAt(h, root, d, c, x, sc, y, up, t, p, n, Black(c), Red(sc));
      ColourRedParent(p, s);
      assert Heap() == Repaint(Repaint(h, Black(c)), Red(sc));
    }

    method ColourNearNephew(s: RbtNode, x: RbtNode)
      requires s in nodes && x in nodes && s != x
      modifies s`red, x`red, s`modified, x`modified
      ensures var h := old(Heap());
        Heap() == h[s := h[s].(red := true, modified := true)][x := h[x].(red := false, modified := true)]
    {
      s.red := true;
      x.red := false;
      s.modified := true;
      x.modified := true;
    }

    /** Only the near nephew is red: rotate the sibling away. */
    method RepairNearNephew(p: RbtNode, n: RbtNode?, s: RbtNode, d: bool, ghost c: Cell, ghost a: Tree, ghost x: Cell,
                            ghost b: Tree, ghost sc: Cell, ghost y: Tree, ghost up: Path, ghost t: Tree)
      returns (s': RbtNode)
      requires At(Heap(), root, Step(d, c, Join(d, Join(d, a, x, b), sc, y), up), t, p, n) && s == sc.node
      modifies this`root, nodes`left, nodes`right, nodes`parent, nodes`red, nodes`modified
      ensures At(Heap(), root, Step(d, c, Join(d, a, Black(Marked(x)), Join(d, b, Red(Marked(sc)), y)), up), t, p, n)
      ensures s' == x.node
    {
      ghost var h, u := Heap(), Step(!d, c, t, up);
      ghost var s1, x1 := Red(Marked(sc)), Black(Marked(x));
      NearNephewAt(h, root, d, c, a, x, b, sc, y, up, t, p, n, s1, x1);
      ColourNearNephew(s, if d then s.left else s.right);
      assert Heap() == Repaint(Repaint(h, s1), x1);
      Rotate(s, !d, u, y, s1, b, x1, a);
      NearNephewBack(Heap(), root, d, c, a, x1, b, s1, y, up, t, p, n);
      s' := s.parent;
    }

    method TakeFlags(s: RbtNode, p: RbtNode)
      requires p in nodes && s in nodes && p != s
      modifies s`red, s`modified
      ensures Heap() == old(Heap())[s := old(Heap())[s].(red := old(Heap())[p].red, modified := true)]
    {
      s.red, s.modified := p.red, true;
    }

    method ColourFarNephew(p: RbtNode, s: RbtNode, y: RbtNode)
      requires p in nodes && s in nodes && y in nodes && p != s && p != y && s != y
      modifies p`red, s`red, s`modified, y`red
      ensures var h := old(Heap());
        Heap() == h[s := h[s].(red := h[p].red, modified := true)][p := h[p].(red := false)][y := h[y].(red := false)]
    {
      TakeFlags(s, p);
      MakeBlack(p);
      MakeBlack(y);
    }

    /** The far nephew is red: recolour and rotate the parent. */
    method RepairFarNephew(p: RbtNode, n: RbtNode?, s: RbtNode, d: bool, ghost c: Cell, ghost x: Tree, ghost sc: Cell,
                           ghost a: Tree, ghost y: Cell, ghost b: Tree, ghost up: Path, ghost t: Tree)
      requires At(Heap(), root, Step(d, c, Join(d, x, sc, Join(d, a, y, b)), up), t, p, n) && s == sc.node
      modifies this`root, nodes`left, nodes`right, nodes`parent, nodes`red, nodes`modified
      ensures At(Heap(), root, up, Join(d, Join(d, t, Black(c), x),
                 sc.(red := c.red, modified := true), Join(d, a, Black(y), b)),
                 old(p.parent), sc.node)
    {
      ghost var h, s1 := Heap(), sc.(red := c.red, modified := true);
      FarNephewAt(h, root, d, c, x, sc, a, y, b, up, t, p, n, Black(c), s1, Black(y));
      ColourFarNephew(p, s, if d then s.right else s.left);
      assert Heap() == Repaint(Repaint(Repaint(h, s1), Black(c)), Black(y));
      Rotate(p, d, up, t, Black(c), x, s1, Join(d, a, Black(y), b));
    }

    /** The end of `repair_after_remove`: the sibling `s` is black, and not
        everything around it is. */
    method FinishRepair(p: RbtNode, n: RbtNode?, s0: RbtNode, ghost d: bool, ghost c: Cell, ghost st0: Tree,
                        ghost up: Path,
                        ghost t: Tree) returns (ghost t': Tree)
      requires st0.Bin? && s0 == st0.cell.node && !st0.cell.red
      requires At(Heap(), root, Step(d, c, st0, up), t, p, n) && ShortAt(Step(d, c, st0, up), t)
      requires c.red || IsRed(st0.left) || IsRed(st0.right)
      modifies this`root, nodes`left, nodes`right, nodes`parent, nodes`red, nodes`modified
      ensures At(Heap(), root, Top, t', null, root) && Sound(t')
      ensures InOrder(t') == InOrder(Plug(Step(d, c, st0, up), t))
    {
      var s := s0;
      ghost var st := st0;
      SiblingAt(Heap(), root, d, c, st, up, t, p, n);
      KidColours(Heap(), st, p, s);
      if p.red && IsBlack(s.left) && IsBlack(s.right) {
        RedParent(d, c, Sub(st, d), st.cell, Sub(st, !d), up, t);
        RepairRedParent(p, n, s, d, c, Sub(st, d), st.cell, Sub(st, !d), up, t);
        ghost var new_ := Join(d, t, Black(c), Join(d, Sub(st, d), Red(st.cell), Sub(st, !d)));
        MoveToTop(Heap(), root, up, new_, p.parent, p);
        t' := Plug(up, new_);
        return;
      }
      if n == p.left && IsBlack(s.right) {
        s, st := NearToFar(p, n, s, true, c, st, up, t);
      } else if n == p.right && IsBlack(s.left) {
        s, st := NearToFar(p, n, s, false, c, st, up, t);
      }
      t' := FinishFar(p, n, s, d, c, st, up, t);
    }

    method NearToFar(p: RbtNode, n: RbtNode?, s: RbtNode, d: bool, ghost c: Cell, ghost st: Tree, ghost up: Path,
                     ghost t: Tree) returns (s': RbtNode, ghost st': Tree)
      requires st.Bin? && s == st.cell.node && !st.cell.red && IsRed(Sub(st, d)) && !IsRed(Sub(st, !d))
      requires At(Heap(), root, Step(d, c, st, up), t, p, n) && ShortAt(Step(d, c, st, up), t)
      modifies this`root, nodes`left, nodes`right, nodes`parent, nodes`red, nodes`modified
      ensures st'.Bin? && s' == st'.cell.node && !st'.cell.red && IsRed(Sub(st', !d))
      ensures At(Heap(), root, Step(d, c, st', up), t, p, n) && ShortAt(Step(d, c, st', up), t)
      ensures SameOrder(Step(d, c, st, up), t, Step(d, c, st', up), t)
    {
      ghost var xt, y := Sub(st, d), Sub(st, !d);
      ghost var a, x, b := Sub(xt, d), xt.cell, Sub(xt, !d);
      NearNephew(d, c, a, x, b, st.cell, y, up, t);
      s' := RepairNearNephew(p, n, s, d, c, a, x, b, st.cell, y, up, t);
      st' := Join(d, a, Black(Marked(x)), Join(d, b, Red(Marked(st.cell)), y));
    }

    method FinishFar(p: RbtNode, n: RbtNode?, s: RbtNode, ghost d: bool, ghost c: Cell, ghost st: Tree, ghost up: Path,
                     ghost t: Tree) returns (ghost t': Tree)
      requires st.Bin? && s == st.cell.node && !st.cell.red && IsRed(Sub(st, !d))
      requires At(Heap(), root, Step(d, c, st, up), t, p, n) && ShortAt(Step(d, c, st, up), t)
      modifies this`root, nodes`left, nodes`right, nodes`parent, nodes`red, nodes`modified
      ensures At(Heap(), root, Top, t', null, root) && Sound(t')
      ensures InOrder(t') == InOrder(Plug(Step(d, c, st, up), t))
    {
      ghost var x, f := Sub(st, d), Sub(st, !d);
      ghost var a, y, b := Sub(f, d), f.cell, Sub(f, !d);
      FarNephew(d, c, x, st.cell, a, y, b, up, t);
      SiblingAt(Heap(), root, d, c, st, up, t, p, n);
      ghost var q := p.parent;
      if n == p.left {
        RepairFarNephew(p, n, s, true, c, x, st.cell, a, y, b, up, t);
      } else {
        RepairFarNephew(p, n, s, false, c, x, st.cell, a, y, b, up, t);
      }
      ghost var new_ := Join(d, Join(d, t, Black(c), x), st.cell.(red := c.red, modified := true),
                             Join(d, a, Black(y), b));
      MoveToTop(Heap(), root, up, new_, q, s);
      t' := Plug(up, new_);
    }

    method RepairAfterRemove(n0: RbtNode, ghost path0: Path) returns (ghost t': Tree)
      requires n0 !in nodes && At(Heap(), root, path0, Leaf, n0.parent, null) && ShortAt(path0, Leaf)
      modifies this`root, nodes`left, nodes`right, nodes`parent, nodes`red, nodes`modified
      ensures At(Heap(), root, Top, t', null, root) && Sound(t')
      ensures InOrder(t') == InOrder(Plug(path0, Leaf))
    {
      var p := n0.parent;
      var n: RbtNode? := null;
      ghost var path, t := path0, Leaf;
      while true
        invariant At(Heap(), root, path, t, p, n) && ShortAt(path, t) && SameOrder(path0, Leaf, path, t)
        decreases path
      {
        PathHead(Heap(), path, root, p, n);
        if p == null {
          ShortAtRoot(t);
          t' := t;
          return;
        }
        ghost var d, c, st, up := path.leftward, path.cell, path.sibling, path.up;
        SiblingIsNode(d, c, st, up, t);
        SiblingAt(Heap(), root, d, c, st, up, t, p, n);
        RepRoot(Heap(), st, p, Heap()[p].Kid(!d));
        var s := if p.left == n then p.right else p.left;
        KidColours(Heap(), st, p, s);
        if s.red {
          RedSibling(d, c, Sub(st, d), st.cell, Sub(st, !d), up, t);
          RepairRedSibling(p, n, s, d, c, Sub(st, d), st.cell, Sub(st, !d), up, t);
          c, st, up := Red(c), Sub(st, d), Step(d, Black(Marked(st.cell)), Sub(st, !d), up);
          SiblingAt(Heap(), root, d, c, st, up, t, p, n);
          s := if n == p.left then p.right else p.left;
          KidColours(Heap(), st, p, s);
        }
        if !p.red && IsBlack(s.left) && IsBlack(s.right) {
          BlackFamily(d, c, Sub(st, d), st.cell, Sub(st, !d), up, t);
          RepairBlackFamily(p, n, s, d, c, Sub(st, d), st.cell, Sub(st, !d), up, t);
          path, t := up, Join(d, t, c, Join(d, Sub(st, d), Red(st.cell), Sub(st, !d)));
          n := p;
          p := n.parent;
          continue;
        }
        t' := FinishRepair(p, n, s, d, c, st, up, t);
        return;
      }
    }

    /** `rbt_mark_modified`: the node and all its ancestors are marked. */
    method MarkAncestors(n: RbtNode, ghost path: Path, ghost t: Tree)
      requires t.Bin? && At(Heap(), root, path, t, n.parent, n)
      modifies nodes`modified
      ensures At(Heap(), root, MarkUp(path), MarkRoot(t), n.parent, n)
    {
      var x: RbtNode? := n;
      ghost var q, s := path, t;
      while x != null
        invariant s.Bin?
        invariant x != null ==>
          At(Heap(), root, q, s, x.parent, x) && Plug(MarkUp(q), MarkRoot(s)) == Plug(MarkUp(path), MarkRoot(t))
        invariant x == null ==> At(Heap(), root, Top, Plug(MarkUp(path), MarkRoot(t)), null, root)
        decreases x != null, q
      {
        RepRoot(Heap(), s, x.parent, x);
        PathHead(Heap(), q, root, x.parent, x);
        MarkAt(Heap(), root, q, true, s.left, s.cell, s.right, x.parent, x);
        MarkOne(x);
        if q.Step? {
          MoveUp(Heap(), root, q.leftward, q.cell, q.sibling, q.up, MarkRoot(s), x.parent, x);
          q, s := q.up, Join(q.leftward, MarkRoot(s), q.cell, q.sibling);
        }
        x := x.parent;
      }
      RepRoot(old(Heap()), t, n.parent, n);
      MoveToPlace(Heap(), root, MarkUp(path), true, t.left, Marked(t.cell), t.right);
    }

    /** The exchange of contents when `s` is further down: both records swap. */
    method SwapRecords(n: RbtNode, s: RbtNode, sp: RbtNode)
      requires n != s && s.parent == sp && sp != n && sp != s && s.left == null
      modifies n`left, n`right, n`parent, n`red, n`modified, s`left, s`right, s`parent, s`red, s`modified,
               sp`left
      ensures RecOf(n) == old(RecOf(s)).(load := old(n.load))
      ensures RecOf(s) == old(RecOf(n)).(load := old(s.load))
      ensures RecOf(sp) == old(RecOf(sp)).(left := n)
    {
      var left, right, parent, red, modified := s.left, s.right, s.parent, s.red, s.modified;
      s.left, s.right, s.parent, s.red, s.modified := n.left, n.right, n.parent, n.red, n.modified;
      n.left, n.right, n.parent, n.red, n.modified := left, right, parent, red, modified;
      n.parent.left := n;
    }

    /** The exchange when `s` is the right child of `n`. */
    method SwapAdjacent(n: RbtNode, s: RbtNode)
      requires n != s && n.right == s && s.parent == n && s.left == null
      modifies n`left, n`right, n`parent, n`red, n`modified, s`left, s`right, s`parent, s`red, s`modified
      ensures RecOf(s) == old(RecOf(n)).(right := n, load := old(s.load))
      ensures RecOf(n) == old(RecOf(s)).(parent := s, load := old(n.load))
    {
      var p := n.parent;
      var left := n.left;
      var right := s.right;
      var nRed, nModified, sRed, sModified := n.red, n.modified, s.red, s.modified;
      s.left := left;
      s.red, s.modified := nRed, nModified;
      s.right := n;
      s.parent := p;
      n.right := right;
      n.left := null;
      n.parent := s;
      n.red, n.modified := sRed, sModified;
    }

    /** The parent pointers of the children after the exchange. */
    method AdoptAfterSwap(n: RbtNode, s: RbtNode, ghost l: RbtNode, ghost r: RbtNode, ghost sr: RbtNode?)
      requires n != s && s.left == l && s.right == r && n.right == sr && l != n && l != s && r != s && l != r
      requires r == n ==> n.parent == s
      requires sr != null ==> sr != n && sr != s && sr != l && sr != r
      modifies l`parent, r`parent, AsSet(sr)`parent
      ensures RecOf(l) == old(RecOf(l)).(parent := s)
      ensures RecOf(r) == old(RecOf(r)).(parent := s)
      ensures sr != null ==> RecOf(sr) == old(RecOf(sr)).(parent := n)
    {
      s.left.parent := s;
      s.right.parent := s;
      if n.right != null {
        n.right.parent := n;
      }
    }

    method ExchangeFar(n: RbtNode, s: RbtNode, p: RbtNode?, ghost l: RbtNode, ghost r: RbtNode, sp: RbtNode,
                       ghost sr: RbtNode?)
      requires n.left == l && n.right == r && n.parent == p && s.left == null && s.right == sr && s.parent == sp
      requires n != s && l != n && l != s && r != n && r != l && r != s && sp != s && sp != l && sp != n
      requires p != null ==> p != n && p != s && p != l && p != r && p != sp
      requires sr != null ==> sr != n && sr != s && sr != l && sr != p && sr != r && sr != sp
      modifies this`root, n`left, n`right, n`parent, n`red, n`modified,
               s`left, s`right, s`parent, s`red, s`modified, AsSet(p)`left, AsSet(p)`right, l`parent,
               r`parent, sp`left, AsSet(sr)`parent
      ensures RecOf(n) == old(RecOf(s)).(load := old(n.load))
      ensures RecOf(s) == old(RecOf(n)).(load := old(s.load))
      ensures p == null ==> root == s
      ensures p != null ==> root == old(root) && RecOf(p) == old(RecOf(p)).Redirect(n, s)
      ensures RecOf(l) == old(RecOf(l)).(parent := s)
      ensures r == sp ==> RecOf(r) == old(RecOf(r)).(left := n, parent := s)
      ensures r != sp ==> RecOf(r) == old(RecOf(r)).(parent := s) && RecOf(sp) == old(RecOf(sp)).(left := n)
      ensures sr != null ==> RecOf(sr) == old(RecOf(sr)).(parent := n)
    {
      SwapRecords(n, s, sp);
      FixDownptr(p, n, s);
      AdoptAfterSwap(n, s, l, r, sr);
    }

    method SwapFar(n: RbtNode, s: RbtNode, p: RbtNode?, ghost l: RbtNode, ghost r: RbtNode, sp: RbtNode,
                   ghost sr: RbtNode?)
      requires Swappable(Heap(), n, s, p, l, r, sp, sr) && r != s
      modifies this`root, nodes`left, nodes`right, nodes`parent, nodes`red, nodes`modified
      ensures Swapped(old(Heap()), old(root), n, s, p, l, r, sp, sr, Heap(), root)
    {
      ExchangeFar(n, s, p, l, r, sp, sr);
    }

    method SwapNear(n: RbtNode, s: RbtNode, p: RbtNode?, ghost l: RbtNode, ghost sr: RbtNode?)
      requires Swappable(Heap(), n, s, p, l, s, n, sr)
      modifies this`root, nodes`left, nodes`right, nodes`parent, nodes`red, nodes`modified
      ensures Swapped(old(Heap()), old(root), n, s, p, l, s, n, sr, Heap(), root)
    {
      SwapAdjacent(n, s);
      FixDownptr(p, n, s);
      AdoptAfterSwap(n, s, l, n, sr);
    }

    /** Walk to the leftmost node right of `n`. */
    method Successor(n: RbtNode, ghost path: Path, ghost t: Tree) returns (s: RbtNode, ghost ps: Path, ghost st: Tree)
      requires t.Bin? && t.right.Bin? && At(Heap(), root, path, t, n.parent, n)
      ensures st.Bin? && st.left.Leaf? && s == st.cell.node
      ensures Spine(path, t.left, t.cell, t.right, ps, st) && At(Heap(), root, ps, st, s.parent, s)
    {
      RepRoot(Heap(), t, n.parent, n);
      MoveDown(Heap(), root, path, false, t.right, t.cell, t.left, n.parent, n);
      RepRoot(Heap(), t.right, n, n.right);
      s := n.right;
      ps, st := Step(false, t.cell, t.left, path), t.right;
      while s.left != null
        invariant Spine(path, t.left, t.cell, t.right, ps, st) && At(Heap(), root, ps, st, s.parent, s)
        decreases st
      {
        RepRoot(Heap(), st, s.parent, s);
        MoveDown(Heap(), root, ps, true, st.left, st.cell, st.right, s.parent, s);
        RepRoot(Heap(), st.left, s, s.left);
        SpineDown(path, t.left, t.cell, t.right, ps, st);
        ps, st := Step(true, st.cell, st.right, ps), st.left;
        s := s.left;
      }
      RepRoot(Heap(), st, s.parent, s);
      MoveDown(Heap(), root, ps, true, st.left, st.cell, st.right, s.parent, s);
      RepRoot(Heap(), st.left, s, s.left);
    }

    /** Both branches of `swap_with_successor` exchange the two nodes. */
    method SwapPositions(n: RbtNode, s: RbtNode, p: RbtNode?, ghost sp: RbtNode)
      requires n.left != null && n.right != null && Swappable(Heap(), n, s, p, n.left, n.right, sp, s.right)
      requires Linked(Heap(), root)
      modifies this`root, nodes`left, nodes`right, nodes`parent, nodes`red, nodes`modified
      ensures Renamed(old(Heap()), old(root), n, s, Heap(), root)
      ensures n.left == null && n.parent != null
    {
      ghost var h, l, r, sr := Heap(), n.left, n.right, s.right;
      if n.right == s {
        SwapNear(n, s, p, l, sr);
      } else {
        SwapFar(n, s, p, l, r, s.parent, sr);
      }
      assert Heap()[n] == RecOf(n);
      SwappedRenames(h, old(root), n, s, p, l, r, sp, sr, Heap(), root);
    }

    /** `swap_with_successor`. */
    method SwapWithSuccessor(n: RbtNode, ghost path: Path, ghost t: Tree)
      returns (ghost path': Path, ghost t': Tree, ghost k: nat)
      requires t.Bin? && t.left.Bin? && t.right.Bin? && At(Heap(), root, path, t, n.parent, n)
      requires Sound(Plug(path, t)) && Ascending(InOrder(Plug(path, t)))
      modifies this`root, nodes`left, nodes`right, nodes`parent, nodes`red, nodes`modified
      ensures At(Heap(), root, path', t', n.parent, n)
      ensures k < |InOrder(Plug(path, t))| && InOrder(Plug(path, t))[k] == n
      ensures Removable(path', t', n, Without(InOrder(Plug(path, t)), k))
      ensures n.left == null && n.parent != null
    {
      ghost var h := Heap();
      var p := n.parent;
      var s, ps, st := Successor(n, path, t);
      RepRoot(h, t, p, n);
      ghost var sp := s.parent;
      SwappableAt(h, root, path, t.left, t.cell, t.right, p, ps, st.cell, st.right, sp);
      MoveToTop(h, root, path, t, p, n);
      AtLinked(h, root, Plug(path, t));
      SwapPositions(n, s, p, sp);
      path', t', k := ExchangeAt(h, old(root), path, t, ps, st, sp, Heap(), root);
    }

    /** The pointer to `n` is redirected to its only child `s`, if any. */
    method SkipNode(n: RbtNode, s: RbtNode?, p: RbtNode?)
      requires n in nodes && n.parent == p && (p != null ==> p in nodes && p != n)
      requires s != null ==> s in nodes && s != n && s != p
      modifies this`root, this`nodes, AsSet(p)`left, AsSet(p)`right, AsSet(s)`parent
      ensures nodes == old(nodes) - {n}
      ensures Unlinked(old(Heap()), old(root), p, n, s, Heap(), root)
    {
      FixDownptr(n.parent, n, s);
      if s != null {
        s.parent := n.parent;
      }
      nodes := nodes - {n};
    }

    method Unlink(n: RbtNode, ghost path: Path, ghost t: Tree) returns (s: RbtNode?)
      requires t.Bin? && (t.left.Leaf? || t.right.Leaf?) && At(Heap(), root, path, t, n.parent, n)
      modifies this`root, this`nodes, nodes`left, nodes`right, nodes`parent, nodes`red, nodes`modified
      ensures nodes == old(nodes) - {n}
      ensures At(Heap(), root, path, OnlyChild(t), n.parent, s)
      ensures n.parent == old(n.parent) && n.left == old(n.left) && n.red == t.cell.red
      ensures (n.parent != null ==> n.parent in nodes) && (n.left != null ==> n.left in nodes)
    {
      ghost var d := t.left.Bin?;
      RepRoot(Heap(), t, n.parent, n);
      UnlinkPointers(Heap(), root, path, d, OnlyChild(t), t.cell, n.parent);
      s := if n.left != null then n.left else n.right;
      SkipNode(n, s, n.parent);
      UnlinkedAt(old(Heap()), old(root), path, d, OnlyChild(t), t.cell, n.parent, Heap(), root);
      PathHead(Heap(), path, root, n.parent, s);
    }

    method RemoveMarked(n: RbtNode, ghost path: Path, ghost t: Tree, ghost rest: seq<RbtNode>) returns (ghost t': Tree)
      requires Removable(path, t, n, rest) && At(Heap(), root, MarkUp(path), MarkRoot(t), n.parent, n)
      modifies this`root, this`nodes, nodes`left, nodes`right, nodes`parent, nodes`red, nodes`modified
      ensures nodes == old(nodes) - {n}
      ensures At(Heap(), root, Top, t', null, root) && Sound(t') && InOrder(t') == rest
      ensures n.left == old(n.left) && n.parent == old(n.parent)
      ensures (n.parent != null ==> n.parent in nodes) && (n.left != null ==> n.left in nodes)
    {
      assert OnlyChild(MarkRoot(t)) == OnlyChild(t);
      var s := Unlink(n, MarkUp(path), MarkRoot(t));
      RepRoot(Heap(), OnlyChild(t), n.parent, s);
      if s != null {
        UnlinkWithChild(path, t, n, rest);
        t' := BlackenChild(n, s, MarkUp(path), OnlyChild(t));
        return;
      }
      if n.red {
        UnlinkRed(path, t, n, rest);
        MoveToTop(Heap(), root, MarkUp(path), Leaf, n.parent, null);
        t' := Plug(MarkUp(path), Leaf);
        return;
      }
      UnlinkBlack(path, t, n, rest);
      t' := RepairAfterRemove(n, MarkUp(path));
    }

    method BlackenChild(n: RbtNode, s: RbtNode, ghost path: Path, ghost u: Tree) returns (ghost t': Tree)
      requires u.Bin? && At(Heap(), root, path, u, n.parent, s) && n !in nodes
      modifies nodes`red
      ensures t' == Plug(path, Bin(u.left, Black(u.cell), u.right)) && At(Heap(), root, Top, t', null, root)
    {
      RepRoot(Heap(), u, n.parent, s);
      BlackenAt(Heap(), root, path, true, u.left, u.cell, u.right, n.parent, s);
      MakeBlack(s);
      MoveToTop(Heap(), root, path, Bin(u.left, Black(u.cell), u.right), n.parent, s);
      t' := Plug(path, Bin(u.left, Black(u.cell), u.right));
    }

    /** Bring `n` to a place where it has at most one child. */
    method MakeRemovable(n: RbtNode) returns (ghost path: Path, ghost t: Tree, ghost k: nat)
      requires Valid() && n in nodes
      modifies this`root, nodes`left, nodes`right, nodes`parent, nodes`red, nodes`modified
      ensures At(Heap(), root, path, t, n.parent, n)
      ensures k < |InOrder(tree)| && InOrder(tree)[k] == n && Removable(path, t, n, Without(InOrder(tree), k))
      ensures Ascending(Without(InOrder(tree), k))
      ensures if old(n.left != null && n.right != null) then n.left == null && n.parent != null
              else n.left == old(n.left) && n.parent == old(n.parent)
    {
      path, t := Locate(Heap(), root, Top, tree, null, root, n);
      KidPointers(Heap(), root, path, t, n);
      if n.left != null && n.right != null {
        path, t, k := SwapWithSuccessor(n, path, t);
      } else {
        RemovableHere(path, t);
        k := |Before(path)| + |InOrder(t.left)|;
      }
      WithoutAscends(InOrder(tree), k);
    }

    /** The pointers that a removed node is left with, given those it had: with two
        children, the ones it got from its successor. */
    ghost predicate Detached(n: RbtNode, left: RbtNode?, right: RbtNode?, parent: RbtNode?)
      reads this, n
    {
      && n !in nodes && (n.parent != null ==> n.parent in nodes) && (n.left != null ==> n.left in nodes)
      && (if left != null && right != null then n.left == null && n.parent != null
          else n.left == left && n.parent == parent)
    }

    method TakeOut(n: RbtNode) returns (ghost t': Tree, ghost k: nat)
      requires Valid() && n in nodes
      modifies this`root, this`nodes, nodes`left, nodes`right, nodes`parent, nodes`red, nodes`modified
      ensures nodes == old(nodes) - {n}
      ensures At(Heap(), root, Top, t', null, root) && Sound(t')
      ensures k < |InOrder(tree)| && InOrder(tree)[k] == n && InOrder(t') == Without(InOrder(tree), k)
      ensures Ascending(InOrder(t'))
      ensures Detached(n, old(n.left), old(n.right), old(n.parent))
    {
      var path, t, k' := MakeRemovable(n);
      k := k';
      MarkAncestors(n, path, t);
      t' := RemoveMarked(n, path, t, Without(InOrder(tree), k));
    }

    /** `rbt_remove`: exactly `n` goes, and the tree is a red-black search tree again. */
    method Remove(n: RbtNode)
      requires Valid() && n in nodes
      modifies this, nodes`left, nodes`right, nodes`parent, nodes`red, nodes`modified
      ensures Valid() && nodes == old(nodes) - {n}
      ensures exists k: nat | k < |old(InOrder(tree))| ::
        old(InOrder(tree))[k] == n && InOrder(tree) == Without(old(InOrder(tree)), k)
      ensures Detached(n, old(n.left), old(n.right), old(n.parent))
    {
      var t, k := TakeOut(n);
      tree := t;
    }
  }
}
