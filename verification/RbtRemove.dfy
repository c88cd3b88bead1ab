/** The cases of `rbt_remove` and `repair_after_remove`, on trees and paths. */
module RbtRemove {
  import opened RbtTree
  import opened RbtInsert

  /** What holds at each step of the climb: the subtree has a black root and one
      black node too few on its paths; everything else is in order. */
  ghost predicate ShortAt(path: Path, t: Tree)
  {
    true == (
      && !IsRed(t) && NoRedRed(t) && Balanced(t)
      && NoRedRedPath(path, false) && BalancedPath(path, BlackCount(t) + 1)
      && MarksSound(t) && MarkedPath(path))
  }

  /** The sibling of a short subtree is a node. */
  lemma {:induction false} SiblingIsNode(d: bool, c: Cell, s: Tree, up: Path, t: Tree)
    requires ShortAt(Step(d, c, s, up), t)
    ensures s.Bin?
  {
  }

  lemma {:induction false} ShortAtRoot(t: Tree)
    requires ShortAt(Top, t)
    ensures Sound(t)
  {
  }

  /** Red sibling: swap colours with the parent and rotate towards the subtree. */
  lemma {:induction false} RedSibling(d: bool, c: Cell, x: Tree, s: Cell, y: Tree, up: Path, t: Tree)
    requires ShortAt(Step(d, c, Join(d, x, s, y), up), t) && s.red
    ensures ShortAt(Step(d, Red(c), x, Step(d, Black(Marked(s)), y, up)), t) && !IsRed(x) && x.Bin?
    ensures SameOrder(Step(d, c, Join(d, x, s, y), up), t, Step(d, Red(c), x, Step(d, Black(Marked(s)), y, up)), t)
  {
    var up' := Step(d, Black(Marked(s)), y, up);
    JoinFacts(d, x, s, y);
    assert NoRedRedPath(up', true) && BalancedPath(up', BlackCount(t) + 1) && MarkedPath(up');
    RotationOrder(d, t, c, x, s, y);
    SameOrderHere(up, Join(d, t, c, Join(d, x, s, y)), Join(d, Join(d, t, Red(c), x), Black(Marked(s)), y));
  }

  /** Black parent, sibling and nephews: the sibling turns red and the parent's
      subtree is now the short one. */
  lemma {:induction false} BlackFamily(d: bool, c: Cell, x: Tree, s: Cell, y: Tree, up: Path, t: Tree)
    requires ShortAt(Step(d, c, Join(d, x, s, y), up), t) && !c.red && !s.red && !IsRed(x) && !IsRed(y)
    ensures ShortAt(up, Join(d, t, c, Join(d, x, Red(s), y)))
    ensures SameOrder(Step(d, c, Join(d, x, s, y), up), t, up, Join(d, t, c, Join(d, x, Red(s), y)))
  {
    JoinFacts(d, x, s, y);
    JoinFacts(d, x, Red(s), y);
    JoinFacts(d, t, c, Join(d, x, Red(s), y));
    UncleMarks(d, x, s, y);
    SameOrderHere(up, Join(d, t, c, Join(d, x, s, y)), Join(d, t, c, Join(d, x, Red(s), y)));
  }

  /** Red parent, black sibling and nephews: swap their colours. */
  lemma {:induction false} RedParent(d: bool, c: Cell, x: Tree, s: Cell, y: Tree, up: Path, t: Tree)
    requires ShortAt(Step(d, c, Join(d, x, s, y), up), t) && c.red && !s.red && !IsRed(x) && !IsRed(y)
    ensures Sound(Plug(up, Join(d, t, Black(c), Join(d, x, Red(s), y))))
    ensures SameOrder(Step(d, c, Join(d, x, s, y), up), t, up, Join(d, t, Black(c), Join(d, x, Red(s), y)))
  {
    var new_ := Join(d, t, Black(c), Join(d, x, Red(s), y));
    assert NoRedRedPath(up, true) && NoRedRedPath(up, false);
    JoinFacts(d, x, s, y);
    JoinFacts(d, x, Red(s), y);
    JoinFacts(d, t, Black(c), Join(d, x, Red(s), y));
    UncleMarks(d, x, s, y);
    SameOrderHere(up, Join(d, t, c, Join(d, x, s, y)), new_);
    RedBlackPlug(up, new_);
    MarksPlug(up, new_);
  }

  /** Only the near nephew is red: rotate the sibling so that the far one is. */
  lemma {:induction false} NearNephew(d: bool, c: Cell, a: Tree, x: Cell, b: Tree, s: Cell, y: Tree, up: Path, t: Tree)
    requires ShortAt(Step(d, c, Join(d, Join(d, a, x, b), s, y), up), t) && !s.red && x.red && !IsRed(y)
    ensures ShortAt(Step(d, c, Join(d, a, Black(Marked(x)), Join(d, b, Red(Marked(s)), y)), up), t)
    ensures SameOrder(Step(d, c, Join(d, Join(d, a, x, b), s, y), up), t,
                      Step(d, c, Join(d, a, Black(Marked(x)), Join(d, b, Red(Marked(s)), y)), up), t)
  {
    var o, i := Join(d, Join(d, a, x, b), s, y), Join(d, b, Red(Marked(s)), y);
    var o' := Join(d, a, Black(Marked(x)), i);
    JoinFacts(d, a, x, b);
    JoinFacts(d, Join(d, a, x, b), s, y);
    JoinFacts(d, b, Red(Marked(s)), y);
    JoinFacts(d, a, Black(Marked(x)), i);
    RotationOrder(d, a, Black(Marked(x)), b, Red(Marked(s)), y);
    assert InOrder(o) == InOrder(o') by {
      assert InOrder(Join(d, Join(d, a, Black(Marked(x)), b), Red(Marked(s)), y)) == InOrder(o);
    }
    SameOrderHere(up, Join(d, t, c, o), Join(d, t, c, o'));
  }

  /** The far nephew is red: the final rotation. */
  lemma {:induction false} FarNephew(d: bool, c: Cell, x: Tree, s: Cell, a: Tree, y: Cell, b: Tree, up: Path, t: Tree)
    requires ShortAt(Step(d, c, Join(d, x, s, Join(d, a, y, b)), up), t) && !s.red && y.red
    ensures Sound(Plug(up, Join(d, Join(d, t, Black(c), x),
                 s.(red := c.red, modified := true), Join(d, a, Black(y), b))))
    ensures SameOrder(Step(d, c, Join(d, x, s, Join(d, a, y, b)), up), t,
                      up, Join(d, Join(d, t, Black(c), x), s.(red := c.red, modified := true), Join(d, a, Black(y), b)))
  {
    var f, f' := Join(d, a, y, b), Join(d, a, Black(y), b);
    var s' := s.(red := c.red, modified := true);
    var n' := Join(d, t, Black(c), x);
    var new_ := Join(d, n', s', f');
    JoinFacts(d, a, y, b);
    JoinFacts(d, a, Black(y), b);
    JoinFacts(d, x, s, f);
    JoinFacts(d, t, Black(c), x);
    JoinFacts(d, n', s', f');
    UncleMarks(d, a, y, b);
    RotationOrder(d, t, Black(c), x, s', f');
    assert InOrder(f) == InOrder(f') && InOrder(Join(d, x, s', f')) == InOrder(Join(d, x, s, f));
    assert InOrder(Join(d, t, Black(c), Join(d, x, s', f'))) == InOrder(Join(d, t, c, Join(d, x, s, f)));
    SameOrderHere(up, Join(d, t, c, Join(d, x, s, f)), new_);
    RedBlackPlug(up, new_);
    MarksPlug(up, new_);
  }
}
