/** The steps of RB_REMOVE and RB_REMOVE_COLOR on trees
    (package/aloe/include/aloe/compat/openbsd/sys/tree.h:445-575). */
module RbRemove {
  import opened Strcmp
  import opened RbSpec
  import opened RbBalance

  function Blackened(t: Tree): Tree {
    if t.Bin? then Recolored(t, false) else t
  }

  /** Every path through the focus is one black node short. */
  predicate Short(c: Ctx, t: Tree) {
    Fine(Blackened(t)) && CtxFine(c, BlackHeight(t) + 1)
  }

  /** The context of the same hole after a change of colour of the parent, or of the sibling. */
  function ParentColored(c: Ctx, red: bool): Ctx
    requires c.Up?
  {
    c.(red := red)
  }

  function SiblingSet(c: Ctx, other: Tree): Ctx
    requires c.Up?
  {
    c.(other := other)
  }

  function ChildSet(t: Tree, d: Dir, x: Tree): Tree
    requires t.Bin?
  {
    if d == Left then t.(left := x) else t.(right := x)
  }

  /** A node short of black has a sibling. */
  lemma SiblingExists(c: Ctx, t: Tree)
    requires Short(c, t) && c.Up?
    ensures c.other.Bin?
  {}

  lemma NotRed(t: Tree)
    requires !IsRed(t)
    ensures Blackened(t) == t
  {}

  // ---------------------------------------------------------------- red sibling

  function RedSiblingCtx(c: Ctx): Ctx
    requires c.Up? && c.other.Bin?
  {
    var w := c.other;
    Up(Up(c.up, c.dir, w.node, false, ChildTree(w, Opp(c.dir))), c.dir, c.node, true, ChildTree(w, c.dir))
  }

  lemma RedSibling(c: Ctx, t: Tree)
    requires Short(c, t) && c.Up? && IsRed(c.other)
    ensures Short(RedSiblingCtx(c), t) && !IsRed(RedSiblingCtx(c).other) && RedSiblingCtx(c).other.Bin?
    ensures var top := BinAt(c.dir, c.node, true, t, Recolored(c.other, false));
      Rotated(c.dir, top) == BinAt(c.dir, c.other.node, false,
          BinAt(c.dir, c.node, true, t, ChildTree(c.other, c.dir)), ChildTree(c.other, Opp(c.dir)))
    ensures Inorder(Plug(RedSiblingCtx(c), t)) == Inorder(Plug(c, t))
  {
    var w := c.other;
    var was := BinAt(c.dir, c.node, c.red, t, w);
    var top := BinAt(c.dir, c.node, true, t, Recolored(w, false));
    var h := BlackHeight(t) + 1;
    assert CtxFine(c.up, h + 1) && Fine(w.left) && Fine(w.right) && BlackHeight(w.left) == BlackHeight(w.right) == h;
    assert CtxFine(RedSiblingCtx(c).up, h);
    RotatedInorder(c.dir, top);
    assert Inorder(was) == Inorder(top);
    hide Inorder;
    PlugInorder(c.up, was, Rotated(c.dir, top));
  }

  // ---------------------------------------------------------------- black sibling with black children

  function PushedUp(c: Ctx, t: Tree): Tree
    requires c.Up? && c.other.Bin?
  {
    BinAt(c.dir, c.node, c.red, t, Recolored(c.other, true))
  }

  lemma BlackChildren(c: Ctx, t: Tree)
    requires Short(c, t) && !IsRed(t) && c.Up? && c.other.Bin? && !IsRed(c.other)
    requires !IsRed(c.other.left) && !IsRed(c.other.right)
    ensures Short(c.up, PushedUp(c, t)) && Inorder(Plug(c.up, PushedUp(c, t))) == Inorder(Plug(c, t))
  {
    var was := BinAt(c.dir, c.node, c.red, t, c.other);
    assert Inorder(was) == Inorder(PushedUp(c, t));
    NotRed(t);
    var w := Recolored(c.other, true);
    assert Fine(c.other) && Fine(w) && BlackHeight(w) == BlackHeight(t);
    hide Inorder;
    PlugInorder(c.up, was, PushedUp(c, t));
  }

  // ---------------------------------------------------------------- black sibling, only its near child red

  /** The sibling after its near red child took its place. */
  function NearRedSibling(c: Ctx): Tree
    requires c.Up? && c.other.Bin? && ChildTree(c.other, c.dir).Bin?
  {
    var d, w := c.dir, c.other;
    var a := ChildTree(w, d);
    BinAt(d, a.node, false, ChildTree(a, d), BinAt(d, w.node, true, ChildTree(a, Opp(d)), ChildTree(w, Opp(d))))
  }

  lemma NearRed(c: Ctx, t: Tree)
    requires Short(c, t) && c.Up? && c.other.Bin? && !IsRed(c.other)
    requires IsRed(ChildTree(c.other, c.dir)) && !IsRed(ChildTree(c.other, Opp(c.dir)))
    ensures var w' := NearRedSibling(c); Short(SiblingSet(c, w'), t) && !IsRed(w') && IsRed(ChildTree(w', Opp(c.dir)))
    ensures var w1 := Recolored(ChildSet(c.other, c.dir, Recolored(ChildTree(c.other, c.dir), false)), true);
      Rotated(Opp(c.dir), w1) == NearRedSibling(c)
    ensures Inorder(Plug(SiblingSet(c, NearRedSibling(c)), t)) == Inorder(Plug(c, t))
  {
    var w1 := Recolored(ChildSet(c.other, c.dir, Recolored(ChildTree(c.other, c.dir), false)), true);
    RotatedInorder(Opp(c.dir), w1);
    assert Inorder(w1) == Inorder(c.other);
    NearRedFine(c, t);
    hide Inorder;
    SiblingInorder(c, NearRedSibling(c), t);
  }

  lemma NearRedFine(c: Ctx, t: Tree)
    requires Short(c, t) && c.Up? && c.other.Bin? && !IsRed(c.other)
    requires IsRed(ChildTree(c.other, c.dir)) && !IsRed(ChildTree(c.other, Opp(c.dir)))
    ensures Short(SiblingSet(c, NearRedSibling(c)), t)
  {
    var d, w := c.dir, c.other;
    var a := ChildTree(w, d);
    var low := BinAt(d, w.node, true, ChildTree(a, Opp(d)), ChildTree(w, Opp(d)));
    assert Fine(a) && Fine(ChildTree(a, d)) && Fine(low) && BlackHeight(low) == BlackHeight(ChildTree(a, d));
  }

  /** Equal inorder of the sibling is equal inorder of the whole. */
  lemma SiblingInorder(c: Ctx, w: Tree, t: Tree)
    requires c.Up? && Inorder(w) == Inorder(c.other)
    ensures Inorder(Plug(SiblingSet(c, w), t)) == Inorder(Plug(c, t))
  {
    PlugInorder(c.up, BinAt(c.dir, c.node, c.red, t, w), BinAt(c.dir, c.node, c.red, t, c.other));
  }

  // ---------------------------------------------------------------- black sibling with a red far child

  /** The sibling takes the parent's place and colour. */
  function Finished(c: Ctx, t: Tree): Tree
    requires c.Up? && c.other.Bin? && ChildTree(c.other, Opp(c.dir)).Bin?
  {
    var d, w := c.dir, c.other;
    BinAt(d, w.node, c.red, BinAt(d, c.node, false, t, ChildTree(w, d)), Recolored(ChildTree(w, Opp(d)), false))
  }

  lemma FarRed(c: Ctx, t: Tree)
    requires Short(c, t) && !IsRed(t) && c.Up? && c.other.Bin? && !IsRed(c.other)
        && IsRed(ChildTree(c.other, Opp(c.dir)))
    ensures Whole(c.up, Finished(c, t))
    ensures var d, w := c.dir, c.other;
      Rotated(d, BinAt(d, c.node, false, t,
          ChildSet(Recolored(w, c.red), Opp(d), Recolored(ChildTree(w, Opp(d)), false))))
        == Finished(c, t)
    ensures Inorder(Plug(c.up, Finished(c, t))) == Inorder(Plug(c, t))
  {
    var d, w := c.dir, c.other;
    var w1 := ChildSet(Recolored(w, c.red), Opp(d), Recolored(ChildTree(w, Opp(d)), false));
    RotatedInorder(d, BinAt(d, c.node, false, t, w1));
    assert Inorder(w1) == Inorder(w);
    assert Inorder(BinAt(d, c.node, false, t, w1)) == Inorder(BinAt(d, c.node, c.red, t, w));
    PlugInorder(c.up, BinAt(d, c.node, c.red, t, w), Finished(c, t));
    FarRedFine(c, t);
  }

  lemma FarRedFine(c: Ctx, t: Tree)
    requires Short(c, t) && !IsRed(t) && c.Up? && c.other.Bin? && !IsRed(c.other)
        && IsRed(ChildTree(c.other, Opp(c.dir)))
    ensures Whole(c.up, Finished(c, t))
  {
    var d, w := c.dir, c.other;
    var p := BinAt(d, c.node, false, t, ChildTree(w, d));
    var b := Recolored(ChildTree(w, Opp(d)), false);
    NotRed(t);
    assert Fine(w) && Fine(ChildTree(w, d)) && Fine(ChildTree(w, Opp(d)));
    assert Fine(t) && Fine(p) && Fine(b) && BlackHeight(p) == BlackHeight(b) == BlackHeight(t) + 1;
  }

  // ---------------------------------------------------------------- the end of the loop

  /** The loop ends at a red node or at the root: blackening it pays the debt. */
  lemma Paid(c: Ctx, t: Tree)
    requires Short(c, t) && (IsRed(t) || c == Top)
    ensures Fine(Plug(c, Blackened(t))) && !IsRed(Plug(c, Blackened(t)))
    ensures Inorder(Plug(c, Blackened(t))) == Inorder(Plug(c, t))
  {
    if IsRed(t) { assert Whole(c, Blackened(t)); } else { assert Blackened(t) == t; }
    WholePlug(c, Blackened(t));
    PlugInorder(c, t, Blackened(t));
  }

  // ---------------------------------------------------------------- contexts inside contexts

  /** The context `q`, itself placed in `base`. */
  function Over(q: Ctx, base: Ctx): Ctx {
    match q
    case Top => base
    case Up(up, d, n, red, o) => Up(Over(up, base), d, n, red, o)
  }

  lemma {:induction false} PlugOver(q: Ctx, base: Ctx, t: Tree)
    ensures Plug(Over(q, base), t) == Plug(base, Plug(q, t))
    ensures CtxNodes(Over(q, base)) == CtxNodes(q) + CtxNodes(base)
  {
    if q.Up? { PlugOver(q.up, base, BinAt(q.dir, q.node, q.red, t, q.other)); }
  }

  lemma {:induction false} AtOver(m: Mem, root: Node, q: Ctx, base: Ctx, t: Tree)
    ensures At(m, root, Over(q, base), t) <==> At(m, root, base, Plug(q, t))
  {
    if q.Up? {
      AtUp(m, root, Over(q, base), t);
      AtOver(m, root, q.up, base, BinAt(q.dir, q.node, q.red, t, q.other));
    }
  }

  /** Which node sits at the bottom of a context makes no difference to its balance. */
  lemma {:induction false} FineOver(q: Ctx, base: Ctx, n: Node, h: nat)
    requires base.Up? && CtxFine(Over(q, base), h)
    ensures CtxFine(Over(q, base.(node := n)), h)
  {
    if q.Up? { FineOver(q.up, base, n, h + if q.red then 0 else 1); }
  }

  // ---------------------------------------------------------------- order

  lemma OrderedWithout(s: seq<Node>, x: seq<Node>, n: Node, y: seq<Node>, key: Node -> Key)
    requires Splits(s, x, n, y) && Ordered(s, key)
    ensures Ordered(x + y, key)
  {
    assert s == (x + [n]) + y;
    OrderedJoin(x + [n], y, key);
    OrderedJoin(x, [n], key);
    OrderedJoin(x, y, key);
  }

  /** Taking out a node that has no left child. */
  lemma OneChildOut(c: Ctx, t: Tree, x: Tree)
    requires t.Bin? && ((t.left == Leaf && x == t.right) || (t.right == Leaf && x == t.left))
    ensures Splits(Inorder(Plug(c, t)), Before(c) + Inorder(t.left), t.node, Inorder(t.right) + After(c))
    ensures Inorder(Plug(c, x)) == (Before(c) + Inorder(t.left)) + (Inorder(t.right) + After(c))
  {
    LocateSplits(c, t);
    InorderPlug(c, x);
    hide Splits, Plug, Before, After;
  }

  /** Taking out a node and putting its successor in its place. */
  lemma TwoChildrenOut(c: Ctx, t: Tree, q: Ctx, s: Tree)
    requires t.Bin? && s.Bin? && s.left == Leaf && Plug(q, s) == t.right && Before(q) == []
    ensures Splits(Inorder(Plug(c, t)), Before(c) + Inorder(t.left), t.node, Inorder(t.right) + After(c))
    ensures Inorder(Plug(c, Bin(s.node, t.red, t.left, Plug(q, s.right)))) == (Before(c) + Inorder(t.left))
        + (Inorder(t.right) + After(c))
  {
    LocateSplits(c, t);
    var t' := Bin(s.node, t.red, t.left, Plug(q, s.right));
    InorderPlug(c, t');
    var l, r := Inorder(t.left), Inorder(s.right) + After(q);
    InorderRight(q, s);
    assert Inorder(t') == l + [s.node] + r;
    hide *;
    MoveOne(Before(c), l, s.node, r, After(c));
  }

  lemma InorderRight(q: Ctx, s: Tree)
    requires s.Bin? && s.left == Leaf && Before(q) == []
    ensures Inorder(Plug(q, s)) == [s.node] + (Inorder(s.right) + After(q))
    ensures Inorder(Plug(q, s.right)) == Inorder(s.right) + After(q)
  {
    InorderPlug(q, s);
    InorderPlug(q, s.right);
    var e := Inorder(s.left);
    assert Inorder(s) == e + [s.node] + Inorder(s.right) && e == [];
    hide *;
    FirstOfMiddle(Before(q), Inorder(s), After(q), e, s.node, Inorder(s.right));
  }

  lemma FirstOfMiddle(b: seq<Node>, m: seq<Node>, a: seq<Node>, e: seq<Node>, n: Node, r: seq<Node>)
    requires b == [] && e == [] && m == e + [n] + r
    ensures b + m + a == [n] + (r + a) && b + r + a == r + a
  {
    assert m == [n] + r;
    assert b + m == m && b + r == r;
    assert ([n] + r) + a == [n] + (r + a);
  }

  lemma MoveOne(b: seq<Node>, l: seq<Node>, n: Node, r: seq<Node>, a: seq<Node>)
    ensures b + (l + [n] + r) + a == (b + l) + (([n] + r) + a)
  {}

  /** Balance of the whole is balance around every focus. */
  lemma {:induction false} WholeUnplug(c: Ctx, t: Tree)
    requires Fine(Plug(c, t)) && !IsRed(Plug(c, t))
    ensures Whole(c, t)
  {
    if c.Up? {
      var t' := BinAt(c.dir, c.node, c.red, t, c.other);
      WholeUnplug(c.up, t');
      WholeDown(c.up, t', c.dir);
    }
  }

  /** What is left of a taken-out node's place: short of black, or in order if the node was red. */
  lemma TakenOut(c: Ctx, t: Tree, x: Tree)
    requires Whole(c, t) && t.Bin? && ((t.left == Leaf && x == t.right) || (t.right == Leaf && x == t.left))
    ensures if t.red then Whole(c, x) else Short(c, x)
  {
    assert Fine(x) && Fine(Blackened(x));
  }

  /** Where the successor's own place ends up once the successor stands for `t.node`. */
  function SuccessorCtx(c: Ctx, t: Tree, q: Ctx, s: Node): Ctx
    requires t.Bin?
  {
    Over(q, Up(c, Right, s, t.red, t.left))
  }

  lemma SuccessorTakenOut(c: Ctx, t: Tree, q: Ctx, s: Tree)
    requires t.Bin? && Whole(c, t) && s.Bin? && s.left == Leaf && Plug(q, s) == t.right
    ensures var c' := SuccessorCtx(c, t, q, s.node); if s.red then Whole(c', s.right) else Short(c', s.right)
    ensures Plug(SuccessorCtx(c, t, q, s.node), s.right) == Plug(c, Bin(s.node, t.red, t.left, Plug(q, s.right)))
  {
    var base := Up(c, Right, t.node, t.red, t.left);
    PlugOver(q, base, s);
    WholePlug(c, t);
    WholeUnplug(Over(q, base), s);
    TakenOut(Over(q, base), s, s.right);
    PlugOver(q, Up(c, Right, s.node, t.red, t.left), s.right);
    var h := BlackHeight(s.right) + if s.red then 0 else 1;
    FineOver(q, base, s.node, h);
  }
}
