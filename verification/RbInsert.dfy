/** The steps of RB_INSERT_COLOR on trees (package/aloe/include/aloe/compat/openbsd/sys/tree.h:402-443). */
module RbInsert {
  import opened RbSpec
  import opened RbBalance

  /** All is well except that the red focus may have a red parent. */
  predicate RedRed(c: Ctx, t: Tree) {
    Fine(t) && IsRed(t) && CtxFine(c, BlackHeight(t))
  }

  /** A red parent has a black parent of its own. */
  lemma GrandparentExists(c: Ctx, t: Tree)
    requires RedRed(c, t) && CtxRed(c)
    ensures c.up.Up? && !c.up.red
  {}

  /** Where the violation goes when the uncle is red: both its child links and the uncle's turn black. */
  function UncleRedTree(c: Ctx, t: Tree): Tree
    requires c.Up? && c.up.Up? && c.up.other.Bin?
  {
    BinAt(c.up.dir, c.up.node, true, BinAt(c.dir, c.node, false, t, c.other), Recolored(c.up.other, false))
  }

  lemma UncleRed(c: Ctx, t: Tree)
    requires RedRed(c, t) && CtxRed(c) && IsRed(c.up.other)
    ensures RedRed(c.up.up, UncleRedTree(c, t))
    ensures Inorder(Plug(c.up.up, UncleRedTree(c, t))) == Inorder(Plug(c, t))
  {
    var g := c.up;
    assert CtxFine(g, BlackHeight(t)) && CtxFine(g.up, BlackHeight(t) + 1);
    var was := BinAt(g.dir, g.node, g.red, BinAt(c.dir, c.node, c.red, t, c.other), g.other);
    assert Plug(c, t) == Plug(g.up, was);
    var u := Recolored(g.other, false);
    assert Fine(u) && BlackHeight(u) == BlackHeight(t) + 1;
    var p := BinAt(c.dir, c.node, false, t, c.other);
    assert Fine(p) && BlackHeight(p) == BlackHeight(t) + 1;
    assert Inorder(was) == Inorder(UncleRedTree(c, t));
    hide Inorder, Plug;
    PlugInorder(g.up, was, UncleRedTree(c, t));
  }

  /** An inner grandchild is rotated outwards: focus and parent change places. */
  function InnerCtx(c: Ctx, t: Tree): Ctx
    requires c.Up? && t.Bin?
  {
    var d := Opp(c.dir);
    Up(c.up, d, t.node, true, ChildTree(t, c.dir))
  }

  function InnerTree(c: Ctx, t: Tree): Tree
    requires c.Up? && t.Bin?
  {
    var d := Opp(c.dir);
    BinAt(d, c.node, true, c.other, ChildTree(t, d))
  }

  lemma Inner(c: Ctx, t: Tree)
    requires RedRed(c, t) && CtxRed(c)
    ensures RedRed(InnerCtx(c, t), InnerTree(c, t)) && CtxRed(InnerCtx(c, t))
    ensures var d := Opp(c.dir); var p := BinAt(c.dir, c.node, true, t, c.other);
      Rotated(d, p) == BinAt(d, t.node, true, InnerTree(c, t), ChildTree(t, c.dir))
    ensures Inorder(Plug(InnerCtx(c, t), InnerTree(c, t))) == Inorder(Plug(c, t))
  {
    var d := Opp(c.dir);
    var p := BinAt(c.dir, c.node, true, t, c.other);
    RotatedInorder(d, p);
    hide Inorder;
    PlugInorder(c.up, p, Rotated(d, p));
  }

  /** An outer grandchild: the parent takes the black place of the grandparent. */
  function OuterCtx(c: Ctx): Ctx
    requires c.Up? && c.up.Up?
  {
    var g := c.up;
    Up(g.up, g.dir, c.node, false, BinAt(g.dir, g.node, true, c.other, g.other))
  }

  lemma Outer(c: Ctx, t: Tree)
    requires RedRed(c, t) && CtxRed(c) && c.dir == c.up.dir && !IsRed(c.up.other)
    ensures RedRed(OuterCtx(c), t) && !CtxRed(OuterCtx(c))
    ensures var g := c.up; var top := BinAt(g.dir, g.node, true, BinAt(c.dir, c.node, false, t, c.other), g.other);
      Rotated(Opp(g.dir), top) == BinAt(g.dir, c.node, false, t, OuterCtx(c).other)
    ensures Inorder(Plug(OuterCtx(c), t)) == Inorder(Plug(c, t))
  {
    var g := c.up;
    var was := BinAt(g.dir, g.node, g.red, BinAt(c.dir, c.node, c.red, t, c.other), g.other);
    var top := BinAt(g.dir, g.node, true, BinAt(c.dir, c.node, false, t, c.other), g.other);
    assert CtxFine(g, BlackHeight(t)) && CtxFine(g.up, BlackHeight(t) + 1);
    RotatedInorder(Opp(g.dir), top);
    assert Inorder(was) == Inorder(top);
    assert Plug(c, t) == Plug(g.up, was);
    hide Inorder;
    PlugInorder(g.up, was, Rotated(Opp(g.dir), top));
  }

  /** When the parent is black or absent, a black root settles everything. */
  lemma Settled(c: Ctx, t: Tree)
    requires RedRed(c, t) && !CtxRed(c)
    ensures Plug(c, t).Bin? && Fine(Recolored(Plug(c, t), false))
    ensures Inorder(Recolored(Plug(c, t), false)) == Inorder(Plug(c, t))
  {
    if c.Up? { WholePlug(c, t); }
    PlugIsBin(c, t);
  }

  lemma {:induction false} PlugIsBin(c: Ctx, t: Tree)
    requires t.Bin?
    ensures Plug(c, t).Bin?
  {
    if c.Up? { PlugIsBin(c.up, BinAt(c.dir, c.node, c.red, t, c.other)); }
  }
}
