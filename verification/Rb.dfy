/** RB_HEAD and the operations RB_GENERATE_INTERNAL makes for it, on linked nodes
    (package/aloe/include/aloe/compat/openbsd/sys/tree.h:402-735). */
module Rb {
  import opened Strcmp
  import opened RbSpec
  import opened RbBalance
  import opened RbInsert
  import opened RbSearch
  import opened RbRemove

  class Head {
    var root: Node
    var mem: Mem
    /** The key of each node: keyval_cmp compares these (package/tester1/settings.cpp:24-26). */
    var key: Node -> Key
    ghost var tree: Tree

    constructor ()
      ensures Valid() && Order() == []
    {
      root := 0;
      mem := map[];
      key := (n: Node) => [];
      tree := Leaf;
    }

    /** The nodes in key order. */
    ghost function Order(): seq<Node>
      reads this
    {
      Inorder(tree)
    }

    /** The linked nodes are `tree`. */
    ghost predicate Linked()
      reads this
    {
      At(mem, root, Top, tree)
    }

    /** The conditions listed at the top of tree.h, and strict key order. */
    ghost predicate Balanced()
      reads this
    {
      Fine(tree) && !IsRed(tree)
    }

    ghost predicate Valid()
      reads this
    {
      Linked() && Balanced() && Ordered(Order(), key)
    }

    /** A node not in the tree gets its key: the record is allocated. */
    method NewKey(n: Node, k: Key)
      requires Valid() && n !in Order()
      modifies `key
      ensures Valid() && key(n) == k && forall m :: m != n ==> key(m) == old(key)(m)
    {
      var f := key;
      key := (m: Node) => if m == n then k else f(m);
      OrderedElsewhere(Order(), f, key, n);
    }

    // -------------------------------------------------------------- primitive steps

    method SetColor(n: Node, red: bool, ghost c: Ctx, ghost t: Tree)
      requires At(mem, root, c, t) && t.Bin? && t.node == n
      modifies `mem
      ensures At(mem, root, c, Recolored(t, red))
    {
      ghost var m := mem;
      mem := mem[n := mem[n].(red := red)];
      AtRecolored(m, mem, root, c, t, red);
    }

    /** The link that led to `was` now leads to `now`. */
    method LinkFromAbove(p: Node, was: Node, now: Node)
      requires p != 0 ==> p in mem
      modifies `mem, `root
      ensures p == 0 ==> root == now && mem == old(mem)
      ensures p != 0 ==> root == old(root)
      ensures p != 0 ==> mem == old(mem)[p :=
          old(mem)[p].SetChild(if old(mem)[p].left == was then Left else Right, now)]
    {
      if p != 0 {
        if mem[p].left == was {
          mem := mem[p := mem[p].SetChild(Left, now)];
        } else {
          mem := mem[p := mem[p].SetChild(Right, now)];
        }
      } else {
        root := now;
      }
    }

    /** RB_ROTATE_LEFT and RB_ROTATE_RIGHT. */
    method Rotate(d: Dir, elm: Node, ghost c: Ctx, ghost t: Tree) returns (tmp: Node)
      requires At(mem, root, c, t) && t.Bin? && t.node == elm && ChildTree(t, Opp(d)).Bin?
      modifies `mem, `root
      ensures At(mem, root, c, Rotated(d, t)) && tmp == Rotated(d, t).node
    {
      ghost var m, r := mem, root;
      RotationSees(mem, root, c, d, t);
      tmp := mem[elm].Child(Opp(d));
      var b := mem[tmp].Child(d);
      var p := mem[elm].parent;
      hide *;
      mem := mem[elm := mem[elm].SetChild(Opp(d), b)];
      if b != 0 { mem := mem[b := mem[b].(parent := elm)]; }
      mem := mem[tmp := mem[tmp].(parent := p)];
      LinkFromAbove(p, elm, tmp);
      mem := mem[tmp := mem[tmp].SetChild(d, elm)];
      mem := mem[elm := mem[elm].(parent := tmp)];
      RotationDone(m, mem, r, root, c, d, t);
    }

    // -------------------------------------------------------------- insertion

    /** One turn of the loop of RB_INSERT_COLOR whose uncle is red. */
    method UncleRedStep(tmp: Node, parent: Node, gparent: Node, ghost c: Ctx, ghost t: Tree)
      requires At(mem, root, c, t) && RedRed(c, t) && CtxRed(c) && IsRed(c.up.other)
      requires tmp == c.up.other.node && parent == c.node && gparent == c.up.node
      modifies `mem
      ensures At(mem, root, c.up.up, UncleRedTree(c, t))
    {
      GrandparentExists(c, t);
      hide At, Plug, Inorder, RedRed, Fine, CtxFine;
      ghost var g, u := c.up, c.up.other;
      ghost var p := BinAt(c.dir, c.node, true, t, c.other);
      ghost var p' := BinAt(c.dir, c.node, false, t, c.other);
      AtUp(mem, root, c, t);
      AtUp(mem, root, g, p);
      AtUp(mem, root, Up(g.up, Opp(g.dir), g.node, g.red, p), u);
      SetColor(tmp, false, Up(g.up, Opp(g.dir), g.node, g.red, p), u);
      ghost var u' := Recolored(u, false);
      AtUp(mem, root, Up(g.up, Opp(g.dir), g.node, g.red, p), u');
      AtUp(mem, root, Up(g.up, g.dir, g.node, g.red, u'), p);
      SetColor(parent, false, Up(g.up, g.dir, g.node, g.red, u'), p);
      AtUp(mem, root, Up(g.up, g.dir, g.node, g.red, u'), p');
      SetColor(gparent, true, g.up, BinAt(g.dir, g.node, g.red, p', u'));
    }

    /** The rotation that turns an inner grandchild into an outer one. */
    method InnerStep(d: Dir, parent: Node, ghost c: Ctx, ghost t: Tree) returns (tmp: Node)
      requires At(mem, root, c, t) && RedRed(c, t) && CtxRed(c) && parent == c.node && d == Opp(c.dir)
      modifies `mem, `root
      ensures At(mem, root, InnerCtx(c, t), InnerTree(c, t)) && tmp == t.node
    {
      Inner(c, t);
      hide At, Plug, Inorder, RedRed, Fine, CtxFine;
      AtUp(mem, root, c, t);
      tmp := Rotate(d, parent, c.up, BinAt(c.dir, c.node, true, t, c.other));
      AtUp(mem, root, InnerCtx(c, t), InnerTree(c, t));
    }

    /** The recolouring and rotation that end RB_INSERT_COLOR. */
    method OuterStep(d: Dir, parent: Node, gparent: Node, ghost c: Ctx, ghost t: Tree)
      requires At(mem, root, c, t) && RedRed(c, t) && CtxRed(c) && c.dir == c.up.dir && !IsRed(c.up.other)
      requires parent == c.node && gparent == c.up.node && d == c.dir
      modifies `mem, `root
      ensures At(mem, root, OuterCtx(c), t)
    {
      Outer(c, t);
      hide At, Plug, Inorder, RedRed, Fine, CtxFine;
      ghost var g := c.up;
      AtUp(mem, root, c, t);
      SetColor(parent, false, g, BinAt(c.dir, c.node, true, t, c.other));
      ghost var p' := BinAt(c.dir, c.node, false, t, c.other);
      AtUp(mem, root, g, p');
      SetColor(gparent, true, g.up, BinAt(g.dir, g.node, g.red, p', g.other));
      var tmp := Rotate(Opp(d), gparent, g.up, BinAt(g.dir, g.node, true, p', g.other));
      AtUp(mem, root, OuterCtx(c), t);
    }

    /** One turn of the loop of RB_INSERT_COLOR: the red-red pair moves up, or is gone. */
    method InsertStep(elm: Node, parent: Node, ghost c: Ctx, ghost t: Tree)
        returns (elm': Node, ghost c': Ctx, ghost t': Tree)
      requires At(mem, root, c, t) && RedRed(c, t) && CtxRed(c) && elm == t.node && parent == c.node
      modifies `mem, `root
      ensures At(mem, root, c', t') && RedRed(c', t') && t'.node == elm'
      ensures Inorder(Plug(c', t')) == Inorder(Plug(c, t)) && Depth(c') < Depth(c)
    {
      GrandparentExists(c, t);
      ParentSees(mem, root, c, t);
      ghost var p := BinAt(c.dir, c.node, true, t, c.other);
      AtUp(mem, root, c, t);
      ParentSees(mem, root, c.up, p);
      hide At, Plug, Inorder, Fine, CtxFine, RedRed;
      var gparent := mem[parent].parent;
      var d := if parent == mem[gparent].left then Left else Right;
      var tmp := mem[gparent].Child(Opp(d));
      if tmp != 0 && mem[tmp].red {
        UncleRed(c, t);
        UncleRedStep(tmp, parent, gparent, c, t);
        return gparent, c.up.up, UncleRedTree(c, t);
      }
      elm', c', t' := elm, c, t;
      var parent' := parent;
      if mem[parent].Child(Opp(d)) == elm {
        SideSees(mem, root, c, t, Opp(d));
        Inner(c, t);
        tmp := InnerStep(d, parent, c, t);
        elm', parent', c', t' := parent, elm, InnerCtx(c, t), InnerTree(c, t);
      } else {
        SideSees(mem, root, c, t, Opp(d));
      }
      Outer(c', t');
      OuterStep(d, parent', gparent, c', t');
      c' := OuterCtx(c');
    }

    /** RB_INSERT_COLOR */
    method InsertColor(elm0: Node, ghost c0: Ctx, ghost t0: Tree)
      requires At(mem, root, c0, t0) && RedRed(c0, t0) && elm0 == t0.node
      modifies `mem, `root, `tree
      ensures Linked() && Balanced() && Order() == Inorder(Plug(c0, t0))
    {
      var elm := elm0;
      ghost var c, t := c0, t0;
      ParentSees(mem, root, c, t);
      var parent := mem[elm].parent;
      while parent != 0 && mem[parent].red
        invariant At(mem, root, c, t) && RedRed(c, t) && elm == t.node && parent == CtxNode(c)
        invariant Inorder(Plug(c, t)) == Inorder(Plug(c0, t0))
        invariant c.Up? <==> parent != 0
        invariant c.Up? ==> parent in mem && mem[parent].red == c.red
        decreases Depth(c)
      {
        hide At, Plug, Inorder, Fine, CtxFine, Depth;
        elm, c, t := InsertStep(elm, parent, c, t);
        ParentSees(mem, root, c, t);
        parent := mem[elm].parent;
      }
      Settled(c, t);
      AtPlug(mem, root, c, t);
      RootSees(mem, root, Plug(c, t));
      hide At, Inorder, Fine, CtxFine;
      SetColor(root, false, Top, Plug(c, t));
      tree := Recolored(Plug(c, t), false);
    }

    /** RB_SET and the link from the parent: `elm` fills the hole where the search ended. */
    method Attach(elm: Node, parent: Node, comp: int, ghost c: Ctx)
      requires At(mem, root, c, Leaf) && elm != 0 && elm !in CtxNodes(c) && parent == CtxNode(c)
      requires c.Up? ==> (comp < 0 <==> c.dir == Left)
      modifies `mem, `root
      ensures At(mem, root, c, Bin(elm, true, Leaf, Leaf))
    {
      ghost var m, r := mem, root;
      mem := mem[elm := Cell(0, 0, parent, true)];
      ZeroIsNoNode(Leaf, c);
      if parent != 0 {
        mem := mem[parent := mem[parent].SetChild(if comp < 0 then Left else Right, elm)];
      } else {
        root := elm;
      }
      Rehole(m, mem, r, root, c, 0, elm);
    }

    /** The loop that RB_INSERT and RB_FIND share: the node with key `k`, or the hole where it would hang. */
    method Descend(k: Key) 
      returns (found: Node, parent: Node, comp: int, ghost c: Ctx, ghost turns: nat)
      requires Valid()
      ensures Logarithmic(turns, |Order()|)
      ensures found != 0 ==> found in Order() && key(found) == k
      ensures found == 0 ==>
                && At(mem, root, c, Leaf) && parent == CtxNode(c) && (c.Up? ==> (comp < 0 <==> c.dir == Left))
                && Plug(c, Leaf) == tree && Searched(c, k, key) && Whole(c, Leaf)
    {
      var tmp := root;
      parent, comp, turns := 0, 0, 0;
      ghost var t := tree;
      c := Top;
      StartSearch(mem, root, tree, key, k);
      hide At, Plug, Inorder, Fine, Ordered, Whole, Searched, Less, BinAt, Logarithmic;
      while tmp != 0
        invariant At(mem, root, c, t) && tmp == Root(t) && (tmp != 0 <==> t.Bin?) && parent == CtxNode(c)
        invariant c.Up? ==> (comp < 0 <==> c.dir == Left)
        invariant Plug(c, t) == tree && Searched(c, k, key) && Whole(c, t) && turns == Depth(c)
        decreases t
      {
        SearchBound(c, t);
        parent, turns := tmp, turns + 1;
        SearchSees(mem, root, c, t);
        CmpAntisymmetric(k, key(parent));
        comp := Cmp(k, key(parent));
        if comp < 0 {
          tmp := mem[tmp].left;
          SearchStep(mem, root, c, t, Left, key, k);
          c, t := Side(Left, c, t), ChildTree(t, Left);
        } else if comp > 0 {
          tmp := mem[tmp].right;
          SearchStep(mem, root, c, t, Right, key, k);
          c, t := Side(Right, c, t), ChildTree(t, Right);
        } else {
          return tmp, parent, comp, c, turns;
        }
      }
      SearchBound(c, t);
      found := 0;
    }

    /** RB_FIND */
    method Find(k: Key) returns (r: Node)
      requires Valid()
      ensures r != 0 ==> r in Order() && key(r) == k
      ensures r == 0 <==> forall x :: x in Order() ==> key(x) != k
    {
      var parent, comp;
      ghost var c, turns;
      r, parent, comp, c, turns := Descend(k);
      if r == 0 { SearchEnds(c, k, key); }
    }

    /** RB_INSERT: the node that already has the key, or 0 once `elm` is in. */
    method Insert(elm: Node) returns (r: Node)
      requires Valid() && elm != 0 && elm !in Order()
      modifies `mem, `root, `tree
      ensures Valid()
      ensures r != 0 ==> r in Order() && key(r) == key(elm) && mem == old(mem) && root == old(root) && tree == old(tree)
      ensures r == 0 ==> Order() == Inserted(old(Order()), elm, key)
      ensures r == 0 <==> forall x :: x in old(Order()) ==> key(x) != key(elm)
    {
      var parent, comp;
      ghost var c, turns;
      r, parent, comp, c, turns := Descend(key(elm));
      if r == 0 {
        InsertPlace(c, elm, key);
        hide At, Plug, Inorder, Fine, Ordered, Whole, Searched, Inserted, RedRed, CtxFine, CtxNodes;
        Attach(elm, parent, comp, c);
        InsertColor(elm, c, Bin(elm, true, Leaf, Leaf));
      }
    }

    // -------------------------------------------------------------- removal: writes beside the focus

    method SetParentColor(n: Node, red: bool, ghost c: Ctx, ghost t: Tree)
      requires At(mem, root, c, t) && c.Up? && n == c.node
      modifies `mem
      ensures At(mem, root, ParentColored(c, red), t)
    {
      AtUp(mem, root, c, t);
      hide At;
      SetColor(n, red, c.up, BinAt(c.dir, c.node, c.red, t, c.other));
      AtUp(mem, root, ParentColored(c, red), t);
    }

    method SetSiblingColor(n: Node, red: bool, ghost c: Ctx, ghost t: Tree)
      requires At(mem, root, c, t) && c.Up? && c.other.Bin? && n == c.other.node
      modifies `mem
      ensures At(mem, root, SiblingSet(c, Recolored(c.other, red)), t)
    {
      AtAcross(mem, root, c, t);
      hide At;
      SetColor(n, red, Across(c, t), c.other);
      AtAcross(mem, root, SiblingSet(c, Recolored(c.other, red)), t);
    }

    /** Colours the child of the sibling on side `e`. */
    method SetNephewColor(n: Node, e: Dir, red: bool, ghost c: Ctx, ghost t: Tree)
      requires At(mem, root, c, t) && c.Up? && c.other.Bin? && ChildTree(c.other, e).Bin?
          && n == ChildTree(c.other, e).node
      modifies `mem
      ensures At(mem, root, SiblingSet(c, ChildSet(c.other, e, Recolored(ChildTree(c.other, e), red))), t)
    {
      ghost var w, x := c.other, ChildTree(c.other, e);
      AtAcross(mem, root, c, t);
      AtDown(mem, root, Across(c, t), w, e);
      hide At;
      SetColor(n, red, Side(e, Across(c, t), w), x);
      AtUp(mem, root, Side(e, Across(c, t), w), Recolored(x, red));
      AtAcross(mem, root, SiblingSet(c, ChildSet(w, e, Recolored(x, red))), t);
    }

    method RotateSibling(d: Dir, n: Node, ghost c: Ctx, ghost t: Tree)
      requires At(mem, root, c, t) && c.Up? && c.other.Bin? && ChildTree(c.other, Opp(d)).Bin? && n == c.other.node
      modifies `mem, `root
      ensures At(mem, root, SiblingSet(c, Rotated(d, c.other)), t)
    {
      AtAcross(mem, root, c, t);
      hide At;
      var tmp := Rotate(d, n, Across(c, t), c.other);
      AtAcross(mem, root, SiblingSet(c, Rotated(d, c.other)), t);
    }

    // -------------------------------------------------------------- RB_REMOVE_COLOR

    /** A red sibling is rotated over the parent; the next sibling is black. */
    method RedSiblingStep(d: Dir, sibling: Node, parent: Node, ghost c: Ctx, ghost t: Tree)
      requires At(mem, root, c, t) && Short(c, t) && c.Up? && IsRed(c.other)
      requires sibling == c.other.node && parent == c.node && d == c.dir
      modifies `mem, `root
      ensures At(mem, root, RedSiblingCtx(c), t)
    {
      RedSibling(c, t);
      hide At, Short, Plug, Inorder, Fine, CtxFine;
      SetSiblingColor(sibling, false, c, t);
      ghost var c1 := SiblingSet(c, Recolored(c.other, false));
      SetParentColor(parent, true, c1, t);
      ghost var c2 := ParentColored(c1, true);
      AtUp(mem, root, c2, t);
      var tmp := Rotate(d, parent, c.up, BinAt(d, parent, true, t, c2.other));
      ghost var c3 := RedSiblingCtx(c);
      AtUp(mem, root, c3.up, BinAt(d, parent, true, t, c3.other));
      AtUp(mem, root, c3, t);
    }

    /** A red near child of the sibling is rotated into the sibling's place. */
    method NearRedStep(d: Dir, sibling: Node, ghost c: Ctx, ghost t: Tree)
      requires At(mem, root, c, t) && Short(c, t) && c.Up? && c.other.Bin? && !IsRed(c.other) && d == c.dir
      requires IsRed(ChildTree(c.other, c.dir)) && !IsRed(ChildTree(c.other, Opp(c.dir))) && sibling == c.other.node
      modifies `mem, `root
      ensures At(mem, root, SiblingSet(c, NearRedSibling(c)), t)
    {
      NearRed(c, t);
      SiblingSees(mem, root, c, t);
      hide At, Short, Plug, Inorder, Fine, CtxFine;
      var oleft := mem[sibling].Child(d);
      if oleft != 0 { SetNephewColor(oleft, d, false, c, t); }
      ghost var w1 := ChildSet(c.other, d, Recolored(ChildTree(c.other, d), false));
      SetSiblingColor(sibling, true, SiblingSet(c, w1), t);
      RotateSibling(Opp(d), sibling, SiblingSet(c, Recolored(w1, true)), t);
    }

    /** The sibling, its red far child turned black, is rotated into the parent's place. */
    method FarRedStep(d: Dir, sibling: Node, parent: Node, ghost c: Ctx, ghost t: Tree)
      requires At(mem, root, c, t) && Short(c, t) && !IsRed(t) && c.Up? && c.other.Bin? && !IsRed(c.other)
      requires IsRed(ChildTree(c.other, Opp(c.dir))) && sibling == c.other.node && parent == c.node && d == c.dir
      modifies `mem, `root
      ensures At(mem, root, c.up, Finished(c, t))
    {
      FarRed(c, t);
      SiblingSees(mem, root, c, t);
      hide At, Short, Plug, Inorder, Fine, CtxFine, Whole;
      var far := mem[sibling].Child(Opp(d));
      SetSiblingColor(sibling, mem[parent].red, c, t);
      ghost var c1 := SiblingSet(c, Recolored(c.other, c.red));
      SetParentColor(parent, false, c1, t);
      ghost var c2 := ParentColored(c1, false);
      if far != 0 { SetNephewColor(far, Opp(d), false, c2, t); }
      ghost var c3 := SiblingSet(c2, ChildSet(c2.other, Opp(d), Recolored(ChildTree(c2.other, Opp(d)), false)));
      AtUp(mem, root, c3, t);
      var tmp := Rotate(d, parent, c.up, BinAt(d, parent, false, t, c3.other));
    }

    /** One turn of the loop of RB_REMOVE_COLOR once the sibling is black: the missing black moves up, or is paid. */
    method BlackSiblingStep(d: Dir, sibling0: Node, parent: Node, ghost c0: Ctx, ghost t: Tree)
      returns (done: bool, ghost c': Ctx, ghost t': Tree)
      requires At(mem, root, c0, t) && Short(c0, t) && !IsRed(t) && c0.Up? && c0.other.Bin? && !IsRed(c0.other)
      requires sibling0 == c0.other.node && parent == c0.node && d == c0.dir
      modifies `mem, `root
      ensures At(mem, root, c', t') && Inorder(Plug(c', t')) == Inorder(Plug(c0, t))
      ensures if done then Whole(c', t')
              else Short(c', t') && c' == c0.up && t'.Bin? && t'.node == parent && t'.red == c0.red
    {
      var sibling := sibling0;
      ghost var c := c0;
      SiblingSees(mem, root, c, t);
      hide At, Short, Plug, Inorder, Fine, CtxFine, Whole;
      var l, r := mem[sibling].left, mem[sibling].right;
      if (l == 0 || !mem[l].red) && (r == 0 || !mem[r].red) {
        BlackChildren(c, t);
        SetSiblingColor(sibling, true, c, t);
        AtUp(mem, root, SiblingSet(c, Recolored(c.other, true)), t);
        return false, c.up, PushedUp(c, t);
      }
      var far := mem[sibling].Child(Opp(d));
      if far == 0 || !mem[far].red {
        NearRed(c, t);
        NearRedStep(d, sibling, c, t);
        c := SiblingSet(c, NearRedSibling(c));
        SiblingSees(mem, root, c, t);
        sibling := mem[parent].Child(Opp(d));
      }
      FarRed(c, t);
      FarRedStep(d, sibling, parent, c, t);
      return true, c.up, Finished(c, t);
    }

    /** One turn of the loop of RB_REMOVE_COLOR. */
    method RemoveStep(elm: Node, parent: Node, ghost c: Ctx, ghost t: Tree)
        returns (done: bool, ghost c': Ctx, ghost t': Tree)
      requires At(mem, root, c, t) && Short(c, t) && !IsRed(t) && c.Up? && elm == Root(t) && parent == c.node
      modifies `mem, `root
      ensures At(mem, root, c', t') && Inorder(Plug(c', t')) == Inorder(Plug(c, t))
      ensures if done then Whole(c', t') else Short(c', t') && t'.Bin? && t'.node == parent && (IsRed(t') || c' == c.up)
    {
      SiblingExists(c, t);
      SiblingSees(mem, root, c, t);
      LeftSees(mem, root, c, t);
      hide At, Short, Plug, Inorder, Fine, CtxFine, Whole;
      var d := if mem[parent].left == elm then Left else Right;
      var tmp := mem[parent].Child(Opp(d));
      ghost var c1 := c;
      if mem[tmp].red {
        RedSibling(c, t);
        RedSiblingStep(d, tmp, parent, c, t);
        c1 := RedSiblingCtx(c);
        SiblingSees(mem, root, c1, t);
        tmp := mem[parent].Child(Opp(d));
      }
      done, c', t' := BlackSiblingStep(d, tmp, parent, c1, t);
    }

    /** RB_REMOVE_COLOR */
    method RemoveColor(parent0: Node, elm0: Node, ghost c0: Ctx, ghost t0: Tree)
      requires At(mem, root, c0, t0) && Short(c0, t0) && parent0 == CtxNode(c0) && elm0 == Root(t0)
      modifies `mem, `root, `tree
      ensures Linked() && Balanced() && Order() == Inorder(Plug(c0, t0))
    {
      var parent, elm := parent0, elm0;
      ghost var c, t := c0, t0;
      ghost var paid := false;
      LoopSees(mem, root, c, t);
      hide At, Short, Plug, Inorder, Fine, CtxFine, Whole, CtxNodes, Depth;
      while (elm == 0 || !mem[elm].red) && elm != root
        invariant At(mem, root, c, t) && Short(c, t) && parent == CtxNode(c) && elm == Root(t)
        invariant (t.Bin? <==> elm != 0) && (t.Bin? ==> elm in mem && mem[elm].red == t.red)
        invariant elm != root <==> c.Up?
        invariant Inorder(Plug(c, t)) == Inorder(Plug(c0, t0))
        decreases !IsRed(t), c
      {
        var done;
        done, c, t := RemoveStep(elm, parent, c, t);
        if done {
          GoTop(mem, root, c, t);
          t := Plug(c, t);
          c, paid, elm := Top, true, root;
          break;
        }
        LoopSees(mem, root, c, t);
        elm := parent;
        parent := mem[elm].parent;
      }
      if !paid { Paid(c, t); }
      if elm != 0 { SetColor(elm, false, c, t); }
      AtPlug(mem, root, c, Blackened(t));
      tree := Plug(c, Blackened(t));
    }

    // -------------------------------------------------------------- RB_REMOVE

    /** Links the only child of `elm`, if any, to the parent of `elm`. */
    method Splice(elm: Node, child: Node, parent: Node, ghost c: Ctx, ghost t: Tree, ghost x: Tree)
      requires At(mem, root, c, t) && t.Bin? && t.node == elm && parent == CtxNode(c) && child == Root(x)
      requires (t.left == Leaf && x == t.right) || (t.right == Leaf && x == t.left)
      modifies `mem, `root
      ensures At(mem, root, c, x) && elm in mem && mem[elm] == old(mem)[elm]
    {
      ghost var m, r := mem, root;
      SpliceSees(mem, root, c, t, x);
      hide *;
      if child != 0 { mem := mem[child := mem[child].(parent := parent)]; }
      LinkFromAbove(parent, elm, child);
      SpliceDone(m, mem, r, root, c, t, x);
    }

    /** The successor `elm` takes over the links and the colour of `was`. */
    method Replace(was: Node, elm: Node, ghost c: Ctx, ghost t: Tree)
      requires At(mem, root, c, t) && t.Bin? && t.node == was && t.left.Bin?
      requires elm != 0 && elm !in Nodes(t) && elm !in CtxNodes(c)
      modifies `mem, `root
      ensures At(mem, root, c, t.(node := elm))
    {
      ghost var m, r := mem, root;
      ReplaceSees(mem, root, c, t);
      assert elm != t.left.node && (t.right.Bin? ==> elm != t.right.node) && elm != CtxNode(c);
      hide *;
      mem := mem[elm := mem[was]];
      var p := mem[was].parent;
      LinkFromAbove(p, was, elm);
      var l, rt := mem[was].left, mem[was].right;
      mem := mem[l := mem[l].(parent := elm)];
      if rt != 0 { mem := mem[rt := mem[rt].(parent := elm)]; }
      ReplaceDone(m, mem, r, root, c, t, elm);
    }

    /** Follows left links. */
    method Leftmost(n: Node, ghost base: Ctx, ghost t: Tree) returns (elm: Node, ghost q: Ctx, ghost s: Tree)
      requires At(mem, root, base, t) && t.Bin? && n == t.node
      ensures At(mem, root, Over(q, base), s) && s.Bin? && s.node == elm && s.left == Leaf
      ensures Plug(q, s) == t && Before(q) == []
    {
      elm := n;
      q, s := Top, t;
      NodeSees(mem, root, base, t);
      while mem[elm].left != 0
        invariant At(mem, root, Over(q, base), s) && s.Bin? && s.node == elm && Plug(q, s) == t && Before(q) == []
        invariant elm in mem && mem[elm].left == Root(s.left) && (s.left.Bin? <==> mem[elm].left != 0)
        decreases s
      {
        AtDown(mem, root, Over(q, base), s, Left);
        hide At;
        q, s := Up(q, Left, s.node, s.red, s.right), s.left;
        NodeSees(mem, root, Over(q, base), s);
        elm := mem[elm].left;
      }
    }

    /** RB_REMOVE of a node without a left or without a right child. */
    method RemoveOne(elm: Node, child: Node, ghost c: Ctx, ghost t: Tree, ghost x: Tree)
      requires At(mem, root, c, t) && t.Bin? && t.node == elm && child == Root(x) && Whole(c, t)
      requires (t.left == Leaf && x == t.right) || (t.right == Leaf && x == t.left)
      modifies `mem, `root, `tree
      ensures Linked() && Balanced() && Order() == Inorder(Plug(c, x))
    {
      NodeSees(mem, root, c, t);
      TakenOut(c, t, x);
      hide At, Whole, Short, Plug, Inorder, Fine;
      var parent, red := mem[elm].parent, mem[elm].red;
      Splice(elm, child, parent, c, t, x);
      if !red {
        RemoveColor(parent, child, c, x);
      } else {
        AtPlug(mem, root, c, x);
        WholePlug(c, x);
        tree := Plug(c, x);
      }
    }

    /** RB_REMOVE of a node with two children: its successor moves into its place. */
    method RemoveTwo(was: Node, ghost c: Ctx, ghost t: Tree) returns (ghost q: Ctx, ghost s: Tree)
      requires At(mem, root, c, t) && t.Bin? && t.node == was && t.left.Bin? && t.right.Bin? && Whole(c, t)
      modifies `mem, `root, `tree
      ensures Linked() && Balanced()
      ensures s.Bin? && s.left == Leaf && Plug(q, s) == t.right && Before(q) == []
      ensures Order() == Inorder(Plug(c, Bin(s.node, t.red, t.left, Plug(q, s.right))))
    {
      ghost var base := Up(c, Right, was, t.red, t.left);
      NodeSees(mem, root, c, t);
      AtDown(mem, root, c, t, Right);
      hide At, Whole, Short, Plug, Inorder, Fine, Before, Over, Nodes, CtxNodes, SuccessorCtx;
      var elm;
      elm, q, s := Leftmost(mem[was].right, base, t.right);
      NodeSees(mem, root, Over(q, base), s);
      SuccessorSees(mem, root, q, c, t, s);
      var child, parent, red := mem[elm].right, mem[elm].parent, mem[elm].red;
      Splice(elm, child, parent, Over(q, base), s, s.right);
      if mem[elm].parent == was { parent := elm; }
      BeforeReplace(mem, root, q, c, t, s.right);
      Replace(was, elm, c, Bin(was, t.red, t.left, Plug(q, s.right)));
      AfterReplace(mem, root, q, c, t, s.right, elm);
      SuccessorTakenOut(c, t, q, s);
      if !red {
        RemoveColor(parent, child, SuccessorCtx(c, t, q, elm), s.right);
      } else {
        AtPlug(mem, root, SuccessorCtx(c, t, q, elm), s.right);
        WholePlug(SuccessorCtx(c, t, q, elm), s.right);
        tree := Plug(SuccessorCtx(c, t, q, elm), s.right);
      }
    }

    /** RB_REMOVE */
    method Remove(elm: Node) returns (r: Node)
      requires Valid() && elm in Order()
      modifies `mem, `root, `tree
      ensures Valid() && r == elm && Order() == Without(old(Order()), elm)
    {
      ghost var c, t := Located(mem, root, tree, elm, key);
      NodeSees(mem, root, c, t);
      r := elm;
      hide At, Whole, Plug, Inorder, Fine, Ordered, Before, After, Without;
      if mem[elm].left == 0 {
        OneChildOut(c, t, t.right);
        RemoveOne(elm, mem[elm].right, c, t, t.right);
      } else if mem[elm].right == 0 {
        OneChildOut(c, t, t.left);
        RemoveOne(elm, mem[elm].left, c, t, t.left);
      } else {
        ghost var q, s := RemoveTwo(elm, c, t);
        TwoChildrenOut(c, t, q, s);
      }
    }

    // -------------------------------------------------------------- enumeration

    /** RB_MIN and RB_MAX */
    method MinMax(d: Dir) returns (parent: Node)
      requires Valid()
      ensures parent == if Order() == [] then 0 else if d == Left then Order()[0] else Order()[|Order()| - 1]
    {
      var tmp := root;
      parent := 0;
      ghost var c, t := Top, tree;
      LoopSees(mem, root, c, t);
      RootSees(mem, root, t);
      while tmp != 0
        invariant At(mem, root, c, t) && tmp == Root(t) && (t.Bin? <==> tmp != 0) && parent == CtxNode(c)
        invariant Plug(c, t) == tree && (c.Up? ==> c.dir == d)
        invariant if d == Left then Before(c) == [] else After(c) == []
        decreases t
      {
        AtDown(mem, root, c, t, d);
        NodeSees(mem, root, c, t);
        hide At;
        parent := tmp;
        tmp := mem[tmp].Child(d);
        c, t := Side(d, c, t), ChildTree(t, d);
        LoopSees(mem, root, c, t);
      }
      InorderPlug(c, t);
    }

    /** RB_NEXT */
    method Next(elm0: Node) returns (elm: Node)
      requires Valid() && elm0 in Order()
      ensures elm == After1(Order(), elm0)
    {
      ghost var c, t := Located(mem, root, tree, elm0, key);
      ghost var rest := Inorder(t.right) + After(c);
      NodeSees(mem, root, c, t);
      NextIsFirst(Order(), Before(c) + Inorder(t.left), elm0, rest);
      elm := elm0;
      if mem[elm].right != 0 {
        AtDown(mem, root, c, t, Right);
        hide At, Plug, Inorder, Before, Over, After1, Splits;
        ghost var q, s;
        elm, q, s := Leftmost(mem[elm].right, Up(c, Right, t.node, t.red, t.left), t.right);
        InorderRight(q, s);
      } else {
        ParentSees(mem, root, c, t);
        var parent := mem[elm].parent;
        if parent != 0 && elm == mem[parent].left {
          elm := parent;
        } else {
          while parent != 0 && elm == mem[parent].right
            invariant At(mem, root, c, t) && t.Bin? && t.node == elm && parent == CtxNode(c) && After(c) == rest
            invariant (c.Up? <==> parent != 0)
                && (c.Up? ==> parent in mem && (elm == mem[parent].right <==> c.dir == Right))
            decreases c
          {
            AtUp(mem, root, c, t);
            t := BinAt(c.dir, c.node, c.red, t, c.other);
            c := c.up;
            ParentSees(mem, root, c, t);
            if c.Up? { SideSees(mem, root, c, t, Right); }
            elm := parent;
            parent := mem[elm].parent;
          }
          elm := parent;
        }
      }
    }

    /** RB_FOREACH visits every node once, in key order. */
    method Foreach() returns (visited: seq<Node>)
      requires Valid()
      ensures visited == Order()
    {
      visited := [];
      DistinctOrder(Order(), key);
      var x := MinMax(Left);
      while x != 0
        invariant visited <= Order()
        invariant x == if |visited| < |Order()| then Order()[|visited|] else 0
        decreases |Order()| - |visited|
      {
        IndexOfAt(Order(), |visited|);
        visited := visited + [x];
        x := Next(x);
      }
      NoZero(mem, root, tree);
    }
  }

  lemma {:induction false} OrderedElsewhere(s: seq<Node>, f: Node -> Key, g: Node -> Key, n: Node)
    requires Ordered(s, f) && n !in s && forall m :: m != n ==> g(m) == f(m)
    ensures Ordered(s, g)
  {
    if s != [] {
      assert s[0] in s && forall x :: x in s[1..] ==> x in s;
      OrderedElsewhere(s[1..], f, g, n);
    }
  }

  lemma NextIsFirst(s: seq<Node>, x: seq<Node>, n: Node, y: seq<Node>)
    requires n in s && Splits(s, x, n, y) && IndexOf(s, n) == |x|
    ensures After1(s, n) == if y == [] then 0 else y[0]
  {}

  /** No node is listed twice. */
  predicate Distinct(s: seq<Node>) {
    s != [] ==> s[0] !in s[1..] && Distinct(s[1..])
  }

  lemma {:induction false} DistinctOrder(s: seq<Node>, key: Node -> Key)
    requires Ordered(s, key)
    ensures Distinct(s)
  {
    if s != [] {
      DistinctOrder(s[1..], key);
      if s[0] in s[1..] { CmpAntisymmetric(key(s[0]), key(s[0])); }
    }
  }

  lemma {:induction false} IndexOfAt(s: seq<Node>, i: nat)
    requires Distinct(s) && i < |s|
    ensures IndexOf(s, s[i]) == i
  {
    if i > 0 {
      assert s[i] == s[1..][i - 1];
      IndexOfAt(s[1..], i - 1);
    }
  }

  lemma NoZero(m: Mem, root: Node, tree: Tree)
    requires At(m, root, Top, tree)
    ensures 0 !in Inorder(tree)
  {
    ZeroIsNotIn(tree);
    InorderNodes(tree);
  }

  /** The focus on a node of the tree, and its place in the order. */
  lemma Located(m: Mem, root: Node, tree: Tree, elm: Node, key: Node -> Key) returns (c: Ctx, t: Tree)
    requires At(m, root, Top, tree) && Fine(tree) && !IsRed(tree) && Ordered(Inorder(tree), key) && elm in Inorder(tree)
    ensures At(m, root, c, t) && t.Bin? && t.node == elm && Whole(c, t) && Plug(c, t) == tree
    ensures var x, y := Before(c) + Inorder(t.left), Inorder(t.right) + After(c);
      && Splits(Inorder(tree), x, elm, y) && IndexOf(Inorder(tree), elm) == |x|
      && Without(Inorder(tree), elm) == x + y && Ordered(x + y, key)
  {
    var loc := Locate(Top, tree, IndexOf(Inorder(tree), elm));
    c, t := loc.0, loc.1;
    assert Plug(Top, tree) == tree && Before(Top) == [];
    AtPlug(m, root, c, t);
    WholeUnplug(c, t);
    LocateSplits(c, t);
    var x, y := Before(c) + Inorder(t.left), Inorder(t.right) + After(c);
    assert |x| == IndexOf(Inorder(tree), elm);
    hide At, Whole, Plug, Inorder, Fine, Ordered, Before, After, Without, IndexOf;
    WithoutSplits(Inorder(tree), x, elm, y);
    OrderedWithout(Inorder(tree), x, elm, y, key);
  }

  lemma WithoutSplits(s: seq<Node>, x: seq<Node>, n: Node, y: seq<Node>)
    requires n in s && IndexOf(s, n) == |x| && |x| < |s| && Splits(s, x, s[|x|], y)
    ensures s[|x|] == n && Without(s, n) == x + y
  {}

  lemma BeforeReplace(m: Mem, root: Node, q: Ctx, c: Ctx, t: Tree, x: Tree)
    requires t.Bin? && At(m, root, Over(q, Up(c, Right, t.node, t.red, t.left)), x)
    ensures At(m, root, c, Bin(t.node, t.red, t.left, Plug(q, x)))
  {
    AtOver(m, root, q, Up(c, Right, t.node, t.red, t.left), x);
    AtUp(m, root, Up(c, Right, t.node, t.red, t.left), Plug(q, x));
  }

  lemma AfterReplace(m: Mem, root: Node, q: Ctx, c: Ctx, t: Tree, x: Tree, s: Node)
    requires t.Bin? && At(m, root, c, Bin(s, t.red, t.left, Plug(q, x)))
    ensures At(m, root, SuccessorCtx(c, t, q, s), x)
  {
    AtUp(m, root, Up(c, Right, s, t.red, t.left), Plug(q, x));
    AtOver(m, root, q, Up(c, Right, s, t.red, t.left), x);
  }

  /** The successor, read at the end of the left links below `t.right`. */
  lemma SuccessorSees(m: Mem, root: Node, q: Ctx, c: Ctx, t: Tree, s: Tree)
    requires t.Bin? && s.Bin? && At(m, root, Over(q, Up(c, Right, t.node, t.red, t.left)), s)
    ensures s.node != 0 && s.node !in Nodes(Bin(t.node, t.red, t.left, Plug(q, s.right))) && s.node !in CtxNodes(c)
    ensures var p := CtxNode(Over(q, Up(c, Right, t.node, t.red, t.left)));
      && (q == Top ==> p == t.node) && (q.Up? ==> p == q.node != t.node)
    ensures CtxNode(Over(q, Up(c, Right, s.node, t.red, t.left))) == if q == Top then s.node else q.node
    ensures CtxNode(SuccessorCtx(c, t, q, s.node)) == if q == Top then s.node else q.node
  {
    var base := Up(c, Right, t.node, t.red, t.left);
    PlugOver(q, base, s);
    NodesPlug(q, s.right);
    assert Proper(s);
    assert CtxNodes(base) == CtxNodes(c) + {t.node} + Nodes(t.left);
    if q.Up? {
      PlugOver(q.up, base, s);
      assert ProperCtx(Over(q, base)) && q.node !in CtxNodes(Over(q.up, base)) && t.node in CtxNodes(base);
    }
  }

  lemma SpliceSees(m: Mem, root: Node, c: Ctx, t: Tree, x: Tree)
    requires At(m, root, c, t) && t.Bin? && ((t.left == Leaf && x == t.right) || (t.right == Leaf && x == t.left))
    ensures t.node in m && (x.Bin? <==> Root(x) != 0) && (x.Bin? ==> x.node in m && x.node != t.node)
    ensures var p := CtxNode(c); (c.Up? <==> p != 0) && (c.Up? ==> p in m && (m[p].left == t.node <==> c.dir == Left))
    ensures t.node != CtxNode(c) && (x.Bin? ==> x.node != CtxNode(c))
  {
    NodeSees(m, root, c, t);
    ParentSees(m, root, c, t);
    assert c.Up? ==> c.node in CtxNodes(c);
    assert x.Bin? ==> x.node in Nodes(x);
  }

  lemma SpliceDone(m: Mem, m': Mem, root: Node, root': Node, c: Ctx, t: Tree, x: Tree)
    requires At(m, root, c, t) && t.Bin? && ((t.left == Leaf && x == t.right) || (t.right == Leaf && x == t.left))
    requires x.Bin? ==> x.node in m && x.node in m' && m'[x.node] == m[x.node].(parent := CtxNode(c))
    requires if c == Top then root' == Root(x) else
               root' == root && c.node in m && c.node in m' && m'[c.node] == m[c.node].SetChild(c.dir, Root(x))
    requires forall n :: n in m && n != Root(x) && n != CtxNode(c) ==> n in m' && m'[n] == m[n]
    ensures At(m', root', c, x)
  {
    ZeroIsNoNode(t, c);
    assert Rep(m, x, t.node) && Proper(x) && Nodes(x) <= Nodes(t);
    assert c.Up? ==> c.node in CtxNodes(c);
    assert x.Bin? ==> x.node in Nodes(x);
    hide Rep, RepCtx, Proper, ProperCtx, Nodes, CtxNodes;
    Reparent(m, m', x, t.node, CtxNode(c));
    Rehole(m, m', root, root', c, t.node, Root(x));
  }

  lemma ReplaceSees(m: Mem, root: Node, c: Ctx, t: Tree)
    requires At(m, root, c, t) && t.Bin? && t.left.Bin?
    ensures t.node in m && m[t.node] == Cell(t.left.node, Root(t.right), CtxNode(c), t.red)
    ensures t.left.node in m && (t.right.Bin? <==> Root(t.right) != 0) && (t.right.Bin? ==> t.right.node in m)
    ensures var p := CtxNode(c); (c.Up? <==> p != 0) && (c.Up? ==> p in m && (m[p].left == t.node <==> c.dir == Left))
    ensures t.left.node != t.node && t.left.node != Root(t.right) && t.node != Root(t.right)
    ensures t.left.node in Nodes(t) && (t.right.Bin? ==> t.right.node in Nodes(t)) && (c.Up? ==> c.node in CtxNodes(c))
    ensures CtxNode(c) != t.node && CtxNode(c) != t.left.node && (t.right.Bin? ==> t.right.node != CtxNode(c))
  {
    NodeSees(m, root, c, t);
    ParentSees(m, root, c, t);
    assert t.left.node in Nodes(t.left) && (t.right.Bin? ==> t.right.node in Nodes(t.right));
    assert Proper(t.left);
  }

  lemma ReplaceDone(m: Mem, m': Mem, root: Node, root': Node, c: Ctx, t: Tree, elm: Node)
    requires At(m, root, c, t) && t.Bin? && t.left.Bin? && elm != 0 && elm !in Nodes(t) && elm !in CtxNodes(c)
    requires t.node in m && elm in m' && m'[elm] == m[t.node]
    requires t.left.node in m && t.left.node in m' && m'[t.left.node] == m[t.left.node].(parent := elm)
    requires t.right.Bin? ==>
               t.right.node in m && t.right.node in m' && m'[t.right.node] == m[t.right.node].(parent := elm)
    requires if c == Top then root' == elm else
               root' == root && c.node in m && c.node in m' && m'[c.node] == m[c.node].SetChild(c.dir, elm)
    requires forall n :: n in m && n != elm && n != t.left.node && n != Root(t.right) && n != CtxNode(c)
               ==> n in m' && m'[n] == m[n]
    ensures At(m', root', c, t.(node := elm))
  {
    ReplaceSees(m, root, c, t);
    ZeroIsNoNode(t, c);
    var l, r := t.left, t.right;
    assert Rep(m, l, t.node) && Rep(m, r, t.node) && Proper(l) && Proper(r);
    assert Nodes(t) == Nodes(l) + {t.node} + Nodes(r) && Nodes(l) !! Nodes(r);
    assert l.node in Nodes(l) && (r.Bin? ==> r.node in Nodes(r));
    assert Proper(t.(node := elm)) && Fits(c, t.(node := elm));
    hide RepCtx, Proper, ProperCtx, Nodes, CtxNodes;
    ReplaceParts(m, m', root, root', c, t, elm);
  }

  lemma ReplaceParts(m: Mem, m': Mem, root: Node, root': Node, c: Ctx, t: Tree, elm: Node)
    requires t.Bin? && RepCtx(m, root, c, t.node) && ProperCtx(c)
    requires Rep(m, t.left, t.node) && Rep(m, t.right, t.node) && Proper(t.left) && Proper(t.right)
    requires t.left.Bin? && t.left.node in m && t.left.node in m' && m'[t.left.node] == m[t.left.node].(parent := elm)
    requires t.right.Bin? ==>
               t.right.node in m && t.right.node in m' && m'[t.right.node] == m[t.right.node].(parent := elm)
    requires forall n :: n in Nodes(t.left) && n != t.left.node && n in m ==> n in m' && m'[n] == m[n]
    requires forall n :: n in Nodes(t.right) && n != Root(t.right) && n in m ==> n in m' && m'[n] == m[n]
    requires forall n :: n in CtxNodes(c) && n != CtxNode(c) && n in m ==> n in m' && m'[n] == m[n]
    requires if c == Top then root' == elm else
               root' == root && c.node in m && c.node in m' && m'[c.node] == m[c.node].SetChild(c.dir, elm)
    ensures Rep(m', t.left, elm) && Rep(m', t.right, elm) && RepCtx(m', root', c, elm)
  {
    hide Rep, RepCtx, Proper, ProperCtx, Nodes, CtxNodes;
    Reparent(m, m', t.left, t.node, elm);
    Reparent(m, m', t.right, t.node, elm);
    Rehole(m, m', root, root', c, t.node, elm);
  }

  /** The loop left by its break looks at the root of a tree that is in order. */
  lemma GoTop(m: Mem, root: Node, c: Ctx, t: Tree)
    requires At(m, root, c, t) && Whole(c, t)
    ensures var t' := Plug(c, t);
      && At(m, root, Top, t') && root == Root(t') && (root != 0 <==> t'.Bin?) && Plug(Top, t') == t'
      && Blackened(t') == t' && Fine(t') && !IsRed(t')
  {
    AtPlug(m, root, c, t);
    WholePlug(c, t);
    NotRed(Plug(c, t));
    RootSees(m, root, Plug(c, t));
    LoopSees(m, root, Top, Plug(c, t));
  }

  lemma LeftSees(m: Mem, root: Node, c: Ctx, t: Tree)
    requires At(m, root, c, t) && c.Up? && c.other.Bin?
    ensures c.node in m && (m[c.node].left == Root(t) <==> c.dir == Left)
  {
    assert c.other.node in Nodes(c.other) && c.other.node in CtxNodes(c);
    assert t.Bin? ==> t.node in Nodes(t);
    ZeroIsNoNode(t, c);
  }

  /** What the loop test of RB_REMOVE_COLOR reads. */
  lemma LoopSees(m: Mem, root: Node, c: Ctx, t: Tree)
    requires At(m, root, c, t)
    ensures (t.Bin? <==> Root(t) != 0)
        && (t.Bin? ==> Root(t) in m && m[Root(t)].red == t.red && m[Root(t)].parent == CtxNode(c))
    ensures Root(t) != root <==> c.Up?
  {
    if c.Up? {
      RootIsAbove(m, root, c, Root(t));
      ZeroIsNoNode(t, c);
      assert t.Bin? ==> t.node in Nodes(t);
    }
  }

  lemma {:induction false} RootIsAbove(m: Mem, root: Node, c: Ctx, hole: Node)
    requires RepCtx(m, root, c, hole) && c.Up?
    ensures root in CtxNodes(c)
  {
    if c.up.Up? { RootIsAbove(m, root, c.up, c.node); }
  }

  /** The same place in memory, seen from the sibling. */
  ghost function Across(c: Ctx, t: Tree): Ctx
    requires c.Up?
  {
    Up(c.up, Opp(c.dir), c.node, c.red, t)
  }

  lemma AtAcross(m: Mem, root: Node, c: Ctx, t: Tree)
    requires c.Up?
    ensures At(m, root, c, t) <==> At(m, root, Across(c, t), c.other)
  {
    AtUp(m, root, c, t);
    AtUp(m, root, Across(c, t), c.other);
  }

  /** What is read of a node and its children. */
  lemma NodeSees(m: Mem, root: Node, c: Ctx, t: Tree)
    requires At(m, root, c, t) && t.Bin?
    ensures t.node in m && t.node != 0 && m[t.node] == Cell(Root(t.left), Root(t.right), CtxNode(c), t.red)
    ensures t.left.Bin? <==> Root(t.left) != 0
    ensures t.left.Bin? ==> t.left.node in m && m[t.left.node].red == t.left.red
    ensures t.right.Bin? <==> Root(t.right) != 0
    ensures t.right.Bin? ==> t.right.node in m && m[t.right.node].red == t.right.red
  {
    assert Proper(t.left) && Proper(t.right) && Rep(m, t.left, t.node) && Rep(m, t.right, t.node);
  }

  /** What is read of the parent, the sibling and its children. */
  lemma SiblingSees(m: Mem, root: Node, c: Ctx, t: Tree)
    requires At(m, root, c, t) && c.Up? && c.other.Bin?
    ensures c.node in m && m[c.node].red == c.red && m[c.node].parent == CtxNode(c.up)
    ensures var w := c.other;
      && m[c.node].Child(Opp(c.dir)) == w.node
      && w.node in m && w.node != 0 && m[w.node] == Cell(Root(w.left), Root(w.right), c.node, w.red)
      && (w.left.Bin? <==> Root(w.left) != 0) && (w.left.Bin? ==> w.left.node in m && m[w.left.node].red == w.left.red)
      && (w.right.Bin? <==> Root(w.right) != 0)
          && (w.right.Bin? ==> w.right.node in m && m[w.right.node].red == w.right.red)
  {
    AtAcross(m, root, c, t);
    NodeSees(m, root, Across(c, t), c.other);
    AtUp(m, root, c, t);
    NodeSees(m, root, c.up, BinAt(c.dir, c.node, c.red, t, c.other));
  }

  lemma StartSearch(m: Mem, root: Node, tree: Tree, key: Node -> Key, k: Key)
    requires At(m, root, Top, tree) && Fine(tree) && !IsRed(tree)
    ensures root == Root(tree) && (root != 0 <==> tree.Bin?) && Plug(Top, tree) == tree
    ensures Searched(Top, k, key) && Whole(Top, tree) && CtxNode(Top) == 0
  {}

  /** What a search sees at the focus. */
  lemma SearchSees(m: Mem, root: Node, c: Ctx, t: Tree)
    requires At(m, root, c, t) && t.Bin?
    ensures t.node in m && t.node in Inorder(Plug(c, t)) && t.node != 0
    ensures m[t.node].left == Root(t.left) && m[t.node].right == Root(t.right)
    ensures (t.left.Bin? <==> Root(t.left) != 0) && (t.right.Bin? <==> Root(t.right) != 0)
  {
    InorderPlug(c, t);
    assert Proper(t.left) && Proper(t.right);
  }

  /** One step down a search path. */
  lemma SearchStep(m: Mem, root: Node, c: Ctx, t: Tree, d: Dir, key: Node -> Key, k: Key)
    requires At(m, root, c, t) && t.Bin? && Searched(c, k, key) && Ordered(Inorder(Plug(c, t)), key)
    requires if d == Left then Cmp(k, key(t.node)) < 0 else Cmp(k, key(t.node)) > 0
    ensures var c' := Side(d, c, t); At(m, root, c', ChildTree(t, d)) && Searched(c', k, key)
    ensures var c' := Side(d, c, t); Plug(c', ChildTree(t, d)) == Plug(c, t) && CtxNode(c') == t.node
    ensures Whole(c, t) ==> Whole(Side(d, c, t), ChildTree(t, d))
  {
    AtDown(m, root, c, t, d);
    CmpAntisymmetric(k, key(t.node));
    CmpAntisymmetric(key(t.node), k);
    hide At, Ordered, Before, After, Inorder;
    SearchDown(c, t, k, key);
    if Whole(c, t) { WholeDown(c, t, d); }
  }

  lemma InsertPlace(c: Ctx, elm: Node, key: Node -> Key)
    requires Searched(c, key(elm), key) && Ordered(Inorder(Plug(c, Leaf)), key) && Whole(c, Leaf)
    requires elm !in Inorder(Plug(c, Leaf))
    ensures elm !in CtxNodes(c) && RedRed(c, Bin(elm, true, Leaf, Leaf))
    ensures forall x :: x in Inorder(Plug(c, Leaf)) ==> key(x) != key(elm)
    ensures var s := Inorder(Plug(c, Bin(elm, true, Leaf, Leaf)));
      s == Inserted(Inorder(Plug(c, Leaf)), elm, key) && Ordered(s, key)
  {
    SearchEnds(c, key(elm), key);
    AttachedInOrder(c, elm, key);
    InorderNodes(Plug(c, Leaf));
    NodesPlug(c, Leaf);
  }

  lemma RootSees(m: Mem, root: Node, t: Tree)
    requires At(m, root, Top, t)
    ensures root == Root(t)
  {}

  lemma SideSees(m: Mem, root: Node, c: Ctx, t: Tree, d: Dir)
    requires At(m, root, c, t) && t.Bin? && c.Up?
    ensures c.node in m && (m[c.node].Child(d) == t.node <==> c.dir == d)
  {
    assert c.other.Bin? ==> c.other.node in Nodes(c.other) && c.other.node in CtxNodes(c);
    assert t.node in Nodes(t);
    ZeroIsNoNode(t, c);
  }

  /** What a rotation reads: each link leads where the trees say, and no two of the four nodes coincide. */
  lemma RotationSees(m: Mem, root: Node, c: Ctx, d: Dir, t: Tree)
    requires At(m, root, c, t) && t.Bin? && ChildTree(t, Opp(d)).Bin?
    ensures var y := ChildTree(t, Opp(d)); var b := ChildTree(y, d); var p := CtxNode(c);
      && t.node in m && m[t.node].Child(Opp(d)) == y.node && m[t.node].parent == p
      && y.node in m && m[y.node].Child(d) == Root(b)
      && (b.Bin? <==> Root(b) != 0) && (b.Bin? ==> b.node in m)
    ensures var p := CtxNode(c); (c.Up? <==> p != 0) && (c.Up? ==> p in m && (m[p].left == t.node <==> c.dir == Left))
    ensures var y := ChildTree(t, Opp(d)); var b := ChildTree(y, d); var p := CtxNode(c);
      && t.node != y.node && t.node != p && y.node != p && t.node != Root(b) && y.node != Root(b)
      && (p == Root(b) ==> p == 0)
  {
    NodesOfRotation(d, t);
    ParentSees(m, root, c, t);
    ZeroIsNoNode(t, c);
    var y := ChildTree(t, Opp(d));
    assert Rep(m, y, t.node);
    var b := ChildTree(y, d);
    assert Rep(m, b, y.node);
    assert c.Up? ==> c.node in CtxNodes(c);
    hide CtxNodes, RepCtx;
  }

  /** The parent's link tells on which side the focus hangs. */
  lemma ParentSees(m: Mem, root: Node, c: Ctx, t: Tree)
    requires At(m, root, c, t) && t.Bin?
    ensures t.node in m && m[t.node].parent == CtxNode(c) && m[t.node].red == t.red && t.node != 0
    ensures var p := CtxNode(c); (c.Up? <==> p != 0) && (c.Up? ==> p in m && (m[p].left == t.node <==> c.dir == Left))
    ensures c.Up? ==>
              var p := m[CtxNode(c)];
              p.Child(Opp(c.dir)) == Root(c.other) && p.parent == CtxNode(c.up) && p.red == c.red
    ensures c.Up? && c.other.Bin? ==> c.other.node != 0 && c.other.node in m && m[c.other.node].red == c.other.red
  {
    if c.Up? {
      assert c.other.Bin? ==> c.other.node in Nodes(c.other) && c.other.node in CtxNodes(c);
      assert t.node in Nodes(t);
      ZeroIsNoNode(t, c);
    }
  }

  lemma RotationDone(m: Mem, m': Mem, root: Node, root': Node, c: Ctx, d: Dir, t: Tree)
    requires At(m, root, c, t) && t.Bin? && ChildTree(t, Opp(d)).Bin?
    requires RotationWrites(m, m', d, t, CtxNode(c))
    requires var y := ChildTree(t, Opp(d));
      && (if c == Top then root' == y.node
          else root' == root && c.node in m && c.node in m' && m'[c.node] == m[c.node].SetChild(c.dir, y.node))
      && forall n :: n in m && n != t.node && n != y.node && n != Root(ChildTree(y, d)) && n != CtxNode(c)
           ==> n in m' && m'[n] == m[n]
    ensures At(m', root', c, Rotated(d, t))
  {
    RotationIsRotated(m, m', root, root', c, d, t);
    RotatedNodes(d, t);
    FitsSwap(c, t, Rotated(d, t));
  }
}
