/** Red-black trees as values, and what it means for linked nodes in memory to be one.  The two sides of
    the mirrored code in package/aloe/include/aloe/compat/openbsd/sys/tree.h are told apart by a Dir. */
module RbSpec {
  /** A node address; 0 is NULL. */
  type Node = nat

  datatype Dir = Left | Right

  function Opp(d: Dir): Dir {
    if d == Left then Right else Left
  }

  /** RB_ENTRY */
  datatype Cell = Cell(left: Node, right: Node, parent: Node, red: bool) {
    function Child(d: Dir): Node {
      if d == Left then left else right
    }

    function SetChild(d: Dir, n: Node): Cell {
      if d == Left then this.(left := n) else this.(right := n)
    }
  }

  type Mem = map<Node, Cell>

  // ---------------------------------------------------------------- trees and contexts

  datatype Tree = Leaf | Bin(node: Node, red: bool, left: Tree, right: Tree)

  /** A node with child `a` on side `d` and child `b` on the other. */
  function BinAt(d: Dir, n: Node, red: bool, a: Tree, b: Tree): Tree {
    if d == Left then Bin(n, red, a, b) else Bin(n, red, b, a)
  }

  /** What surrounds a subtree: the hole is the `dir` child of `node`, whose other child is `other`. */
  datatype Ctx = Top | Up(up: Ctx, dir: Dir, node: Node, red: bool, other: Tree)

  function Root(t: Tree): Node {
    if t == Leaf then 0 else t.node
  }

  function CtxNode(c: Ctx): Node {
    if c == Top then 0 else c.node
  }

  function Plug(c: Ctx, t: Tree): Tree {
    match c
    case Top => t
    case Up(up, d, n, red, o) => Plug(up, BinAt(d, n, red, t, o))
  }

  function Inorder(t: Tree): seq<Node> {
    if t == Leaf then [] else Inorder(t.left) + [t.node] + Inorder(t.right)
  }

  function Before(c: Ctx): seq<Node> {
    match c
    case Top => []
    case Up(up, d, n, _, o) => Before(up) + if d == Right then Inorder(o) + [n] else []
  }

  function After(c: Ctx): seq<Node> {
    match c
    case Top => []
    case Up(up, d, n, _, o) => (if d == Left then [n] + Inorder(o) else []) + After(up)
  }

  lemma RegroupLeft(b: seq<Node>, i: seq<Node>, n: Node, o: seq<Node>, a: seq<Node>)
    ensures b + (i + [n] + o) + a == (b + []) + i + (([n] + o) + a)
  {}

  lemma RegroupRight(b: seq<Node>, i: seq<Node>, n: Node, o: seq<Node>, a: seq<Node>)
    ensures b + (o + [n] + i) + a == (b + (o + [n])) + i + ([] + a)
  {}

  lemma {:induction false} InorderPlug(c: Ctx, t: Tree)
    ensures Inorder(Plug(c, t)) == Before(c) + Inorder(t) + After(c)
  {
    if c.Up? {
      InorderPlug(c.up, BinAt(c.dir, c.node, c.red, t, c.other));
      RegroupLeft(Before(c.up), Inorder(t), c.node, Inorder(c.other), After(c.up));
      RegroupRight(Before(c.up), Inorder(t), c.node, Inorder(c.other), After(c.up));
    }
  }

  function Depth(c: Ctx): nat {
    if c == Top then 0 else 1 + Depth(c.up)
  }

  // ---------------------------------------------------------------- distinct nodes

  ghost function Nodes(t: Tree): set<Node> {
    if t == Leaf then {} else Nodes(t.left) + {t.node} + Nodes(t.right)
  }

  ghost predicate Proper(t: Tree) {
    t.Bin? ==>
      && t.node != 0 && t.node !in Nodes(t.left) && t.node !in Nodes(t.right)
      && Nodes(t.left) !! Nodes(t.right) && Proper(t.left) && Proper(t.right)
  }

  ghost function CtxNodes(c: Ctx): set<Node> {
    if c == Top then {} else CtxNodes(c.up) + {c.node} + Nodes(c.other)
  }

  ghost predicate ProperCtx(c: Ctx) {
    c.Up? ==>
      && c.node != 0 && c.node !in Nodes(c.other) && Proper(c.other) && ProperCtx(c.up)
      && c.node !in CtxNodes(c.up) && Nodes(c.other) !! CtxNodes(c.up)
  }

  /** A context and a subtree that fit together. */
  ghost predicate Fits(c: Ctx, t: Tree) {
    Proper(t) && ProperCtx(c) && Nodes(t) !! CtxNodes(c)
  }

  // ---------------------------------------------------------------- memory

  /** The nodes of `t` are linked as `t` says, with `p` above. */
  ghost predicate Rep(m: Mem, t: Tree, p: Node) {
    t.Bin? ==>
      && t.node in m && m[t.node] == Cell(Root(t.left), Root(t.right), p, t.red)
      && Rep(m, t.left, t.node) && Rep(m, t.right, t.node)
  }

  /** The nodes of `c` are linked as `c` says, around a hole that holds `hole`. */
  ghost predicate RepCtx(m: Mem, root: Node, c: Ctx, hole: Node) {
    match c
    case Top => root == hole
    case Up(up, d, n, red, o) =>
      && n in m && m[n] == Cell(if d == Left then hole else Root(o), if d == Left then Root(o)
          else hole, CtxNode(up), red)
      && Rep(m, o, n) && RepCtx(m, root, up, n)
  }

  ghost predicate RepAll(m: Mem, root: Node, c: Ctx, t: Tree) {
    RepCtx(m, root, c, Root(t)) && Rep(m, t, CtxNode(c))
  }

  lemma {:induction false} RepFrame(m: Mem, m': Mem, t: Tree, p: Node)
    requires Rep(m, t, p) && forall n :: n in Nodes(t) && n in m ==> n in m' && m'[n] == m[n]
    ensures Rep(m', t, p)
  {
    if t.Bin? {
      RepFrame(m, m', t.left, t.node);
      RepFrame(m, m', t.right, t.node);
    }
  }

  lemma {:induction false} RepCtxFrame(m: Mem, m': Mem, root: Node, c: Ctx, hole: Node)
    requires RepCtx(m, root, c, hole) && forall n :: n in CtxNodes(c) && n in m ==> n in m' && m'[n] == m[n]
    ensures RepCtx(m', root, c, hole)
  {
    if c.Up? {
      RepFrame(m, m', c.other, c.node);
      RepCtxFrame(m, m', root, c.up, c.node);
    }
  }

  /** Moving the focus one level does not change what memory means. */
  lemma RepUp(m: Mem, root: Node, c: Ctx, t: Tree)
    requires c.Up?
    ensures RepAll(m, root, c, t) && (t.Bin? ==> t.node != 0) ==>
              RepAll(m, root, c.up, BinAt(c.dir, c.node, c.red, t, c.other))
    ensures RepAll(m, root, c.up, BinAt(c.dir, c.node, c.red, t, c.other)) ==> RepAll(m, root, c, t)
  {}

  lemma FitsUp(c: Ctx, t: Tree)
    requires c.Up?
    ensures Fits(c, t) <==> Fits(c.up, BinAt(c.dir, c.node, c.red, t, c.other))
  {}

  // ---------------------------------------------------------------- local changes of memory

  lemma {:induction false} Reparent(m: Mem, m': Mem, t: Tree, p: Node, p': Node)
    requires Rep(m, t, p) && Proper(t)
    requires t.Bin? ==> t.node in m' && m'[t.node] == m[t.node].(parent := p')
    requires forall n :: n in Nodes(t) && n != Root(t) && n in m ==> n in m' && m'[n] == m[n]
    ensures Rep(m', t, p')
  {
    if t.Bin? {
      RepFrame(m, m', t.left, t.node);
      RepFrame(m, m', t.right, t.node);
    }
  }

  lemma {:induction false} Rehole(m: Mem, m': Mem, root: Node, root': Node, c: Ctx, h: Node, h': Node)
    requires RepCtx(m, root, c, h) && ProperCtx(c)
    requires if c == Top then root' == h' else
               root' == root && c.node in m' && c.node in m && m'[c.node] == m[c.node].SetChild(c.dir, h')
    requires forall n :: n in CtxNodes(c) && n != CtxNode(c) && n in m ==> n in m' && m'[n] == m[n]
    ensures RepCtx(m', root', c, h')
  {
    if c.Up? {
      RepFrame(m, m', c.other, c.node);
      RepCtxFrame(m, m', root, c.up, c.node);
    }
  }

  function ChildTree(t: Tree, d: Dir): Tree
    requires t.Bin?
  {
    if d == Left then t.left else t.right
  }

  /** RB_ROTATE_LEFT for d == Left, RB_ROTATE_RIGHT for d == Right. */
  function Rotated(d: Dir, t: Tree): Tree
    requires t.Bin? && ChildTree(t, Opp(d)).Bin?
  {
    var y := ChildTree(t, Opp(d));
    BinAt(d, y.node, y.red, BinAt(d, t.node, t.red, ChildTree(t, d), ChildTree(y, d)), ChildTree(y, Opp(d)))
  }

  lemma RotateSeq(a: seq<Node>, x: Node, b: seq<Node>, y: Node, e: seq<Node>)
    ensures (a + [x] + b) + [y] + e == a + [x] + (b + [y] + e)
  {}

  lemma RotatedInorder(d: Dir, t: Tree)
    requires t.Bin? && ChildTree(t, Opp(d)).Bin?
    ensures Inorder(Rotated(d, t)) == Inorder(t)
  {
    var y := ChildTree(t, Opp(d));
    var a, b, e := ChildTree(t, d), ChildTree(y, d), ChildTree(y, Opp(d));
    var x' := BinAt(d, t.node, t.red, a, b);
    if d == Left {
      assert Inorder(y) == Inorder(b) + [y.node] + Inorder(e) && Inorder(x') == Inorder(a) + [t.node] + Inorder(b);
      RotateSeq(Inorder(a), t.node, Inorder(b), y.node, Inorder(e));
    } else {
      assert Inorder(y) == Inorder(e) + [y.node] + Inorder(b) && Inorder(x') == Inorder(b) + [t.node] + Inorder(a);
      RotateSeq(Inorder(e), y.node, Inorder(b), t.node, Inorder(a));
    }
  }

  lemma RotatedNodes(d: Dir, t: Tree)
    requires t.Bin? && ChildTree(t, Opp(d)).Bin?
    ensures Nodes(Rotated(d, t)) == Nodes(t)
    ensures Proper(t) ==> Proper(Rotated(d, t))
  {
    var y := ChildTree(t, Opp(d));
    var a, b, e := ChildTree(t, d), ChildTree(y, d), ChildTree(y, Opp(d));
    var x' := BinAt(d, t.node, t.red, a, b);
    assert Nodes(y) == Nodes(b) + {y.node} + Nodes(e) && Nodes(x') == Nodes(a) + {t.node} + Nodes(b);
    assert Nodes(t) == Nodes(a) + {t.node} + Nodes(y);
    if Proper(t) { assert Proper(y) && Proper(x'); }
  }

  /** The three cells of the subtree that a rotation writes; `p` is above it. */
  ghost predicate RotationWrites(m: Mem, m': Mem, d: Dir, t: Tree, p: Node)
    requires t.Bin? && ChildTree(t, Opp(d)).Bin?
  {
    var y := ChildTree(t, Opp(d));
    var b := ChildTree(y, d);
    && t.node in m && t.node in m' && m'[t.node] == m[t.node].SetChild(Opp(d), Root(b)).(parent := y.node)
    && y.node in m && y.node in m' && m'[y.node] == m[y.node].SetChild(d, t.node).(parent := p)
    && (b.Bin? ==> b.node in m && b.node in m' && m'[b.node] == m[b.node].(parent := t.node))
  }

  lemma RotatedSubtree(m: Mem, m': Mem, d: Dir, t: Tree, p: Node)
    requires Rep(m, t, p) && Proper(t) && t.Bin? && ChildTree(t, Opp(d)).Bin? && RotationWrites(m, m', d, t, p)
    requires var y := ChildTree(t, Opp(d));
      forall n :: n in Nodes(t) && n in m && n != t.node && n != y.node && n != Root(ChildTree(y, d))
        ==> n in m' && m'[n] == m[n]
    ensures Rep(m', Rotated(d, t), p)
  {
    var y := ChildTree(t, Opp(d));
    var a, b, e := ChildTree(t, d), ChildTree(y, d), ChildTree(y, Opp(d));
    NodesOfRotation(d, t);
    ZeroIsNotIn(t);
    assert Rep(m, y, t.node) && Rep(m, a, t.node) && Rep(m, b, y.node) && Rep(m, e, y.node);
    hide Nodes, Proper;
    RepFrame(m, m', a, t.node);
    Reparent(m, m', b, y.node, t.node);
    RepFrame(m, m', e, y.node);
    var x' := BinAt(d, t.node, t.red, a, b);
    assert Rep(m', x', y.node);
  }

  /** Memory after a rotation, cell by cell. */
  lemma RotationIsRotated(m: Mem, m': Mem, root: Node, root': Node, c: Ctx, d: Dir, t: Tree)
    requires RepAll(m, root, c, t) && Fits(c, t) && t.Bin? && ChildTree(t, Opp(d)).Bin?
    requires RotationWrites(m, m', d, t, CtxNode(c))
    requires var y := ChildTree(t, Opp(d));
      && (if c == Top then root' == y.node
          else root' == root && c.node in m && c.node in m' && m'[c.node] == m[c.node].SetChild(c.dir, y.node))
      && forall n :: n in m && n != t.node && n != y.node && n != Root(ChildTree(y, d)) && n != CtxNode(c)
           ==> n in m' && m'[n] == m[n]
    ensures RepAll(m', root', c, Rotated(d, t))
  {
    var y := ChildTree(t, Opp(d));
    NodesOfRotation(d, t);
    ZeroIsNoNode(t, c);
    assert c.Up? ==> c.node in CtxNodes(c);
    hide RepCtx, Nodes, CtxNodes, Proper, Rep;
    RotatedSubtree(m, m', d, t, CtxNode(c));
    Rehole(m, m', root, root', c, t.node, y.node);
  }

  /** The parts of a tree about to be rotated share no node. */
  lemma NodesOfRotation(d: Dir, t: Tree)
    requires t.Bin? && ChildTree(t, Opp(d)).Bin? && Proper(t)
    ensures var y := ChildTree(t, Opp(d)); var a, b, e := ChildTree(t, d), ChildTree(y, d), ChildTree(y, Opp(d));
      && Nodes(t) == Nodes(a) + {t.node} + Nodes(b) + {y.node} + Nodes(e) && t.node != y.node
      && t.node !in Nodes(a) + Nodes(b) + Nodes(e) && y.node !in Nodes(a) + Nodes(b) + Nodes(e)
      && Nodes(a) !! Nodes(b) && Nodes(a) !! Nodes(e) && Nodes(b) !! Nodes(e)
      && (b.Bin? ==> b.node in Nodes(b)) && Proper(a) && Proper(b) && Proper(e)
  {
    var y := ChildTree(t, Opp(d));
    assert Nodes(y) == Nodes(ChildTree(y, d)) + {y.node} + Nodes(ChildTree(y, Opp(d))) && Proper(y);
  }

  lemma {:induction false} ZeroIsNotIn(t: Tree)
    requires Proper(t)
    ensures 0 !in Nodes(t)
  {
    if t.Bin? { ZeroIsNotIn(t.left); ZeroIsNotIn(t.right); }
  }

  lemma {:induction false} ZeroIsNoNode(t: Tree, c: Ctx)
    requires Proper(t) && ProperCtx(c)
    ensures 0 !in Nodes(t) && 0 !in CtxNodes(c)
    decreases c
  {
    ZeroIsNotIn(t);
    if c.Up? { ZeroIsNoNode(c.other, c.up); }
  }

  /** Another subtree with the same nodes fits the same hole. */
  lemma FitsSwap(c: Ctx, t: Tree, t': Tree)
    requires Fits(c, t) && Proper(t') && Nodes(t') == Nodes(t)
    ensures Fits(c, t')
  {}

  lemma PlugInorder(c: Ctx, t: Tree, t': Tree)
    requires Inorder(t) == Inorder(t')
    ensures Inorder(Plug(c, t)) == Inorder(Plug(c, t'))
  {
    InorderPlug(c, t);
    InorderPlug(c, t');
  }

  lemma {:induction false} NodesPlug(c: Ctx, t: Tree)
    ensures Nodes(Plug(c, t)) == Nodes(t) + CtxNodes(c)
  {
    if c.Up? { NodesPlug(c.up, BinAt(c.dir, c.node, c.red, t, c.other)); }
  }

  lemma {:induction false} InorderNodes(t: Tree)
    ensures forall n :: n in Inorder(t) <==> n in Nodes(t)
  {
    if t.Bin? { InorderNodes(t.left); InorderNodes(t.right); }
  }

  // ---------------------------------------------------------------- the focus

  /** Memory, seen from the subtree `t` in its surroundings `c`. */
  ghost predicate At(m: Mem, root: Node, c: Ctx, t: Tree) {
    RepAll(m, root, c, t) && Fits(c, t)
  }

  /** The focus moves up, and down to either child, without any change of memory. */
  lemma AtUp(m: Mem, root: Node, c: Ctx, t: Tree)
    requires c.Up?
    ensures At(m, root, c, t) <==> At(m, root, c.up, BinAt(c.dir, c.node, c.red, t, c.other))
  {
    RepUp(m, root, c, t);
    FitsUp(c, t);
  }

  lemma AtDown(m: Mem, root: Node, c: Ctx, t: Tree, d: Dir)
    requires At(m, root, c, t) && t.Bin?
    ensures At(m, root, Up(c, d, t.node, t.red, ChildTree(t, Opp(d))), ChildTree(t, d))
  {
    AtUp(m, root, Up(c, d, t.node, t.red, ChildTree(t, Opp(d))), ChildTree(t, d));
  }

  lemma {:induction false} AtPlug(m: Mem, root: Node, c: Ctx, t: Tree)
    ensures At(m, root, c, t) <==> At(m, root, Top, Plug(c, t))
  {
    if c.Up? {
      AtUp(m, root, c, t);
      AtPlug(m, root, c.up, BinAt(c.dir, c.node, c.red, t, c.other));
    }
  }

  function Recolored(t: Tree, red: bool): Tree
    requires t.Bin?
  {
    t.(red := red)
  }

  lemma AtRecolored(m: Mem, m': Mem, root: Node, c: Ctx, t: Tree, red: bool)
    requires At(m, root, c, t) && t.Bin? && t.node in m && m' == m[t.node := m[t.node].(red := red)]
    ensures At(m', root, c, Recolored(t, red))
  {
    ZeroIsNoNode(t, c);
    assert t.node in Nodes(t);
    RepFrame(m, m', t.left, t.node);
    RepFrame(m, m', t.right, t.node);
    RepCtxFrame(m, m', root, c, t.node);
  }

  // ---------------------------------------------------------------- positions

  /** The subtree holding the node at position `i` of the inorder sequence, and its surroundings. */
  ghost function Locate(c: Ctx, t: Tree, i: nat): (r: (Ctx, Tree))
    requires i < |Inorder(t)|
    ensures r.1.Bin? && Plug(r.0, r.1) == Plug(c, t)
    ensures |Before(r.0)| + |Inorder(r.1.left)| == |Before(c)| + i
    decreases t
  {
    var k := |Inorder(t.left)|;
    if i < k then Locate(Up(c, Left, t.node, t.red, t.right), t.left, i)
    else if i == k then (c, t)
    else Locate(Up(c, Right, t.node, t.red, t.left), t.right, i - k - 1)
  }

  /** `s` is `x`, then `n`, then `y`. */
  ghost predicate Splits(s: seq<Node>, x: seq<Node>, n: Node, y: seq<Node>) {
    |x| < |s| && s[|x|] == n && s[..|x|] == x && s[|x| + 1..] == y
  }

  lemma Splits5(s: seq<Node>, a: seq<Node>, m: seq<Node>, b: seq<Node>, l: seq<Node>, n: Node, r: seq<Node>)
    requires s == a + m + b && m == l + [n] + r
    ensures Splits(s, a + l, n, r + b)
  {
    assert s == (a + l) + [n] + (r + b);
  }

  /** Where a node sits in the whole sequence. */
  lemma LocateSplits(c: Ctx, t: Tree)
    requires t.Bin?
    ensures Splits(Inorder(Plug(c, t)), Before(c) + Inorder(t.left), t.node, Inorder(t.right) + After(c))
  {
    InorderPlug(c, t);
    hide Plug, Before, After, Splits;
    Splits5(Inorder(Plug(c, t)), Before(c), Inorder(t), After(c), Inorder(t.left), t.node, Inorder(t.right));
  }

  function IndexOf(s: seq<Node>, n: Node): (i: nat)
    requires n in s
    ensures i < |s| && s[i] == n
  {
    if s[0] == n then 0 else 1 + IndexOf(s[1..], n)
  }

  function Without(s: seq<Node>, n: Node): seq<Node>
    requires n in s
  {
    var i := IndexOf(s, n);
    s[..i] + s[i + 1..]
  }

  /** The successor of `n`, 0 at the end. */
  function After1(s: seq<Node>, n: Node): Node
    requires n in s
  {
    var i := IndexOf(s, n);
    if i + 1 < |s| then s[i + 1] else 0
  }
}
