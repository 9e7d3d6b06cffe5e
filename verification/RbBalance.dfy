/** The red-black conditions of package/aloe/include/aloe/compat/openbsd/sys/tree.h:48-56, for whole trees
    and for a tree seen from one of its nodes, and the search order. */
module RbBalance {
  import opened Strcmp
  import opened RbSpec

  predicate IsRed(t: Tree) {
    t.Bin? && t.red
  }

  /** Black nodes on the leftmost path; the same on every path when balanced. */
  function BlackHeight(t: Tree): nat {
    if t == Leaf then 0 else BlackHeight(t.left) + if t.red then 0 else 1
  }

  predicate Fine(t: Tree) {
    t.Bin? ==>
      && BlackHeight(t.left) == BlackHeight(t.right) && (t.red ==> !IsRed(t.left) && !IsRed(t.right))
      && Fine(t.left) && Fine(t.right)
  }

  predicate CtxRed(c: Ctx) {
    c.Up? && c.red
  }

  /** The surroundings are fine for a hole of black height `h`; their topmost node is black. */
  predicate CtxFine(c: Ctx, h: nat) {
    c.Up? ==>
      && Fine(c.other) && BlackHeight(c.other) == h
      && (c.red ==> !IsRed(c.other) && c.up.Up? && !c.up.red)
      && CtxFine(c.up, h + if c.red then 0 else 1)
  }

  /** Everything is in order around the focus. */
  predicate Whole(c: Ctx, t: Tree) {
    CtxFine(c, BlackHeight(t)) && Fine(t) && !(CtxRed(c) && IsRed(t)) && (c == Top ==> !IsRed(t))
  }

  lemma {:induction false} WholePlug(c: Ctx, t: Tree)
    requires Whole(c, t)
    ensures Fine(Plug(c, t)) && !IsRed(Plug(c, t))
  {
    if c.Up? { WholePlug(c.up, BinAt(c.dir, c.node, c.red, t, c.other)); }
  }

  /** Moving the focus into a child. */
  lemma WholeDown(c: Ctx, t: Tree, d: Dir)
    requires Whole(c, t) && t.Bin?
    ensures Whole(Up(c, d, t.node, t.red, ChildTree(t, Opp(d))), ChildTree(t, d))
  {}

  // ---------------------------------------------------------------- height

  function Height(t: Tree): nat {
    if t == Leaf then 0 else 1 + if Height(t.left) > Height(t.right) then Height(t.left) else Height(t.right)
  }

  function Size(t: Tree): nat {
    if t == Leaf then 0 else Size(t.left) + 1 + Size(t.right)
  }

  function Pow2(n: nat): nat {
    if n == 0 then 1 else 2 * Pow2(n - 1)
  }

  lemma {:induction false} SizeFromBlackHeight(t: Tree)
    requires Fine(t)
    ensures Size(t) + 1 >= Pow2(BlackHeight(t))
    ensures Height(t) <= 2 * BlackHeight(t) + if IsRed(t) then 1 else 0
  {
    if t.Bin? {
      SizeFromBlackHeight(t.left);
      SizeFromBlackHeight(t.right);
    }
  }

  lemma DoubleSquare(x: nat, q: nat)
    requires x <= q * q
    ensures 4 * x <= (2 * q) * (2 * q)
  {
    assert (2 * q) * (2 * q) == 4 * (q * q);
  }

  lemma SquareOf(q: nat)
    requires q >= 1
    ensures 2 <= (2 * q) * (2 * q)
  {}

  lemma {:induction false} Pow2Square(h: nat, b: nat)
    requires h <= 2 * b
    ensures Pow2(h) <= Pow2(b) * Pow2(b) && Pow2(b) >= 1
  {
    if b > 0 {
      if h >= 2 {
        Pow2Square(h - 2, b - 1);
        assert Pow2(h) == 4 * Pow2(h - 2);
        DoubleSquare(Pow2(h - 2), Pow2(b - 1));
      } else {
        Pow2Square(0, b - 1);
        SquareOf(Pow2(b - 1));
      }
    }
  }

  /** "The maximum height of a red-black tree is 2lg (n+1)", without logarithms. */
  lemma HeightBound(t: Tree)
    requires Fine(t) && !IsRed(t)
    ensures Pow2(Height(t)) <= (Size(t) + 1) * (Size(t) + 1)
  {
    SizeFromBlackHeight(t);
    Pow2Square(Height(t), BlackHeight(t));
    Squares(Pow2(BlackHeight(t)), Size(t) + 1);
  }

  lemma Squares(a: nat, b: nat)
    requires a <= b
    ensures a * a <= b * b
  {
    assert a * a <= a * b <= b * b;
  }

  // ---------------------------------------------------------------- search order

  /** Keys increase strictly along `s`. */
  ghost predicate Ordered(s: seq<Node>, key: Node -> Key) {
    s != [] ==> (forall x :: x in s[1..] ==> Less(key(s[0]), key(x))) && Ordered(s[1..], key)
  }

  ghost predicate AllBelow(s: seq<Node>, k: Key, key: Node -> Key) {
    forall x :: x in s ==> Less(key(x), k)
  }

  ghost predicate AllAbove(s: seq<Node>, k: Key, key: Node -> Key) {
    forall x :: x in s ==> Less(k, key(x))
  }

  lemma {:induction false} OrderedJoin(a: seq<Node>, b: seq<Node>, key: Node -> Key)
    ensures Ordered(a + b, key) <==>
              Ordered(a, key) && Ordered(b, key) && (forall x, y :: x in a && y in b ==> Less(key(x), key(y)))
  {
    if a == [] {
      assert a + b == b;
    } else {
      assert (a + b)[1..] == a[1..] + b && (a + b)[0] == a[0] && a[0] in a;
      assert forall x :: x in a <==> x == a[0] || x in a[1..];
      assert forall x :: x in a[1..] + b <==> x in a[1..] || x in b;
      OrderedJoin(a[1..], b, key);
    }
  }

  /** A new node between the keys before and after it. */
  lemma OrderedInsert(a: seq<Node>, n: Node, b: seq<Node>, key: Node -> Key)
    requires Ordered(a + b, key) && AllBelow(a, key(n), key) && AllAbove(b, key(n), key)
    ensures Ordered(a + [n] + b, key)
  {
    OrderedJoin(a, b, key);
    OrderedJoin([n], b, key);
    OrderedJoin(a, [n] + b, key);
    assert a + [n] + b == a + ([n] + b);
  }
}
