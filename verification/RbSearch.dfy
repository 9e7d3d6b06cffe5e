/** Searching by key from the root (package/aloe/include/aloe/compat/openbsd/sys/tree.h:555-610), and
    the place of a new node. */
module RbSearch {
  import opened Strcmp
  import opened RbSpec
  import opened RbBalance

  /** Every node passed on the way down to the focus lies on the right side of `k`. */
  ghost predicate Searched(c: Ctx, k: Key, key: Node -> Key) {
    AllBelow(Before(c), k, key) && AllAbove(After(c), k, key)
  }

  function Side(d: Dir, c: Ctx, t: Tree): Ctx
    requires t.Bin?
  {
    Up(c, d, t.node, t.red, ChildTree(t, Opp(d)))
  }

  lemma BinOrdered(c: Ctx, t: Tree, key: Node -> Key)
    requires Ordered(Inorder(Plug(c, t)), key) && t.Bin?
    ensures AllBelow(Inorder(t.left), key(t.node), key) && AllAbove(Inorder(t.right), key(t.node), key)
  {
    InorderPlug(c, t);
    var l, r := Inorder(t.left), Inorder(t.right);
    OrderedJoin(Before(c) + Inorder(t), After(c), key);
    OrderedJoin(Before(c), Inorder(t), key);
    assert Inorder(t) == (l + [t.node]) + r;
    OrderedJoin(l + [t.node], r, key);
    OrderedJoin(l, [t.node], key);
    assert t.node in [t.node] && t.node in l + [t.node];
  }

  lemma BelowTransitive(s: seq<Node>, k: Key, k': Key, key: Node -> Key)
    requires AllBelow(s, k, key) && Less(k, k')
    ensures AllBelow(s, k', key)
  {
    forall x | x in s ensures Less(key(x), k') { LessTransitive(key(x), k, k'); }
  }

  lemma AboveTransitive(s: seq<Node>, k: Key, k': Key, key: Node -> Key)
    requires AllAbove(s, k, key) && Less(k', k)
    ensures AllAbove(s, k', key)
  {
    forall x | x in s ensures Less(k', key(x)) { LessTransitive(k', k, key(x)); }
  }

  /** One step down keeps everything passed on its side. */
  lemma SearchDown(c: Ctx, t: Tree, k: Key, key: Node -> Key)
    requires Ordered(Inorder(Plug(c, t)), key) && t.Bin? && Searched(c, k, key)
    ensures Less(k, key(t.node)) ==> Searched(Side(Left, c, t), k, key)
    ensures Less(key(t.node), k) ==> Searched(Side(Right, c, t), k, key)
    ensures forall d: Dir :: Plug(Side(d, c, t), ChildTree(t, d)) == Plug(c, t)
  {
    BinOrdered(c, t, key);
    var n := key(t.node);
    if Less(k, n) { AboveTransitive(Inorder(t.right), n, k, key); }
    if Less(n, k) { BelowTransitive(Inorder(t.left), n, k, key); }
  }

  /** The ordered sequence with a new node in its place. */
  ghost function Inserted(s: seq<Node>, n: Node, key: Node -> Key): seq<Node> {
    if s == [] || Less(key(n), key(s[0])) then [n] + s else [s[0]] + Inserted(s[1..], n, key)
  }

  lemma {:induction false} InsertedBetween(a: seq<Node>, n: Node, b: seq<Node>, key: Node -> Key)
    requires AllBelow(a, key(n), key) && AllAbove(b, key(n), key)
    ensures Inserted(a + b, n, key) == a + [n] + b
  {
    if a == [] {
      assert a + b == b && a + [n] + b == [n] + b;
    } else {
      assert a[0] in a && Less(key(a[0]), key(n));
      CmpAntisymmetric(key(a[0]), key(n));
      assert (a + b)[1..] == a[1..] + b;
      InsertedBetween(a[1..], n, b, key);
      assert a + [n] + b == [a[0]] + (a[1..] + [n] + b);
    }
  }

  /** Insertion adds one node, and taking it out again restores the sequence. */
  lemma {:induction false} InsertedThenWithout(s: seq<Node>, n: Node, key: Node -> Key)
    requires n !in s
    ensures |Inserted(s, n, key)| == |s| + 1 && n in Inserted(s, n, key)
    ensures forall x :: x in Inserted(s, n, key) <==> x == n || x in s
    ensures Without(Inserted(s, n, key), n) == s
  {
    if s != [] && !Less(key(n), key(s[0])) {
      InsertedThenWithout(s[1..], n, key);
      WithoutTail(s[0], Inserted(s[1..], n, key), n);
    } else {
      WithoutFirst(n, s);
    }
  }

  lemma WithoutFirst(n: Node, s: seq<Node>)
    ensures Without([n] + s, n) == s
  {
    assert IndexOf([n] + s, n) == 0;
  }

  lemma WithoutTail(a: Node, r: seq<Node>, n: Node)
    requires n in r && a != n
    ensures n in [a] + r && Without([a] + r, n) == [a] + Without(r, n)
  {
    assert ([a] + r)[1..] == r;
    assert IndexOf([a] + r, n) == 1 + IndexOf(r, n);
  }

  lemma DropEmpty(a: seq<Node>, e: seq<Node>, b: seq<Node>)
    requires e == []
    ensures a + e + b == a + b
  {}

  /** A search that ends at a leaf has compared its key with everything that could equal it. */
  lemma SearchEnds(c: Ctx, k: Key, key: Node -> Key)
    requires Searched(c, k, key)
    ensures Inorder(Plug(c, Leaf)) == Before(c) + After(c)
    ensures forall x :: x in Inorder(Plug(c, Leaf)) ==> key(x) != k
  {
    InorderPlug(c, Leaf);
    DropEmpty(Before(c), Inorder(Leaf), After(c));
    hide Inorder, Plug, Before, After;
    forall x | x in Before(c) + After(c) ensures key(x) != k { CmpAntisymmetric(key(x), k); }
  }

  /** Putting the node where the search ended is inserting it in order. */
  lemma AttachedInOrder(c: Ctx, n: Node, key: Node -> Key)
    requires Searched(c, key(n), key) && Ordered(Inorder(Plug(c, Leaf)), key)
    ensures var s := Inorder(Plug(c, Bin(n, true, Leaf, Leaf)));
      s == Inserted(Inorder(Plug(c, Leaf)), n, key) && Ordered(s, key)
  {
    SearchEnds(c, key(n), key);
    InorderPlug(c, Bin(n, true, Leaf, Leaf));
    assert Inorder(Bin(n, true, Leaf, Leaf)) == [n];
    hide Inorder, Plug, Before, After, Ordered;
    InsertedBetween(Before(c), n, After(c), key);
    OrderedInsert(Before(c), n, After(c), key);
  }

  lemma {:induction false} HeightOfSubtree(c: Ctx, t: Tree)
    ensures Depth(c) + Height(t) <= Height(Plug(c, t))
  {
    if c.Up? { HeightOfSubtree(c.up, BinAt(c.dir, c.node, c.red, t, c.other)); }
  }

  lemma {:induction false} SizeIsCount(t: Tree)
    ensures Size(t) == |Inorder(t)|
  {
    if t.Bin? { SizeIsCount(t.left); SizeIsCount(t.right); }
  }

  lemma {:induction false} Pow2Monotone(a: nat, b: nat)
    requires a <= b
    ensures 1 <= Pow2(a) <= Pow2(b)
  {
    if a < b { Pow2Monotone(a, b - 1); } else if a > 0 { Pow2Monotone(a - 1, b - 1); }
  }

  /** At most 2 lg (n + 1) turns. */
  ghost predicate Logarithmic(turns: nat, n: nat) {
    Pow2(turns) <= (n + 1) * (n + 1)
  }

  lemma LogarithmicHeight(turns: nat, h: nat, n: nat)
    requires turns <= h && Logarithmic(h, n)
    ensures Logarithmic(turns, n)
  {
    Pow2Monotone(turns, h);
  }

  /** No search passes more than 2 lg (n + 1) nodes. */
  lemma SearchBound(c: Ctx, t: Tree)
    requires Fine(Plug(c, t)) && !IsRed(Plug(c, t))
    ensures Logarithmic(Depth(c) + if t.Bin? then 1 else 0, |Inorder(Plug(c, t))|)
  {
    HeightOfSubtree(c, t);
    HeightBound(Plug(c, t));
    SizeIsCount(Plug(c, t));
    assert t.Bin? ==> Height(t) >= 1;
    assert Logarithmic(Height(Plug(c, t)), Size(Plug(c, t)));
    hide *;
    LogarithmicHeight(Depth(c) + if t.Bin? then 1 else 0, Height(Plug(c, t)), |Inorder(Plug(c, t))|);
  }
}
