/** The intrusive lists of package/aloe/sys_linux/evb2.c:113-152 on real pointers.  A list head and the link
    inside a handle are the same thing in memory, one cell holding a pointer, so `qent_t **pp` is a
    reference to a cell and `pp = &(*pp)->next` is `pp := pp.next`. */
module Qent {

  class Cell {
    var next: Cell?

    constructor ()
      ensures next == null
    {
      next := null;
    }
  }

  // ---------------------------------------------------------------- lists as sequences of cells

  /** From cell `c` on, the links spell out `s`. */
  ghost predicate Chain(c: Cell, s: seq<Cell>)
    reads c, s
  {
    if s == [] then c.next == null else c.next == s[0] && Chain(s[0], s[1..])
  }

  ghost predicate Distinct(s: seq<Cell>) {
    s != [] ==> s[0] !in s[1..] && Distinct(s[1..])
  }

  /** `head` holds the list `s`. */
  ghost predicate List(head: Cell, s: seq<Cell>)
    reads head, s
  {
    Distinct([head] + s) && Chain(head, s)
  }

  function Without(s: seq<Cell>, e: Cell): (r: seq<Cell>)
    ensures e !in s ==> r == s
  {
    if s == [] then [] else if s[0] == e then s[1..] else [s[0]] + Without(s[1..], e)
  }

  /** The cells a list occupies. */
  ghost function Cells(head: Cell, s: seq<Cell>): set<Cell> {
    {head} + set x | x in s
  }

  /** The cell that points to the rest of `s` from index `k`. */
  ghost function CellBefore(head: Cell, s: seq<Cell>, k: nat): Cell
    requires k <= |s|
  {
    if k == 0 then head else s[k - 1]
  }

  lemma {:induction false} DistinctSplit(a: seq<Cell>, b: seq<Cell>)
    requires Distinct(a + b)
    ensures Distinct(a) && Distinct(b) && forall x :: x in a ==> x !in b
  {
    if a == [] {
      assert a + b == b;
    } else {
      assert (a + b)[1..] == a[1..] + b;
      DistinctSplit(a[1..], b);
    }
  }

  lemma {:induction false} DistinctJoin(a: seq<Cell>, b: seq<Cell>)
    requires Distinct(a) && Distinct(b) && forall x :: x in a ==> x !in b
    ensures Distinct(a + b)
  {
    if a == [] {
      assert a + b == b;
    } else {
      assert (a + b)[1..] == a[1..] + b;
      DistinctJoin(a[1..], b);
    }
  }

  /** A chain is read link by link. */
  lemma {:induction false} ChainAt(c: Cell, s: seq<Cell>, k: nat)
    requires Chain(c, s) && k <= |s|
    ensures Chain(CellBefore(c, s, k), s[k..])
  {
    if k > 0 {
      ChainAt(s[0], s[1..], k - 1);
      assert s[1..][k - 1..] == s[k..];
    }
  }

  /** ... and put together from a front part whose links are untouched and a rest. */
  lemma {:induction false} ChainFrom(c: Cell, s: seq<Cell>, k: nat)
    requires k <= |s| && Chain(CellBefore(c, s, k), s[k..])
    requires forall i :: 0 <= i < k ==> CellBefore(c, s, i).next == s[i]
    ensures Chain(c, s)
  {
    if k > 0 {
      assert CellBefore(c, s, 0).next == s[0];
      forall i | 0 <= i < k - 1 ensures CellBefore(s[0], s[1..], i).next == s[1..][i] {
        assert CellBefore(c, s, i + 1).next == s[i + 1];
      }
      assert s[1..][k - 1..] == s[k..];
      ChainFrom(s[0], s[1..], k - 1);
    }
  }

  lemma {:induction false} ChainLinks(c: Cell, s: seq<Cell>, k: nat)
    requires Chain(c, s) && k < |s|
    ensures CellBefore(c, s, k).next == s[k]
  {
    ChainAt(c, s, k);
    assert s[k..][0] == s[k];
  }

  lemma AllLinks(c: Cell, s: seq<Cell>)
    requires Chain(c, s)
    ensures forall i :: 0 <= i < |s| ==> CellBefore(c, s, i).next == s[i]
    ensures CellBefore(c, s, |s|).next == null
  {
    forall i | 0 <= i < |s| ensures CellBefore(c, s, i).next == s[i] { ChainLinks(c, s, i); }
    ChainAt(c, s, |s|);
  }

  lemma {:induction false} DistinctAt(s: seq<Cell>, i: nat, j: nat)
    requires Distinct(s) && i < j < |s|
    ensures s[i] != s[j]
  {
    if i > 0 { DistinctAt(s[1..], i - 1, j - 1); }
  }

  /** Different positions of a list are different cells. */
  lemma CellsDiffer(head: Cell, s: seq<Cell>)
    requires Distinct([head] + s)
    ensures forall i, j :: 0 <= i < j <= |s| ==> CellBefore(head, s, i) != CellBefore(head, s, j)
  {
    forall i, j | 0 <= i < j <= |s| ensures CellBefore(head, s, i) != CellBefore(head, s, j) {
      DistinctAt([head] + s, i, j);
    }
  }

  lemma DistinctTail(s: seq<Cell>)
    requires Distinct(s) && s != []
    ensures Distinct(s[1..])
  {}

  lemma WithoutLater(s: seq<Cell>, e: Cell)
    requires s != [] && s[0] != e
    ensures Without(s, e) == [s[0]] + Without(s[1..], e)
  {}

  lemma TakeDrop(s: seq<Cell>, k: nat)
    requires 0 < k < |s|
    ensures s[1..][k - 1] == s[k] && [s[0]] + (s[1..][..k - 1] + s[1..][k..]) == s[..k] + s[k + 1..]
  {}

  lemma {:induction false} WithoutAt(s: seq<Cell>, k: nat)
    requires Distinct(s) && k < |s|
    ensures Without(s, s[k]) == s[..k] + s[k + 1..]
  {
    if k > 0 {
      hide Distinct, Without;
      DistinctTail(s);
      WithoutAt(s[1..], k - 1);
      DistinctAt(s, 0, k);
      WithoutLater(s, s[k]);
      TakeDrop(s, k);
    }
  }

  lemma {:induction false} DistinctWithout(s: seq<Cell>, k: nat)
    requires Distinct(s) && k < |s|
    ensures Distinct(s[..k] + s[k + 1..])
  {
    assert s == s[..k] + s[k..] && s[k..] == [s[k]] + s[k + 1..];
    DistinctSplit(s[..k], s[k..]);
    DistinctSplit([s[k]], s[k + 1..]);
    DistinctJoin(s[..k], s[k + 1..]);
  }

  lemma CellsBelong(head: Cell, s: seq<Cell>)
    ensures forall i :: 0 <= i <= |s| ==> CellBefore(head, s, i) in Cells(head, s)
  {}

  // ---------------------------------------------------------------- operations

  /** The walk to the end of a list. */
  method Last(head: Cell, ghost s: seq<Cell>) returns (pp: Cell)
    requires List(head, s)
    ensures pp == CellBefore(head, s, |s|)
  {
    pp := head;
    ghost var k := 0;
    assert s[0..] == s;
    while pp.next != null
      invariant 0 <= k <= |s| && pp == CellBefore(head, s, k) && Chain(pp, s[k..])
      decreases |s| - k
    {
      pp, k := pp.next, k + 1;
      assert s[k - 1..][1..] == s[k..];
    }
  }

  /** qent_insert_tail.  Only the last link of this list and the link of `e` are written, so no list that
      shares no cell with these changes. */
  method InsertTail(head: Cell, e: Cell, ghost s: seq<Cell>)
    requires List(head, s) && e !in Cells(head, s)
    modifies e, CellBefore(head, s, |s|)
    ensures List(head, s + [e])
  {
    AllLinks(head, s);
    CellsDiffer(head, s);
    e.next := null;
    var pp := Last(head, s);
    pp.next := e;
    ghost var r := s + [e];
    assert forall i :: 0 <= i <= |s| ==> CellBefore(head, r, i) == CellBefore(head, s, i);
    assert r[|r|..] == [];
    ChainFrom(head, r, |r|);
    DistinctJoin([head] + s, [e]);
    assert [head] + s + [e] == [head] + r;
  }

  /** The walk to the cell that points to `e`, or to the end. */
  method Find(head: Cell, e: Cell, ghost s: seq<Cell>) returns (pp: Cell, ghost k: nat)
    requires List(head, s)
    ensures k <= |s| && pp == CellBefore(head, s, k) && e !in s[..k]
    ensures if e in s then k < |s| && s[k] == e else k == |s|
  {
    pp, k := head, 0;
    assert s[0..] == s;
    while pp.next != null && pp.next != e
      invariant k <= |s| && pp == CellBefore(head, s, k) && Chain(pp, s[k..]) && e !in s[..k]
      decreases |s| - k
    {
      assert s[..k + 1] == s[..k] + [s[k]];
      pp, k := pp.next, k + 1;
      assert s[k - 1..][1..] == s[k..];
    }
    assert s == s[..k] + s[k..];
  }

  /** Links of a list whose cell `k` has been bypassed. */
  lemma Bypassed(head: Cell, s: seq<Cell>, k: nat)
    requires k < |s|
    requires forall i :: 0 <= i < |s| && i != k && i != k + 1 ==> CellBefore(head, s, i).next == s[i]
    requires CellBefore(head, s, k).next == if k + 1 < |s| then s[k + 1] else null
    requires k + 1 < |s| ==> CellBefore(head, s, |s|).next == null
    ensures Chain(head, s[..k] + s[k + 1..])
  {
    var r := s[..k] + s[k + 1..];
    forall i | 0 <= i < |r| ensures CellBefore(head, r, i).next == r[i] {
      if i > k { assert CellBefore(head, r, i) == CellBefore(head, s, i + 1); }
    }
    assert CellBefore(head, r, |r|) == if k + 1 < |s| then CellBefore(head, s, |s|) else CellBefore(head, s, k);
    assert r[|r|..] == [];
    ChainFrom(head, r, |r|);
  }

  /** The store of qent_remove, with `pp` the cell before `e`. */
  method Bypass(head: Cell, pp: Cell, e: Cell, ghost s: seq<Cell>, ghost k: nat)
    requires List(head, s) && k < |s| && s[k] == e && pp == CellBefore(head, s, k)
    modifies pp, e
    ensures Chain(head, s[..k] + s[k + 1..]) && e.next == null
  {
    AllLinks(head, s);
    CellsDiffer(head, s);
    assert e == CellBefore(head, s, k + 1);
    pp.next := e.next;
    e.next := null;
    Bypassed(head, s, k);
  }

  lemma ListWithout(head: Cell, s: seq<Cell>, k: nat)
    requires Distinct([head] + s) && k < |s| && Chain(head, s[..k] + s[k + 1..])
    ensures List(head, Without(s, s[k]))
  {
    hide Distinct, Chain, Without;
    DistinctSplit([head], s);
    WithoutAt(s, k);
    DistinctWithout([head] + s, k + 1);
    BehindHead(head, s, k);
  }

  lemma BehindHead(head: Cell, s: seq<Cell>, k: nat)
    requires k < |s|
    ensures ([head] + s)[..k + 1] + ([head] + s)[k + 2..] == [head] + (s[..k] + s[k + 1..])
  {
    assert ([head] + s)[..k + 1] == [head] + s[..k] && ([head] + s)[k + 2..] == s[k + 1..];
  }

  /** qent_remove.  A cell that is not on this list, or is on another one, is left alone. */
  method Remove(head: Cell, e: Cell, ghost s: seq<Cell>) returns (found: bool)
    requires List(head, s)
    modifies if e in s then Cells(head, s) else {}
    ensures found == (e in s) && List(head, Without(s, e))
    ensures found ==> e.next == null
  {
    var pp, k := Find(head, e, s);
    ChainAt(head, s, k);
    assert k < |s| ==> s[k..] != [];
    if pp.next == null { return false; }
    CellsBelong(head, s);
    Bypass(head, pp, e, s, k);
    ListWithout(head, s, k);
    found := true;
  }

  /** qent_contains */
  method Contains(head: Cell, e: Cell, ghost s: seq<Cell>) returns (found: bool)
    requires List(head, s)
    ensures found == (e in s)
  {
    var pp, k := Find(head, e, s);
    ChainAt(head, s, k);
    assert k < |s| ==> s[k..] != [];
    found := pp.next != null;
  }

  /** qent_pop */
  method Pop(head: Cell, ghost s: seq<Cell>) returns (e: Cell?)
    requires List(head, s)
    modifies if s == [] then {} else {head, s[0]}
    ensures if s == [] then e == null && List(head, []) else e == s[0] && e.next == null && List(head, s[1..])
  {
    e := head.next;
    if e != null {
      DistinctSplit([head], s);
      Bypass(head, head, e, s, 0);
      ListWithout(head, s, 0);
      assert s[..0] + s[1..] == s[1..];
    }
  }

  // ---------------------------------------------------------------- the shared link

  /** Two lists threaded through the same kind of link do not disturb each other as long as no cell is on
      both: this is what the classes of Evb2Spec guarantee for the descriptor, ready and asynchronous
      lists.  Moving a cell the way handle_to_ready does, removal first, keeps both lists whole. */
  method Move(from: Cell, to: Cell, e: Cell, ghost a: seq<Cell>, ghost b: seq<Cell>)
    requires List(from, a) && List(to, b) && e in a
    requires Cells(from, a) !! Cells(to, b)
    modifies Cells(from, a), Cells(to, b)
    ensures List(from, Without(a, e)) && List(to, b + [e])
  {
    MemberWithout(a, e, from);
    CellsBelong(to, b);
    assert e in Cells(from, a);
    hide Chain, Distinct, Without;
    var _ := Remove(from, e, a);
    ghost var r := Without(a, e);
    assert List(from, r);
    hide List;
    assert forall x :: x in r ==> x in Cells(from, r);
    InsertTail(to, e, b);
    assert List(from, r);
  }

  lemma {:induction false} OthersRemain(a: seq<Cell>, e: Cell)
    requires Distinct(a)
    ensures forall x :: x in Without(a, e) ==> x in a && x != e
  {
    if a != [] {
      assert a == [a[0]] + a[1..];
      OthersRemain(a[1..], e);
    }
  }

  lemma MemberWithout(a: seq<Cell>, e: Cell, c: Cell)
    requires Distinct([c] + a) && e in a
    ensures e !in Cells(c, Without(a, e)) && Cells(c, Without(a, e)) <= Cells(c, a)
  {
    DistinctSplit([c], a);
    OthersRemain(a, e);
  }

  /** From cell `c` the links lead through `s` to `e`. */
  ghost predicate Leads(c: Cell, s: seq<Cell>, e: Cell)
    reads c, s
  {
    if s == [] then c.next == e else c.next == s[0] && Leads(s[0], s[1..], e)
  }

  lemma {:induction false} ChainLeads(c: Cell, s: seq<Cell>, k: nat)
    requires Chain(c, s) && k < |s|
    ensures Leads(c, s[..k], s[k])
  {
    if k > 0 {
      ChainLeads(s[0], s[1..], k - 1);
      assert s[..k][1..] == s[1..][..k - 1];
    }
  }

  lemma {:induction false} LeadsToEnd(c: Cell, s: seq<Cell>, e: Cell)
    requires Leads(c, s, e) && e.next == null
    ensures Chain(c, s + [e])
  {
    assert (s + [e])[1..] == if s == [] then [] else s[1..] + [e];
    if s != [] { LeadsToEnd(s[0], s[1..], e); }
  }

  lemma FrontOfList(head: Cell, s: seq<Cell>, k: nat)
    requires List(head, s) && k < |s|
    ensures Leads(head, s[..k], s[k]) && s[..k] + [s[k]] == s[..k + 1]
    ensures Distinct([head] + s[..k + 1]) && s[k] !in Cells(head, s[..k]) && Cells(head, s[..k]) <= Cells(head, s)
  {
    ChainLeads(head, s, k);
    assert [head] + s == ([head] + s[..k]) + s[k..] && [head] + s == ([head] + s[..k + 1]) + s[k + 1..];
    DistinctSplit([head] + s[..k], s[k..]);
    DistinctSplit([head] + s[..k + 1], s[k + 1..]);
    assert head in [head] + s[..k] && s[k] in s[k..];
    assert forall x :: x in s[..k] ==> x in [head] + s[..k];
  }

  /** Without the removal the link is overwritten: the list that `e` was on loses everything behind `e`. */
  method InsertWhileLinked(head: Cell, other: Cell, e: Cell, ghost s: seq<Cell>, ghost b: seq<Cell>, ghost k: nat)
    requires List(head, s) && List(other, b) && k < |b| && b[k] == e
    requires Cells(head, s) !! Cells(other, b)
    modifies e, CellBefore(head, s, |s|)
    ensures List(head, s + [e]) && List(other, b[..k + 1])
  {
    FrontOfList(other, b, k);
    CellsBelong(head, s);
    ghost var front := b[..k];
    assert forall x :: x in front ==> x in Cells(other, front);
    hide Chain, Distinct;
    InsertTail(head, e, s);
    LastIsNull(head, s + [e]);
    LeadsToEnd(other, front, e);
  }

  lemma LastIsNull(head: Cell, s: seq<Cell>)
    requires List(head, s)
    ensures CellBefore(head, s, |s|).next == null
  {
    AllLinks(head, s);
  }
}
