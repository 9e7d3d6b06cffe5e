/** The settings store: the sequence of its records in key order, and what RB_INSERT of a loaded record does
    to it (package/tester1/settings.cpp:18-28, 201-203). */
module SettingsStore {
  import opened Bytes
  import opened Strcmp
  import opened RbSpec
  import opened RbBalance
  import opened RbSearch
  import opened SettingsSpec
  import opened SettingsCodec

  function RecOf(n: Node, key: Node -> Key, values: map<Node, seq<Byte>>): Rec {
    Rec(key(n), if n in values then values[n] else [])
  }

  function RecsOf(order: seq<Node>, key: Node -> Key, values: map<Node, seq<Byte>>): seq<Rec> {
    if order == [] then [] else [RecOf(order[0], key, values)] + RecsOf(order[1..], key, values)
  }

  /** RB_INSERT at the level of records: the first record with a key stays. */
  function InsertRec(recs: seq<Rec>, r: Rec): seq<Rec> {
    if recs == [] then [r]
    else if recs[0].key == r.key then recs
    else if Less(r.key, recs[0].key) then [r] + recs
    else [recs[0]] + InsertRec(recs[1..], r)
  }

  function InsertAll(recs: seq<Rec>, more: seq<Rec>): seq<Rec>
    decreases |more|
  {
    if more == [] then recs else InsertAll(InsertRec(recs, more[0]), more[1..])
  }

  predicate Sorted(recs: seq<Rec>) {
    recs != [] ==> (forall r :: r in recs[1..] ==> Less(recs[0].key, r.key)) && Sorted(recs[1..])
  }

  // ---------------------------------------------------------------- nodes and records

  lemma {:induction false} RecsAppend(a: seq<Node>, b: seq<Node>, key: Node -> Key, values: map<Node, seq<Byte>>)
    ensures RecsOf(a + b, key, values) == RecsOf(a, key, values) + RecsOf(b, key, values)
  {
    if a == [] {
      assert a + b == b;
    } else {
      assert (a + b)[1..] == a[1..] + b;
      RecsAppend(a[1..], b, key, values);
    }
  }

  lemma {:induction false} RecsLength(order: seq<Node>, key: Node -> Key, values: map<Node, seq<Byte>>)
    ensures |RecsOf(order, key, values)| == |order|
    ensures forall r :: r in RecsOf(order, key, values) ==> exists n :: n in order && r.key == key(n)
  {
    if order != [] { RecsLength(order[1..], key, values); }
  }

  lemma {:induction false} RecsSorted(order: seq<Node>, key: Node -> Key, values: map<Node, seq<Byte>>)
    requires Ordered(order, key)
    ensures Sorted(RecsOf(order, key, values))
  {
    if order != [] {
      RecsSorted(order[1..], key, values);
      RecsLength(order[1..], key, values);
    }
  }

  /** Records elsewhere do not change when one node gets its key and value. */
  lemma {:induction false} RecsElsewhere(order: seq<Node>, f: Node -> Key, g: Node -> Key, v: map<Node, seq<Byte>>,
      w: map<Node, seq<Byte>>, n: Node)
    requires n !in order && forall m :: m != n ==> f(m) == g(m) && (m in v <==> m in w) && (m in v ==> v[m] == w[m])
    ensures RecsOf(order, f, v) == RecsOf(order, g, w)
  {
    if order != [] { RecsElsewhere(order[1..], f, g, v, w, n); }
  }

  /** Inserting the node inserts its record. */
  lemma {:induction false} InsertedIsInsertRec(order: seq<Node>, n: Node, key: Node -> Key, values: map<Node,
      seq<Byte>>)
    requires forall x :: x in order ==> key(x) != key(n)
    ensures RecsOf(Inserted(order, n, key), key, values) == InsertRec(RecsOf(order, key, values), RecOf(n, key, values))
  {
    if order != [] && !Less(key(n), key(order[0])) {
      InsertedIsInsertRec(order[1..], n, key, values);
      assert order[0] in order;
      var r := Inserted(order[1..], n, key);
      assert ([order[0]] + r)[1..] == r;
      assert RecsOf(order, key, values)[1..] == RecsOf(order[1..], key, values);
    } else {
      assert ([n] + order)[1..] == order;
    }
  }

  /** A record whose key is taken changes nothing. */
  lemma {:induction false} InsertTaken(order: seq<Node>, n: Node, r: Rec, key: Node -> Key, values: map<Node,
      seq<Byte>>)
    requires n in order && key(n) == r.key && Ordered(order, key)
    ensures InsertRec(RecsOf(order, key, values), r) == RecsOf(order, key, values)
  {
    var recs := RecsOf(order, key, values);
    if order[0] != n && key(order[0]) != r.key {
      InsertTaken(order[1..], n, r, key, values);
      CmpAntisymmetric(key(order[0]), key(n));
      assert recs[1..] == RecsOf(order[1..], key, values) && recs == [recs[0]] + recs[1..];
    }
  }

  /** RB_INSERT adds the record unless its key is taken, and keeps everything else, in order. */
  lemma {:induction false} InsertRecMeans(recs: seq<Rec>, r: Rec)
    requires Sorted(recs)
    ensures Sorted(InsertRec(recs, r))
    ensures forall x :: x in InsertRec(recs, r) <==> x in recs || (x == r && forall y :: y in recs ==> y.key != r.key)
  {
    if recs != [] && recs[0].key != r.key {
      CmpAntisymmetric(recs[0].key, r.key);
      CmpAntisymmetric(r.key, recs[0].key);
      if Less(r.key, recs[0].key) {
        assert ([r] + recs)[1..] == recs;
        forall x | x in recs ensures Less(r.key, x.key) {
          if x != recs[0] { LessTransitive(r.key, recs[0].key, x.key); }
        }
        NoneEqual(recs, r);
      } else {
        InsertRecMeans(recs[1..], r);
        var t := InsertRec(recs[1..], r);
        assert ([recs[0]] + t)[1..] == t && recs == [recs[0]] + recs[1..];
      }
    } else if recs != [] {
      assert recs[0] in recs;
    }
  }

  lemma NoneEqual(recs: seq<Rec>, r: Rec)
    requires forall x :: x in recs ==> Less(r.key, x.key)
    ensures forall y :: y in recs ==> y.key != r.key
  {
    forall y | y in recs ensures y.key != r.key { CmpAntisymmetric(r.key, y.key); }
  }

  // ---------------------------------------------------------------- loading what was saved

  lemma {:induction false} InsertLast(recs: seq<Rec>, r: Rec)
    requires forall x :: x in recs ==> Less(x.key, r.key)
    ensures InsertRec(recs, r) == recs + [r]
  {
    if recs != [] {
      assert recs[0] in recs;
      CmpAntisymmetric(recs[0].key, r.key);
      CmpAntisymmetric(r.key, recs[0].key);
      InsertLast(recs[1..], r);
      assert recs == [recs[0]] + recs[1..];
    }
  }

  lemma {:induction false} InsertSorted(done: seq<Rec>, more: seq<Rec>)
    requires Sorted(done + more)
    ensures InsertAll(done, more) == done + more
    decreases |more|
  {
    if more == [] {
      assert done + more == done;
    } else {
      SortedBelow(done, more);
      InsertLast(done, more[0]);
      assert (done + [more[0]]) + more[1..] == done + more;
      InsertSorted(done + [more[0]], more[1..]);
    }
  }

  lemma {:induction false} SortedBelow(done: seq<Rec>, more: seq<Rec>)
    requires Sorted(done + more) && more != []
    ensures forall x :: x in done ==> Less(x.key, more[0].key)
  {
    if done != [] {
      var s := done + more;
      assert s[1..] == done[1..] + more && more[0] in s[1..] && s[0] == done[0];
      SortedBelow(done[1..], more);
      assert forall x :: x in done <==> x == done[0] || x in done[1..];
    }
  }

  function Weight(recs: seq<Rec>): nat {
    if recs == [] then 0 else |recs[0].key| + |recs[0].val| + Weight(recs[1..])
  }

  lemma {:induction false} InsertRecGrows(recs: seq<Rec>, r: Rec)
    ensures |InsertRec(recs, r)| <= |recs| + 1
    ensures Weight(InsertRec(recs, r)) <= Weight(recs) + |r.key| + |r.val|
  {
    if recs != [] {
      InsertRecGrows(recs[1..], r);
      assert ([recs[0]] + InsertRec(recs[1..], r))[1..] == InsertRec(recs[1..], r);
      assert ([r] + recs)[1..] == recs;
    }
  }

  lemma {:induction false} InsertAllGrows(recs: seq<Rec>, more: seq<Rec>)
    ensures |InsertAll(recs, more)| <= |recs| + |more|
    ensures Weight(InsertAll(recs, more)) <= Weight(recs) + Weight(more)
    decreases |more|
  {
    if more != [] {
      InsertRecGrows(recs, more[0]);
      InsertAllGrows(InsertRec(recs, more[0]), more[1..]);
    }
  }

  lemma {:induction false} CutWeighs(recs: seq<Rec>)
    ensures Weight(CutAll(recs)) <= Weight(recs)
    ensures !Storable(recs) ==> Weight(CutAll(recs)) < Weight(recs)
  {
    if recs != [] {
      CutWeighs(recs[1..]);
      assert CutAll(recs)[1..] == CutAll(recs[1..]) && CutAll(recs)[0] == Cut(recs[0]);
      hide CutAll;
    }
  }

  /** Saving the records of a store and loading them into an empty one gives the same records, if and only if
      every key and value fits its length field and the payload its own. */
  lemma SavedThenLoaded(recs: seq<Rec>, tag: seq<Byte>, ver: nat, junk: seq<Byte>)
    requires |tag| == 6 && ver < 65536 && Sorted(recs) && Keys(recs)
    ensures var l := Load(FileFor(recs, tag, ver) + junk, tag, ver);
      InsertAll([], l.recs) == recs <==> Storable(recs) && |Payload(recs)| < TWO32
  {
    hide *;
    var l := Load(FileFor(recs, tag, ver) + junk, tag, ver).recs;
    InsertAllGrows([], l);
    EmptyWeight();
    RoundTripExactly(recs, tag, ver, junk);
    if l == recs {
      assert [] + recs == recs;
      InsertSorted([], recs);
    } else if |Payload(recs)| >= TWO32 {
      TooLong(recs, tag, ver, junk);
    } else {
      RoundTrip(recs, tag, ver, junk);
      CutWeighs(recs);
    }
  }

  lemma EmptyWeight()
    ensures Weight([]) == 0
  {}
}
