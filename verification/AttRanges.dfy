/** What the ATT server answers to a request over any range of handles, against the table as a client knows it
    (package/tester1/blegatt.cpp:676-786; Bluetooth Core Specification Vol 3 Part F, sections 3.4.3 and 3.4.4). */
module AttRanges {
  import opened Bytes
  import opened AttSpec
  import opened AttClient
  import opened AttRuns
  import opened Options

  /** A request that begins with a range of handles. */
  function Ranged(op: Byte, start: nat, end: nat, more: seq<Byte>): seq<Byte> {
    [op] + Le16(start) + Le16(end) + more
  }

  lemma RangedParts(op: Byte, start: nat, end: nat, more: seq<Byte>)
    requires start < 65536 && end < 65536
    ensures var r := Ranged(op, start, end, more);
      && |r| == 5 + |more| && r[0] == op && Get16(r, 1) == start && Get16(r, 3) == end && r[5..] == more
      && (|more| >= 2 ==> Get16(r, 5) == Num16(more[0], more[1]) && r[7..] == more[2..])
  {
    hide Le16, Num16;
    Le16Parts(start);
    Le16Parts(end);
    var r, a, b := Ranged(op, start, end, more), Le16(start), Le16(end);
    assert r[1] == a[0] && r[2] == a[1] && r[3] == b[0] && r[4] == b[1] && r[5..] == more;
    if |more| >= 2 { assert r[5] == more[0] && r[6] == more[1] && r[7..] == more[2..]; }
  }

  /** The last handle of the table that a range reaches. */
  function Until(end: nat): nat {
    if end < 10 then end else 10
  }

  /** A range that begins at 0 or ends before it begins is refused with Invalid Handle, one that begins behind the table
      with Attribute Not Found. */
  lemma BadRange(s: Server, op: Byte, start: nat, end: nat, more: seq<Byte>)
    requires start < 65536 && end < 65536 && op in {0x04, 0x06, 0x08, 0x10}
    requires op != 0x04 ==> |more| >= 2
    requires op in {0x08, 0x10} ==> |more| == 2 || (|more| == 16 && op == 0x08)
    requires op == 0x10 ==> more == [0x00, 0x28]
    ensures start == 0 || start > end ==>
              OnPdu(s, Ranged(op, start, end, more)) == Outcome(s, [0x01, op, 0, 0, 0x01])
    ensures 10 < start <= end ==>
              OnPdu(s, Ranged(op, start, end, more)) == Outcome(s, [0x01, op] + Le16(start) + [0x0a])
  {
    RangedParts(op, start, end, more);
    ZeroLe16();
    hide Le16, Num16, InfoPairs, TypeValuePairs, Entries, EntrySize, ReadAt, Written, ClampMtu, TypeOf;
  }

  // ---------------------------------------------------------------- Find Information

  /** Find Information over any range answers with the attributes from its start on, of one size of type, as many as
      there are and the MTU has room for. */
  lemma InfoOverRange(s: Server, start: nat, end: nat) returns (k: nat)
    requires Sane(s) && 1 <= start <= end < 65536 && start <= 10
    ensures start < k <= Until(end) + 1
    ensures var rsp := OnPdu(s, Ranged(0x04, start, end, [])).rsp;
      var ulen := if start == 9 then 16 else 2;
      && |rsp| >= 2 && rsp[0] == 0x05 && rsp[1] == (if start == 9 then 0x02 else 0x01)
      && ParseInfo(rsp[2..], ulen) == TABLE[start - 1..k - 1]
      && (k <= Until(end) && |TABLE[k - 1].uuid| == ulen ==> |rsp| + 2 + ulen > s.mtu)
  {
    hide OnPdu, InfoPairs, ParseInfo, Error, TypeOf, Attributes, Le16, Num16;
    RangeResponse(s, start, end);
    TypeSizes(start);
    var ulen, last := |TypeOf(start)|, Last(end);
    var pairs := InfoPairs(start, last, ulen, s.mtu - 2);
    var f: Byte := if ulen == 16 then 0x02 else 0x01;
    assert ([0x05, f] + pairs)[2..] == pairs;
    k := PairsAreAttributes(start, last, ulen, s.mtu - 2);
    TableStretch(start, k);
    if k <= 10 { TypeSizes(k); }
  }

  lemma RangeResponse(s: Server, start: nat, end: nat)
    requires Sane(s) && 1 <= start <= end < 65536 && start <= 10
    ensures OnPdu(s, Ranged(0x04, start, end, [])).rsp ==
              [0x05, if |TypeOf(start)| == 16 then 0x02 else 0x01]
              + InfoPairs(start, Last(end), |TypeOf(start)|, s.mtu - 2)
    ensures Last(end) == Until(end)
  {
    hide OnPdu, Ranged, InfoPairs, TypeOf, Get16;
    RangedParts(0x04, start, end, []);
    InfoOf(s, Ranged(0x04, start, end, []), start, end);
  }

  lemma InfoOf(s: Server, req: seq<Byte>, start: nat, end: nat)
    requires Sane(s) && |req| == 5 && req[0] == 0x04 && Get16(req, 1) == start && Get16(req, 3) == end
    requires 1 <= start <= end && start <= 10
    ensures OnPdu(s, req).rsp ==
              [0x05, if |TypeOf(start)| == 16 then 0x02 else 0x01]
              + InfoPairs(start, Last(end), |TypeOf(start)|, s.mtu - 2)
  {
    hide Get16, Error, InfoPairs, TypeOf, FindByType, ReadByType, ReadAt, Written;
  }

  lemma TypeSizes(h: nat)
    requires 1 <= h <= 10
    ensures TypeOf(h) == TABLE[h - 1].uuid && |TypeOf(h)| == if h == 9 then 16 else 2
  {}

  lemma TableStretch(a: nat, b: nat)
    requires 1 <= a <= b <= 11
    ensures Attributes(a, b) == TABLE[a - 1..b - 1]
  {
    AttributesJoin(a, b, 11);
    TableFrom(a);
    hide Attributes, TypeOf;
    AttributesCount(a, b);
    FrontOf(TABLE, a - 1, Attributes(a, b), Attributes(b, 11));
  }

  lemma FrontOf(t: seq<Info>, i: nat, a: seq<Info>, b: seq<Info>)
    requires i <= |t| && t[i..] == a + b
    ensures i + |a| <= |t| && a == t[i..i + |a|]
  {
    assert t[i..][..|a|] == a;
  }

  lemma {:induction false} AttributesCount(a: nat, b: nat)
    requires a <= b
    ensures |Attributes(a, b)| == b - a
    decreases b - a
  {
    hide TypeOf;
    if a < b { AttributesCount(a + 1, b); }
  }

  // ---------------------------------------------------------------- Find By Type Value

  /** The services of the table. */
  const SERVICES: seq<Service> := [
    Service(1, 5, [0x00, 0x18]), Service(6, 6, [0x01, 0x18]),
    Service(7, 10, [0xf0, 0xde, 0xbc, 0x9a, 0x78, 0x56, 0x34, 0x12, 0x78, 0x56, 0x34, 0x12, 0x78, 0x56, 0x34, 0x12])]

  /** Those in a range that have a uuid, as handle and end of group. */
  function Matching(list: seq<Service>, start: nat, last: nat, uuid: seq<Byte>): seq<(nat, nat)> {
    if list == [] then []
    else
      (if start <= list[0].handle <= last && list[0].uuid == uuid then [(list[0].handle, list[0].end)] else [])
      + Matching(list[1..], start, last, uuid)
  }

  function ParsePairs(b: seq<Byte>): seq<(nat, nat)> {
    if |b| < 4 then [] else [(Get16(b, 0), Get16(b, 2))] + ParsePairs(b[4..])
  }

  /** The pairs of the services with a uuid, one after the other. */
  function PairBytes(l: seq<(nat, nat)>): seq<Byte> {
    if l == [] then [] else Le16(l[0].0) + Le16(l[0].1) + PairBytes(l[1..])
  }

  lemma {:induction false} PairsParse(l: seq<(nat, nat)>)
    requires forall p :: p in l ==> p.0 < 65536 && p.1 < 65536
    ensures ParsePairs(PairBytes(l)) == l && |PairBytes(l)| == 4 * |l|
  {
    hide Le16, Num16;
    if l != [] {
      var a, b, rest := l[0].0, l[0].1, PairBytes(l[1..]);
      assert l[0] in l;
      PairsParse(l[1..]);
      Get16Le16(a, Le16(b) + rest);
      Get16Le16(b, rest);
      Le16Size(a);
      Le16Size(b);
      var d := PairBytes(l);
      assert d == Le16(a) + (Le16(b) + rest) && d[2..][0] == d[2] && d[2..][1] == d[3] && d[4..] == d[2..][2..];
      assert l == [l[0]] + l[1..];
    }
  }

  /** From a handle on, what is left of the services list. */
  function From(h: nat): seq<Service> {
    if h <= 1 then SERVICES else if h <= 6 then SERVICES[1..] else if h <= 7 then SERVICES[2..] else []
  }

  lemma {:induction false} PairsAreServices(s: Server, h: nat, last: nat, uuid: seq<Byte>, room: int)
    requires 1 <= h && last <= 10 && room >= 4 * |From(h)|
    ensures TypeValuePairs(s, h, last, true, uuid, room) == PairBytes(Matching(From(h), h, last, uuid))
    decreases 11 - h
  {
    hide Le16, ValueUpTo, UuidSvc;
    if h <= last {
      ServiceOrNot(s, h, uuid);
      var hit := GroupEnd(h) != 0 && ValueUpTo(s, h, 32) == Some(uuid);
      if GroupEnd(h) != 0 {
        assert From(h)[1..] == From(h + 1);
        PairsAreServices(s, h + 1, last, uuid, if hit then room - 4 else room);
        LaterOnly(From(h + 1), h, last, uuid);
        var m := Matching(From(h + 1), h, last, uuid);
        PairBytesOf((h, GroupEnd(h)), m);
        assert Matching(From(h), h, last, uuid) == (if hit then [(h, GroupEnd(h))] else []) + m;
        assert [] + m == m;
      } else {
        assert From(h) == From(h + 1);
        PairsAreServices(s, h + 1, last, uuid, room);
        LaterOnly(From(h + 1), h, last, uuid);
      }
    } else {
      NoneThere(From(h), h, last, uuid);
    }
  }

  lemma PairBytesOf(p: (nat, nat), l: seq<(nat, nat)>)
    ensures PairBytes([p] + l) == Le16(p.0) + Le16(p.1) + PairBytes(l)
  {
    hide Le16;
    assert ([p] + l)[1..] == l;
  }

  lemma ServiceOrNot(s: Server, h: nat, uuid: seq<Byte>)
    requires 1 <= h <= 10
    ensures GroupEnd(h) != 0 <==> From(h) != [] && From(h)[0].handle == h
    ensures GroupEnd(h) != 0 ==>
              GroupEnd(h) == From(h)[0].end && ValueUpTo(s, h, 32) == Some(From(h)[0].uuid)
    ensures forall x :: x in From(h + 1) ==> x.handle >= h + 1
  {}

  lemma {:induction false} LaterOnly(l: seq<Service>, h: nat, last: nat, uuid: seq<Byte>)
    requires forall x :: x in l ==> x.handle >= h + 1
    ensures Matching(l, h, last, uuid) == Matching(l, h + 1, last, uuid)
  {
    if l != [] {
      assert l[0] in l;
      LaterOnly(l[1..], h, last, uuid);
    }
  }

  lemma {:induction false} NoneThere(l: seq<Service>, h: nat, last: nat, uuid: seq<Byte>)
    requires h > last
    ensures Matching(l, h, last, uuid) == []
  {
    if l != [] { NoneThere(l[1..], h, last, uuid); }
  }

  lemma {:induction false} MatchingSmall(l: seq<Service>, start: nat, last: nat, uuid: seq<Byte>)
    requires forall x :: x in l ==> x.handle < 65536 && x.end < 65536
    ensures forall p :: p in Matching(l, start, last, uuid) ==> p.0 < 65536 && p.1 < 65536
  {
    if l != [] {
      assert l[0] in l;
      MatchingSmall(l[1..], start, last, uuid);
    }
  }

  lemma {:induction false} MatchingSkips(start: nat, last: nat, uuid: seq<Byte>)
    requires start >= 1
    ensures Matching(SERVICES, start, last, uuid) == Matching(From(start), start, last, uuid)
  {
    var a := SERVICES;
    assert a[1..][1..] == a[2..] && a[2..][1..] == [] && a[1..][0] == a[1] && a[2..][0] == a[2];
    var m2, m3 := Matching(a[1..], start, last, uuid), Matching(a[2..], start, last, uuid);
    assert [] + m2 == m2 && [] + m3 == m3;
    if start > 7 { assert Matching([], start, last, uuid) == []; }
  }

  /** Find By Type Value over any range finds exactly the primary services with that uuid, with the ends of their
      groups; a search for anything else, or without a match, ends with Attribute Not Found. */
  lemma FindsServices(s: Server, start: nat, end: nat, kind: nat, uuid: seq<Byte>)
    requires Sane(s) && 1 <= start <= end < 65536 && start <= 10 && kind < 65536
    ensures var rsp := OnPdu(s, Ranged(0x06, start, end, Le16(kind) + uuid)).rsp;
      var found := if kind == 0x2800 then Matching(SERVICES, start, Until(end), uuid) else [];
      if found == [] then rsp == [0x01, 0x06] + Le16(start) + [0x0a]
      else |rsp| >= 1 && rsp[0] == 0x07 && ParsePairs(rsp[1..]) == found
  {
    hide OnPdu, TypeValuePairs, PairBytes, ParsePairs, Le16, Num16, Matching;
    ByTypeResponse(s, start, end, kind, uuid);
    var last := Until(end);
    MatchingSkips(start, last, uuid);
    PairsAreServices(s, start, last, uuid, s.mtu - 1);
    MatchingSmall(SERVICES, start, last, uuid);
    var m := Matching(SERVICES, start, last, uuid);
    PairsParse(m);
    NothingFound(s, start, last, uuid, s.mtu - 1);
    assert ([0x07] + PairBytes(m))[1..] == PairBytes(m);
  }

  lemma {:induction false} NothingFound(s: Server, h: nat, last: nat, uuid: seq<Byte>, room: int)
    ensures TypeValuePairs(s, h, last, false, uuid, room) == []
    decreases last + 1 - h
  {
    hide Le16, ValueUpTo, GroupEnd;
    if h <= last { NothingFound(s, h + 1, last, uuid, room); }
  }

  lemma ByTypeResponse(s: Server, start: nat, end: nat, kind: nat, uuid: seq<Byte>)
    requires Sane(s) && 1 <= start <= end < 65536 && start <= 10 && kind < 65536
    ensures var pairs := TypeValuePairs(s, start, Until(end), kind == 0x2800, uuid, s.mtu - 1);
      OnPdu(s, Ranged(0x06, start, end, Le16(kind) + uuid)).rsp ==
        if pairs == [] then [0x01, 0x06] + Le16(start) + [0x0a] else [0x07] + pairs
  {
    hide OnPdu, Ranged, TypeValuePairs, Get16, Le16, Num16;
    var more := Le16(kind) + uuid;
    Le16Parts(kind);
    RangedParts(0x06, start, end, more);
    assert more[2..] == uuid;
    ByTypeOf(s, Ranged(0x06, start, end, more), start, end);
  }

  lemma ByTypeOf(s: Server, req: seq<Byte>, start: nat, end: nat)
    requires Sane(s) && |req| >= 7 && req[0] == 0x06 && Get16(req, 1) == start && Get16(req, 3) == end
    requires 1 <= start <= end && start <= 10
    ensures var pairs := TypeValuePairs(s, start, Until(end), Get16(req, 5) == 0x2800, req[7..], s.mtu - 1);
      OnPdu(s, req).rsp == if pairs == [] then [0x01, 0x06] + Le16(start) + [0x0a] else [0x07] + pairs
  {
    hide Get16, Le16, TypeValuePairs, FindInfo, ReadByType, ReadAt, Written;
  }

  // ---------------------------------------------------------------- Read By Type, Read By Group Type

  /** The handles of the table from one to another whose attributes have a type. */
  function Having(h: nat, last: nat, want: seq<Byte>): seq<nat>
    decreases last + 1 - h
  {
    if h > last then [] else (if 1 <= h <= 10 && TABLE[h - 1].uuid == want then [h] else []) + Having(h + 1, last, want)
  }

  /** The end of the group that a service begins. */
  function EndOf(h: nat): nat {
    if h == 1 then 5 else if h == 6 then 6 else 10
  }

  /** What an answer says of an attribute: its handle, the end of its group, and as much of its value as an entry
      holds. */
  datatype Item = Item(handle: nat, end: nat, value: seq<Byte>)

  function ItemOf(s: Server, h: nat, grouped: bool): Item {
    var v, room := Reading(s, h), s.mtu - 2 - if grouped then 4 else 2;
    Item(h, if grouped then EndOf(h) else 0, if 0 <= room < |v| then v[..room] else v)
  }

  function Items(s: Server, hs: seq<nat>, grouped: bool): seq<Item> {
    if hs == [] then [] else [ItemOf(s, hs[0], grouped)] + Items(s, hs[1..], grouped)
  }

  function ParseItems(b: seq<Byte>, size: nat, grouped: bool): seq<Item> {
    var head := if grouped then 4 else 2;
    if size < head || |b| < size then []
    else
      [Item(Get16(b, 0), if grouped then Get16(b, 2) else 0, b[head..size])] + ParseItems(b[size..], size, grouped)
  }

  lemma ParseItem(h: nat, end: nat, grouped: bool, v: seq<Byte>, rest: seq<Byte>)
    requires h < 65536 && end < 65536
    ensures var b := Le16(h) + (if grouped then Le16(end) else []) + v + rest;
      var size := (if grouped then 4 else 2) + |v|;
      && |b| == size + |rest|
      && ParseItems(b, size, grouped) == [Item(h, if grouped then end else 0, v)] + ParseItems(rest, size, grouped)
  {
    hide Le16, Num16;
    var b := Le16(h) + (if grouped then Le16(end) else []) + v + rest;
    Le16Size(h);
    Le16Size(end);
    if grouped {
      Get16Le16(h, Le16(end) + (v + rest));
      Get16Le16(end, v + rest);
      assert b == Le16(h) + (Le16(end) + (v + rest));
      assert b[2..][0] == b[2] && b[2..][1] == b[3] && b[4..] == b[2..][2..];
      assert b[4..4 + |v|] == b[4..][..|v|] == v && b[4 + |v|..] == b[4..][|v|..] == rest;
    } else {
      Get16Le16(h, v + rest);
      assert b == Le16(h) + (v + rest);
      assert b[2..2 + |v|] == b[2..][..|v|] == v && b[2 + |v|..] == b[2..][|v|..] == rest;
    }
  }

  lemma ParseNone(size: nat, grouped: bool)
    requires size > 0
    ensures ParseItems([], size, grouped) == []
  {}

  lemma WantedIsHaving(s: Server, h: nat, want: seq<Byte>, grouped: bool)
    requires Sane(s) && 1 <= h <= 10 && (grouped ==> want == [0x00, 0x28])
    ensures Wanted(s, h, want, grouped) <==> TABLE[h - 1].uuid == want
    ensures Wanted(s, h, want, grouped) ==>
              ValueOf(s, h) == Some(Reading(s, h)) && (grouped ==> GroupEnd(h) == EndOf(h))
              && ItemOf(s, h, grouped).value == Trimmed(Reading(s, h), if grouped then 4 else 2, s.mtu)
  {
    hide Reading;
    ValueIsReading(s, h);
    ValuesFit(s, h);
    TypeSizes(h);
    if grouped && TABLE[h - 1].uuid == want { GroupOfService(h); }
    hide ValueOf, TypeOf, GroupEnd;
  }

  lemma GroupOfService(h: nat)
    requires 1 <= h <= 10 && TABLE[h - 1].uuid == [0x00, 0x28]
    ensures GroupEnd(h) == EndOf(h) != 0
  {}

  /** One handle more of an answer. */
  lemma EntriesStep(s: Server, h: nat, last: nat, want: seq<Byte>, grouped: bool, size: nat, room: int)
    requires Sane(s) && 1 <= h <= last <= 10 && (grouped ==> want == [0x00, 0x28])
    ensures var b, mtu := Entries(s, h, last, want, grouped, s.mtu, size, room), s.mtu;
      if TABLE[h - 1].uuid != want then
        && b == Entries(s, h + 1, last, want, grouped, mtu, size, room)
        && EntrySize(s, h, last, want, grouped, mtu) == EntrySize(s, h + 1, last, want, grouped, mtu)
      else
        var v := ItemOf(s, h, grouped).value;
        var n := (if grouped then 4 else 2) + |v|;
        && EntrySize(s, h, last, want, grouped, mtu) == n <= mtu - 2
        && b == if (size != 0 && n != size) || n > room then []
                else
                  Le16(h) + (if grouped then Le16(EndOf(h)) else []) + v +
                  if |v| < |Reading(s, h)| then []
                  else Entries(s, h + 1, last, want, grouped, mtu, n, room - n)
  {
    hide Entries, EntrySize, Reading, Wanted, ValueOf, Trimmed, Le16, GroupEnd, ItemOf, EndOf, Entry;
    WantedIsHaving(s, h, want, grouped);
    var v := Reading(s, h);
    TrimmedFits(v, if grouped then 4 else 2, s.mtu);
    if TABLE[h - 1].uuid != want {
      EntriesSkip(s, h, last, want, grouped, s.mtu, size, room);
    } else {
      EntriesTake(s, h, last, want, grouped, s.mtu, size, room, v);
      var t := Trimmed(v, if grouped then 4 else 2, s.mtu);
      EntryParts(h, grouped, t);
      assert Entry(h, grouped, t) + [] == Entry(h, grouped, t);
    }
  }

  lemma EntryParts(h: nat, grouped: bool, v: seq<Byte>)
    requires grouped ==> GroupEnd(h) == EndOf(h)
    ensures Entry(h, grouped, v) == Le16(h) + (if grouped then Le16(EndOf(h)) else []) + v
  {
    hide Le16, GroupEnd, EndOf;
  }

  lemma EntriesSkip(s: Server, h: nat, last: nat, want: seq<Byte>, grouped: bool, mtu: nat, size: nat, room: int)
    requires mtu >= MTU_DEFAULT && h <= last && !Wanted(s, h, want, grouped)
    ensures Entries(s, h, last, want, grouped, mtu, size, room) ==
        Entries(s, h + 1, last, want, grouped, mtu, size, room)
    ensures EntrySize(s, h, last, want, grouped, mtu) == EntrySize(s, h + 1, last, want, grouped, mtu)
  {
    hide Wanted, ValueOf, Trimmed, Entry;
  }

  lemma EntriesTake(s: Server, h: nat, last: nat, want: seq<Byte>, grouped: bool, mtu: nat, size: nat, room: int,
      v: seq<Byte>)
    requires mtu >= MTU_DEFAULT && h <= last && Wanted(s, h, want, grouped) && ValueOf(s, h) == Some(v)
    ensures var head := if grouped then 4 else 2;
      var t := Trimmed(v, head, mtu);
      && EntrySize(s, h, last, want, grouped, mtu) == head + |t|
      && Entries(s, h, last, want, grouped, mtu, size, room) ==
          if (size != 0 && head + |t| != size) || head + |t| > room then []
          else if |t| < |v| then Entry(h, grouped, t)
          else Entry(h, grouped, t) + Entries(s, h + 1, last, want, grouped, mtu, head + |t|, room - (head + |t|))
  {
    hide Wanted, ValueOf, Trimmed, Entry;
  }

  lemma TrimmedFits(v: seq<Byte>, head: nat, mtu: nat)
    requires mtu >= MTU_DEFAULT && head <= 4
    ensures head + |Trimmed(v, head, mtu)| <= mtu - 2
  {}

  /** The entries of an answer are the first of the wanted attributes, and there is one if there is any. */
  lemma {:induction false} EntriesAreItems(s: Server, h: nat, last: nat, want: seq<Byte>, grouped: bool, size: nat,
      room: int) returns (k: nat)
    requires Sane(s) && 1 <= h && last <= 10 && (grouped ==> want == [0x00, 0x28])
    ensures var hs := Having(h, last, want);
      var n := if size != 0 then size else EntrySize(s, h, last, want, grouped, s.mtu);
      && k <= |hs| && (size == 0 ==> (n == 0 <==> hs == []))
      && ParseItems(Entries(s, h, last, want, grouped, s.mtu, size, room), n, grouped) == Items(s, hs[..k], grouped)
      && (size == 0 && hs != [] && room >= s.mtu - 2 ==> k > 0)
    decreases 11 - h
  {
    hide Entries, EntrySize, Reading, Le16, ParseItems, ItemOf, EndOf, Having, Items;
    HavingStep(h, last, want);
    NoItems(s, grouped);
    var hs := Having(h, last, want);
    k := 0;
    if h > last {
      NoEntries(s, h, last, want, grouped, size, room);
      NothingParsed(if size != 0 then size else 0, grouped);
    } else {
      EntriesStep(s, h, last, want, grouped, size, room);
      var rest := Having(h + 1, last, want);
      if TABLE[h - 1].uuid != want {
        k := EntriesAreItems(s, h + 1, last, want, grouped, size, room);
      } else {
        var n := (if grouped then 4 else 2) + |ItemOf(s, h, grouped).value|;
        NothingParsed(if size != 0 then size else n, grouped);
        if (size == 0 || n == size) && n <= room {
          if |ItemOf(s, h, grouped).value| >= |Reading(s, h)| {
            k := EntriesAreItems(s, h + 1, last, want, grouped, n, room - n);
          }
          OneItem(s, h, grouped, if |ItemOf(s, h, grouped).value| < |Reading(s, h)| then []
              else Entries(s, h + 1, last, want, grouped, s.mtu, n, room - n), rest[..k]);
          k := k + 1;
          assert hs[..k] == [h] + rest[..k - 1];
        }
      }
    }
  }

  lemma HavingStep(h: nat, last: nat, want: seq<Byte>)
    ensures h > last ==> Having(h, last, want) == []
    ensures 1 <= h <= last <= 10 ==>
              Having(h, last, want) ==
                if TABLE[h - 1].uuid == want then [h] + Having(h + 1, last, want) else Having(h + 1, last, want)
  {
    assert [] + Having(h + 1, last, want) == Having(h + 1, last, want);
  }

  lemma NoItems(s: Server, grouped: bool)
    ensures Items(s, [], grouped) == []
  {}

  /** An entry in front of others. */
  lemma OneItem(s: Server, h: nat, grouped: bool, more: seq<Byte>, hs: seq<nat>)
    requires h <= 10
    requires var n := (if grouped then 4 else 2) + |ItemOf(s, h, grouped).value|;
        ParseItems(more, n, grouped) == Items(s, hs, grouped)
    ensures var v := ItemOf(s, h, grouped).value;
      ParseItems(Le16(h) + (if grouped then Le16(EndOf(h)) else []) + v + more, (if grouped then 4 else 2)
          + |v|, grouped)
        == Items(s, [h] + hs, grouped)
  {
    hide Reading, Le16, ParseItems, ItemOf, EndOf;
    EndSmall(s, h, grouped);
    ParseItem(h, EndOf(h), grouped, ItemOf(s, h, grouped).value, more);
    assert ([h] + hs)[1..] == hs;
  }

  lemma EndSmall(s: Server, h: nat, grouped: bool)
    requires h <= 10
    ensures EndOf(h) < 65536
    ensures ItemOf(s, h, grouped) == Item(h, if grouped then EndOf(h) else 0, ItemOf(s, h, grouped).value)
  {
    hide Reading;
  }

  lemma NoEntries(s: Server, h: nat, last: nat, want: seq<Byte>, grouped: bool, size: nat, room: int)
    requires h > last && s.mtu >= MTU_DEFAULT
    ensures Entries(s, h, last, want, grouped, s.mtu, size, room) == []
    ensures EntrySize(s, h, last, want, grouped, s.mtu) == 0
  {}

  lemma NothingParsed(size: nat, grouped: bool)
    ensures ParseItems([], size, grouped) == []
  {}

  /** Read By Type and Read By Group Type over any range answer with the attributes of that type, from the first on:
      each with its handle and its value, cut to the MTU, and the services with the ends of their groups.  If there
      is none, the answer is Attribute Not Found. */
  lemma ReadsByType(s: Server, start: nat, end: nat, want: seq<Byte>, grouped: bool) returns (k: nat)
    requires Sane(s) && 1 <= start <= end < 65536 && start <= 10
    requires (|want| == 2 || |want| == 16) && (grouped ==> want == [0x00, 0x28])
    ensures var op: Byte := if grouped then 0x10 else 0x08;
      var rsp, hs := OnPdu(s, Ranged(op, start, end, want)).rsp, Having(start, Until(end), want);
      if hs == [] then rsp == [0x01, op] + Le16(start) + [0x0a]
      else
        && 1 <= k <= |hs| && |rsp| >= 2 && rsp[0] == (if grouped then 0x11 else 0x09)
        && ParseItems(rsp[2..], Num8(rsp[1]), grouped) == Items(s, hs[..k], grouped)
  {
    hide OnPdu, Entries, EntrySize, Ranged, Le16, Num16, Reading, ParseItems, Items, Having, Get16, Low, Num8;
    var op: Byte := if grouped then 0x10 else 0x08;
    var req, last := Ranged(op, start, end, want), Until(end);
    RangedParts(op, start, end, want);
    k := EntriesAreItems(s, start, last, want, grouped, 0, s.mtu - 2);
    ByTypeRead(s, req, start, end, want, grouped);
    SizeByte(s, start, last, want, grouped);
    var n := EntrySize(s, start, last, want, grouped, s.mtu);
    var b := Entries(s, start, last, want, grouped, s.mtu, 0, s.mtu - 2);
    assert ([if grouped then 0x11 else 0x09, Low(n)] + b)[2..] == b;
  }

  lemma ByTypeRead(s: Server, req: seq<Byte>, start: nat, end: nat, want: seq<Byte>, grouped: bool)
    requires Sane(s) && |req| >= 7 && (|want| == 2 || |want| == 16) && (grouped ==> want == [0x00, 0x28])
    requires req[0] == (if grouped then 0x10 else 0x08) && Get16(req, 1) == start && Get16(req, 3) == end
    requires |req| == 5 + |want| && req[5..] == want && 1 <= start <= end && start <= 10
    ensures var n := EntrySize(s, start, Until(end), want, grouped, s.mtu);
      var b := Entries(s, start, Until(end), want, grouped, s.mtu, 0, s.mtu - 2);
      OnPdu(s, req).rsp ==
        if n == 0 then [0x01, req[0]] + Le16(start) + [0x0a] else [if grouped then 0x11 else 0x09, Low(n)] + b
  {
    hide Get16, Le16, Low, Entries, EntrySize, FindInfo, FindByType, ReadAt, Written;
  }

  lemma SizeByte(s: Server, h: nat, last: nat, want: seq<Byte>, grouped: bool)
    requires Sane(s)
    ensures Num8(Low(EntrySize(s, h, last, want, grouped, s.mtu))) == EntrySize(s, h, last, want, grouped, s.mtu)
  {
    hide EntrySize, Low, Num8;
    SizeBound(s, h, last, want, grouped);
    LowIsByte(EntrySize(s, h, last, want, grouped, s.mtu));
    SmallSize(EntrySize(s, h, last, want, grouped, s.mtu));
  }

  lemma SmallSize(n: nat)
    requires n < 256
    ensures n % 256 == n
  {}

  lemma {:induction false} SizeBound(s: Server, h: nat, last: nat, want: seq<Byte>, grouped: bool)
    requires Sane(s)
    ensures EntrySize(s, h, last, want, grouped, s.mtu) <= 126
    decreases last + 1 - h
  {
    hide Wanted, ValueOf, Trimmed;
    if h <= last {
      if Wanted(s, h, want, grouped) {
        WantedHasValue(s, h, want, grouped);
        TrimmedFits(ValueOf(s, h).value, if grouped then 4 else 2, s.mtu);
      } else {
        SizeBound(s, h + 1, last, want, grouped);
      }
    }
  }
}
