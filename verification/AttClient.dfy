/** What a client gets from the server by following the discovery and long-read procedures
    (Bluetooth Core Specification Vol 3 Part F sections 3.4.3.1 and 3.4.4.9, Part G section 4.8.3). */
module AttClient {
  import opened Bytes
  import opened AttSpec
  import opened Options

  /** How a discovery ended: the error code of the last response, 0 when the client gave up. */
  datatype Found<T> = Found(items: seq<T>, code: Byte)

  // ---------------------------------------------------------------- Find Information

  datatype Info = Info(handle: nat, uuid: seq<Byte>)

  function InfoReq(start: nat): seq<Byte> {
    [0x04] + Le16(start) + Le16(0xffff)
  }

  /** The pairs in a Find Information response with uuids of `ulen` bytes. */
  function ParseInfo(b: seq<Byte>, ulen: nat): seq<Info> {
    if |b| < 2 + ulen then []
    else [Info(Get16(b, 0), b[2..2 + ulen])] + ParseInfo(b[2 + ulen..], ulen)
  }

  /** Repeats Find Information from the last handle plus one. */
  function DiscoverInfo(s: Server, start: nat): Found<Info>
    decreases 0x10000 - start
  {
    var rsp := OnPdu(s, InfoReq(start)).rsp;
    if |rsp| < 2 || rsp[0] != 0x05 then Found([], if |rsp| >= 5 then rsp[4] else 0)
    else
      var infos := ParseInfo(rsp[2..], if rsp[1] == 0x02 then 16 else 2);
      if infos == [] || infos[|infos| - 1].handle < start || start >= 0x10000 then Found(infos, 0)
      else
        var more := DiscoverInfo(s, infos[|infos| - 1].handle + 1);
        Found(infos + more.items, more.code)
  }

  /** The attribute table from a handle up to another. */
  function Attributes(from: nat, to: nat): seq<Info>
    decreases to - from
  {
    if from >= to then [] else [Info(from, TypeOf(from))] + Attributes(from + 1, to)
  }

  lemma {:induction false} AttributesJoin(a: nat, b: nat, c: nat)
    requires a <= b <= c
    ensures Attributes(a, b) + Attributes(b, c) == Attributes(a, c)
    ensures a < b ==> Attributes(a, b) != [] && Attributes(a, b)[|Attributes(a, b)| - 1].handle == b - 1
    decreases b - a
  {
    hide TypeOf;
    if a < b { AttributesJoin(a + 1, b, c); }
  }

  lemma Get16Le16(n: nat, b: seq<Byte>)
    requires n < 65536
    ensures |Le16(n) + b| >= 2 && Get16(Le16(n) + b, 0) == n && (Le16(n) + b)[2..] == b
  {
    Num16Le16(n);
    SmallRemainder(n);
    var p := Le16(n);
    assert (p + b)[0] == p[0] && (p + b)[1] == p[1];
  }

  /** The pairs of one response are a stretch of the table, of attributes whose types have one size.  It is not
      empty, and it stops only at the end of the range, before another size of type, or for want of room. */
  lemma {:induction false} PairsAreAttributes(h: nat, last: nat, ulen: nat, room: int) returns (k: nat)
    requires 1 <= h && last <= HDL_MAX && ulen in {2, 16}
    ensures h <= k && (h <= last ==> k <= last + 1)
    ensures ParseInfo(InfoPairs(h, last, ulen, room), ulen) == Attributes(h, k)
    ensures forall i :: h <= i < k ==> |TypeOf(i)| == ulen
    ensures k <= last && |TypeOf(k)| == ulen ==> |InfoPairs(h, last, ulen, room)| + (2 + ulen) > room
    ensures h <= last && |TypeOf(h)| == ulen && 2 + ulen <= room ==> h < k
    decreases HDL_MAX + 1 - h
  {
    hide Le16, Num16, TypeOf;
    if h > last || |TypeOf(h)| != ulen || 2 + ulen > room {
      k := h;
    } else {
      k := PairsAreAttributes(h + 1, last, ulen, room - (2 + ulen));
      var t, rest := TypeOf(h), InfoPairs(h + 1, last, ulen, room - (2 + ulen));
      Get16Le16(h, t + rest);
      Le16Size(h);
      var b := Le16(h) + (t + rest);
      assert InfoPairs(h, last, ulen, room) == b;
      assert b[2..2 + ulen] == b[2..][..ulen] == t && b[2 + ulen..] == b[2..][ulen..] == rest;
    }
  }

  lemma Le16Parts(n: nat)
    requires n < 65536
    ensures |Le16(n)| == 2 && Num16(Le16(n)[0], Le16(n)[1]) == n
  {
    Num16Le16(n);
    SmallRemainder(n);
  }

  lemma InfoReqParts(start: nat)
    requires 1 <= start < 65536
    ensures var r := InfoReq(start); |r| == 5 && r[0] == 0x04 && Get16(r, 1) == start && Get16(r, 3) == 0xffff
  {
    hide Le16, Num16;
    Le16Parts(start);
    Le16Parts(0xffff);
    var r, a, b := InfoReq(start), Le16(start), Le16(0xffff);
    assert r[1] == a[0] && r[2] == a[1] && r[3] == b[0] && r[4] == b[1];
  }

  lemma ErrorParts(op: Byte, h: nat, code: Byte)
    ensures var e := Error(op, h, code); |e| == 5 && e[0] == 0x01 && e[1] == op && e[4] == code
  {}

  /** One response to Find Information. */
  lemma InfoResponse(s: Server, start: nat)
    requires 1 <= start < 65536
    ensures OnPdu(s, InfoReq(start)).rsp ==
              if start > HDL_MAX then Error(0x04, start, ATTR_NOT_FOUND)
              else
                [0x05, if |TypeOf(start)| == 16 then 0x02 else 0x01]
                + InfoPairs(start, HDL_MAX, |TypeOf(start)|, ClampMtu(s.mtu) - 2)
  {
    hide Le16, Num16, Error, InfoPairs, TypeOf;
    InfoReqParts(start);
  }

  /** One response to Find Information, parsed. */
  lemma InfoStep(s: Server, start: nat) returns (k: nat)
    requires Sane(s) && 1 <= start <= HDL_MAX
    ensures start < k <= HDL_MAX + 1
    ensures var rsp := OnPdu(s, InfoReq(start)).rsp;
      && |rsp| >= 2 && rsp[0] == 0x05
      && ParseInfo(rsp[2..], if rsp[1] == 0x02 then 16 else 2) == Attributes(start, k)
  {
    hide OnPdu, InfoPairs, ParseInfo, Error, TypeOf, Attributes, InfoReq;
    InfoResponse(s, start);
    TypeSize(start);
    var ulen := |TypeOf(start)|;
    var pairs := InfoPairs(start, HDL_MAX, ulen, ClampMtu(s.mtu) - 2);
    var f: Byte := if ulen == 16 then 0x02 else 0x01;
    assert ([0x05, f] + pairs)[2..] == pairs;
    k := PairsAreAttributes(start, HDL_MAX, ulen, ClampMtu(s.mtu) - 2);
  }

  lemma InfoEnds(s: Server)
    ensures var rsp := OnPdu(s, InfoReq(HDL_MAX + 1)).rsp; |rsp| == 5 && rsp[0] == 0x01 && rsp[4] == ATTR_NOT_FOUND
  {
    hide OnPdu, Error;
    InfoResponse(s, HDL_MAX + 1);
    ErrorParts(0x04, HDL_MAX + 1, ATTR_NOT_FOUND);
  }

  /** For every MTU, repeating Find Information yields every attribute from `start` on exactly once, in order,
      and then Attribute Not Found. */
  lemma {:induction false} DiscoversAttributes(s: Server, start: nat)
    requires Sane(s) && 1 <= start <= HDL_MAX + 1
    ensures DiscoverInfo(s, start) == Found(Attributes(start, HDL_MAX + 1), ATTR_NOT_FOUND)
    decreases HDL_MAX + 1 - start
  {
    hide OnPdu, ParseInfo, Attributes, InfoReq;
    if start > HDL_MAX {
      InfoEnds(s);
      NoAttributes(start);
    } else {
      var k := InfoStep(s, start);
      DiscoversAttributes(s, k);
      AttributesJoin(start, k, HDL_MAX + 1);
    }
  }

  lemma TypeSize(h: nat)
    requires 1 <= h <= HDL_MAX
    ensures |TypeOf(h)| in {2, 16}
  {}

  lemma NoAttributes(h: nat)
    requires h == HDL_MAX + 1
    ensures Attributes(h, HDL_MAX + 1) == []
  {}

  // ---------------------------------------------------------------- Read By Group Type

  datatype Service = Service(handle: nat, end: nat, uuid: seq<Byte>)

  function GroupReq(start: nat): seq<Byte> {
    [0x10] + Le16(start) + Le16(0xffff) + [0x00, 0x28]
  }

  function ParseGroups(b: seq<Byte>, size: nat): seq<Service> {
    if size < 4 || |b| < size then []
    else [Service(Get16(b, 0), Get16(b, 2), b[4..size])] + ParseGroups(b[size..], size)
  }

  /** Repeats Read By Group Type from the last group's end plus one. */
  function DiscoverGroups(s: Server, start: nat): Found<Service>
    decreases 0x10000 - start
  {
    var rsp := OnPdu(s, GroupReq(start)).rsp;
    if |rsp| < 2 || rsp[0] != 0x11 then Found([], if |rsp| >= 5 then rsp[4] else 0)
    else
      var groups := ParseGroups(rsp[2..], Num8(rsp[1]));
      if groups == [] || groups[|groups| - 1].end < start || start >= 0x10000 then Found(groups, 0)
      else
        var more := DiscoverGroups(s, groups[|groups| - 1].end + 1);
        Found(groups + more.items, more.code)
  }

  /** The services of the table from a handle on. */
  function Services(from: nat): seq<Service>
    decreases HDL_MAX + 1 - from
  {
    if from > HDL_MAX then []
    else (if from == GAP_SVC then [Service(GAP_SVC, GAP_APP, [0x00, 0x18])]
          else if from == GATT_SVC then [Service(GATT_SVC, GATT_SVC, [0x01, 0x18])]
          else if from == CUS_SVC then [Service(CUS_SVC, CUS_CCCD, UuidSvc())]
          else []) + Services(from + 1)
  }

  const PRIMARY: seq<Byte> := [0x00, 0x28]

  /** A handle that is not a service is passed over. */
  lemma {:induction false} PassOver(s: Server, h: nat, k: nat, mtu: nat, size: nat, room: int)
    requires mtu >= MTU_DEFAULT && h <= k <= HDL_MAX + 1 && forall i :: h <= i < k ==> GroupEnd(i) == 0
    ensures Entries(s, h, HDL_MAX, PRIMARY, true, mtu, size, room) ==
        Entries(s, k, HDL_MAX, PRIMARY, true, mtu, size, room)
    ensures EntrySize(s, h, HDL_MAX, PRIMARY, true, mtu) == EntrySize(s, k, HDL_MAX, PRIMARY, true, mtu)
    ensures h >= 1 ==> Services(h) == Services(k)
    decreases k - h
  {
    hide ValueUpTo, ValueOf, TypeOf, Entry, Trimmed, Le16, UuidSvc;
    if h < k {
      assert GroupEnd(h) == 0;
      PassOver(s, h + 1, k, mtu, size, room);
      if h >= 1 { assert [] + Services(h + 1) == Services(h + 1); }
    }
  }

  /** The entry of a service whose uuid fits. */
  lemma ServiceEntry(s: Server, h: nat, mtu: nat, size: nat, room: int)
    requires mtu >= MTU_DEFAULT && (h == GAP_SVC || h == GATT_SVC || h == CUS_SVC)
    ensures Wanted(s, h, PRIMARY, true) && ValueOf(s, h).Some?
    ensures var v := ValueOf(s, h).value; var n := 4 + |v|;
      && n == (if h == CUS_SVC then 20 else 6) && Trimmed(v, 4, mtu) == v
      && EntrySize(s, h, HDL_MAX, PRIMARY, true, mtu) == n
      && Entries(s, h, HDL_MAX, PRIMARY, true, mtu, size, room) ==
           if (size != 0 && n != size) || n > room then []
           else Entry(h, true, v) + Entries(s, h + 1, HDL_MAX, PRIMARY, true, mtu, n, room - n)
  {
    hide Entry, UuidSvc;
    assert TypeOf(h) == PRIMARY;
  }

  lemma ParseEntry(h: nat, v: seq<Byte>, rest: seq<Byte>)
    requires h == GAP_SVC || h == GATT_SVC || h == CUS_SVC
    ensures var size := 4 + |v|;
      && |Entry(h, true, v)| == size
      && ParseGroups(Entry(h, true, v) + rest, size) == [Service(h, GroupEnd(h), v)] + ParseGroups(rest, size)
  {
    hide Le16, Num16;
    var b := Entry(h, true, v) + rest;
    var e := GroupEnd(h);
    Get16Le16(h, Le16(e) + (v + rest));
    Get16Le16(e, v + rest);
    assert b == Le16(h) + (Le16(e) + (v + rest));
    assert b[2..][0] == b[2] && b[2..][1] == b[3] && b[4..] == b[2..][2..];
    assert b[4..4 + |v|] == b[4..][..|v|] == v && b[4 + |v|..] == b[4..][|v|..] == rest;
  }

  lemma ParseNothing(size: nat)
    requires size >= 4
    ensures ParseGroups([], size) == []
  {}

  /** The entries of the response to Read By Group Type from `start`, by the first service at or after it. */
  lemma GroupEntries(s: Server, mtu: nat, start: nat)
    requires mtu >= MTU_DEFAULT && 1 <= start <= HDL_MAX
    ensures
      var b := Entries(s, start, HDL_MAX, PRIMARY, true, mtu, 0, mtu - 2);
      var n := EntrySize(s, start, HDL_MAX, PRIMARY, true, mtu);
      && (start == 1 ==>
            n == 6 && ParseGroups(b, n) ==
              [Service(GAP_SVC, GAP_APP, [0x00, 0x18]), Service(GATT_SVC, GATT_SVC, [0x01, 0x18])])
      && (2 <= start <= 6 ==> n == 6 && ParseGroups(b, n) == [Service(GATT_SVC, GATT_SVC, [0x01, 0x18])])
      && (start == 7 ==> n == 20 && ParseGroups(b, n) == [Service(CUS_SVC, CUS_CCCD, UuidSvc())])
      && (start > 7 ==> n == 0)
  {
    hide Entries, EntrySize, ParseGroups, Entry, Services, TypeOf, Le16, Num16, UuidSvc, Trimmed, Wanted;
    var room := mtu - 2;
    if start == 1 {
      ServiceEntry(s, 1, mtu, 0, room);
      PassOver(s, 2, 6, mtu, 6, room - 6);
      ServiceEntry(s, 6, mtu, 6, room - 6);
      ServiceEntry(s, 7, mtu, 6, room - 12);
      ParseEntry(6, [0x01, 0x18], []);
      ParseEntry(1, [0x00, 0x18], Entry(6, true, [0x01, 0x18]) + []);
      ParseNothing(6);
    } else if start <= 6 {
      PassOver(s, start, 6, mtu, 0, room);
      ServiceEntry(s, 6, mtu, 0, room);
      ServiceEntry(s, 7, mtu, 6, room - 6);
      ParseEntry(6, [0x01, 0x18], []);
      ParseNothing(6);
    } else if start == 7 {
      ServiceEntry(s, 7, mtu, 0, room);
      PassOver(s, 8, 11, mtu, 20, room - 20);
      EntriesEnd(s, mtu, 20, room - 20);
      ParseEntry(7, UuidSvc(), []);
      ParseNothing(20);
    } else {
      PassOver(s, start, 11, mtu, 0, room);
      EntriesEnd(s, mtu, 0, room);
    }
  }

  lemma EntriesEnd(s: Server, mtu: nat, size: nat, room: int)
    requires mtu >= MTU_DEFAULT
    ensures Entries(s, HDL_MAX + 1, HDL_MAX, PRIMARY, true, mtu, size, room) == []
    ensures EntrySize(s, HDL_MAX + 1, HDL_MAX, PRIMARY, true, mtu) == 0
  {}

  lemma GroupReqParts(start: nat)
    requires 1 <= start < 65536
    ensures var r := GroupReq(start);
      |r| == 7 && r[0] == 0x10 && Get16(r, 1) == start && Get16(r, 3) == 0xffff && r[5..] == PRIMARY
  {
    hide Le16, Num16;
    Le16Parts(start);
    Le16Parts(0xffff);
    var r, a, b := GroupReq(start), Le16(start), Le16(0xffff);
    assert r[1] == a[0] && r[2] == a[1] && r[3] == b[0] && r[4] == b[1] && r[5] == 0 && r[6] == 0x28;
  }

  lemma GroupResponse(s: Server, start: nat)
    requires 1 <= start < 65536
    ensures OnPdu(s, GroupReq(start)).rsp ==
              if start > HDL_MAX then Error(0x10, start, ATTR_NOT_FOUND)
              else
                var mtu := ClampMtu(s.mtu);
                var n := EntrySize(s, start, HDL_MAX, PRIMARY, true, mtu);
                if n == 0 then Error(0x10, start, ATTR_NOT_FOUND)
                else [0x11, Low(n)] + Entries(s, start, HDL_MAX, PRIMARY, true, mtu, 0, mtu - 2)
  {
    hide Le16, Num16, Error, Entries, EntrySize, Low;
    GroupReqParts(start);
  }

  lemma ServicesFrom(start: nat)
    requires 1 <= start <= HDL_MAX + 1
    ensures start == 1 ==>
              Services(start) ==
                [Service(GAP_SVC, GAP_APP, [0x00, 0x18]), Service(GATT_SVC, GATT_SVC, [0x01, 0x18])] + Services(7)
    ensures 2 <= start <= 6 ==> Services(start) == [Service(GATT_SVC, GATT_SVC, [0x01, 0x18])] + Services(7)
    ensures start == 7 ==> Services(start) == [Service(CUS_SVC, CUS_CCCD, UuidSvc())] + Services(11)
    ensures start > 7 ==> Services(start) == []
  {
    hide UuidSvc;
    var s := Server(23, 0, []);
    hide Entries, EntrySize;
    if start == 1 {
      PassOver(s, 2, 6, 23, 0, 0);
    } else if start <= 6 {
      PassOver(s, start, 6, 23, 0, 0);
    } else if start == 7 {
      PassOver(s, 8, 11, 23, 0, 0);
    } else {
      PassOver(s, start, 11, 23, 0, 0);
    }
  }

  /** One response to Read By Group Type, parsed. */
  lemma GroupStep(s: Server, start: nat)
    requires Sane(s) && 1 <= start <= CUS_SVC
    ensures var rsp := OnPdu(s, GroupReq(start)).rsp;
      && |rsp| >= 2 && rsp[0] == 0x11
      && var g := ParseGroups(rsp[2..], Num8(rsp[1])); var next := if start < CUS_SVC then CUS_SVC else HDL_MAX + 1;
         g != [] && g[|g| - 1].end + 1 == next && Services(start) == g + Services(next)
  {
    hide OnPdu, Entries, EntrySize, ParseGroups, Error, Services, Low, Num8, UuidSvc, GroupReq;
    GroupResponse(s, start);
    ServicesFrom(start);
    var mtu := ClampMtu(s.mtu);
    var b := Entries(s, start, HDL_MAX, PRIMARY, true, mtu, 0, mtu - 2);
    var n := EntrySize(s, start, HDL_MAX, PRIMARY, true, mtu);
    GroupEntries(s, mtu, start);
    LowIsByte(n);
    assert ([0x11, Low(n)] + b)[2..] == b;
  }

  lemma GroupsEnd(s: Server, start: nat)
    requires Sane(s) && CUS_SVC < start <= HDL_MAX + 1
    ensures var rsp := OnPdu(s, GroupReq(start)).rsp; |rsp| == 5 && rsp[0] == 0x01 && rsp[4] == ATTR_NOT_FOUND
    ensures Services(start) == []
  {
    hide OnPdu, Entries, EntrySize, Error, Services, GroupReq, UuidSvc;
    GroupResponse(s, start);
    ServicesFrom(start);
    ErrorParts(0x10, start, ATTR_NOT_FOUND);
    if start <= HDL_MAX { GroupEntries(s, ClampMtu(s.mtu), start); }
  }

  /** For every MTU, repeating Read By Group Type yields every service from `start` on exactly once, in order and
      with its whole uuid, and then Attribute Not Found. */
  lemma {:induction false} DiscoversServices(s: Server, start: nat)
    requires Sane(s) && 1 <= start <= HDL_MAX + 1
    ensures DiscoverGroups(s, start) == Found(Services(start), ATTR_NOT_FOUND)
    decreases HDL_MAX + 1 - start
  {
    hide OnPdu, ParseGroups, Services, Num8, GroupReq;
    if start <= CUS_SVC {
      GroupStep(s, start);
      DiscoversServices(s, if start < CUS_SVC then CUS_SVC else HDL_MAX + 1);
    } else {
      GroupsEnd(s, start);
    }
  }

  // ---------------------------------------------------------------- long reads

  function ReadReq(h: nat): seq<Byte> {
    [0x0a] + Le16(h)
  }

  function BlobReq(h: nat, off: nat): seq<Byte> {
    [0x0c] + Le16(h) + Le16(off)
  }

  /** Read, then Read Blob at growing offsets until a response is short; None when the server refuses. */
  function ReadLong(s: Server, h: nat, off: nat): Option<seq<Byte>>
    decreases 0x10000 - off
  {
    var rsp := OnPdu(s, if off == 0 then ReadReq(h) else BlobReq(h, off)).rsp;
    if |rsp| < 1 || rsp[0] != (if off == 0 then 0x0b else 0x0d) then None
    else
      var part := rsp[1..];
      if |part| < s.mtu - 1 || part == [] || off >= 0x10000 then Some(part)
      else
        match ReadLong(s, h, off + |part|)
        case None => None
        case Some(rest) => Some(part + rest)
  }

  lemma ReadResponse(s: Server, h: nat, off: nat)
    requires h < 65536 && off < 65536
    ensures OnPdu(s, if off == 0 then ReadReq(h) else BlobReq(h, off)).rsp ==
              if off == 0 then ReadAt(s, 0x0a, 0x0b, h, 0) else ReadAt(s, 0x0c, 0x0d, h, off)
  {
    hide Le16, Num16, ReadAt;
    Le16Parts(h);
    Le16Parts(off);
    var r, q, a, b := ReadReq(h), BlobReq(h, off), Le16(h), Le16(off);
    assert r[1] == a[0] && r[2] == a[1] && q[1] == a[0] && q[2] == a[1] && q[3] == b[0] && q[4] == b[1];
  }

  /** One piece of a long read. */
  lemma OnePiece(s: Server, h: nat, off: nat)
    requires Sane(s) && h < 65536 && ValueOf(s, h).Some? && off <= |ValueOf(s, h).value| <= VALUE_MAX
    ensures var v := ValueOf(s, h).value; var n := if |v| - off > s.mtu - 1 then s.mtu - 1 else |v| - off;
      var rsp := OnPdu(s, if off == 0 then ReadReq(h) else BlobReq(h, off)).rsp;
      |rsp| == n + 1 && rsp[0] == (if off == 0 then 0x0b else 0x0d) && rsp[1..] == v[off..off + n]
  {
    hide OnPdu, ValueOf, Error, ReadReq, BlobReq;
    ReadResponse(s, h, off);
  }

  /** For every MTU and every readable attribute, the pieces make up exactly its value. */
  lemma {:induction false} ReassemblesFrom(s: Server, h: nat, off: nat)
    requires Sane(s) && h < 65536 && ValueOf(s, h).Some? && off <= |ValueOf(s, h).value| <= VALUE_MAX
    ensures ReadLong(s, h, off) == Some(ValueOf(s, h).value[off..])
    decreases VALUE_MAX - off
  {
    hide OnPdu, ValueOf, ReadReq, BlobReq;
    OnePiece(s, h, off);
    var v := ValueOf(s, h).value;
    var n := if |v| - off > s.mtu - 1 then s.mtu - 1 else |v| - off;
    assert v[off..off + n] + v[off + n..] == v[off..];
    if n == s.mtu - 1 {
      ReassemblesFrom(s, h, off + n);
    } else {
      assert v[off..off + n] == v[off..];
    }
  }

  lemma ValuesFit(s: Server, h: nat)
    requires Sane(s) && ValueOf(s, h).Some?
    ensures |ValueOf(s, h).value| <= VALUE_MAX
  {}

  lemma Reassembles(s: Server, h: nat)
    requires Sane(s) && h < 65536 && ValueOf(s, h).Some?
    ensures ReadLong(s, h, 0) == ValueOf(s, h)
  {
    ValuesFit(s, h);
    hide ValueOf, ReadLong;
    ReassemblesFrom(s, h, 0);
  }

  function WriteReq(op: Byte, v: seq<Byte>): seq<Byte> {
    [op] + Le16(CUS_VAL) + v
  }

  lemma WriteParts(op: Byte, v: seq<Byte>)
    ensures var r := WriteReq(op, v); |r| >= 3 && r[0] == op && Get16(r, 1) == CUS_VAL && r[3..] == v
  {
    hide Le16, Num16;
    Le16Parts(CUS_VAL);
    var r, a := WriteReq(op, v), Le16(CUS_VAL);
    assert r[1] == a[0] && r[2] == a[1];
  }

  /** A write of at most 64 bytes is accepted and reads back whole, for every MTU; a longer one is refused and
      changes nothing. */
  lemma WriteThenRead(s: Server, op: Byte, v: seq<Byte>)
    requires Sane(s) && op in {0x12, 0x52}
    ensures var o := OnPdu(s, WriteReq(op, v));
      && (|v| <= VALUE_MAX ==>
            o.rsp == (if op == 0x12 then [0x13] else []) && ReadLong(o.server, CUS_VAL, 0) == Some(v))
      && (|v| > VALUE_MAX ==>
            o.server == s && o.rsp == if op == 0x12 then Error(op, CUS_VAL, INVAL_ATTR_VALUE_LEN) else [])
  {
    hide ReadLong, Error;
    WriteParts(op, v);
    if |v| <= VALUE_MAX { Reassembles(s.(value := v), CUS_VAL); }
  }
}
