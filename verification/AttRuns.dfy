/** What the ATT server does in the client's terms: the negotiated MTU over whole histories, the attribute table byte by
    byte, and what its answers name (package/tester1/blegatt.cpp:540-829, 1037-1066; Bluetooth Core Specification Vol 3
    Part F, section 3.4). */
module AttRuns {
  import opened Bytes
  import opened AttSpec
  import opened AttClient
  import opened Att
  import opened Options

  // ---------------------------------------------------------------- the MTU

  /** An Exchange MTU request with an MTU that the specification allows. */
  predicate Offers(req: seq<Byte>) {
    |req| >= 3 && req[0] == 0x02 && Num16(req[1], req[2]) >= 23
  }

  /** What the client has offered since it connected; 23 before it offers anything. */
  function Offer(es: seq<Event>): nat
    decreases |es|
  {
    if es == [] then 23
    else
      var before, e := es[..|es| - 1], es[|es| - 1];
      if e.Connected? || !History(es).1 then 23
      else if e.Request? && Offers(e.req) then Num16(e.req[1], e.req[2])
      else Offer(before)
  }

  /** A write, acknowledged or not, of the client configuration; and one of the value. */
  predicate Configures(req: seq<Byte>) {
    |req| == 5 && req[0] in {0x12, 0x52} && Num16(req[1], req[2]) == 10
  }

  predicate Stores(req: seq<Byte>) {
    3 <= |req| <= 67 && req[0] in {0x12, 0x52} && Num16(req[1], req[2]) == 9
  }

  /** What the client has configured since it connected. */
  function Configured(es: seq<Event>): nat
    decreases |es|
  {
    if es == [] then 0
    else
      var before, e := es[..|es| - 1], es[|es| - 1];
      if e.Connected? || !History(es).1 then 0
      else if e.Request? && Configures(e.req) then Num16(e.req[3], e.req[4])
      else Configured(before)
  }

  /** The last value written by a client or notified; it outlives connections. */
  function Stored(es: seq<Event>): seq<Byte>
    decreases |es|
  {
    if es == [] then []
    else
      var before, e := es[..|es| - 1], es[|es| - 1];
      if e.Request? && History(before).1 && Stores(e.req) then e.req[3..]
      else if e.Notified? && Sent(History(before).0, History(before).1, e) != [] then e.text
      else Stored(before)
  }

  /** Over every history: the MTU in force is the client's last offer, cut to 128; the configuration is what the client
      wrote last since it connected; the value is the last one written or notified. */
  lemma {:induction false} StateIsHistory(es: seq<Event>)
    ensures History(es).0 == Server(if Offer(es) < 128 then Offer(es) else 128, Configured(es), Stored(es))
    ensures !History(es).1 ==> Offer(es) == 23
    decreases |es|
  {
    hide OnPdu, Le16, Num16;
    if es != [] {
      var before, e := es[..|es| - 1], es[|es| - 1];
      StateIsHistory(before);
      if e.Request? { RequestEffect(History(before).0, e.req); }
    }
  }

  lemma RequestEffect(s: Server, req: seq<Byte>)
    ensures OnPdu(s, req).server ==
              Server(if !Offers(req) then s.mtu
                     else if Num16(req[1], req[2]) < 128 then Num16(req[1], req[2]) else 128,
                     if Configures(req) then Num16(req[3], req[4]) else s.cccd,
                     if Stores(req) then req[3..] else s.value)
  {
    hide FindInfo, FindByType, ReadByType, ReadAt, Error, Le16, Num16;
  }

  /** A notification goes out exactly while the client has asked for them, if it fits. */
  lemma NotifiesWhenAsked(es: seq<Event>, text: seq<Byte>, sends: bool)
    ensures var h := History(es);
      Sent(h.0, h.1, Notified(text, sends)) ==
        if h.1 && Configured(es) % 2 == 1 && |text| <= 64 && 3 + |text| <= Offer(es) && 3 + |text| <= 128
        then [0x1b, 9, 0] + text else []
  {
    StateIsHistory(es);
    SmallLe16();
    hide OnPdu, Le16;
    assert [0x1b] + Le16(9) + text == [0x1b, 9, 0] + text;
  }

  /** The answer to an exchange announces 128; one with less than 23 is refused and changes nothing. */
  lemma ExchangeAnswer(s: Server, req: seq<Byte>)
    requires |req| >= 1 && req[0] == 0x02
    ensures Offers(req) ==> OnPdu(s, req).rsp == [0x03, 128, 0]
    ensures !Offers(req) ==> OnPdu(s, req) == Outcome(s, [0x01, 0x02, 0, 0, 0x04])
  {
    hide Num16;
  }

  /** So whatever the server sends, response or notification, is within what the client offered. */
  lemma SentFitsOffer(es: seq<Event>, e: Event)
    ensures var h := History(es); |Sent(h.0, h.1, e)| <= Offer(es)
  {
    StateIsHistory(es);
    hide OnPdu, Sane;
    if e.Request? { AlwaysSane(es, e.req); }
    Le16Size(CUS_VAL);
  }

  // ---------------------------------------------------------------- the table

  /** The table as the header of the source file lays it out: three services, three characteristics. */
  const TABLE: seq<Info> := [
    Info(1, [0x00, 0x28]), Info(2, [0x03, 0x28]), Info(3, [0x00, 0x2a]), Info(4, [0x03, 0x28]), Info(5, [0x01, 0x2a]),
    Info(6, [0x00, 0x28]),
    Info(7, [0x00, 0x28]), Info(8, [0x03, 0x28]),
    Info(9, [0xf1, 0xde, 0xbc, 0x9a, 0x78, 0x56, 0x34, 0x12, 0x78, 0x56, 0x34, 0x12, 0x78, 0x56, 0x34, 0x12]),
    Info(10, [0x02, 0x29])]

  lemma {:induction false} TableFrom(h: nat)
    requires 1 <= h <= 11
    ensures Attributes(h, 11) == TABLE[h - 1..]
    decreases 11 - h
  {
    if h < 11 {
      TableFrom(h + 1);
      assert TABLE[h - 1..] == [TABLE[h - 1]] + TABLE[h..];
      assert TABLE[h - 1] == Info(h, TypeOf(h));
    }
  }

  /** A client that discovers the attributes finds exactly this table, for every MTU. */
  lemma FindsTheTable(s: Server)
    requires Sane(s)
    ensures DiscoverInfo(s, 1) == Found(TABLE, 0x0a)
  {
    hide DiscoverInfo, TypeOf;
    DiscoversAttributes(s, 1);
    TableFrom(1);
    assert TABLE[0..] == TABLE;
  }

  /** What each attribute reads as. */
  function Reading(s: Server, h: nat): seq<Byte> {
    if h == 1 then [0x00, 0x18] else if h == 2 then [0x02, 3, 0, 0x00, 0x2a]
    else if h == 3 then [0x74, 0x65, 0x73, 0x74, 0x65, 0x72] else if h == 4 then [0x02, 5, 0, 0x01, 0x2a]
    else if h == 5 then [0, 0] else if h == 6 then [0x01, 0x18]
    else if h == 7 then [0xf0, 0xde, 0xbc, 0x9a, 0x78, 0x56, 0x34, 0x12, 0x78, 0x56, 0x34, 0x12, 0x78, 0x56, 0x34, 0x12]
    else if h == 8 then [0x1e, 9, 0] + TABLE[8].uuid
    else if h == 9 then s.value else Le16(s.cccd)
  }

  lemma ReadsAs(s: Server, h: nat)
    requires Sane(s) && h < 65536
    ensures if 1 <= h <= 10 then ReadLong(s, h, 0) == Some(Reading(s, h))
            else OnPdu(s, ReadReq(h)).rsp == [0x01, 0x0a] + Le16(h) + [0x01]
  {
    hide Le16, ReadLong, OnPdu, Num16, Reading;
    if 1 <= h <= 10 {
      ValueIsReading(s, h);
      Reassembles(s, h);
    } else {
      ReadResponse(s, h, 0);
    }
  }

  lemma ValueIsReading(s: Server, h: nat)
    requires 1 <= h <= 10
    ensures ValueOf(s, h) == Some(Reading(s, h))
  {
    hide Le16;
    SmallLe16();
    assert [0x02] + Le16(3) + [0x00, 0x2a] == [0x02, 3, 0, 0x00, 0x2a];
    assert [0x02] + Le16(5) + [0x01, 0x2a] == [0x02, 5, 0, 0x01, 0x2a];
    assert [0x1e] + Le16(9) + UuidChr() == [0x1e, 9, 0] + TABLE[8].uuid;
  }

  lemma SmallLe16()
    ensures Le16(3) == [3, 0] && Le16(5) == [5, 0] && Le16(9) == [9, 0]
  {
    Le16Num16(3, 0);
    Le16Num16(5, 0);
    Le16Num16(9, 0);
    hide Le16;
  }

  // ---------------------------------------------------------------- writes

  /** A write command, or request, to any handle. */
  function WriteTo(op: Byte, h: nat, v: seq<Byte>): seq<Byte> {
    [op] + Le16(h) + v
  }

  lemma WriteToParts(op: Byte, h: nat, v: seq<Byte>)
    requires h < 65536
    ensures var r := WriteTo(op, h, v); |r| >= 3 && r[0] == op && Get16(r, 1) == h && r[3..] == v
  {
    hide Le16, Num16;
    Le16Parts(h);
    var r, a := WriteTo(op, h, v), Le16(h);
    assert r[1] == a[0] && r[2] == a[1];
  }

  /** Only the value and the client configuration can be written, the latter with exactly two bytes; everything else is
      refused with the code the specification has for it, and leaves the server as it was. */
  lemma WriteOutcome(s: Server, h: nat, v: seq<Byte>)
    requires h < 65536
    ensures var o := OnPdu(s, WriteTo(0x12, h, v));
      if h == 9 && |v| <= 64 then o == Outcome(s.(value := v), [0x13])
      else if h == 10 && |v| == 2 then o == Outcome(s.(cccd := Num16(v[0], v[1])), [0x13])
      else
        var code: Byte := if h == 9 || h == 10 then 0x0d else if h == 0 || h > 10 then 0x01 else 0x03;
        o == Outcome(s, [0x01, 0x12] + Le16(h) + [code])
    ensures OnPdu(s, WriteTo(0x52, h, v)) == Outcome(OnPdu(s, WriteTo(0x12, h, v)).server, [])
  {
    WriteToParts(0x12, h, v);
    WriteToParts(0x52, h, v);
    hide Le16, Num16;
  }

  /** Two bytes written to the client configuration read back. */
  lemma ConfigurationReadsBack(s: Server, v: seq<Byte>)
    requires Sane(s) && |v| == 2
    ensures ReadLong(OnPdu(s, WriteTo(0x12, 10, v)).server, 10, 0) == Some(v)
  {
    WriteOutcome(s, 10, v);
    Num16Bound(v[0], v[1]);
    var s' := s.(cccd := Num16(v[0], v[1]));
    assert Sane(s');
    Reassembles(s', 10);
    Le16Num16(v[0], v[1]);
    assert v == [v[0], v[1]];
    hide OnPdu, ReadLong, Le16, Num16;
  }

  // ---------------------------------------------------------------- refusals

  /** The code a request is refused with because of its form. */
  function Malformed(req: seq<Byte>): Option<Byte>
    requires |req| >= 1
  {
    match req[0]
    case 0x02 => if |req| < 3 then Some(0x04) else None
    case 0x04 => if |req| < 5 then Some(0x01) else None
    case 0x06 => if |req| < 7 then Some(0x04) else None
    case 0x08 => if |req| != 7 && |req| != 21 then Some(0x04) else None
    case 0x10 => if |req| != 7 && |req| != 21 then Some(0x04) else None
    case 0x0a => if |req| < 3 then Some(0x04) else None
    case 0x0c => if |req| < 5 then Some(0x04) else None
    case 0x12 => if |req| < 3 then Some(0x04) else None
    case _ => None
  }

  /** A malformed request is refused and changes nothing; nothing at all, and a malformed write command, get no answer;
      what the server does not know gets Request Not Supported, with the handle it may name. */
  lemma Refuses(s: Server, req: seq<Byte>)
    ensures |req| == 0 ==> OnPdu(s, req) == Outcome(s, [])
    ensures |req| >= 1 && Malformed(req).Some? ==>
        OnPdu(s, req) == Outcome(s, [0x01, req[0], 0, 0, Malformed(req).value])
    ensures 1 <= |req| < 3 && req[0] == 0x52 ==> OnPdu(s, req) == Outcome(s, [])
    ensures |req| >= 1 && req[0] !in {0x02, 0x04, 0x06, 0x08, 0x0a, 0x0c, 0x10, 0x12, 0x52} ==>
              OnPdu(s, req) ==
                Outcome(s, [0x01, req[0]] + Le16(if |req| >= 3 then Num16(req[1], req[2]) else 0) + [0x06])
  {
    ZeroLe16();
    hide Le16, Num16, InfoPairs, TypeValuePairs, Entries, EntrySize, ReadAt, Written;
  }

  lemma ZeroLe16()
    ensures Le16(0) == [0, 0]
  {
    Le16Num16(0, 0);
    hide Le16;
  }

  /** A group is asked for by the type of primary services only. */
  lemma GroupTypeRefused(s: Server, req: seq<Byte>)
    requires (|req| == 7 || |req| == 21) && req[0] == 0x10 && req[5..] != [0x00, 0x28]
    requires 0 < Num16(req[1], req[2]) <= Num16(req[3], req[4])
    ensures OnPdu(s, req) == Outcome(s, [0x01, 0x10] + Le16(Num16(req[1], req[2])) + [0x10])
  {
    hide Le16, Num16, Entries, EntrySize;
  }

  /** Reading on behind the end of a value is refused. */
  lemma OffsetRefused(s: Server, h: nat, off: nat)
    requires Sane(s) && 1 <= h <= 10 && |Reading(s, h)| < off < 65536
    ensures OnPdu(s, BlobReq(h, off)) == Outcome(s, [0x01, 0x0c] + Le16(h) + [0x07])
  {
    hide Le16, Num16, Reading, ValueOf;
    ValueIsReading(s, h);
    ValuesFit(s, h);
    BlobParts(h, off);
  }

  lemma BlobParts(h: nat, off: nat)
    requires h < 65536 && off < 65536
    ensures var r := BlobReq(h, off); |r| == 5 && r[0] == 0x0c && Get16(r, 1) == h && Get16(r, 3) == off
  {
    hide Le16, Num16;
    Le16Parts(h);
    Le16Parts(off);
    var r, a, b := BlobReq(h, off), Le16(h), Le16(off);
    assert r[1] == a[0] && r[2] == a[1] && r[3] == b[0] && r[4] == b[1];
  }
}
