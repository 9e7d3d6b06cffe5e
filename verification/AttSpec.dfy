/** The ATT server of package/tester1/blegatt.cpp: its attribute table, and the answer to every request
    (Bluetooth Core Specification Vol 3 Part F, section 3.4). */
module AttSpec {
  import opened Bytes
  import opened Options

  const MTU_DEFAULT: nat := 23
  const MTU_MAX: nat := 128
  const VALUE_MAX: nat := 64

  // Handles
  const GAP_SVC: nat := 1
  const GAP_NAME_CH: nat := 2
  const GAP_NAME: nat := 3
  const GAP_APP_CH: nat := 4
  const GAP_APP: nat := 5
  const GATT_SVC: nat := 6
  const CUS_SVC: nat := 7
  const CUS_CH: nat := 8
  const CUS_VAL: nat := 9
  const CUS_CCCD: nat := 10
  const HDL_MAX: nat := 10

  // Error codes
  const INVALID_HANDLE: Byte := 0x01
  const WRITE_NOT_PERM: Byte := 0x03
  const INVALID_PDU: Byte := 0x04
  const REQ_NOT_SUPP: Byte := 0x06
  const INVALID_OFFSET: Byte := 0x07
  const ATTR_NOT_FOUND: Byte := 0x0a
  const INVAL_ATTR_VALUE_LEN: Byte := 0x0d
  const UNSUPP_GRP_TYPE: Byte := 0x10

  /** What the server remembers: the MTU, the client configuration and the characteristic value. */
  datatype Server = Server(mtu: nat, cccd: nat, value: seq<Byte>)

  predicate Sane(s: Server) {
    MTU_DEFAULT <= s.mtu <= MTU_MAX && s.cccd < 65536 && |s.value| <= VALUE_MAX
  }

  function UuidSvc(): (u: seq<Byte>)
    ensures |u| == 16
  {
    [0xf0, 0xde, 0xbc, 0x9a, 0x78, 0x56, 0x34, 0x12, 0x78, 0x56, 0x34, 0x12, 0x78, 0x56, 0x34, 0x12]
  }

  function UuidChr(): (u: seq<Byte>)
    ensures |u| == 16
  {
    [0xf1, 0xde, 0xbc, 0x9a, 0x78, 0x56, 0x34, 0x12, 0x78, 0x56, 0x34, 0x12, 0x78, 0x56, 0x34, 0x12]
  }

  /** "tester" */
  function Name(): (u: seq<Byte>)
    ensures |u| == 6
  {
    [0x74, 0x65, 0x73, 0x74, 0x65, 0x72]
  }

  /** att_type_get; nothing for a handle outside the table. */
  function TypeOf(h: nat): (t: seq<Byte>)
    ensures |t| == if h == CUS_VAL then 16 else if 1 <= h <= HDL_MAX then 2 else 0
  {
    if h == GAP_SVC || h == GATT_SVC || h == CUS_SVC then [0x00, 0x28]
    else if h == GAP_NAME_CH || h == GAP_APP_CH || h == CUS_CH then [0x03, 0x28]
    else if h == GAP_NAME then [0x00, 0x2a]
    else if h == GAP_APP then [0x01, 0x2a]
    else if h == CUS_CCCD then [0x02, 0x29]
    else if h == CUS_VAL then UuidChr()
    else []
  }

  /** att_group_end; 0 for anything but a service. */
  function GroupEnd(h: nat): nat {
    if h == GAP_SVC then GAP_APP else if h == GATT_SVC then GATT_SVC else if h == CUS_SVC then CUS_CCCD else 0
  }

  /** att_value */
  function ValueOf(s: Server, h: nat): Option<seq<Byte>> {
    if h == GAP_SVC then Some([0x00, 0x18])
    else if h == GATT_SVC then Some([0x01, 0x18])
    else if h == CUS_SVC then Some(UuidSvc())
    else if h == GAP_NAME_CH then Some([0x02] + Le16(GAP_NAME) + [0x00, 0x2a])
    else if h == GAP_APP_CH then Some([0x02] + Le16(GAP_APP) + [0x01, 0x2a])
    else if h == CUS_CH then Some([0x1e] + Le16(CUS_VAL) + UuidChr())
    else if h == GAP_NAME then Some(Name())
    else if h == GAP_APP then Some([0, 0])
    else if h == CUS_VAL then Some(s.value)
    else if h == CUS_CCCD then Some(Le16(s.cccd))
    else None
  }

  /** A value, if there is one and it fits a buffer of `max` bytes. */
  function ValueUpTo(s: Server, h: nat, max: nat): Option<seq<Byte>> {
    var v := ValueOf(s, h);
    if v.Some? && |v.value| <= max then v else None
  }

  // ---------------------------------------------------------------- requests

  function Get16(p: seq<Byte>, i: nat): nat
    requires i + 2 <= |p|
  {
    Num16(p[i], p[i + 1])
  }

  /** att_error */
  function Error(op: Byte, h: nat, code: Byte): seq<Byte> {
    [0x01, op] + Le16(h) + [code]
  }

  /** att_range */
  predicate RangeOk(req: seq<Byte>) {
    |req| >= 5 && 0 < Get16(req, 1) <= Get16(req, 3)
  }

  function Last(end: nat): nat {
    if end > HDL_MAX then HDL_MAX else end
  }

  function ClampMtu(m: nat): nat {
    if m < MTU_DEFAULT then MTU_DEFAULT else if m > MTU_MAX then MTU_MAX else m
  }

  /** The pairs of a Find Information response: handles from `h` on whose types have `ulen` bytes, while there
      is room. */
  function InfoPairs(h: nat, last: nat, ulen: nat, room: int): seq<Byte>
    decreases last + 1 - h
  {
    if h > last || |TypeOf(h)| != ulen || 2 + ulen > room then []
    else Le16(h) + TypeOf(h) + InfoPairs(h + 1, last, ulen, room - (2 + ulen))
  }

  function FindInfo(s: Server, req: seq<Byte>): seq<Byte>
    requires |req| >= 1
  {
    if !RangeOk(req) then Error(req[0], 0, INVALID_HANDLE)
    else
      var start := Get16(req, 1);
      if start > HDL_MAX then Error(req[0], start, ATTR_NOT_FOUND)
      else
        var ulen := |TypeOf(start)|;
        [0x05, if ulen == 16 then 0x02 else 0x01] + InfoPairs(start, Last(Get16(req, 3)), ulen, ClampMtu(s.mtu) - 2)
  }

  /** The handle pairs of a Find By Type Value response. */
  function TypeValuePairs(s: Server, h: nat, last: nat, ofServices: bool, want: seq<Byte>, room: int): seq<Byte>
    decreases last + 1 - h
  {
    if h > last then []
    else if !ofServices || GroupEnd(h) == 0 || ValueUpTo(s, h, 32) != Some(want) then
      TypeValuePairs(s, h + 1, last, ofServices, want, room)
    else if 4 > room then []
    else Le16(h) + Le16(GroupEnd(h)) + TypeValuePairs(s, h + 1, last, ofServices, want, room - 4)
  }

  function FindByType(s: Server, req: seq<Byte>): seq<Byte>
    requires |req| >= 1
  {
    if |req| < 7 then Error(req[0], 0, INVALID_PDU)
    else if !RangeOk(req) then Error(req[0], 0, INVALID_HANDLE)
    else
      var start := Get16(req, 1);
      if start > HDL_MAX then Error(req[0], start, ATTR_NOT_FOUND)
      else
        var pairs := TypeValuePairs(s, start, Last(Get16(req, 3)), Get16(req, 5) ==
            0x2800, req[7..], ClampMtu(s.mtu) - 1);
        if pairs == [] then Error(req[0], start, ATTR_NOT_FOUND) else [0x07] + pairs
  }

  /** The part of a value that fits an entry, behind the handles. */
  function Trimmed(v: seq<Byte>, head: nat, mtu: nat): seq<Byte>
    requires mtu >= MTU_DEFAULT && head <= 4
  {
    if head + |v| > mtu - 2 then v[..mtu - 2 - head] else v
  }

  /** One entry of a Read By Type or Read By Group Type response. */
  function Entry(h: nat, grouped: bool, v: seq<Byte>): seq<Byte> {
    Le16(h) + (if grouped then Le16(GroupEnd(h)) else []) + v
  }

  /** Whether the loop of Read By (Group) Type looks at the handle. */
  predicate Wanted(s: Server, h: nat, want: seq<Byte>, grouped: bool) {
    TypeOf(h) == want && (grouped ==> GroupEnd(h) != 0) && ValueUpTo(s, h, VALUE_MAX).Some?
  }

  /** The entries of a Read By Type or Read By Group Type response, all of the size of the first; `size` is 0
      until there is a first. */
  function Entries(s: Server, h: nat, last: nat, want: seq<Byte>, grouped: bool, mtu: nat, size: nat,
      room: int): seq<Byte>
    requires mtu >= MTU_DEFAULT
    decreases last + 1 - h
  {
    if h > last then []
    else if !Wanted(s, h, want, grouped) then Entries(s, h + 1, last, want, grouped, mtu, size, room)
    else
      var v := ValueOf(s, h).value;
      var head := if grouped then 4 else 2;
      var t := Trimmed(v, head, mtu);
      if (size != 0 && head + |t| != size) || head + |t| > room then []
      else if |t| < |v| then Entry(h, grouped, t)
      else Entry(h, grouped, t) + Entries(s, h + 1, last, want, grouped, mtu, head + |t|, room - (head + |t|))
  }

  /** The size of the first entry, 0 when there is none. */
  function EntrySize(s: Server, h: nat, last: nat, want: seq<Byte>, grouped: bool, mtu: nat): nat
    requires mtu >= MTU_DEFAULT
    decreases last + 1 - h
  {
    if h > last then 0
    else if !Wanted(s, h, want, grouped) then EntrySize(s, h + 1, last, want, grouped, mtu)
    else
      var head := if grouped then 4 else 2;
      head + |Trimmed(ValueOf(s, h).value, head, mtu)|
  }

  function ReadByType(s: Server, req: seq<Byte>, grouped: bool): seq<Byte>
    requires |req| >= 1
  {
    if |req| < 7 || (|req| != 7 && |req| != 21) then Error(req[0], 0, INVALID_PDU)
    else if !RangeOk(req) then Error(req[0], 0, INVALID_HANDLE)
    else
      var start, want := Get16(req, 1), req[5..];
      if grouped && want != [0x00, 0x28] then Error(req[0], start, UNSUPP_GRP_TYPE)
      else if start > HDL_MAX then Error(req[0], start, ATTR_NOT_FOUND)
      else
        var mtu, last := ClampMtu(s.mtu), Last(Get16(req, 3));
        var size := EntrySize(s, start, last, want, grouped, mtu);
        if size == 0 then Error(req[0], start, ATTR_NOT_FOUND)
        else [if grouped then 0x11 else 0x09, Low(size)] + Entries(s, start, last, want, grouped, mtu, 0, mtu - 2)
  }

  function ReadAt(s: Server, op: Byte, rspOp: Byte, h: nat, off: nat): seq<Byte> {
    match ValueUpTo(s, h, VALUE_MAX)
    case None => Error(op, h, INVALID_HANDLE)
    case Some(v) =>
      if off > |v| then Error(op, h, INVALID_OFFSET)
      else
        var n := if |v| - off > ClampMtu(s.mtu) - 1 then ClampMtu(s.mtu) - 1 else |v| - off;
        [rspOp] + v[off..off + n]
  }

  /** att_write: the error code, 0 for success, and the new state. */
  function Written(s: Server, h: nat, v: seq<Byte>): (Byte, Server) {
    if h == CUS_CCCD then
      if |v| != 2 then (INVAL_ATTR_VALUE_LEN, s) else (0, s.(cccd := Get16(v, 0)))
    else if h == CUS_VAL then
      if |v| > VALUE_MAX then (INVAL_ATTR_VALUE_LEN, s) else (0, s.(value := v))
    else if h < GAP_SVC || h > HDL_MAX then (INVALID_HANDLE, s)
    else (WRITE_NOT_PERM, s)
  }

  datatype Outcome = Outcome(server: Server, rsp: seq<Byte>)

  /** att_on_pdu; an empty response is none. */
  function OnPdu(s: Server, req: seq<Byte>): Outcome {
    if |req| < 1 then Outcome(s, [])
    else
      var op := req[0];
      if op == 0x02 then
        if |req| < 3 || Get16(req, 1) < MTU_DEFAULT then Outcome(s, Error(op, 0, INVALID_PDU))
        else Outcome(s.(mtu := if Get16(req, 1) < MTU_MAX then Get16(req, 1) else MTU_MAX), [0x03] + Le16(MTU_MAX))
      else if op == 0x04 then Outcome(s, FindInfo(s, req))
      else if op == 0x06 then Outcome(s, FindByType(s, req))
      else if op == 0x08 then Outcome(s, ReadByType(s, req, false))
      else if op == 0x10 then Outcome(s, ReadByType(s, req, true))
      else if op == 0x0a then
        Outcome(s, if |req| < 3 then Error(op, 0, INVALID_PDU) else ReadAt(s, op, 0x0b, Get16(req, 1), 0))
      else if op == 0x0c then
        Outcome(s, if |req| < 5 then Error(op, 0, INVALID_PDU) else ReadAt(s, op, 0x0d, Get16(req, 1), Get16(req, 3)))
      else if op == 0x12 || op == 0x52 then
        if |req| < 3 then Outcome(s, if op == 0x52 then [] else Error(op, 0, INVALID_PDU))
        else
          var w := Written(s, Get16(req, 1), req[3..]);
          Outcome(w.1, if op == 0x52 then [] else if w.0 != 0 then Error(op, Get16(req, 1), w.0) else [0x13])
      else Outcome(s, Error(op, if |req| >= 3 then Get16(req, 1) else 0, REQ_NOT_SUPP))
  }

  // ---------------------------------------------------------------- sizes

  lemma {:induction false} InfoFits(h: nat, last: nat, ulen: nat, room: int)
    ensures room >= 0 ==> |InfoPairs(h, last, ulen, room)| <= room
    decreases last + 1 - h
  {
    hide Le16, TypeOf;
    if !(h > last || |TypeOf(h)| != ulen || 2 + ulen > room) {
      Le16Size(h);
      InfoFits(h + 1, last, ulen, room - (2 + ulen));
    }
  }

  lemma Le16Size(n: nat)
    ensures |Le16(n)| == 2
  {}

  lemma {:induction false} TypeValueFits(s: Server, h: nat, last: nat, ofServices: bool, want: seq<Byte>, room: int)
    requires room >= 0
    ensures |TypeValuePairs(s, h, last, ofServices, want, room)| <= room
    decreases last + 1 - h
  {
    hide Le16, ValueUpTo, GroupEnd;
    if h <= last {
      Le16Size(h);
      Le16Size(GroupEnd(h));
      TypeValueFits(s, h + 1, last, ofServices, want, room);
      if room >= 4 { TypeValueFits(s, h + 1, last, ofServices, want, room - 4); }
    }
  }

  lemma {:induction false} EntriesFit(s: Server, h: nat, last: nat, want: seq<Byte>, grouped: bool, mtu: nat,
      size: nat, room: int)
    requires mtu >= MTU_DEFAULT && room >= 0
    ensures |Entries(s, h, last, want, grouped, mtu, size, room)| <= room
    decreases last + 1 - h
  {
    hide Le16, Wanted, ValueOf, GroupEnd, Trimmed;
    if h <= last {
      if !Wanted(s, h, want, grouped) {
        EntriesFit(s, h + 1, last, want, grouped, mtu, size, room);
      } else {
        WantedHasValue(s, h, want, grouped);
        var head := if grouped then 4 else 2;
        var t := Trimmed(ValueOf(s, h).value, head, mtu);
        Le16Size(h);
        Le16Size(GroupEnd(h));
        if head + |t| <= room {
          EntriesFit(s, h + 1, last, want, grouped, mtu, head + |t|, room - (head + |t|));
        }
      }
    }
  }

  lemma WantedHasValue(s: Server, h: nat, want: seq<Byte>, grouped: bool)
    requires Wanted(s, h, want, grouped)
    ensures ValueOf(s, h).Some? && |ValueOf(s, h).value| <= VALUE_MAX
  {}

  lemma ErrorSize(op: Byte, h: nat, code: Byte)
    ensures |Error(op, h, code)| == 5
  {}

  /** Every response fits the MTU, whatever the request. */
  lemma ResponseFits(s: Server, req: seq<Byte>)
    requires Sane(s)
    ensures |OnPdu(s, req).rsp| <= s.mtu
  {
    hide Error, Le16, InfoPairs, TypeValuePairs, Entries, EntrySize, Get16, ValueUpTo, TypeOf, Written, Num16;
    forall op: Byte, h: nat, code: Byte ensures |Error(op, h, code)| == 5 { ErrorSize(op, h, code); }
    Le16Size(MTU_MAX);
    if |req| >= 5 && RangeOk(req) {
      var start, last := Get16(req, 1), Last(Get16(req, 3));
      InfoFits(start, last, |TypeOf(start)|, s.mtu - 2);
      if |req| >= 7 {
        TypeValueFits(s, start, last, Get16(req, 5) == 0x2800, req[7..], s.mtu - 1);
        EntriesFit(s, start, last, req[5..], true, s.mtu, 0, s.mtu - 2);
        EntriesFit(s, start, last, req[5..], false, s.mtu, 0, s.mtu - 2);
      }
    }
  }

  /** The MTU stays between 23 and 128 and the value within 64 bytes. */
  lemma StaysSane(s: Server, req: seq<Byte>)
    requires Sane(s)
    ensures Sane(OnPdu(s, req).server)
  {
    hide FindInfo, FindByType, ReadByType, ReadAt, Error, Le16;
    if |req| >= 3 { Num16Bound(req[1], req[2]); }
    if |req| == 5 { Num16Bound(req[3], req[4]); }
    hide Num16;
  }
}
