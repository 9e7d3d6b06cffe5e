/** The ATT server as package/tester1/blegatt.cpp:510-828, 863-960 and 1037-1066 write it: requests answered into a
    response buffer of 128 bytes, and what connections and notifications do to the state. */
module Att {
  import opened Bytes
  import opened AttSpec
  import opened Options

  /** put_le16 and memcpy. */
  method Put(rsp: array<Byte>, pos: nat, b: seq<Byte>)
    requires pos + |b| <= rsp.Length
    modifies rsp
    ensures rsp[pos..pos + |b|] == b && rsp[..pos] == old(rsp[..pos])
  {
    forall j | 0 <= j < |b| {
      rsp[pos + j] := b[j];
    }
  }

  /** Another piece behind what has been written from position `from` on. */
  method Append(rsp: array<Byte>, from: nat, pos: nat, b: seq<Byte>, ghost done: seq<Byte>)
    requires from <= pos && pos + |b| <= rsp.Length && rsp[from..pos] == done
    modifies rsp
    ensures rsp[from..pos + |b|] == done + b
  {
    ghost var before := rsp[..pos];
    Put(rsp, pos, b);
    assert rsp[from..pos] == rsp[..pos][from..] == before[from..] == done;
    assert rsp[from..pos + |b|] == rsp[from..pos] + rsp[pos..pos + |b|];
  }

  /** Two more pieces. */
  method AppendTwo(rsp: array<Byte>, from: nat, pos: nat, a: seq<Byte>, b: seq<Byte>, ghost done: seq<Byte>)
    requires from <= pos && pos + |a| + |b| <= rsp.Length && rsp[from..pos] == done
    modifies rsp
    ensures rsp[from..pos + |a| + |b|] == done + (a + b)
  {
    Append(rsp, from, pos, a, done);
    Append(rsp, from, pos + |a|, b, done + a);
    assert done + a + b == done + (a + b);
  }

  /** What is done and what is still to come make up the whole. */
  lemma Regroup(done: seq<Byte>, b: seq<Byte>, rest: seq<Byte>)
    ensures done + (b + rest) == (done + b) + rest
  {}

  /** The opcode, and one more byte, in front of what has been written. */
  method Head(rsp: array<Byte>, h: seq<Byte>, out: nat, ghost done: seq<Byte>)
    requires |h| <= out <= rsp.Length && rsp[|h|..out] == done
    modifies rsp
    ensures rsp[..out] == h + done
  {
    forall j | 0 <= j < |h| {
      rsp[j] := h[j];
    }
  }

  /** att_error */
  method ErrorInto(rsp: array<Byte>, op: Byte, h: nat, code: Byte) returns (n: nat)
    requires rsp.Length == MTU_MAX
    modifies rsp
    ensures n == 5 && rsp[..n] == Error(op, h, code)
  {
    var e := Error(op, h, code);
    Put(rsp, 0, e);
    n := 5;
  }

  /** The loop of Find Information over the handles. */
  method InfoLoop(mtu: nat, start: nat, last: nat, rsp: array<Byte>) returns (fmt: Byte, out: nat)
    requires MTU_DEFAULT <= mtu <= MTU_MAX == rsp.Length && 1 <= start <= last <= HDL_MAX
    modifies rsp
    ensures 2 <= out <= mtu && fmt == (if |TypeOf(start)| == 16 then 0x02 else 0x01)
    ensures rsp[2..out] == InfoPairs(start, last, |TypeOf(start)|, mtu - 2)
  {
    hide Le16, TypeOf, InfoPairs;
    fmt, out := 0, 2;
    var hdl := start;
    ghost var u, done: seq<Byte> := |TypeOf(start)|, [];
    assert rsp[2..2] == [];
    while hdl <= last
      invariant start <= hdl <= last + 1 && 2 <= out <= mtu && rsp[2..out] == done
      invariant done + InfoPairs(hdl, last, u, mtu - out) == InfoPairs(start, last, u, mtu - 2)
      invariant fmt == if hdl == start then 0 else if u == 16 then 0x02 else 0x01
      decreases last + 1 - hdl
    {
      var uuid := TypeOf(hdl);
      var ulen := |uuid|;
      var form: Byte := if ulen == 16 then 0x02 else 0x01;
      var pair := 2 + ulen;
      TypeSizes(hdl);
      InfoTurn(hdl, last, u, mtu - out);
      if fmt == 0 { fmt := form; }
      if form != fmt || out + pair > mtu { break; }
      ghost var b := Le16(hdl) + uuid;
      AppendTwo(rsp, 2, out, Le16(hdl), uuid, done);
      Regroup(done, b, InfoPairs(hdl + 1, last, u, mtu - out - pair));
      done, out, hdl := done + b, out + pair, hdl + 1;
    }
    InfoEnd(hdl, last, u, mtu - out);
    NothingMore(done);
  }

  lemma TypeSizes(h: nat)
    requires 1 <= h <= HDL_MAX
    ensures |TypeOf(h)| == 2 || |TypeOf(h)| == 16
  {}

  lemma InfoTurn(h: nat, last: nat, u: nat, room: int)
    requires h <= last
    ensures InfoPairs(h, last, u, room) ==
              if |TypeOf(h)| != u || 2 + u > room then []
              else (Le16(h) + TypeOf(h)) + InfoPairs(h + 1, last, u, room - (2 + u))
    ensures |Le16(h)| == 2
  {
    hide TypeOf;
  }

  lemma InfoEnd(h: nat, last: nat, u: nat, room: int)
    ensures h > last ==> InfoPairs(h, last, u, room) == []
  {}

  lemma NothingMore(done: seq<Byte>)
    ensures done + [] == done
  {}

  class Ble {
    var mtu: nat
    var cccd: nat
    const value: array<Byte>
    var valueLen: nat
    var connected: bool

    constructor ()
      ensures Valid() && fresh(value) && Snap() == Server(MTU_DEFAULT, 0, []) && !connected
    {
      mtu, cccd, valueLen, connected := MTU_DEFAULT, 0, 0, false;
      value := new Byte[VALUE_MAX](i => 0);
    }

    ghost function Snap(): Server
      requires valueLen <= value.Length
      reads this, value
    {
      Server(mtu, cccd, value[..valueLen])
    }

    ghost predicate Valid()
      reads this, value
    {
      value.Length == VALUE_MAX && valueLen <= VALUE_MAX && Sane(Snap())
    }

    /** att_value into a buffer of `max` bytes. */
    method AttValue(h: nat, max: nat) returns (v: Option<seq<Byte>>)
      requires Valid()
      ensures v == ValueUpTo(Snap(), h, max)
    {
      var s := Server(mtu, cccd, value[..valueLen]);
      v := ValueUpTo(s, h, max);
    }

    /** ATT_OP_FIND_INFO_REQ */
    method FindInfoInto(req: seq<Byte>, rsp: array<Byte>) returns (n: nat)
      requires Valid() && rsp.Length == MTU_MAX && rsp != value && |req| >= 1
      modifies rsp
      ensures Valid() && Snap() == old(Snap()) && n <= rsp.Length && rsp[..n] == FindInfo(Snap(), req)
    {
      hide Le16, Num16, Error, TypeOf, InfoPairs;
      ghost var s := Snap();
      if !RangeOk(req) {
        n := ErrorInto(rsp, req[0], 0, INVALID_HANDLE);
        return;
      }
      var start, end := Get16(req, 1), Get16(req, 3);
      if start > HDL_MAX {
        n := ErrorInto(rsp, req[0], start, ATTR_NOT_FOUND);
        return;
      }
      var last := Last(end);
      var fmt, out := InfoLoop(mtu, start, last, rsp);
      Head(rsp, [0x05, fmt], out, InfoPairs(start, last, |TypeOf(start)|, mtu - 2));
      n := out;
    }

    /** ATT_OP_FIND_BY_TYPE_REQ */
    method FindByTypeInto(req: seq<Byte>, rsp: array<Byte>) returns (n: nat)
      requires Valid() && rsp.Length == MTU_MAX && rsp != value && |req| >= 1
      modifies rsp
      ensures Valid() && Snap() == old(Snap()) && n <= rsp.Length && rsp[..n] == FindByType(Snap(), req)
    {
      hide Le16, Num16, Error, TypeValuePairs;
      if |req| < 7 {
        n := ErrorInto(rsp, req[0], 0, INVALID_PDU);
        return;
      }
      if !RangeOk(req) {
        n := ErrorInto(rsp, req[0], 0, INVALID_HANDLE);
        return;
      }
      var start, end, kind := Get16(req, 1), Get16(req, 3), Get16(req, 5);
      if start > HDL_MAX {
        n := ErrorInto(rsp, req[0], start, ATTR_NOT_FOUND);
        return;
      }
      var last := Last(end);
      var out := TypeValueLoop(start, last, kind, req[7..], rsp);
      ghost var pairs := TypeValuePairs(Snap(), start, last, kind == 0x2800, req[7..], mtu - 1);
      assert |rsp[1..out]| == out - 1;
      if out == 1 {
        n := ErrorInto(rsp, req[0], start, ATTR_NOT_FOUND);
        return;
      }
      Head(rsp, [0x07], out, pairs);
      n := out;
    }

    method TypeValueLoop(start: nat, last: nat, kind: nat, want: seq<Byte>, rsp: array<Byte>) returns (out: nat)
      requires Valid() && rsp.Length == MTU_MAX && rsp != value && 1 <= start <= last <= HDL_MAX
      modifies rsp
      ensures Valid() && Snap() == old(Snap()) && 1 <= out <= mtu
      ensures rsp[1..out] == TypeValuePairs(Snap(), start, last, kind == 0x2800, want, mtu - 1)
    {
      hide Le16, TypeValuePairs, ValueUpTo, GroupEnd;
      out := 1;
      var hdl := start;
      ghost var s := Snap();
      ghost var done: seq<Byte> := [];
      ghost var full := TypeValuePairs(s, start, last, kind == 0x2800, want, mtu - 1);
      while hdl <= last
        invariant start <= hdl <= last + 1 && 1 <= out <= mtu && rsp[1..out] == done
        invariant done + TypeValuePairs(s, hdl, last, kind == 0x2800, want, mtu - out) == full
        invariant Valid() && Snap() == s
        decreases last + 1 - hdl
      {
        TypeValueTurn(s, hdl, last, kind == 0x2800, want, mtu - out);
        var h := hdl;
        hdl := hdl + 1;
        if kind != 0x2800 { continue; }
        var gend := GroupEnd(h);
        if gend == 0 { continue; }
        var v := AttValue(h, 32);
        if v == None || |v.value| != |want| || v.value != want { continue; }
        if out + 4 > mtu {
          hdl := h;
          break;
        }
        ghost var b := Le16(h) + Le16(gend);
        AppendTwo(rsp, 1, out, Le16(h), Le16(gend), done);
        Regroup(done, b, TypeValuePairs(s, hdl, last, true, want, mtu - out - 4));
        done, out := done + b, out + 4;
      }
      TypeValueEnd(s, hdl, last, kind == 0x2800, want, mtu - out);
      NothingMore(done);
    }

    lemma TypeValueTurn(s: Server, h: nat, last: nat, ofServices: bool, want: seq<Byte>, room: int)
      requires h <= last
      ensures TypeValuePairs(s, h, last, ofServices, want, room) ==
                if !ofServices || GroupEnd(h) == 0 || ValueUpTo(s, h, 32) != Some(want) then
                  TypeValuePairs(s, h + 1, last, ofServices, want, room)
                else if 4 > room then []
                else (Le16(h) + Le16(GroupEnd(h))) + TypeValuePairs(s, h + 1, last, ofServices, want, room - 4)
      ensures |Le16(h)| == 2 && |Le16(GroupEnd(h))| == 2
    {
      hide ValueUpTo, GroupEnd;
    }

    lemma TypeValueEnd(s: Server, h: nat, last: nat, ofServices: bool, want: seq<Byte>, room: int)
      ensures h > last ==> TypeValuePairs(s, h, last, ofServices, want, room) == []
    {}

    /** ATT_OP_READ_BY_TYPE_REQ and ATT_OP_READ_BY_GROUP_REQ */
    method ReadByTypeInto(req: seq<Byte>, grouped: bool, rsp: array<Byte>) returns (n: nat)
      requires Valid() && rsp.Length == MTU_MAX && rsp != value && |req| >= 1
      modifies rsp
      ensures Valid() && Snap() == old(Snap()) && n <= rsp.Length && rsp[..n] == ReadByType(Snap(), req, grouped)
    {
      hide Le16, Num16, Error, Entries, EntrySize, Low;
      if |req| < 7 || (|req| - 5 != 2 && |req| - 5 != 16) {
        n := ErrorInto(rsp, req[0], 0, INVALID_PDU);
        return;
      }
      if !RangeOk(req) {
        n := ErrorInto(rsp, req[0], 0, INVALID_HANDLE);
        return;
      }
      var start, end, want := Get16(req, 1), Get16(req, 3), req[5..];
      if grouped && want != [0x00, 0x28] {
        n := ErrorInto(rsp, req[0], start, UNSUPP_GRP_TYPE);
        return;
      }
      if start > HDL_MAX {
        n := ErrorInto(rsp, req[0], start, ATTR_NOT_FOUND);
        return;
      }
      var last := Last(end);
      var pairLen, out := EntryLoop(start, last, want, grouped, rsp);
      if pairLen == 0 {
        n := ErrorInto(rsp, req[0], start, ATTR_NOT_FOUND);
        return;
      }
      Head(rsp, [if grouped then 0x11 else 0x09, Low(pairLen)], out,
          Entries(Snap(), start, last, want, grouped, mtu, 0, mtu - 2));
      n := out;
    }

    /** The tests at the top of the loop: the value of a handle it looks at. */
    method Candidate(h: nat, want: seq<Byte>, grouped: bool) returns (v: Option<seq<Byte>>)
      requires Valid()
      ensures v == if Wanted(Snap(), h, want, grouped) then ValueUpTo(Snap(), h, VALUE_MAX) else None
    {
      hide ValueUpTo, TypeOf, GroupEnd;
      v := None;
      if TypeOf(h) != want { return; }
      if grouped && GroupEnd(h) == 0 { return; }
      v := AttValue(h, VALUE_MAX);
    }

    /** The value, cut to what fits an entry. */
    method Trim(v: seq<Byte>, head: nat) returns (t: seq<Byte>, trunc: bool)
      requires MTU_DEFAULT <= mtu && head <= 4
      ensures t == Trimmed(v, head, mtu) && (trunc <==> |t| < |v|)
    {
      t, trunc := v, false;
      if head + |v| > mtu - 2 {
        t := v[..mtu - 2 - head];
        trunc := true;
      }
    }

    /** Where the loop over the handles stands: `done` is in the buffer, `full` and `first` are the entries and the
        entry size of the whole response, and `pairLen` 0 stands for the source's -1, before there is a first entry. */
    ghost predicate AtHandle(s: Server, h: nat, last: nat, want: seq<Byte>, grouped: bool, pairLen: nat, room: int,
                             done: seq<Byte>, full: seq<Byte>, first: nat)
      requires s.mtu >= MTU_DEFAULT
    {
      && done + Entries(s, h, last, want, grouped, s.mtu, pairLen, room) == full
      && if pairLen == 0 then room == s.mtu - 2
          && EntrySize(s, h, last, want, grouped, s.mtu) == first else pairLen == first
    }

    /** What the loop does with one handle; `stop` is its break. */
    method OneEntry(h: nat, ghost last: nat, want: seq<Byte>, grouped: bool, rsp: array<Byte>, pairLen0: nat, out0: nat,
                    ghost done0: seq<Byte>, ghost full: seq<Byte>, ghost first: nat)
      returns (stop: bool, pairLen: nat, out: nat, ghost done: seq<Byte>)
      requires Valid() && rsp.Length == MTU_MAX && rsp != value && 1 <= h <= last
      requires 2 <= out0 <= mtu && rsp[2..out0] == done0
      requires AtHandle(Snap(), h, last, want, grouped, pairLen0, mtu - out0, done0, full, first)
      modifies rsp
      ensures Valid() && Snap() == old(Snap()) && 2 <= out <= mtu && rsp[2..out] == done
      ensures if stop then done == full && pairLen == first
              else AtHandle(Snap(), h + 1, last, want, grouped, pairLen, mtu - out, done, full, first)
    {
      hide Le16, Entries, EntrySize, ValueUpTo, ValueOf, GroupEnd, TypeOf, Wanted, Trimmed, Entry;
      stop, pairLen, out, done := false, pairLen0, out0, done0;
      ghost var s := Snap();
      EntryTurn(s, h, last, want, grouped, mtu, pairLen, mtu - out);
      var v := Candidate(h, want, grouped);
      if v == None { return; }
      var head := if grouped then 4 else 2;
      var t, trunc := Trim(v.value, head);
      var pair := head + |t|;
      if pairLen == 0 { pairLen := pair; }
      if pair != pairLen || out + pair > mtu {
        NothingMore(done);
        stop := true;
        return;
      }
      EntryInto(rsp, out, h, grouped, t, done);
      Regroup(done, Entry(h, grouped, t), Entries(s, h + 1, last, want, grouped, mtu, pair, mtu - out - pair));
      done, out, stop := done + Entry(h, grouped, t), out + pair, trunc;
    }

    /** The loop over the handles. */
    method EntryLoop(start: nat, last: nat, want: seq<Byte>, grouped: bool, rsp: array<Byte>)
        returns (pairLen: nat, out: nat)
      requires Valid() && rsp.Length == MTU_MAX && rsp != value && 1 <= start <= last <= HDL_MAX
      modifies rsp
      ensures Valid() && Snap() == old(Snap()) && 2 <= out <= mtu
      ensures pairLen == EntrySize(Snap(), start, last, want, grouped, mtu)
      ensures rsp[2..out] == Entries(Snap(), start, last, want, grouped, mtu, 0, mtu - 2)
    {
      hide AtHandle, Entries, EntrySize;
      pairLen, out := 0, 2;
      var hdl, stop := start, false;
      ghost var s := Snap();
      ghost var done: seq<Byte> := [];
      ghost var full, first := Entries(s, start, last, want, grouped, mtu, 0, mtu - 2),
          EntrySize(s, start, last, want, grouped, mtu);
      EntriesStart(s, start, last, want, grouped);
      while hdl <= last && !stop
        invariant start <= hdl <= last + 1 && 2 <= out <= mtu && rsp[2..out] == done
        invariant if stop then done == full && pairLen == first
                  else AtHandle(s, hdl, last, want, grouped, pairLen, mtu - out, done, full, first)
        invariant Valid() && Snap() == s
        decreases last + 1 - hdl
      {
        stop, pairLen, out, done := OneEntry(hdl, last, want, grouped, rsp, pairLen, out, done, full, first);
        hdl := hdl + 1;
      }
      if !stop { EntriesDone(s, hdl, last, want, grouped, pairLen, mtu - out, done, full, first); }
    }

    lemma EntriesStart(s: Server, start: nat, last: nat, want: seq<Byte>, grouped: bool)
      requires s.mtu >= MTU_DEFAULT
      ensures AtHandle(s, start, last, want, grouped, 0, s.mtu - 2, [],
                       Entries(s, start, last, want, grouped, s.mtu, 0, s.mtu - 2),
                           EntrySize(s, start, last, want, grouped, s.mtu))
    {
      hide Entries, EntrySize;
    }

    lemma EntriesDone(s: Server, h: nat, last: nat, want: seq<Byte>, grouped: bool, pairLen: nat, room: int,
                      done: seq<Byte>, full: seq<Byte>, first: nat)
      requires s.mtu >= MTU_DEFAULT && h > last && AtHandle(s, h, last, want, grouped, pairLen, room, done, full, first)
      ensures done == full && pairLen == first
    {
      EntryEnd(s, h, last, want, grouped, s.mtu, pairLen, room);
      NothingMore(done);
      hide Entries, EntrySize;
    }

    method EntryInto(rsp: array<Byte>, out: nat, h: nat, grouped: bool, t: seq<Byte>, ghost done: seq<Byte>)
      requires 2 <= out && out + (if grouped then 4 else 2) + |t| <= rsp.Length && rsp[2..out] == done
      modifies rsp
      ensures rsp[2..out + (if grouped then 4 else 2) + |t|] == done + Entry(h, grouped, t)
    {
      var a := Le16(h) + if grouped then Le16(GroupEnd(h)) else [];
      AppendTwo(rsp, 2, out, a, t, done);
    }

    /** What the loop does with one handle. */
    lemma EntryTurn(s: Server, h: nat, last: nat, want: seq<Byte>, grouped: bool, mtu: nat, size: nat, room: int)
      requires mtu >= MTU_DEFAULT && h <= last
      ensures Wanted(s, h, want, grouped) <==>
                TypeOf(h) == want && (grouped ==> GroupEnd(h) != 0) && ValueUpTo(s, h, VALUE_MAX).Some?
      ensures !Wanted(s, h, want, grouped) ==>
                && Entries(s, h, last, want, grouped, mtu, size, room) ==
                    Entries(s, h + 1, last, want, grouped, mtu, size, room)
                && EntrySize(s, h, last, want, grouped, mtu) == EntrySize(s, h + 1, last, want, grouped, mtu)
      ensures Wanted(s, h, want, grouped) ==>
                var v := ValueUpTo(s, h, VALUE_MAX).value;
                var head := if grouped then 4 else 2;
                var t := Trimmed(v, head, mtu);
                var n := head + |t|;
                && EntrySize(s, h, last, want, grouped, mtu) == n
                    && |Le16(h) + (if grouped then Le16(GroupEnd(h)) else [])| == head
                && Entries(s, h, last, want, grouped, mtu, size, room) ==
                     if (size != 0 && n != size) || n > room then []
                     else if |t| < |v| then Entry(h, grouped, t)
                     else Entry(h, grouped, t) + Entries(s, h + 1, last, want, grouped, mtu, n, room - n)
    {
      hide TypeOf, GroupEnd, ValueOf;
    }

    lemma EntryEnd(s: Server, h: nat, last: nat, want: seq<Byte>, grouped: bool, mtu: nat, size: nat, room: int)
      requires mtu >= MTU_DEFAULT
      ensures h > last ==> Entries(s, h, last, want, grouped, mtu, size, room) == []
      ensures h > last ==> EntrySize(s, h, last, want, grouped, mtu) == 0
    {}

    /** ATT_OP_READ_REQ and ATT_OP_READ_BLOB_REQ */
    method ReadInto(req: seq<Byte>, rsp: array<Byte>) returns (n: nat)
      requires Valid() && rsp.Length == MTU_MAX && rsp != value && |req| >= 1 && (req[0] == 0x0a || req[0] == 0x0c)
      modifies rsp
      ensures Valid() && Snap() == old(Snap()) && n <= rsp.Length && rsp[..n] == OnPdu(Snap(), req).rsp
    {
      hide Num16, Error, ValueUpTo;
      var op, h, off := req[0], 0, 0;
      if op == 0x0a {
        if |req| < 3 {
          n := ErrorInto(rsp, op, 0, INVALID_PDU);
          return;
        }
        h := Get16(req, 1);
      } else {
        if |req| < 5 {
          n := ErrorInto(rsp, op, 0, INVALID_PDU);
          return;
        }
        h, off := Get16(req, 1), Get16(req, 3);
      }
      var v := AttValue(h, VALUE_MAX);
      if v == None {
        n := ErrorInto(rsp, op, h, INVALID_HANDLE);
        return;
      }
      if off > |v.value| {
        n := ErrorInto(rsp, op, h, INVALID_OFFSET);
        return;
      }
      n := |v.value| - off;
      if n > mtu - 1 { n := mtu - 1; }
      var part := v.value[off..off + n];
      Put(rsp, 0, [if op == 0x0a then 0x0b else 0x0d] + part);
      n := 1 + n;
      assert rsp[..n] == rsp[0..n];
    }

    /** att_write */
    method AttWrite(h: nat, v: seq<Byte>) returns (code: Byte)
      requires Valid()
      modifies this, value
      ensures Valid() && connected == old(connected)
      ensures var w := Written(old(Snap()), h, v); code == w.0 && Snap() == w.1
    {
      hide Num16;
      if h == CUS_CCCD {
        if |v| != 2 { return INVAL_ATTR_VALUE_LEN; }
        Num16Bound(v[0], v[1]);
        cccd := Get16(v, 0);
        return 0;
      }
      if h == CUS_VAL {
        if |v| > VALUE_MAX { return INVAL_ATTR_VALUE_LEN; }
        StoreValue(v);
        return 0;
      }
      if h < GAP_SVC || h > HDL_MAX { return INVALID_HANDLE; }
      return WRITE_NOT_PERM;
    }

    method StoreValue(v: seq<Byte>)
      requires Valid() && |v| <= VALUE_MAX
      modifies this, value
      ensures Valid() && Snap() == old(Snap()).(value := v) && connected == old(connected)
    {
      forall j | 0 <= j < |v| {
        value[j] := v[j];
      }
      valueLen := |v|;
      assert value[..valueLen] == v;
    }

    /** ATT_OP_MTU_REQ */
    method MtuInto(req: seq<Byte>, rsp: array<Byte>) returns (n: nat)
      requires Valid() && rsp.Length == MTU_MAX && rsp != value && |req| >= 1 && req[0] == 0x02
      modifies this, rsp
      ensures Valid() && connected == old(connected)
      ensures var o := OnPdu(old(Snap()), req); Snap() == o.server && n <= rsp.Length && rsp[..n] == o.rsp
    {
      hide Num16, Error, Le16;
      if |req| < 3 {
        n := ErrorInto(rsp, req[0], 0, INVALID_PDU);
        return;
      }
      var client := Get16(req, 1);
      if client < MTU_DEFAULT {
        n := ErrorInto(rsp, req[0], 0, INVALID_PDU);
        return;
      }
      mtu := if client < MTU_MAX then client else MTU_MAX;
      Le16Size(MTU_MAX);
      Put(rsp, 0, [0x03] + Le16(MTU_MAX));
      n := 3;
      assert rsp[..n] == rsp[0..n];
    }

    /** ATT_OP_WRITE_REQ and ATT_OP_WRITE_CMD */
    method WriteInto(req: seq<Byte>, rsp: array<Byte>) returns (n: nat)
      requires Valid() && rsp.Length == MTU_MAX && rsp != value && |req| >= 1 && (req[0] == 0x12 || req[0] == 0x52)
      modifies this, value, rsp
      ensures Valid() && connected == old(connected)
      ensures var o := OnPdu(old(Snap()), req); Snap() == o.server && n <= rsp.Length && rsp[..n] == o.rsp
    {
      hide Num16, Error, Written;
      var op := req[0];
      n := 0;
      if |req| < 3 {
        if op == 0x52 { return; }
        n := ErrorInto(rsp, op, 0, INVALID_PDU);
        return;
      }
      var h := Get16(req, 1);
      var code := AttWrite(h, req[3..]);
      if op == 0x52 { return; }
      if code != 0 {
        n := ErrorInto(rsp, op, h, code);
        return;
      }
      rsp[0] := 0x13;
      n := 1;
    }

    /** att_on_pdu: the response in `rsp`, 0 for none. */
    method AttOnPdu(req: seq<Byte>, rsp: array<Byte>) returns (n: nat)
      requires Valid() && rsp.Length == MTU_MAX && rsp != value
      modifies this, value, rsp
      ensures Valid() && connected == old(connected)
      ensures var o := OnPdu(old(Snap()), req); Snap() == o.server && n <= rsp.Length && rsp[..n] == o.rsp
    {
      hide FindInfo, FindByType, ReadByType, ReadAt, Written, Error, Le16, Num16, Sane;
      if |req| < 1 { return 0; }
      var op := req[0];
      if op == 0x02 { n := MtuInto(req, rsp); }
      else if op == 0x04 { n := FindInfoInto(req, rsp); }
      else if op == 0x06 { n := FindByTypeInto(req, rsp); }
      else if op == 0x08 { n := ReadByTypeInto(req, false, rsp); }
      else if op == 0x10 { n := ReadByTypeInto(req, true, rsp); }
      else if op == 0x0a || op == 0x0c { n := ReadInto(req, rsp); }
      else if op == 0x12 || op == 0x52 { n := WriteInto(req, rsp); }
      else {
        n := ErrorInto(rsp, op, if |req| >= 3 then Get16(req, 1) else 0, REQ_NOT_SUPP);
      }
    }

    // -------------------------------------------------------------- connections and notifications

    /** ble_accept_cb: a client has connected. */
    method Accept()
      requires Valid()
      modifies this
      ensures Valid() && Snap() == Happens(old(Snap()), old(connected), Connected).0 && connected
    {
      mtu, cccd, connected := MTU_DEFAULT, 0, true;
    }

    /** ble_peer_left and ble_stop, as far as the server's state goes. */
    method PeerLeft()
      requires Valid()
      modifies this
      ensures Valid() && Snap() == Happens(old(Snap()), old(connected), Left).0 && !connected
    {
      cccd, mtu, connected := 0, MTU_DEFAULT, false;
    }

    /** ble_notify: the PDU handed to send, if it comes to that, and whether it went out. */
    method Notify(text: seq<Byte>, sends: bool) returns (ok: bool, pdu: seq<Byte>)
      requires Valid()
      modifies this, value
      ensures Valid()
      ensures var can := old(connected) && old(cccd) % 2 == 1 && |text| <= old(mtu) - 3 && |text| <= VALUE_MAX;
        && ok == (can && sends)
        && pdu == (if can then [0x1b] + Le16(CUS_VAL) + text else [])
        && pdu == Sent(old(Snap()), old(connected), Notified(text, sends)) && |pdu| <= old(mtu)
      ensures Snap() == Happens(old(Snap()), old(connected), Notified(text, sends)).0
      ensures connected == Happens(old(Snap()), old(connected), Notified(text, sends)).1
    {
      hide Le16;
      ok, pdu := false, [];
      if !connected { return; }
      if cccd % 2 == 0 { return; }
      var max := mtu - 3;
      if max > VALUE_MAX { max := VALUE_MAX; }
      if |text| > max { return; }
      StoreValue(text);
      Le16Size(CUS_VAL);
      pdu := [0x1b] + Le16(CUS_VAL) + text;
      if !sends {
        PeerLeft();
        return;
      }
      ok := true;
    }
  }

  // ---------------------------------------------------------------- every reachable state

  datatype Event = Connected | Left | Request(req: seq<Byte>) | Notified(text: seq<Byte>, sends: bool)

  /** What an event does to the state, and whether a client is connected after it. */
  function Happens(s: Server, connected: bool, e: Event): (Server, bool) {
    match e
    case Connected => (s.(mtu := MTU_DEFAULT, cccd := 0), true)
    case Left => (s.(mtu := MTU_DEFAULT, cccd := 0), false)
    case Request(req) => if connected then (OnPdu(s, req).server, true) else (s, false)
    case Notified(text, sends) =>
      if !(connected && s.cccd % 2 == 1 && |text| <= s.mtu - 3 && |text| <= VALUE_MAX) then (s, connected)
      else if sends then (s.(value := text), true)
      else (s.(value := text, mtu := MTU_DEFAULT, cccd := 0), false)
  }

  /** What the server sends on an event, if anything. */
  function Sent(s: Server, connected: bool, e: Event): seq<Byte> {
    match e
    case Request(req) => if connected then OnPdu(s, req).rsp else []
    case Notified(text, _) =>
      if connected && s.cccd % 2 == 1 && |text| <= s.mtu - 3 && |text| <= VALUE_MAX then [0x1b] + Le16(CUS_VAL) + text
      else []
    case _ => []
  }

  function History(es: seq<Event>): (Server, bool)
    decreases |es|
  {
    if es == [] then (Server(MTU_DEFAULT, 0, []), false)
    else
      var before := History(es[..|es| - 1]);
      Happens(before.0, before.1, es[|es| - 1])
  }

  /** In every reachable state the MTU is between 23 and 128 and the value at most 64 bytes, so every response fits. */
  lemma {:induction false} AlwaysSane(es: seq<Event>, req: seq<Byte>)
    ensures Sane(History(es).0)
    ensures |OnPdu(History(es).0, req).rsp| <= History(es).0.mtu
    decreases |es|
  {
    hide OnPdu;
    if es != [] {
      var before, e := History(es[..|es| - 1]), es[|es| - 1];
      AlwaysSane(es[..|es| - 1], req);
      if e.Request? { StaysSane(before.0, e.req); }
    }
    ResponseFits(History(es).0, req);
  }
}
