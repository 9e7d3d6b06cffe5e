/** keyval_save and keyval_load (package/tester1/settings.cpp:54-222) over a file and the red-black tree. */
module Settings {
  import opened Bytes
  import opened Crc
  import opened Strcmp
  import opened RbSpec
  import opened RbBalance
  import opened RbSearch
  import Rb
  import opened SettingsSpec
  import opened SettingsCodec
  import opened SettingsStore

  // ---------------------------------------------------------------- the file

  /** `bytes` written over `data` at `pos`; a gap is filled with zeros. */
  function Overwritten(data: seq<Byte>, pos: nat, bytes: seq<Byte>): seq<Byte> {
    if bytes == [] then data
    else
      (if pos <= |data| then data[..pos] else data + seq(pos - |data|, i => 0))
      + bytes + (if pos + |bytes| <= |data| then data[pos + |bytes|..] else [])
  }

  lemma OverwriteMore(data: seq<Byte>, pos: nat, a: seq<Byte>, b: seq<Byte>)
    ensures Overwritten(Overwritten(data, pos, a), pos + |a|, b) == Overwritten(data, pos, a + b)
  {
    if a == [] {
      assert a + b == b;
    } else if b == [] {
      assert a + b == a;
    } else {
      OverwriteOver(data, pos, a, b);
    }
  }

  lemma OverwriteOver(data: seq<Byte>, pos: nat, a: seq<Byte>, b: seq<Byte>)
    requires a != [] && b != []
    ensures Overwritten(Overwritten(data, pos, a), pos + |a|, b) == Overwritten(data, pos, a + b)
  {
    var front := if pos <= |data| then data[..pos] else data + seq(pos - |data|, i => 0);
    var tail := if pos + |a| + |b| <= |data| then data[pos + |a| + |b|..] else [];
    var d1 := WrittenOnce(data, pos, a, front, |b|);
    assert |d1| >= pos + |a|;
    assert (if pos + |a| + |b| <= |d1| then d1[pos + |a| + |b|..] else []) == tail;
    assert |a + b| == |a| + |b|;
    assert (front + a) + b == front + (a + b);
  }

  lemma WrittenOnce(data: seq<Byte>, pos: nat, a: seq<Byte>, front: seq<Byte>, n: nat) returns (d: seq<Byte>)
    requires a != [] && front == if pos <= |data| then data[..pos] else data + seq(pos - |data|, i => 0)
    ensures d == Overwritten(data, pos, a) && |d| == (if pos + |a| <= |data| then |data| else pos + |a|)
    ensures d[..pos + |a|] == front + a && (pos + |a| + n <= |data| ==> d[pos + |a| + n..] == data[pos + |a| + n..])
  {
    d := Overwritten(data, pos, a);
  }

  class Fd {
    var data: seq<Byte>
    var pos: nat
    /** How many bytes the device still takes before a write fails. */
    var room: nat

    constructor (data: seq<Byte>, room: nat)
      ensures this.data == data && pos == 0 && this.room == room
    {
      this.data, pos, this.room := data, 0, room;
    }

    method Seek(to: nat)
      modifies `pos
      ensures pos == to
    {
      pos := to;
    }

    /** aloe_bio_write: fewer bytes than asked for when writing fails. */
    method BioWrite(bytes: seq<Byte>) returns (n: nat)
      modifies this
      ensures n == (if |bytes| <= old(room) then |bytes| else old(room)) && room == old(room) - n && pos == old(pos) + n
      ensures data == Overwritten(old(data), old(pos), bytes[..n])
    {
      n := if |bytes| <= room then |bytes| else room;
      data := Overwritten(data, pos, bytes[..n]);
      pos, room := pos + n, room - n;
    }

    /** aloe_bio_read: fewer bytes than asked for at the end of the file. */
    method BioRead(size: nat) returns (bytes: seq<Byte>)
      modifies `pos
      ensures var rest := if old(pos) <= |data| then data[old(pos)..] else [];
        bytes == if size <= |rest| then rest[..size] else rest
      ensures pos == old(pos) + |bytes|
    {
      var rest := if pos <= |data| then data[pos..] else [];
      bytes := if size <= |rest| then rest[..size] else rest;
      pos := pos + |bytes|;
    }
  }

  // ---------------------------------------------------------------- the store

  class Store {
    const head: Rb.Head
    var values: map<Node, seq<Byte>>
    /** The next node an allocation returns. */
    var next: Node

    constructor ()
      ensures Valid() && Recs() == [] && fresh(head)
    {
      head := new Rb.Head();
      values, next := map[], 1;
    }

    ghost predicate Valid()
      reads this, head
    {
      head.Valid() && next > 0 && forall n :: n in head.Order() ==> 0 < n < next
    }

    /** The records in key order. */
    ghost function Recs(): seq<Rec>
      reads this, head
    {
      RecsOf(head.Order(), head.key, values)
    }

    /** What keyval_load does with one record: allocate it and RB_INSERT it. */
    method InsertNew(key: Key, val: seq<Byte>)
      requires Valid()
      modifies this, head
      ensures Valid() && Recs() == InsertRec(old(Recs()), Rec(key, val))
    {
      hide InsertRec, RecsOf, Inserted, Ordered;
      var kv := next;
      ghost var order, k0, v0 := head.Order(), head.key, values;
      head.NewKey(kv, key);
      values := values[kv := val];
      next := next + 1;
      RecsElsewhere(order, k0, head.key, v0, values, kv);
      var r := head.Insert(kv);
      if r == 0 {
        InsertedIsInsertRec(order, kv, head.key, values);
        InsertedThenWithout(order, kv, head.key);
      } else {
        InsertTaken(order, r, Rec(key, val), head.key, values);
      }
    }
  }

  // ---------------------------------------------------------------- saving

  /** keyval_cksum_update on the first four bytes of the checksum field. */
  method CksumUpdate(s: bv32, data: seq<Byte>) returns (r: bv32)
    ensures r == Crc32(data, s)
  {
    r := AloeCrc32(data, s);
  }

  lemma EmptyCrc(s: bv32)
    ensures Crc32([], s) == s
  {
    NotNot(s);
  }

  /** Checksumming header, key and value one after the other is checksumming the record. */
  lemma RecordChains(r: Rec, s: bv32)
    ensures Crc32(ValPart(r), Crc32(KeyPart(r), Crc32(KvHeader(r), s))) == Crc32(Record(r), s)
  {
    hide Crc32;
    var h, k, v := KvHeader(r), KeyPart(r), ValPart(r);
    Chaining(h, k, s);
    Chaining(h + k, v, s);
    assert h + k + v == h + (k + v);
  }

  /** Writes some bytes and counts them in the checksum and the payload length. */
  method Put(fd: Fd, bytes: seq<Byte>, cksum0: bv32, len0: nat) returns (ok: bool, cksum: bv32, len: nat)
    requires len0 < TWO32
    modifies fd
    ensures ok <==> |bytes| <= old(fd.room)
    ensures fd.room <= old(fd.room)
    ensures ok ==> cksum == Crc32(bytes, cksum0) && len == (len0 + |bytes|) % TWO32
    ensures ok ==> fd.data == Overwritten(old(fd.data), old(fd.pos), bytes)
    ensures ok ==> fd.pos == old(fd.pos) + |bytes| && fd.room == old(fd.room) - |bytes|
  {
    cksum, len := cksum0, len0;
    var n := fd.BioWrite(bytes);
    if n != |bytes| { return false, cksum, len; }
    assert bytes[..n] == bytes;
    cksum := CksumUpdate(cksum, bytes);
    len := (len + |bytes|) % TWO32;
    ok := true;
  }

  /** One record of keyval_save; `ok` tells whether all of it was written. */
  method SaveRecord(fd: Fd, r: Rec, cksum0: bv32, len0: nat) returns (ok: bool, cksum: bv32, len: nat)
    requires len0 < TWO32
    modifies fd
    ensures ok <==> |Record(r)| <= old(fd.room)
    ensures fd.room <= old(fd.room)
    ensures ok ==> cksum == Crc32(Record(r), cksum0) && len == (len0 + |Record(r)|) % TWO32
    ensures ok ==> fd.data == Overwritten(old(fd.data), old(fd.pos), Record(r))
    ensures ok ==> fd.pos == old(fd.pos) + |Record(r)| && fd.room == old(fd.room) - |Record(r)|
  {
    hide Crc32, Overwritten, Record, KvHeader, KeyPart, ValPart;
    SavePieces(r, KvHeader(r), KeyPart(r), ValPart(r), len0, cksum0, fd.data, fd.pos);
    ok, cksum, len := Put(fd, KvHeader(r), cksum0, len0);
    if !ok { return; }
    ok, cksum, len := Put(fd, KeyPart(r), cksum, len);
    if !ok { return; }
    if |ValPart(r)| > 0 {
      ok, cksum, len := Put(fd, ValPart(r), cksum, len);
    }
  }

  lemma SavePieces(r: Rec, h: seq<Byte>, k: seq<Byte>, v: seq<Byte>, len: nat, s: bv32, d: seq<Byte>, p: nat)
    requires h == KvHeader(r) && k == KeyPart(r) && v == ValPart(r) && len < TWO32
    ensures |Record(r)| == |h| + |k| + |v|
    ensures Crc32(v, Crc32(k, Crc32(h, s))) == Crc32(Record(r), s)
        && (v == [] ==> Crc32(k, Crc32(h, s)) == Crc32(Record(r), s))
    ensures (((len + |h|) % TWO32 + |k|) % TWO32 + |v|) % TWO32 == (len + |Record(r)|) % TWO32
    ensures v == [] ==> ((len + |h|) % TWO32 + |k|) % TWO32 == (len + |Record(r)|) % TWO32
    ensures Overwritten(Overwritten(Overwritten(d, p, h), p + |h|, k), p + |h| + |k|, v) == Overwritten(d, p, Record(r))
    ensures v == [] ==> Overwritten(Overwritten(d, p, h), p + |h|, k) == Overwritten(d, p, Record(r))
  {
    RecordChains(r, s);
    EmptyCrc(Crc32(k, Crc32(h, s)));
    hide Crc32, Overwritten;
    assert Record(r) == h + (k + v) == h + k + v;
    OverwriteMore(d, p, h, k);
    OverwriteMore(d, p, h + k, v);
    if v == [] { assert h + k + v == h + k; }
    Mod32(len + |h|, |k|);
    Mod32((len + |h|) % TWO32 + |k|, |v|);
    Mod32(len + |h| + |k|, |v|);
  }

  lemma Mod32(a: nat, b: nat)
    ensures (a % TWO32 + b) % TWO32 == (a + b) % TWO32
  {}

  lemma {:induction false} PayloadPrefix(a: seq<Rec>, b: seq<Rec>)
    ensures |Payload(a)| <= |Payload(a + b)|
  {
    PayloadJoin(a, b);
  }

  /** One more record of the payload. */
  lemma PayloadSnoc(a: seq<Rec>, r: Rec, s: bv32, d: seq<Byte>, p: nat)
    ensures Payload(a + [r]) == Payload(a) + Record(r)
    ensures Crc32(Record(r), Crc32(Payload(a), s)) == Crc32(Payload(a + [r]), s)
    ensures (|Payload(a)| % TWO32 + |Record(r)|) % TWO32 == |Payload(a + [r])| % TWO32
    ensures Overwritten(Overwritten(d, p, Payload(a)), p + |Payload(a)|, Record(r)) ==
        Overwritten(d, p, Payload(a + [r]))
  {
    hide Crc32, Overwritten, Record;
    PayloadJoin(a, [r]);
    assert Payload([r]) == Record(r) + [] == Record(r);
    Chaining(Payload(a), Record(r), s);
    OverwriteMore(d, p, Payload(a), Record(r));
    Mod32(|Payload(a)|, |Record(r)|);
  }

  /** The records of the first `i` nodes, and the next one. */
  lemma RecsStep(order: seq<Node>, i: nat, key: Node -> Key, values: map<Node, seq<Byte>>)
    requires i < |order|
    ensures RecsOf(order[..i + 1], key, values) == RecsOf(order[..i], key, values) + [RecOf(order[i], key, values)]
    ensures RecsOf(order, key, values) == RecsOf(order[..i + 1], key, values) + RecsOf(order[i + 1..], key, values)
  {
    assert order[..i + 1] == order[..i] + [order[i]] && order == order[..i + 1] + order[i + 1..];
    RecsAppend(order[..i], [order[i]], key, values);
    RecsAppend(order[..i + 1], order[i + 1..], key, values);
    assert RecsOf([order[i]], key, values) == [RecOf(order[i], key, values)];
  }

  /** What one turn of the loop adds. */
  lemma SaveTurn(order: seq<Node>, i: nat, key: Node -> Key, values: map<Node, seq<Byte>>, d: seq<Byte>, p: nat)
    requires i < |order|
    ensures var done := RecsOf(order[..i], key, values); var r := RecOf(order[i], key, values); var a := Payload(done);
      && RecsOf(order[..i + 1], key, values) == done + [r]
      && |Payload(done + [r])| == |a| + |Record(r)| <= |Payload(RecsOf(order, key, values))|
      && Crc32(Record(r), Crc32(a, 0)) == Crc32(Payload(done + [r]), 0)
      && (|a| % TWO32 + |Record(r)|) % TWO32 == |Payload(done + [r])| % TWO32
      && Overwritten(Overwritten(d, p, a), p + |a|, Record(r)) == Overwritten(d, p, Payload(done + [r]))
  {
    hide *;
    var done, r := RecsOf(order[..i], key, values), RecOf(order[i], key, values);
    RecsStep(order, i, key, values);
    PayloadSnoc(done, r, 0, d, p);
    PayloadPrefix(done + [r], RecsOf(order[i + 1..], key, values));
  }

  lemma NothingYet(order: seq<Node>, key: Node -> Key, values: map<Node, seq<Byte>>, d: seq<Byte>, p: nat)
    ensures RecsOf(order[..0], key, values) == [] && Payload([]) == [] && Crc32([], 0) == 0
        && Overwritten(d, p, []) == d
  {
    EmptyCrc(0);
  }

  /** The loop of keyval_save over RB_FOREACH. */
  method SavePayload(store: Store, fd: Fd) returns (ok: bool, cksum: bv32, len: nat)
    requires store.Valid()
    modifies fd
    ensures store.Valid() && store.Recs() == old(store.Recs())
    ensures var p := Payload(store.Recs());
      && (ok <==> |p| <= old(fd.room))
      && (ok ==> cksum == Crc32(p, 0) && len == |p| % TWO32 && fd.data == Overwritten(old(fd.data), old(fd.pos), p)
                 && fd.room == old(fd.room) - |p|)
  {
    hide Crc32, Overwritten, Record, Payload, RecsOf, RecOf, Ordered, At, Fine, IsRed, Inorder;
    ghost var d0, p0, room0 := fd.data, fd.pos, fd.room;
    ghost var order, key, values := store.head.Order(), store.head.key, store.values;
    ghost var i := 0;
    ghost var done: seq<Rec> := [];
    NothingYet(order, key, values, d0, p0);
    Rb.DistinctOrder(order, key);
    cksum, len := 0, 0;
    var kv := store.head.MinMax(Left);
    while kv != 0
      invariant i <= |order| && kv == if i < |order| then order[i] else 0
      invariant done == RecsOf(order[..i], key, values)
      invariant cksum == Crc32(Payload(done), 0) && len == |Payload(done)| % TWO32
      invariant fd.data == Overwritten(d0, p0, Payload(done)) && fd.pos == p0 + |Payload(done)|
      invariant |Payload(done)| <= room0 && fd.room == room0 - |Payload(done)|
      invariant store.Valid() && store.head.Order() == order && store.head.key == key && store.values == values
      decreases |order| - i
    {
      var r := RecOf(kv, store.head.key, store.values);
      SaveTurn(order, i, key, values, d0, p0);
      ok, cksum, len := SaveRecord(fd, r, cksum, len);
      if !ok { return; }
      Rb.IndexOfAt(order, i);
      done, i := done + [r], i + 1;
      kv := store.head.Next(kv);
    }
    Rb.NoZero(store.head.mem, store.head.root, store.head.tree);
    assert i == |order| && order[..i] == order;
    ok := true;
  }

  /** keyval_save */
  method KeyvalSave(store: Store, tag: seq<Byte>, ver: nat, fd: Fd) returns (ret: int)
    requires store.Valid() && |tag| == 6 && ver < 65536 && fd.pos <= |fd.data|
    modifies fd
    ensures store.Valid() && store.Recs() == old(store.Recs())
    ensures var file := FileFor(store.Recs(), tag, ver); var p0, d0 := old(fd.pos), old(fd.data);
      if |file| <= old(fd.room)
      then ret == AsInt(|Payload(store.Recs())| % TWO32 + HEADER) && fd.data == Overwritten(d0, p0, file)
      else ret == -1
  {
    hide Crc32, Overwritten, Payload, RecsOf, FileFor, Sum, Cksum, TagVer, Le32, AsInt, At, Fine, Ordered, Inorder;
    var p0 := fd.pos;
    ghost var d0, room0 := fd.data, fd.room;
    ghost var recs := store.Recs();
    var tagVer := TagVer(tag, ver);
    SaveFinish(recs, tag, ver, d0, p0);
    fd.Seek(p0 + HEADER);
    var ok, cksum, len := SavePayload(store, fd);
    if !ok { return -1; }
    cksum := CksumUpdate(cksum, tagVer);
    cksum := CksumUpdate(cksum, Le32(len));
    fd.Seek(p0);
    var header := tagVer + Cksum(cksum) + Le32(len);
    var n := fd.BioWrite(header);
    if n != |header| { return -1; }
    assert header[..n] == header;
    ret := AsInt(len + HEADER);
  }

  lemma SaveFinish(recs: seq<Rec>, tag: seq<Byte>, ver: nat, d: seq<Byte>, p: nat)
    requires |tag| == 6 && p <= |d|
    ensures var pl := Payload(recs); var len := Le32(|pl| % TWO32); var tv := TagVer(tag, ver);
      && Crc32(len, Crc32(tv, Crc32(pl, 0))) == Sum(pl, tv, len)
      && |tv + Cksum(Sum(pl, tv, len)) + len| == HEADER
      && |FileFor(recs, tag, ver)| == HEADER + |pl|
      && Overwritten(Overwritten(d, p + HEADER, pl), p, tv + Cksum(Sum(pl, tv, len)) + len) ==
          Overwritten(d, p, FileFor(recs, tag, ver))
  {
    var pl := Payload(recs);
    var len, tv := Le32(|pl| % TWO32), TagVer(tag, ver);
    Num32Le32(|pl| % TWO32);
    assert |tv| == 8;
    hide Crc32, Payload, Le32, Overwritten;
    Chaining(pl, tv, 0);
    Chaining(pl + tv, len, 0);
    var h := tv + Cksum(Sum(pl, tv, len)) + len;
    assert FileFor(recs, tag, ver) == h + pl;
    HeaderLast(d, p, h, pl);
  }

  /** Writing the payload first and the header in front of it later is writing the file. */
  lemma HeaderLast(d: seq<Byte>, p: nat, h: seq<Byte>, pl: seq<Byte>)
    requires p <= |d| && h != []
    ensures Overwritten(Overwritten(d, p + |h|, pl), p, h) == Overwritten(d, p, h + pl)
  {
    if pl == [] {
      assert h + pl == h;
    } else {
      var r := if p + |h| + |pl| <= |d| then d[p + |h| + |pl|..] else [];
      var e := GapWritten(d, p, |h|, pl, r);
      OverFront(e, p, h, pl + r);
      Join4(d[..p], h, pl, r);
      assert |h + pl| == |h| + |pl|;
    }
  }

  /** Bytes written past the place a header will take. */
  lemma GapWritten(d: seq<Byte>, p: nat, n: nat, pl: seq<Byte>, r: seq<Byte>) returns (e: seq<Byte>)
    requires p <= |d| && pl != [] && r == if p + n + |pl| <= |d| then d[p + n + |pl|..] else []
    ensures e == Overwritten(d, p + n, pl) && |e| >= p + n && e[..p] == d[..p] && e[p + n..] == pl + r
  {
    e := Overwritten(d, p + n, pl);
    var front := if p + n <= |d| then d[..p + n] else d + seq(p + n - |d|, i => 0);
    assert e == front + pl + r && |front| == p + n && front[..p] == d[..p];
    assert e == front + (pl + r);
  }

  lemma OverFront(e: seq<Byte>, p: nat, h: seq<Byte>, rest: seq<Byte>)
    requires h != [] && |e| >= p + |h| && e[p + |h|..] == rest
    ensures Overwritten(e, p, h) == e[..p] + h + rest
  {}

  lemma Join4(a: seq<Byte>, h: seq<Byte>, b: seq<Byte>, r: seq<Byte>)
    ensures a + h + (b + r) == a + (h + b) + r
  {}

  // ---------------------------------------------------------------- loading

  /** aloe_buf_expand without contents to keep: the new capacity. */
  method BufExpand(cap: nat, want: nat) returns (r: nat)
    ensures r >= want && r >= cap && (r > cap ==> cap < want && r == want)
  {
    if cap >= want { return cap; }
    return want;
  }

  /** What is left to read. */
  ghost function Rest(fd: Fd): seq<Byte>
    requires fd.pos <= |fd.data|
    reads fd
  {
    fd.data[fd.pos..]
  }

  /** What the loop makes of the bytes it is given. */
  lemma TakeParts(rest: seq<Byte>)
    ensures |rest| < KV_HEADER ==> TakeRecord(rest).size == 0
    ensures |rest| >= KV_HEADER ==>
              var k, v, t := Num8(rest[0]), Num16(rest[1], rest[2]), TakeRecord(rest);
              if |rest| < KV_HEADER + k + v then t.size == 0
              else
                var key, val := rest[KV_HEADER..KV_HEADER + k], rest[KV_HEADER + k..KV_HEADER + k + v];
                t == Taken(Rec(CKey(key), val), KV_HEADER + k + v)
  {
    hide CKey, Num8, Num16;
  }

  lemma RestAfter(data: seq<Byte>, pos: nat, n: nat)
    requires pos + n <= |data|
    ensures data[pos..][n..] == data[pos + n..]
  {}

  lemma RecordSlices(rest: seq<Byte>, h: seq<Byte>, body: seq<Byte>, k: nat)
    requires |h| <= |rest| && h == rest[..|h|]
    requires |body| <= |rest[|h|..]| && body == rest[|h|..][..|body|] && k <= |body|
    ensures h + body == rest[..|h| + |body|]
    ensures body[..k] == rest[|h|..|h| + k] && body[k..] == rest[|h| + k..|h| + |body|]
  {}

  /** The part of the read loop of keyval_load that reads one record into the buffer of capacity `cap0`. */
  method ReadRecord(fd: Fd, cksum0: bv32, cap0: nat) returns (ok: bool, rec: Rec, size: nat, cksum: bv32, cap: nat)
    requires fd.pos <= |fd.data|
    modifies fd`pos
    ensures var t := TakeRecord(old(Rest(fd)));
      && (ok <==> t.size > 0)
      && (ok ==>
            rec == t.rec && size == t.size && cksum == Crc32(old(Rest(fd))[..t.size], cksum0)
            && fd.pos == old(fd.pos) + size)
    ensures fd.pos <= |fd.data| && cap >= cap0
  {
    hide Crc32, CKey, Num8, Num16, TakeRecord;
    ghost var rest := Rest(fd);
    TakeParts(rest);
    rec, size, cksum, cap := Rec([], []), 0, cksum0, cap0;
    var h := fd.BioRead(KV_HEADER);
    if |h| != KV_HEADER { return false, rec, size, cksum, cap; }
    RestAfter(fd.data, old(fd.pos), KV_HEADER);
    cksum := CksumUpdate(cksum, h);
    var k, v := Num8(h[0]), Num16(h[1], h[2]);
    var kvSize := k + v;
    if kvSize > cap { cap := BufExpand(cap, kvSize + 1024); }
    assert kvSize <= cap;
    var body := fd.BioRead(kvSize);
    if |body| != kvSize { return false, rec, size, cksum, cap; }
    RecordSlices(rest, h, body, k);
    cksum := CksumUpdate(cksum, body);
    Chaining(h, body, cksum0);
    return true, Rec(CKey(body[..k]), body[k..]), KV_HEADER + kvSize, cksum, cap;
  }

  lemma {:induction false} InsertAllSnoc(recs: seq<Rec>, done: seq<Rec>, r: Rec)
    ensures InsertAll(recs, done + [r]) == InsertRec(InsertAll(recs, done), r)
    decreases |done|
  {
    hide InsertRec;
    if done == [] {
      assert [] + [r] == [r] && [r][1..] == [];
    } else {
      assert (done + [r])[1..] == done[1..] + [r];
      InsertAllSnoc(InsertRec(recs, done[0]), done[1..], r);
    }
  }

  /** The read loop, part-way: what has been done and what is still ahead make up the whole scan. */
  ghost predicate PartWay(body: seq<Byte>, limit: nat, used: nat, done: seq<Rec>) {
    used <= |body| &&
    var all, more := ScanFrom(body, 0, limit), ScanFrom(body[used..], used, limit);
    all.recs == done + more.recs && all.used == used + more.used && all.ok == more.ok
  }

  lemma LoadStarts(body: seq<Byte>, limit: nat, recs: seq<Rec>)
    ensures PartWay(body, limit, 0, []) && InsertAll(recs, []) == recs && Crc32(body[..0], 0) == 0
  {
    assert body[0..] == body && body[..0] == [];
    EmptyCrc(0);
  }

  /** One turn of the read loop. */
  lemma LoadTurn(body: seq<Byte>, limit: nat, used: nat, done: seq<Rec>, recs: seq<Rec>)
    requires PartWay(body, limit, used, done) && used < limit
    ensures var t := TakeRecord(body[used..]);
      if t.size == 0 then
        var all := ScanFrom(body, 0, limit); !all.ok && all.recs == done
      else
        && used + t.size <= |body| && PartWay(body, limit, used + t.size, done + [t.rec])
        && InsertAll(recs, done + [t.rec]) == InsertRec(InsertAll(recs, done), t.rec)
        && Crc32(body[used..][..t.size], Crc32(body[..used], 0)) == Crc32(body[..used + t.size], 0)
  {
    hide TakeRecord, Crc32, InsertAll, InsertRec;
    var t := TakeRecord(body[used..]);
    if t.size > 0 {
      assert body[used..][t.size..] == body[used + t.size..];
      InsertAllSnoc(recs, done, t.rec);
      Chaining(body[..used], body[used..][..t.size], 0);
      assert body[..used] + body[used..][..t.size] == body[..used + t.size];
      ScanStep(body[used..], used, limit);
      hide ScanFrom;
      var more := ScanFrom(body[used + t.size..], used + t.size, limit);
      assert done + ([t.rec] + more.recs) == (done + [t.rec]) + more.recs;
    }
  }

  /** The read loop of keyval_load. */
  method LoadRecords(store: Store, fd: Fd, limit: nat) returns (ok: bool, cksum: bv32, used: nat)
    requires store.Valid() && fd.pos <= |fd.data|
    modifies store, store.head, fd`pos
    ensures store.Valid()
    ensures var body := old(Rest(fd)); var s := ScanFrom(body, 0, limit);
      && store.Recs() == InsertAll(old(store.Recs()), s.recs) && ok == s.ok
      && (ok ==> used == s.used && cksum == Crc32(body[..used], 0))
  {
    hide Crc32, ScanFrom, TakeRecord, InsertAll, InsertRec, RecsOf, At, Fine, Ordered, Inorder;
    ghost var body, recs0 := Rest(fd), store.Recs();
    var cap := 0;
    ghost var done: seq<Rec> := [];
    cksum, used := 0, 0;
    LoadStarts(body, limit, recs0);
    while used < limit
      invariant store.Valid() && fd.pos <= |fd.data| && PartWay(body, limit, used, done)
      invariant Rest(fd) == body[used..]
      invariant store.Recs() == InsertAll(recs0, done) && cksum == Crc32(body[..used], 0)
      decreases limit - used
    {
      var rec, size;
      LoadTurn(body, limit, used, done, recs0);
      ok, rec, size, cksum, cap := ReadRecord(fd, cksum, cap);
      if !ok { return; }
      assert Rest(fd) == body[used..][size..] == body[used + size..];
      used, done := used + size, done + [rec];
      store.InsertNew(rec.key, rec.val);
    }
    ScanDone(body[used..], used, limit);
    assert done + [] == done;
    ok := true;
  }

  /** keyval_load */
  method KeyvalLoad(store: Store, tag: seq<Byte>, ver: nat, fd: Fd) returns (ret: int)
    requires store.Valid() && |tag| == 6 && fd.pos <= |fd.data|
    modifies store, store.head, fd`pos
    ensures store.Valid()
    ensures var l := Load(old(Rest(fd)), tag, ver);
      ret == l.ret && store.Recs() == InsertAll(old(store.Recs()), l.recs)
  {
    hide Crc32, ScanFrom, InsertAll, RecsOf, Cksum, AsInt, At, Fine, Ordered, Inorder, Num16, Num32;
    ghost var file, recs0 := Rest(fd), store.Recs();
    InsertNone(recs0);
    var h := fd.BioRead(HEADER);
    if |h| != HEADER { return -1; }
    HeaderRead(file, h);
    if tag[0] != 0 && h[..6] != tag { return -1; }
    if ver > 0 && ver != Num16(h[6], h[7]) { return -1; }
    var ok, cksum, used := LoadRecords(store, fd, Num32(h[16..20]));
    if !ok { return -1; }
    cksum := CksumUpdate(cksum, h[..8]);
    cksum := CksumUpdate(cksum, h[16..20]);
    SumOf(file[HEADER..][..used], h[..8], h[16..20]);
    assert file[HEADER..][..used] == file[HEADER..HEADER + used];
    if Cksum(cksum) != h[8..16] { return -1; }
    ret := AsInt(used + HEADER);
  }

  lemma SumOf(p: seq<Byte>, tv: seq<Byte>, len: seq<Byte>)
    ensures Crc32(len, Crc32(tv, Crc32(p, 0))) == Sum(p, tv, len)
  {
    hide Crc32;
    Chaining(p, tv, 0);
    Chaining(p + tv, len, 0);
  }

  lemma InsertNone(recs: seq<Rec>)
    ensures InsertAll(recs, []) == recs
  {}

  lemma HeaderRead(file: seq<Byte>, h: seq<Byte>)
    requires |h| == HEADER && |file| >= HEADER && h == file[..HEADER]
    ensures h[..6] == file[..6] && h[6] == file[6] && h[7] == file[7]
    ensures h[..8] == file[..8] && h[8..16] == file[8..16] && h[16..20] == file[16..20]
  {}
}
