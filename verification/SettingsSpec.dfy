/** The stored-settings file of package/tester1/settings.cpp:42-222, as bytes. */
module SettingsSpec {
  import opened Bytes
  import opened Crc

  /** A key without its terminator, and a value. */
  datatype Rec = Rec(key: seq<Byte>, val: seq<Byte>)

  const HEADER: nat := 20
  const KV_HEADER: nat := 3

  /** The checksum field: the CRC in the first four bytes, zeros in the rest. */
  function Cksum(c: bv32): seq<Byte> {
    [(c & 0xFF) as bv8, ((c >> 8) & 0xFF) as bv8, ((c >> 16) & 0xFF) as bv8, ((c >> 24) & 0xFF) as bv8, 0, 0, 0, 0]
  }

  lemma CksumInjective(c: bv32, d: bv32)
    requires Cksum(c) == Cksum(d)
    ensures c == d
  {
    assert Cksum(c)[0] == Cksum(d)[0] && Cksum(c)[1] == Cksum(d)[1] && Cksum(c)[2] == Cksum(d)[2]
        && Cksum(c)[3] == Cksum(d)[3];
    BytesInjective(c, d);
  }

  lemma BytesInjective(c: bv32, d: bv32)
    requires (c & 0xFF) as bv8 == (d & 0xFF) as bv8 && ((c >> 8) & 0xFF) as bv8 == ((d >> 8) & 0xFF) as bv8
    requires ((c >> 16) & 0xFF) as bv8 == ((d >> 16) & 0xFF) as bv8
        && ((c >> 24) & 0xFF) as bv8 == ((d >> 24) & 0xFF) as bv8
    ensures c == d
  {}

  // ---------------------------------------------------------------- what is written

  function KeyLen(r: Rec): nat {
    |r.key| % 256
  }

  function ValLen(r: Rec): nat {
    |r.val| % 65536
  }

  function KvHeader(r: Rec): seq<Byte> {
    [Low(KeyLen(r))] + Le16(ValLen(r))
  }

  function KeyPart(r: Rec): seq<Byte> {
    r.key[..KeyLen(r)]
  }

  function ValPart(r: Rec): seq<Byte> {
    r.val[..ValLen(r)]
  }

  /** One record: both lengths are cut to the width of their fields, and that much is written. */
  function Record(r: Rec): seq<Byte> {
    KvHeader(r) + (KeyPart(r) + ValPart(r))
  }

  function Payload(recs: seq<Rec>): seq<Byte> {
    if recs == [] then [] else Record(recs[0]) + Payload(recs[1..])
  }

  function TagVer(tag: seq<Byte>, ver: nat): seq<Byte>
    requires |tag| == 6
  {
    (if tag[0] != 0 then tag else [0, 0, 0, 0, 0, 0]) + Le16(ver)
  }

  /** The checksum: keyvals, then the header around the checksum field. */
  function Sum(payload: seq<Byte>, tagVer: seq<Byte>, len: seq<Byte>): bv32 {
    Crc32(payload + tagVer + len, 0)
  }

  /** The whole file keyval_save writes. */
  function FileFor(recs: seq<Rec>, tag: seq<Byte>, ver: nat): seq<Byte>
    requires |tag| == 6
  {
    var p := Payload(recs);
    var len := Le32(|p| % TWO32);
    TagVer(tag, ver) + Cksum(Sum(p, TagVer(tag, ver), len)) + len + p
  }

  // ---------------------------------------------------------------- what is read

  /** A key is read as a C string. */
  function CKey(b: seq<Byte>): seq<Byte> {
    if b == [] || b[0] == 0 then [] else [b[0]] + CKey(b[1..])
  }

  /** The record at the front of some bytes, and its size; size 0 means a short read. */
  datatype Taken = Taken(rec: Rec, size: nat)

  function TakeRecord(data: seq<Byte>): (t: Taken)
    ensures t.size <= |data|
  {
    if |data| < KV_HEADER then Taken(Rec([], []), 0)
    else
      var k, v := Num8(data[0]), Num16(data[1], data[2]);
      if |data| - KV_HEADER < k + v then Taken(Rec([], []), 0)
      else Taken(Rec(CKey(data[KV_HEADER..KV_HEADER + k]), data[KV_HEADER + k..KV_HEADER + k + v]), KV_HEADER + k + v)
  }

  /** What the read loop does: the records it hands to RB_INSERT, the bytes it consumes, and whether it got
      to the end without a short read. */
  datatype Scan = Scan(recs: seq<Rec>, used: nat, ok: bool)

  function ScanFrom(data: seq<Byte>, used: nat, limit: nat): (s: Scan)
    ensures s.used <= |data|
    decreases |data|
  {
    if used >= limit then Scan([], 0, true)
    else
      var t := TakeRecord(data);
      if t.size == 0 then Scan([], 0, false)
      else
        var more := ScanFrom(data[t.size..], used + t.size, limit);
        Scan([t.rec] + more.recs, t.size + more.used, more.ok)
  }

  /** `(int)` of a size. */
  function AsInt(n: nat): int {
    var m := n % TWO32;
    if m < 0x8000_0000 then m else m - TWO32
  }

  /** What keyval_load returns, and the records it has inserted by then. */
  datatype Loaded = Loaded(ret: int, recs: seq<Rec>)

  predicate HeaderFits(file: seq<Byte>, tag: seq<Byte>, ver: nat)
    requires |tag| == 6
  {
    && |file| >= HEADER
    && (tag[0] != 0 ==> file[..6] == tag)
    && (ver > 0 ==> ver == Num16(file[6], file[7]))
  }

  function Load(file: seq<Byte>, tag: seq<Byte>, ver: nat): Loaded
    requires |tag| == 6
  {
    if !HeaderFits(file, tag, ver) then Loaded(-1, [])
    else
      var s := ScanFrom(file[HEADER..], 0, Num32(file[16..20]));
      if !s.ok then Loaded(-1, s.recs)
      else if Cksum(Sum(file[HEADER..HEADER + s.used], file[..8], file[16..20])) != file[8..16] then Loaded(-1, s.recs)
      else Loaded(AsInt(s.used + HEADER), s.recs)
  }
}
