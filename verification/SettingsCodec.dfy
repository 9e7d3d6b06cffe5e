/** What saving and loading do to each other (package/tester1/settings.cpp:54-222). */
module SettingsCodec {
  import opened Bytes
  import opened Crc
  import opened SettingsSpec

  /** A record as its two length fields leave it. */
  function Cut(r: Rec): Rec {
    Rec(r.key[..KeyLen(r)], r.val[..ValLen(r)])
  }

  function CutAll(recs: seq<Rec>): seq<Rec> {
    if recs == [] then [] else [Cut(recs[0])] + CutAll(recs[1..])
  }

  /** Keys are C strings. */
  predicate Keys(recs: seq<Rec>) {
    recs != [] ==> 0 !in recs[0].key && Keys(recs[1..])
  }

  /** The lengths fit their fields. */
  predicate Storable(recs: seq<Rec>) {
    recs != [] ==> |recs[0].key| <= 255 && |recs[0].val| <= 65535 && Storable(recs[1..])
  }

  lemma {:induction false} CutIsIdentity(recs: seq<Rec>)
    ensures CutAll(recs) == recs <==> Storable(recs)
    ensures |CutAll(recs)| == |recs|
  {
    if recs != [] {
      CutIsIdentity(recs[1..]);
      var r := recs[0];
      assert recs == [r] + recs[1..];
      assert CutAll(recs)[0] == Cut(r) && CutAll(recs)[1..] == CutAll(recs[1..]);
      assert |r.key| <= 255 && |r.val| <= 65535 <==> Cut(r) == r;
    }
  }

  // ---------------------------------------------------------------- reading one record

  /** A record whose key and value bytes are `body`. */
  function Raw(k: nat, v: nat, body: seq<Byte>): seq<Byte> {
    [Low(k)] + Le16(v) + body
  }

  lemma TakeRaw(k: nat, v: nat, body: seq<Byte>, rest: seq<Byte>)
    requires k < 256 && v < 65536 && |body| == k + v
    ensures var data := Raw(k, v, body) + rest; var n := KV_HEADER + k + v;
      |Raw(k, v, body)| == n && |data| >= n && data[n..] == rest
          && TakeRecord(data) == Taken(Rec(CKey(body[..k]), body[k..]), n)
  {
    LowIsByte(k);
    Num16Le16(v);
    SmallRemainder(v);
    SmallByte(k);
    hide Low, Le16, CKey, Num8, Num16;
    RawSlices(Low(k), Le16(v), body, k, rest);
    TakeSlices(Raw(k, v, body) + rest, k, v);
  }

  lemma SmallByte(k: nat)
    requires k < 256
    ensures k % 256 == k
  {}

  lemma TakeSlices(data: seq<Byte>, k: nat, v: nat)
    requires |data| >= KV_HEADER + k + v && Num8(data[0]) == k && Num16(data[1], data[2]) == v
    ensures TakeRecord(data) == Taken(Rec(CKey(data[KV_HEADER..KV_HEADER + k]),
        data[KV_HEADER + k..KV_HEADER + k + v]), KV_HEADER + k + v)
  {
    hide Num8, Num16, CKey;
  }

  lemma RawSlices(l: Byte, h: seq<Byte>, body: seq<Byte>, k: nat, rest: seq<Byte>)
    requires |h| == 2 && k <= |body|
    ensures var data := ([l] + h + body) + rest;
      && |data| == 3 + |body| + |rest| && data[0] == l && data[1] == h[0] && data[2] == h[1]
      && data[3..3 + k] == body[..k] && data[3 + k..3 + |body|] == body[k..] && data[3 + |body|..] == rest
  {}

  /** One turn of the read loop. */
  lemma ScanStep(data: seq<Byte>, used: nat, limit: nat)
    requires used < limit && TakeRecord(data).size > 0
    ensures var t := TakeRecord(data); var more := ScanFrom(data[t.size..], used + t.size, limit);
      ScanFrom(data, used, limit) == Scan([t.rec] + more.recs, t.size + more.used, more.ok)
  {
    hide TakeRecord;
  }

  lemma ScanRaw(k: nat, v: nat, body: seq<Byte>, rest: seq<Byte>, used: nat, limit: nat)
    requires k < 256 && v < 65536 && |body| == k + v && used < limit
    ensures var n := KV_HEADER + k + v; var more := ScanFrom(rest, used + n, limit);
      ScanFrom(Raw(k, v, body) + rest, used, limit) ==
          Scan([Rec(CKey(body[..k]), body[k..])] + more.recs, n + more.used, more.ok)
  {
    hide ScanFrom, TakeRecord, Raw, CKey;
    TakeRaw(k, v, body, rest);
    ScanStep(Raw(k, v, body) + rest, used, limit);
  }

  lemma {:induction false} CKeyOfString(b: seq<Byte>)
    requires 0 !in b
    ensures CKey(b) == b
  {
    if b != [] { CKeyOfString(b[1..]); }
  }

  lemma RecordIsRaw(r: Rec) returns (body: seq<Byte>)
    requires 0 !in r.key
    ensures var k, v := KeyLen(r), ValLen(r);
      && k < 256 && v < 65536 && |body| == k + v && Record(r) == Raw(k, v, body) && |Record(r)| == KV_HEADER + k + v
      && Cut(r) == Rec(CKey(body[..k]), body[k..])
  {
    var k, v := KeyLen(r), ValLen(r);
    body := r.key[..k] + r.val[..v];
    CKeyOfString(r.key[..k]);
    assert body[..k] == r.key[..k] && body[k..] == r.val[..v];
    hide Low, Le16, CKey;
    assert |Le16(v)| == 2 by { Num16Le16(v); }
  }

  lemma ScanAs(rec: seq<Byte>, cut: Rec, k: nat, v: nat, body: seq<Byte>, rest: seq<Byte>, used: nat, limit: nat)
    requires k < 256 && v < 65536 && |body| == k + v && used < limit
    requires rec == Raw(k, v, body) && cut == Rec(CKey(body[..k]), body[k..]) && |rec| == KV_HEADER + k + v
    ensures var more := ScanFrom(rest, used + |rec|, limit);
      ScanFrom(rec + rest, used, limit) == Scan([cut] + more.recs, |rec| + more.used, more.ok)
  {
    hide *;
    ScanRaw(k, v, body, rest, used, limit);
  }

  lemma ScanRecord(r: Rec, rest: seq<Byte>, used: nat, limit: nat)
    requires 0 !in r.key && used < limit
    ensures var n := |Record(r)|; var more := ScanFrom(rest, used + n, limit);
      ScanFrom(Record(r) + rest, used, limit) == Scan([Cut(r)] + more.recs, n + more.used, more.ok)
  {
    hide *;
    var body := RecordIsRaw(r);
    ScanAs(Record(r), Cut(r), KeyLen(r), ValLen(r), body, rest, used, limit);
  }

  lemma RecordSize(r: Rec)
    ensures KV_HEADER <= |Record(r)| <= KV_HEADER + 255 + 65535
    ensures |Record(r)| == KV_HEADER + KeyLen(r) + ValLen(r)
  {}

  lemma PayloadStep(recs: seq<Rec>, rest: seq<Byte>)
    requires recs != [] && Keys(recs)
    ensures Payload(recs) + rest == Record(recs[0]) + (Payload(recs[1..]) + rest)
    ensures |Payload(recs)| == |Record(recs[0])| + |Payload(recs[1..])|
    ensures 3 <= |Record(recs[0])| <= 65793
    ensures CutAll(recs) == [Cut(recs[0])] + CutAll(recs[1..])
    ensures 0 !in recs[0].key && Keys(recs[1..])
  {
    RecordSize(recs[0]);
    hide Record, Cut;
  }

  lemma Nothing(rest: seq<Byte>)
    ensures Payload([]) == [] && Payload([]) + rest == rest && CutAll([]) == []
  {}

  lemma ScanDone(data: seq<Byte>, used: nat, limit: nat)
    requires used >= limit
    ensures ScanFrom(data, used, limit) == Scan([], 0, true)
  {}

  lemma AppendOne(x: Rec, a: seq<Rec>, b: seq<Rec>)
    ensures [x] + (a + b) == ([x] + a) + b
  {}

  /** Reading on through a payload that the limit does not cut. */
  lemma {:induction false} ScanThrough(recs: seq<Rec>, rest: seq<Byte>, used: nat, limit: nat)
    requires Keys(recs) && limit >= used + |Payload(recs)|
    ensures var n := |Payload(recs)|; var more := ScanFrom(rest, used + n, limit);
      ScanFrom(Payload(recs) + rest, used, limit) == Scan(CutAll(recs) + more.recs, n + more.used, more.ok)
  {
    hide *;
    if recs == [] {
      Nothing(rest);
    } else {
      PayloadStep(recs, rest);
      ScanRecord(recs[0], Payload(recs[1..]) + rest, used, limit);
      ScanThrough(recs[1..], rest, used + |Record(recs[0])|, limit);
      AppendOne(Cut(recs[0]), CutAll(recs[1..]), ScanFrom(rest, used + |Payload(recs)|, limit).recs);
    }
  }

  /** Reading a payload to its end yields its records, cut. */
  lemma ScanPayload(recs: seq<Rec>, rest: seq<Byte>, used: nat, limit: nat)
    requires Keys(recs) && limit == used + |Payload(recs)|
    ensures ScanFrom(Payload(recs) + rest, used, limit) == Scan(CutAll(recs), |Payload(recs)|, true)
  {
    hide *;
    ScanThrough(recs, rest, used, limit);
    ScanDone(rest, limit, limit);
  }

  /** A limit that falls a record or more short of the payload leaves records out. */
  lemma {:induction false} ScanStopsEarly(recs: seq<Rec>, rest: seq<Byte>, used: nat, limit: nat)
    requires Keys(recs) && limit + 65793 < used + |Payload(recs)|
    ensures recs == [] ==> used > limit + 65793
    ensures recs != [] ==> |ScanFrom(Payload(recs) + rest, used, limit).recs| < |recs|
  {
    hide *;
    if recs == [] {
      Nothing(rest);
    } else if used >= limit {
      ScanDone(Payload(recs) + rest, used, limit);
    } else {
      PayloadStep(recs, rest);
      ScanRecord(recs[0], Payload(recs[1..]) + rest, used, limit);
      ScanStopsEarly(recs[1..], rest, used + |Record(recs[0])|, limit);
    }
  }

  // ---------------------------------------------------------------- the round trip

  /** The pieces of a saved file, with anything after it. */
  lemma FilePieces(recs: seq<Rec>, tag: seq<Byte>, ver: nat, junk: seq<Byte>)
    requires |tag| == 6 && ver < 65536
    ensures var file := FileFor(recs, tag, ver) + junk; var p := Payload(recs); var len := Le32(|p| % TWO32);
      && |file| >= HEADER && HeaderFits(file, tag, ver) && file[HEADER..] == p + junk
      && file[..8] == TagVer(tag, ver) && file[16..20] == len && file[8..16] == Cksum(Sum(p, TagVer(tag, ver), len))
      && Num32(len) == |p| % TWO32
  {
    var p := Payload(recs);
    var len := Le32(|p| % TWO32);
    Num32Le32(|p| % TWO32);
    Num16Le16(ver);
    SmallRemainder(ver);
    var tv := TagVer(tag, ver);
    assert |tv| == 8 && (tag[0] != 0 ==> tv[..6] == tag) && tv[6] == Le16(ver)[0] && tv[7] == Le16(ver)[1];
    var ck := Cksum(Sum(p, tv, len));
    assert |ck| == 8;
    hide Payload, Le16, Le32, Cksum, Sum, TagVer, Num16, Num32;
    FileSlices(tv, ck, len, p, junk);
  }

  lemma FileSlices(tv: seq<Byte>, ck: seq<Byte>, len: seq<Byte>, p: seq<Byte>, junk: seq<Byte>)
    requires |tv| == 8 && |ck| == 8 && |len| == 4
    ensures var file := (tv + ck + len + p) + junk;
      && |file| >= HEADER && file[..8] == tv && file[8..16] == ck && file[16..20] == len && file[HEADER..] == p + junk
      && file[..6] == tv[..6] && file[6] == tv[6] && file[7] == tv[7]
  {}

  /** What keyval_load makes of a file, from its pieces. */
  lemma LoadPieces(file: seq<Byte>, tag: seq<Byte>, ver: nat, s: Scan)
    requires |tag| == 6 && |file| >= HEADER && HeaderFits(file, tag, ver)
    requires ScanFrom(file[HEADER..], 0, Num32(file[16..20])) == s && s.ok
    ensures HEADER + s.used <= |file|
    ensures Load(file, tag, ver) ==
              if Cksum(Sum(file[HEADER..HEADER + s.used], file[..8], file[16..20])) == file[8..16]
              then Loaded(AsInt(s.used + HEADER), s.recs) else Loaded(-1, s.recs)
  {
    hide ScanFrom, Cksum, Sum, HeaderFits, AsInt, Num32;
  }

  lemma TakeDrop(file: seq<Byte>, a: nat, b: nat)
    requires a + b <= |file|
    ensures file[a..a + b] == file[a..][..b]
  {}

  lemma TakeFront(p: seq<Byte>, q: seq<Byte>)
    ensures (p + q)[..|p|] == p
  {}

  /** Loading what was saved gives the records back as their length fields leave them, and succeeds, whenever
      the payload length fits its field. */
  lemma RoundTrip(recs: seq<Rec>, tag: seq<Byte>, ver: nat, junk: seq<Byte>)
    requires |tag| == 6 && ver < 65536 && Keys(recs) && |Payload(recs)| < TWO32
    ensures Load(FileFor(recs, tag, ver) + junk, tag, ver) == Loaded(AsInt(|Payload(recs)| + HEADER), CutAll(recs))
  {
    hide *;
    FilePieces(recs, tag, ver, junk);
    var p := Payload(recs);
    var file := FileFor(recs, tag, ver) + junk;
    Unwrapped(|p|);
    ScanPayload(recs, junk, 0, |p|);
    LoadPieces(file, tag, ver, Scan(CutAll(recs), |p|, true));
    TakeDrop(file, HEADER, |p|);
    TakeFront(p, junk);
  }

  lemma Unwrapped(n: nat)
    requires n < TWO32
    ensures n % TWO32 == n
  {}

  /** A payload whose length does not fit its field loses records. */
  lemma TooLong(recs: seq<Rec>, tag: seq<Byte>, ver: nat, junk: seq<Byte>)
    requires |tag| == 6 && ver < 65536 && Keys(recs) && |Payload(recs)| >= TWO32
    ensures |Load(FileFor(recs, tag, ver) + junk, tag, ver).recs| < |recs|
  {
    FilePieces(recs, tag, ver, junk);
    var p := Payload(recs);
    Wraps(|p|);
    assert recs != [];
    hide ScanFrom, Payload, FileFor, TagVer, Cksum, Sum, HeaderFits, Le32, Num32, AsInt, Keys;
    ScanStopsEarly(recs, junk, 0, |p| % TWO32);
  }

  lemma Wraps(n: nat)
    requires n >= TWO32
    ensures n % TWO32 + 65793 < n
  {}

  /** Loading what was saved gives exactly the same records if and only if every key is at most 255 bytes,
      every value at most 65535, and the whole payload shorter than 2^32 bytes. */
  lemma RoundTripExactly(recs: seq<Rec>, tag: seq<Byte>, ver: nat, junk: seq<Byte>)
    requires |tag| == 6 && ver < 65536 && Keys(recs)
    ensures Load(FileFor(recs, tag, ver) + junk, tag, ver).recs == recs <==> Storable(recs) && |Payload(recs)| < TWO32
  {
    CutIsIdentity(recs);
    if |Payload(recs)| < TWO32 {
      RoundTrip(recs, tag, ver, junk);
    } else {
      TooLong(recs, tag, ver, junk);
    }
  }

  /** The value keyval_load returns for it: the size as an int, which is the size below 2 GiB, negative from there to
      4 GiB, and a small number when the size wraps altogether. */
  lemma ReturnsSize(recs: seq<Rec>, tag: seq<Byte>, ver: nat, junk: seq<Byte>)
    requires |tag| == 6 && ver < 65536 && Keys(recs) && |Payload(recs)| < TWO32
    ensures var ret, size := Load(FileFor(recs, tag, ver) + junk, tag, ver).ret, |FileFor(recs, tag, ver)|;
      && (ret >= 0 <==> size < 0x8000_0000 || size >= TWO32)
      && (ret == size <==> size < 0x8000_0000)
      && (size >= TWO32 ==> ret == size - TWO32)
  {
    hide Load, Payload, Storable, CutAll, Keys, FileFor, AsInt;
    RoundTrip(recs, tag, ver, junk);
    FileSize(recs, tag, ver);
    IntOfSize(|Payload(recs)| + HEADER);
  }

  lemma IntOfSize(n: nat)
    requires n < TWO32 + HEADER
    ensures AsInt(n) >= 0 <==> n < 0x8000_0000 || n >= TWO32
    ensures AsInt(n) == n <==> n < 0x8000_0000
    ensures n >= TWO32 ==> AsInt(n) == n - TWO32
  {
    if n >= TWO32 { assert n % TWO32 == n - TWO32; }
  }

  lemma FileSize(recs: seq<Rec>, tag: seq<Byte>, ver: nat)
    requires |tag| == 6
    ensures |FileFor(recs, tag, ver)| == HEADER + |Payload(recs)|
  {}

  // ---------------------------------------------------------------- which files are accepted

  /** A file is loaded with the tag and the version it was saved with, or with less: a tag that begins with a zero byte,
      and the version 0, ask for nothing.  A file with another tag or version is refused before any record is read. */
  lemma AcceptedExactly(recs: seq<Rec>, tag1: seq<Byte>, ver1: nat, tag2: seq<Byte>, ver2: nat, junk: seq<Byte>)
    requires |tag1| == 6 && |tag2| == 6 && ver1 < 65536 && ver2 < 65536 && Keys(recs) && |Payload(recs)| < TWO32
    ensures var stored := if tag1[0] == 0 then [0, 0, 0, 0, 0, 0] else tag1;
      var l := Load(FileFor(recs, tag1, ver1) + junk, tag2, ver2);
      if (tag2[0] != 0 && tag2 != stored) || (ver2 > 0 && ver2 != ver1) then l == Loaded(-1, [])
      else l == Loaded(AsInt(|Payload(recs)| + HEADER), CutAll(recs))
  {
    hide Payload, FileFor, TagVer, Load, HeaderFits, Num16, Num32, Le32, Sum, Cksum, CutAll, AsInt, Keys;
    RoundTrip(recs, tag1, ver1, junk);
    FilePieces(recs, tag1, ver1, junk);
    StoredTag(tag1, ver1);
    var file := FileFor(recs, tag1, ver1) + junk;
    assert file[..6] == file[..8][..6] && file[6] == file[..8][6] && file[7] == file[..8][7];
    FitsExactly(file, if tag1[0] == 0 then [0, 0, 0, 0, 0, 0] else tag1, ver1, tag2, ver2);
    LoadByHeader(file, tag1, ver1, tag2, ver2);
  }

  lemma FitsExactly(file: seq<Byte>, stored: seq<Byte>, ver1: nat, tag2: seq<Byte>, ver2: nat)
    requires |tag2| == 6 && |file| >= HEADER && file[..6] == stored && Num16(file[6], file[7]) == ver1
    ensures HeaderFits(file, tag2, ver2) <==> !((tag2[0] != 0 && tag2 != stored) || (ver2 > 0 && ver2 != ver1))
  {
    hide Num16;
  }

  /** The tag and version only decide whether a file is read at all. */
  lemma LoadByHeader(file: seq<Byte>, tag1: seq<Byte>, ver1: nat, tag2: seq<Byte>, ver2: nat)
    requires |tag1| == 6 && |tag2| == 6 && HeaderFits(file, tag1, ver1)
    ensures Load(file, tag2, ver2) ==
              if HeaderFits(file, tag2, ver2) then Load(file, tag1, ver1) else Loaded(-1, [])
  {
    assert |file| >= HEADER;
    hide HeaderFits, ScanFrom, Cksum, Sum, AsInt, Num32;
  }

  lemma StoredTag(tag: seq<Byte>, ver: nat)
    requires |tag| == 6 && ver < 65536
    ensures var tv := TagVer(tag, ver);
      && |tv| == 8 && tv[..6] == (if tag[0] == 0 then [0, 0, 0, 0, 0, 0] else tag) && Num16(tv[6], tv[7]) == ver
  {
    Num16Le16(ver);
    SmallRemainder(ver);
    hide Le16, Num16;
  }

  /** What is too short to hold a header is refused. */
  lemma ShortFile(file: seq<Byte>, tag: seq<Byte>, ver: nat)
    requires |tag| == 6 && |file| < 20
    ensures Load(file, tag, ver) == Loaded(-1, [])
  {}

  lemma ShortRecord(r: Rec, m: nat)
    requires m < |Record(r)|
    ensures TakeRecord(Record(r)[..m]).size == 0
  {
    hide Low, Le16, Num8, Num16, CKey, KeyLen, ValLen;
    RecordSize(r);
    if m >= KV_HEADER {
      var k, v := KeyLen(r), ValLen(r);
      LengthFields(r);
      HeaderFirst(Low(k), Le16(v), KeyPart(r) + ValPart(r), m);
    }
  }

  lemma LengthFields(r: Rec)
    ensures Num8(Low(KeyLen(r))) == KeyLen(r) && |Le16(ValLen(r))| == 2
    ensures Num16(Le16(ValLen(r))[0], Le16(ValLen(r))[1]) == ValLen(r)
  {
    LowIsByte(KeyLen(r));
    Num16Le16(ValLen(r));
    SmallRemainder(ValLen(r));
    SmallByte(KeyLen(r));
    hide Low, Num8, Num16;
  }

  lemma HeaderFirst(l: Byte, h: seq<Byte>, body: seq<Byte>, m: nat)
    requires |h| == 2 && 3 <= m <= 3 + |body|
    ensures var d := ([l] + h + body)[..m]; d[0] == l && d[1] == h[0] && d[2] == h[1]
  {}

  lemma {:induction false} ScanTruncated(recs: seq<Rec>, m: nat, used: nat, limit: nat)
    requires Keys(recs) && limit == used + |Payload(recs)| && m < |Payload(recs)|
    ensures !ScanFrom(Payload(recs)[..m], used, limit).ok
  {
    hide TakeRecord, Record, Keys, Cut, CutAll;
    PayloadStep(recs, []);
    var r, n := recs[0], |Record(recs[0])|;
    var d := Payload(recs)[..m];
    if m < n {
      assert d == Record(r)[..m];
      ShortRecord(r, m);
    } else {
      assert d == Record(r) + Payload(recs[1..])[..m - n];
      ScanRecord(r, Payload(recs[1..])[..m - n], used, limit);
      ScanTruncated(recs[1..], m - n, used + n, limit);
    }
  }

  /** A saved file that is cut off anywhere does not load. */
  lemma TruncationIsDetected(recs: seq<Rec>, tag: seq<Byte>, ver: nat, n: nat, tag2: seq<Byte>, ver2: nat)
    requires |tag| == 6 && |tag2| == 6 && ver < 65536 && Keys(recs) && |Payload(recs)| < TWO32
    requires n < |FileFor(recs, tag, ver)|
    ensures Load(FileFor(recs, tag, ver)[..n], tag2, ver2).ret == -1
  {
    hide Payload, FileFor, ScanFrom, Keys, Num32, Le32, TagVer, Cksum, Sum, Load, HeaderFits;
    var file, p := FileFor(recs, tag, ver), Payload(recs);
    assert file + [] == file && p + [] == p;
    FilePieces(recs, tag, ver, []);
    FileSize(recs, tag, ver);
    Unwrapped(|p|);
    if n >= 20 {
      CutOff(file, p, n);
      ScanTruncated(recs, n - 20, 0, |p|);
      NotThrough(file[..n], p[..n - 20], tag2, ver2, |p|);
    } else {
      ShortFile(file[..n], tag2, ver2);
    }
  }

  lemma CutOff(file: seq<Byte>, p: seq<Byte>, n: nat)
    requires 20 <= n < |file| && file[20..] == p
    ensures file[..n][20..] == p[..n - 20] && file[..n][16..20] == file[16..20]
  {}

  lemma NotThrough(file: seq<Byte>, data: seq<Byte>, tag: seq<Byte>, ver: nat, limit: nat)
    requires |tag| == 6 && |file| >= 20 && file[20..] == data && Num32(file[16..20]) == limit
    requires !ScanFrom(data, 0, limit).ok
    ensures Load(file, tag, ver).ret == -1
  {
    hide ScanFrom, Num32, HeaderFits;
  }

  /** A key with a zero byte in it is read up to there. */
  lemma {:induction false} CKeyEndsAtZero(b: seq<Byte>)
    ensures var k := |CKey(b)|; k <= |b| && CKey(b) == b[..k] && 0 !in CKey(b) && (k < |b| ==> b[k] == 0)
  {
    if b != [] && b[0] != 0 { CKeyEndsAtZero(b[1..]); }
  }

  // ---------------------------------------------------------------- where everything is

  /** A 32-bit number from four bytes, the low one first. */
  function Word(a: Byte, b: Byte, c: Byte, d: Byte): bv32 {
    (a as bv32) | ((b as bv32) << 8) | ((c as bv32) << 16) | ((d as bv32) << 24)
  }

  lemma CksumIsWord(c: bv32)
    ensures |Cksum(c)| == 8 && Word(Cksum(c)[0], Cksum(c)[1], Cksum(c)[2], Cksum(c)[3]) == c
    ensures Cksum(c)[4..] == [0, 0, 0, 0]
  {}

  /** The header of a saved file, a packed little-endian structure: six bytes of tag, the version, the checksum of
      payload and rest of the header in eight bytes, and the payload's length; the payload follows. */
  lemma FileLayout(recs: seq<Rec>, tag: seq<Byte>, ver: nat)
    requires |tag| == 6 && ver < 65536 && |Payload(recs)| < TWO32
    ensures var f := FileFor(recs, tag, ver);
      && |f| >= 20 && f[..6] == (if tag[0] == 0 then [0, 0, 0, 0, 0, 0] else tag) && Num16(f[6], f[7]) == ver
      && Word(f[8], f[9], f[10], f[11]) == Crc32(f[20..] + f[..8] + f[16..20], 0) && f[12..16] == [0, 0, 0, 0]
      && Num32(f[16..20]) == |f[20..]| && f[20..] == Payload(recs)
  {
    FilePieces(recs, tag, ver, []);
    StoredTag(tag, ver);
    Unwrapped(|Payload(recs)|);
    var p, f := Payload(recs), FileFor(recs, tag, ver);
    var tv, len := TagVer(tag, ver), Le32(|p| % TWO32);
    CksumIsWord(Sum(p, tv, len));
    assert f + [] == f && p + [] == p;
    hide Payload, FileFor, Num32, Le32, Le16, Num16, TagVer, Cksum, Crc32, Word;
    assert f[..6] == f[..8][..6] && f[6] == f[..8][6] && f[7] == f[..8][7];
    assert f[8] == f[8..16][0] && f[9] == f[8..16][1] && f[10] == f[8..16][2] && f[11] == f[8..16][3];
    assert f[12..16] == f[8..16][4..];
  }

  /** The payload, record by record: a byte for the length of the key, two for that of the value, the key, the value. */
  lemma RecordLayout(r: Rec, more: seq<Rec>)
    requires |r.key| <= 255 && |r.val| <= 65535
    ensures var p, k, v := Payload([r] + more), |r.key|, |r.val|;
      && |p| >= 3 + k + v && Num8(p[0]) == k && Num16(p[1], p[2]) == v
      && p[3..3 + k] == r.key && p[3 + k..3 + k + v] == r.val && p[3 + k + v..] == Payload(more)
  {
    var k, v := |r.key|, |r.val|;
    LowIsByte(k);
    Num16Le16(v);
    SmallRemainder(v);
    SmallByte(k);
    assert ([r] + more)[1..] == more && r.key[..k] == r.key && r.val[..v] == r.val;
    assert Record(r) == [Low(k)] + Le16(v) + (r.key + r.val);
    assert Payload([r] + more) == Record(r) + Payload(more);
    hide Low, Le16, Num8, Num16, Record, Payload;
    RawSlices(Low(k), Le16(v), r.key + r.val, k, Payload(more));
  }

  // ---------------------------------------------------------------- corruption

  lemma {:induction false} PayloadJoin(a: seq<Rec>, b: seq<Rec>)
    ensures Payload(a + b) == Payload(a) + Payload(b)
    ensures Keys(a + b) <==> Keys(a) && Keys(b)
  {
    hide Record;
    if a == [] {
      assert a + b == b;
    } else {
      assert (a + b)[0] == a[0] && (a + b)[1..] == a[1..] + b;
      PayloadJoin(a[1..], b);
    }
  }

  /** A payload around one of its records. */
  lemma PayloadAround(a: seq<Rec>, r: Rec, b: seq<Rec>)
    ensures Payload(a + [r] + b) == Payload(a) + (Record(r) + Payload(b))
    ensures Keys(a + [r] + b) ==> Keys(a) && 0 !in r.key && Keys(b)
  {
    hide Record;
    assert a + [r] + b == a + ([r] + b) && ([r] + b)[1..] == b;
    PayloadJoin(a, [r] + b);
  }

  /** The read loop over a payload one of whose records has other key and value bytes. */
  lemma ScanAround(a: seq<Rec>, k: nat, v: nat, body: seq<Byte>, b: seq<Rec>, junk: seq<Byte>, limit: nat)
    requires Keys(a) && Keys(b) && k < 256 && v < 65536 && |body| == k + v
    requires limit == |Payload(a)| + |Raw(k, v, body)| + |Payload(b)|
    ensures var s := ScanFrom(Payload(a) + (Raw(k, v, body) + (Payload(b) + junk)), 0, limit);
      s.ok && s.used == limit && s.recs == CutAll(a) + ([Rec(CKey(body[..k]), body[k..])] + CutAll(b))
  {
    hide *;
    RawSize(k, v, body);
    ScanPayload(b, junk, |Payload(a)| + |Raw(k, v, body)|, limit);
    ScanAs(Raw(k, v, body), Rec(CKey(body[..k]), body[k..]), k, v, body, Payload(b) + junk, |Payload(a)|, limit);
    ScanThrough(a, Raw(k, v, body) + (Payload(b) + junk), 0, limit);
  }

  lemma RawSize(k: nat, v: nat, body: seq<Byte>)
    requires |body| == k + v
    ensures |Raw(k, v, body)| == KV_HEADER + k + v && |Raw(k, v, body)| > 0
  {}

  lemma RawUpdate(k: nat, v: nat, body: seq<Byte>, j: nat, x: Byte)
    requires |body| == k + v && j < |body|
    ensures |Raw(k, v, body)| == KV_HEADER + |body| && Raw(k, v, body)[KV_HEADER + j] == body[j]
    ensures Raw(k, v, body[j := x]) == Raw(k, v, body)[KV_HEADER + j := x]
  {}

  /** One byte of the payload changed: the checksum no longer matches. */
  lemma SumDiffers(p: seq<Byte>, i: nat, x: Byte, tv: seq<Byte>, len: seq<Byte>)
    requires i < |p| && p[i] != x
    ensures Cksum(Sum(p[i := x], tv, len)) != Cksum(Sum(p, tv, len))
  {
    hide Cksum, Crc32;
    assert p[i := x] + tv + len == (p + tv + len)[i := x];
    OneByteDiffers(p + tv + len, i, x, 0);
    if Cksum(Sum(p[i := x], tv, len)) == Cksum(Sum(p, tv, len)) {
      CksumInjective(Sum(p[i := x], tv, len), Sum(p, tv, len));
    }
  }

  lemma UpdateMiddle(a: seq<Byte>, m: seq<Byte>, b: seq<Byte>, j: nat, x: Byte)
    requires j < |m|
    ensures var p := a + (m + b); |a| + j < |p| && p[|a| + j] == m[j] && p[|a| + j := x] == a + (m[j := x] + b)
  {}

  lemma UpdateFile(file: seq<Byte>, p: seq<Byte>, junk: seq<Byte>, i: nat, x: Byte)
    requires |file| >= HEADER && file[HEADER..] == p + junk && i < |p|
    ensures var file' := file[HEADER + i := x];
      && file[HEADER + i] == p[i] && file'[HEADER..] == p[i := x] + junk && file'[..HEADER] == file[..HEADER]
      && file'[..8] == file[..8] && file'[8..16] == file[8..16] && file'[16..20] == file[16..20]
      && file'[..6] == file[..6] && file'[6] == file[6] && file'[7] == file[7]
  {}

  /** A change to any stored key or value byte makes loading fail, after it has handed every record of the
      file, the altered one among them, to the tree. */
  lemma CorruptionIsDetected(a: seq<Rec>, r: Rec, b: seq<Rec>, j: nat, x: Byte, tag: seq<Byte>, ver: nat,
      junk: seq<Byte>)
    requires |tag| == 6 && ver < 65536 && Keys(a + [r] + b) && |Payload(a + [r] + b)| < TWO32
    requires j < KeyLen(r) + ValLen(r)
    ensures var file := FileFor(a + [r] + b, tag, ver) + junk; var i := HEADER + |Payload(a)| + KV_HEADER + j;
      && i < |file|
      && (file[i] != x ==>
            var l := Load(file[i := x], tag, ver);
            l.ret == -1 && |l.recs| == |a| + 1 + |b|)
  {
    hide *;
    var recs := a + [r] + b;
    PayloadAround(a, r, b);
    FilePieces(recs, tag, ver, junk);
    var body := RecordIsRaw(r);
    var k, v, p, file := KeyLen(r), ValLen(r), Payload(recs), FileFor(recs, tag, ver) + junk;
    RawUpdate(k, v, body, j, x);
    UpdateMiddle(Payload(a), Record(r), Payload(b), KV_HEADER + j, x);
    var i := |Payload(a)| + (KV_HEADER + j);
    UpdateFile(file, p, junk, i, x);
    if p[i] != x {
      SumDiffers(p, i, x, TagVer(tag, ver), Le32(|p| % TWO32));
      CorruptedLoad(file, file[HEADER + i := x], p, a, r, b, body[j := x], p[i := x], tag, ver, junk);
    }
  }

  lemma CorruptedLoad(file: seq<Byte>, file': seq<Byte>, p: seq<Byte>, a: seq<Rec>, r: Rec, b: seq<Rec>,
      body: seq<Byte>,
                      p': seq<Byte>, tag: seq<Byte>, ver: nat, junk: seq<Byte>)
    requires |tag| == 6 && |file| >= HEADER && |file'| >= HEADER && HeaderFits(file, tag, ver) && Keys(a) && Keys(b)
        && |p| < TWO32
    requires file'[..8] == file[..8] && file'[8..16] == file[8..16] && file'[16..20] == file[16..20]
    requires file'[..6] == file[..6] && file'[6] == file[6] && file'[7] == file[7]
    requires var k, v := KeyLen(r), ValLen(r);
      && k < 256 && v < 65536 && |body| == k + v && |p'| == |p| && p' == Payload(a) + (Raw(k, v, body) + Payload(b))
    requires file'[HEADER..] == p' + junk && Num32(file[16..20]) == |p| % TWO32
    requires file[8..16] == Cksum(Sum(p, file[..8], file[16..20]))
    requires Cksum(Sum(p', file[..8], file[16..20])) != Cksum(Sum(p, file[..8], file[16..20]))
    ensures var l := Load(file', tag, ver); l.ret == -1 && |l.recs| == |a| + 1 + |b|
  {
    hide *;
    var k, v := KeyLen(r), ValLen(r);
    Unwrapped(|p|);
    ScanAround(a, k, v, body, b, junk, |p|);
    Nested(Payload(a), Raw(k, v, body), Payload(b), junk);
    HeaderStill(file, file', tag, ver);
    LoadPieces(file', tag, ver, ScanFrom(file'[HEADER..], 0, |p|));
    TakeDrop(file', HEADER, |p|);
    TakeFront(p', junk);
    CutIsIdentity(a);
    CutIsIdentity(b);
  }

  lemma Nested(a: seq<Byte>, m: seq<Byte>, b: seq<Byte>, junk: seq<Byte>)
    ensures (a + (m + b)) + junk == a + (m + (b + junk))
    ensures |a + (m + b)| == |a| + |m| + |b|
  {}

  lemma HeaderStill(file: seq<Byte>, file': seq<Byte>, tag: seq<Byte>, ver: nat)
    requires |tag| == 6 && |file| >= HEADER && |file'| >= HEADER && HeaderFits(file, tag, ver)
    requires file'[..6] == file[..6] && file'[6] == file[6] && file'[7] == file[7]
    ensures HeaderFits(file', tag, ver)
  {
    hide Num16;
  }

  /** So does a change to the tag, the version or the checksum field. */
  lemma HeaderCorruptionIsDetected(recs: seq<Rec>, i: nat, x: Byte, tag: seq<Byte>, ver: nat, junk: seq<Byte>)
    requires |tag| == 6 && ver < 65536 && Keys(recs) && |Payload(recs)| < TWO32 && i < 16
    ensures var file := FileFor(recs, tag, ver) + junk;
      |file| >= 16 && (file[i] != x ==> Load(file[i := x], tag, ver).ret == -1)
  {
    hide Payload, FileFor, Load, ScanFrom, Keys, Num32, Le32, TagVer, Cksum, Sum, HeaderFits, CutAll, AsInt;
    FilePieces(recs, tag, ver, junk);
    var p, file := Payload(recs), FileFor(recs, tag, ver) + junk;
    var file' := file[i := x];
    UpdateHeader(file, i, x);
    if file[i] != x {
      if HeaderFits(file', tag, ver) {
        Unwrapped(|p|);
        ScanPayload(recs, junk, 0, |p|);
        LoadPieces(file', tag, ver, Scan(CutAll(recs), |p|, true));
        TakeDrop(file', HEADER, |p|);
        TakeFront(p, junk);
        TagVerDiffers(p, file[..8], file'[..8], i, x, file[16..20]);
      } else {
        Refused(file', tag, ver);
      }
    }
  }

  lemma Refused(file: seq<Byte>, tag: seq<Byte>, ver: nat)
    requires |tag| == 6 && !HeaderFits(file, tag, ver)
    ensures Load(file, tag, ver).ret == -1
  {
    hide HeaderFits;
  }

  lemma UpdateHeader(file: seq<Byte>, i: nat, x: Byte)
    requires |file| >= HEADER && i < 16
    ensures var file' := file[i := x];
      && file'[HEADER..] == file[HEADER..] && file'[16..20] == file[16..20]
      && (i < 8 ==> file'[..8] == file[..8][i := x] && file[..8][i] == file[i] && file'[8..16] == file[8..16])
      && (i >= 8 ==> file'[..8] == file[..8] && (file[i] != x ==> file'[8..16] != file[8..16]))
  {
    var file' := file[i := x];
    if i >= 8 { assert file'[8..16][i - 8] == x && file[8..16][i - 8] == file[i]; }
  }

  lemma TagVerDiffers(p: seq<Byte>, tv: seq<Byte>, tv': seq<Byte>, i: nat, x: Byte, len: seq<Byte>)
    requires |tv| == 8 && (i < 8 ==> tv' == tv[i := x] && tv[i] != x)
    ensures i < 8 ==> Cksum(Sum(p, tv', len)) != Cksum(Sum(p, tv, len))
  {
    hide Cksum, Crc32;
    if i < 8 {
      assert p + tv' + len == (p + tv + len)[|p| + i := x] && (p + tv + len)[|p| + i] == tv[i];
      OneByteDiffers(p + tv + len, |p| + i, x, 0);
      if Cksum(Sum(p, tv', len)) == Cksum(Sum(p, tv, len)) { CksumInjective(Sum(p, tv', len), Sum(p, tv, len)); }
    }
  }
}
