/** Whole runs of the flasher against a faithful loader (package/cc1352-flash/cc1352-flash.c:278-371,
    package/cc1352-flash/test_protocol.py:46-94). */
module FlashRuns {
  import opened Bytes
  import opened Crc
  import opened FlashSpec
  import opened Options

  /** The loader from power-up: two sync bytes, then packets. */
  function PowerUp(r: Rom, s: seq<Byte>): Rom {
    if |s| >= 2 && s[..2] == [0x55, 0x55] then Receive(r, s[2..]) else r.(refused := true)
  }

  /** A flashing run that succeeds has sent the whole script; a loader that received it holds the firmware from address
      zero on, and FF behind it, whatever its flash held before. */
  lemma SuccessMeansFlashed(file: seq<Byte>, sent: seq<Byte>, r: Rom)
    requires 0 < |file| <= FlashSize() && sent == Script(Padded(file), false) && !r.left && !r.refused
    ensures var r' := PowerUp(r, sent);
      && |r'.flash| == 704 * 1024 && r'.flash[..|file|] == file
      && (forall i :: |file| <= i < 704 * 1024 ==> r'.flash[i] == 0xff)
      && r'.left && !r'.refused
  {
    FlashedImage(r, Padded(file));
    PaddedHolds(file);
    hide Exchanges, Packets, Receive, FlashSize, Padded;
    assert sent[..2] == Sync() && sent[2..] == Exchanges(Packets(Padded(file), false));
  }

  lemma PaddedHolds(file: seq<Byte>)
    requires |file| <= FlashSize()
    ensures |Padded(file)| == 704 * 1024 && Padded(file)[..|file|] == file
    ensures forall i :: |file| <= i < 704 * 1024 ==> Padded(file)[i] == 0xff
  {}

  /** A verify-only run, wherever it stops, leaves the loader's flash as it was. */
  lemma VerifyKeepsFlash(image: seq<Byte>, sent: seq<Byte>, r: Rom)
    requires OnScript(sent, Script(image, true))
    ensures PowerUp(r, sent).flash == r.flash
  {
    hide Receive, FlashSize, Be32, Exchanges, Packets;
    assert Sync() == [0x55, 0x55];
    var e := Exchanges(Packets(image, true));
    HarmlessScript(image);
    if |sent| >= 2 && sent[..2] == Sync() {
      if sent <= Script(image, true) {
        assert sent[2..] <= e && sent[2..] + [] == sent[2..];
        Harmless(r, Packets(image, true), sent[2..], false);
      } else {
        var cut := sent[..|sent| - 1];
        assert cut <= Sync() + e && sent == cut + [NACK];
        assert sent[..2][1] == sent[1];
        assert |cut| >= 2;
        assert cut[2..] <= e && sent[2..] == cut[2..] + [NACK];
        Harmless(r, Packets(image, true), cut[2..], true);
      }
    }
  }

  predicate HarmlessCommand(c: Byte) {
    c != ERASE && c != SEND_DATA
  }

  predicate AllHarmless(ps: seq<Packet>) {
    ps == [] || (Sound(ps[0]) && HarmlessCommand(ps[0].cmd) && AllHarmless(ps[1..]))
  }

  lemma HarmlessScript(image: seq<Byte>)
    ensures AllHarmless(Packets(image, true))
  {
    hide Be32, FlashSize;
    ClosingSound();
    var c := Closing();
    assert Packets(image, true) == [Status()] + c && ([Status()] + c)[1..] == c && c[1..] == [c[1]]
        && [c[1]][1..] == [];
  }

  lemma Short(r: Rom, s: seq<Byte>)
    requires |s| < 3
    ensures Receive(r, s).flash == r.flash
  {}

  lemma ObeyHarmless(r: Rom, p: Packet)
    requires HarmlessCommand(p.cmd)
    ensures Obey(r, p).flash == r.flash
  {}

  /** Harmless commands, cut off anywhere, and perhaps refused there. */
  lemma {:induction false} Harmless(r: Rom, ps: seq<Packet>, t: seq<Byte>, nack: bool)
    requires AllHarmless(ps) && t <= Exchanges(ps)
    ensures Receive(r, t + if nack then [NACK] else []).flash == r.flash
    decreases |ps|
  {
    var s := t + if nack then [NACK] else [];
    if ps == [] {
      Short(r, s);
    } else {
      var p, n := ps[0], |Exchange(ps[0])|;
      assert Exchanges(ps) == Exchange(p) + Exchanges(ps[1..]);
      if |t| >= n {
        assert t == Exchange(p) + t[n..] && t[n..] <= Exchanges(ps[1..]);
        assert s == Exchange(p) + (t[n..] + if nack then [NACK] else []);
        ReceiveOne(r, p, t[n..] + if nack then [NACK] else []);
        ObeyHarmless(r, p);
        Harmless(Obey(r, p), ps[1..], t[n..], nack);
      } else {
        CutOff(r, p, t, s);
      }
    }
  }

  lemma CutFacts(p: Packet, t: seq<Byte>, s: seq<Byte>)
    requires Sound(p) && t <= Exchange(p) && |t| < |Exchange(p)| && (s == t || s == t + [NACK])
    ensures |s| <= |p.data| + 4
    ensures |s| >= 3 ==> Num8(s[0]) == |p.data| + 3 && (s[2] == p.cmd || s[2] == NACK)
  {
    hide Num8, Low, Plus, Total;
    EncodeParts(p, if Answered(p) then [ACK] else []);
    LowIsByte(|p.data| + 3);
    SmallNumber(|p.data| + 3);
    if |s| >= 3 {
      assert s[0] == t[0] == Exchange(p)[0];
      assert |t| >= 3 ==> s[2] == t[2] == Exchange(p)[2];
    }
  }

  /** Less than one exchange. */
  lemma CutOff(r: Rom, p: Packet, t: seq<Byte>, s: seq<Byte>)
    requires Sound(p) && HarmlessCommand(p.cmd) && t <= Exchange(p) && |t| < |Exchange(p)|
        && (s == t || s == t + [NACK])
    ensures Receive(r, s).flash == r.flash
  {
    hide Receive, Num8, Exchange, Obey, Sound;
    CutFacts(p, t, s);
    if |s| < 3 {
      Short(r, s);
    } else {
      var n := |p.data| + 3;
      OnePacket(r, s, n);
      if n <= |s| {
        var q := Packet(s[2], s[3..n]);
        ObeyHarmless(r, q);
        Short(Obey(r, q), s[n..]);
        if n < |s| { Short(Obey(r, q), s[n + 1..]); }
      }
    }
  }

  /** What the loader does with the first packet it is sent. */
  lemma OnePacket(r: Rom, s: seq<Byte>, n: nat)
    requires |s| >= 3 && n >= 3 && Num8(s[0]) == n
    ensures var t := Receive(r, s);
      || t.flash == r.flash
      || (n <= |s| && t == Receive(Obey(r, Packet(s[2], s[3..n])), s[n..]))
      || (n < |s| && t == Receive(Obey(r, Packet(s[2], s[3..n])), s[n + 1..]))
  {
    hide Num8, Obey, Total, Plus;
  }

  /** A complete verify-only script is obeyed without a refusal. */
  lemma VerifyCompletes(image: seq<Byte>, r: Rom)
    requires |image| == FlashSize() && !r.left && !r.refused && r.remaining == 0
    ensures var r' := PowerUp(r, Script(image, true)); r'.flash == r.flash && r'.left && !r'.refused
  {
    var s := Script(image, true);
    hide Receive, FlashSize, Obey, ObeyAll, Exchanges, AllSound;
    assert s[..2] == Sync() && s[2..] == Exchanges(Packets(image, true));
    VerifyObeys(image, r);
  }

  lemma VerifyObeys(image: seq<Byte>, r: Rom)
    requires |image| == FlashSize() && !r.left && !r.refused && r.remaining == 0
    ensures var r' := Receive(r, Exchanges(Packets(image, true))); r'.flash == r.flash && r'.left && !r'.refused
  {
    hide *;
    PacketParts(image, true);
    ClosingSound();
    StatusSound();
    ObeyJoin(r, [Status()], Closing());
    StatusStep(r);
    ObeySingle(r);
    ObeyPair(r, Closing());
    ClosingKeeps(r);
    ReceiveAll(r, Packets(image, true));
  }

  lemma StatusSound()
    ensures AllSound([Status()])
  {
    assert [Status()][1..] == [];
  }

  lemma ObeySingle(r: Rom)
    requires Obey(r, Status()) == r
    ensures ObeyAll(r, [Status()]) == r
  {
    hide Obey;
    assert [Status()][1..] == [] && ObeyAll(Obey(r, Status()), []) == r;
  }

  lemma ClosingKeeps(r: Rom)
    requires !r.left && !r.refused && r.remaining == 0
    ensures var r' := Obey(Obey(r, Closing()[0]), Closing()[1]); r'.flash == r.flash && r'.left && !r'.refused
  {
    SizeFacts();
    Be32RoundTrip(0);
    Be32RoundTrip(FlashSize());
    var a, b := Be32(0), Be32(FlashSize());
    assert (a + b + a)[..4] == a && (a + b + a)[4..8] == b && (a + b + a)[8..] == a;
    hide Be32, FlashSize, Num32Be;
  }

  // ---------------------------------------------------------------- what a faithful loader sends

  function Zeros(n: nat): seq<Byte> {
    if n == 0 then [] else [0] + Zeros(n - 1)
  }

  /** An acknowledgement after some idle zeros. */
  function AckAfter(n: nat): seq<Byte> {
    Zeros(n) + [ACK]
  }

  /** A response after some idle zeros. */
  function ResponseAfter(n: nat, data: seq<Byte>): seq<Byte> {
    Zeros(n) + ([Low(|data| + 2), Low(Sum(data))] + data)
  }

  function CrcBytes(c: bv32): seq<Byte> {
    [((c >> 24) & 0xFF) as bv8, ((c >> 16) & 0xFF) as bv8, ((c >> 8) & 0xFF) as bv8, (c & 0xFF) as bv8]
  }

  lemma CrcNumber(c: bv32)
    ensures Number(CrcBytes(c)) == c
  {}

  lemma {:induction false} SkipIdle(n: nat, rest: seq<Byte>)
    requires rest != [] && rest[0] != 0
    ensures SkipZeros(Zeros(n) + rest) == rest
  {
    if n == 0 {
      assert Zeros(n) + rest == rest;
    } else {
      assert (Zeros(n) + rest)[1..] == Zeros(n - 1) + rest;
      SkipIdle(n - 1, rest);
    }
  }

  lemma ReadsAck(n: nat, rest: seq<Byte>)
    ensures Acked(AckAfter(n) + rest) == Some(rest)
  {
    hide SkipZeros, Zeros;
    assert AckAfter(n) + rest == Zeros(n) + ([ACK] + rest);
    SkipIdle(n, [ACK] + rest);
    assert ([ACK] + rest)[1..] == rest;
  }

  lemma ReadsResponse(n: nat, data: seq<Byte>, rest: seq<Byte>)
    requires |data| <= MAX_DATA
    ensures Answered1(ResponseAfter(n, data) + rest, |data|) == Some(Answer(data, rest))
  {
    hide SkipZeros, Zeros, Total, Low, Num8, Sum;
    LowIsByte(|data| + 2);
    SmallNumber(|data| + 2);
    SumByte(data);
    var s := ([Low(|data| + 2), Total(data)] + data) + rest;
    assert ResponseAfter(n, data) + rest == Zeros(n) + s;
    ZeroIsZero(Low(|data| + 2));
    SkipIdle(n, s);
    assert s[2..2 + |data|] == data && s[2 + |data|..] == rest;
  }

  lemma SumByte(data: seq<Byte>)
    ensures Low(Sum(data)) == Total(data)
  {
    hide Total, Low, Num8, Sum;
    LowIsByte(Sum(data));
    TotalIsSum(data);
    SameNumber(Low(Sum(data)), Total(data));
  }

  lemma ZeroIsZero(b: Byte)
    ensures Num8(b) != 0 ==> b != 0
  {}

  /** What the loader answers a command with besides the acknowledgement. */
  function AnswerOf(r: Rom, p: Packet): seq<Byte> {
    if p.cmd == STATUS then [0x40] else CrcBytes(Crc32(r.flash, 0))
  }

  /** Everything the loader sends while it obeys some commands, with any idle zeros in between. */
  function Serve(r: Rom, ps: seq<Packet>, idle: seq<nat>): seq<Byte>
    requires |idle| == 2 * |ps|
    decreases |ps|
  {
    if ps == [] then []
    else
      AckAfter(idle[0]) + ((if Answered(ps[0]) then ResponseAfter(idle[1], AnswerOf(r, ps[0])) else [])
      + Serve(Obey(r, ps[0]), ps[1..], idle[2..]))
  }

  lemma CrcSize(c: bv32)
    ensures |CrcBytes(c)| == 4
  {}

  lemma ServedOne(r: Rom, p: Packet, n: nat, k: nat, rest: seq<Byte>)
    ensures var d := AnswerOf(r, p);
      Reply(AckAfter(n) + ((if Answered(p) then ResponseAfter(k, d) else []) + rest), p) ==
        Some(Answer(if Answered(p) then d else [], rest))
  {
    hide Crc32, AckAfter, ResponseAfter, CrcBytes, Acked, Answered1;
    var d := AnswerOf(r, p);
    CrcSize(Crc32(r.flash, 0));
    ReadsAck(n, (if Answered(p) then ResponseAfter(k, d) else []) + rest);
    ReadsResponse(k, d, rest);
    assert [] + rest == rest;
  }

  /** The host understands every answer. */
  lemma {:induction false} Served(r: Rom, ps: seq<Packet>, idle: seq<nat>, rest: seq<Byte>)
    requires |idle| == 2 * |ps|
    ensures Converse(Serve(r, ps, idle) + rest, ps) == Some(rest)
    decreases |ps|
  {
    hide Reply, AnswerOf, AckAfter, ResponseAfter, Obey, Answered;
    if ps == [] {
      assert Serve(r, ps, idle) + rest == rest;
    } else {
      var p, more := ps[0], Serve(Obey(r, ps[0]), ps[1..], idle[2..]);
      var a, b := AckAfter(idle[0]), if Answered(p) then ResponseAfter(idle[1], AnswerOf(r, p)) else [];
      assert (a + (b + more)) + rest == a + (b + (more + rest));
      ServedOne(r, p, idle[0], idle[1], more + rest);
      Served(Obey(r, p), ps[1..], idle[2..], rest);
    }
  }

  lemma {:induction false} ServeJoin(r: Rom, a: seq<Packet>, b: seq<Packet>, idle: seq<nat>)
    requires |idle| == 2 * |a + b|
    ensures Serve(r, a + b, idle) == Serve(r, a, idle[..2 * |a|]) + Serve(ObeyAll(r, a), b, idle[2 * |a|..])
    decreases |a|
  {
    hide AnswerOf, AckAfter, ResponseAfter, Obey, Answered;
    var n := 2 * |a|;
    if a == [] {
      assert a + b == b && idle[0..] == idle;
      assert Serve(r, a, idle[..n]) == [];
    } else {
      assert (a + b)[1..] == a[1..] + b;
      ServeJoin(Obey(r, a[0]), a[1..], b, idle[2..]);
      assert idle[2..][..n - 2] == idle[..n][2..] && idle[2..][n - 2..] == idle[n..];
      var x, y := AckAfter(idle[0]), if Answered(a[0]) then ResponseAfter(idle[1], AnswerOf(r, a[0])) else [];
      var u, v := Serve(Obey(r, a[0]), a[1..], idle[..n][2..]), Serve(ObeyAll(r, a), b, idle[n..]);
      assert x + (y + (u + v)) == (x + (y + u)) + v;
    }
  }

  /** The loader reports the CRC of what is in flash once it has obeyed the commands before the query. */
  lemma ServedReports(r: Rom, image: seq<Byte>, verify: bool, z: nat, idle: seq<nat>, rest: seq<Byte>)
    requires |idle| == 2 * |Packets(image, verify)|
    ensures var i := AckAfter(z) + (Serve(r, Packets(image, verify), idle) + rest);
      && Acked(i) == Some(Serve(r, Packets(image, verify), idle) + rest)
      && Reported(i, image, verify) == Some(Crc32(ObeyAll(r, Opening(image, verify)).flash, 0))
  {
    hide Reply, Crc32, AckAfter, ResponseAfter, Acked, Number, CrcBytes, Be32, FlashSize, Obey, Opening, Packets,
        Converse;
    var o, c := Opening(image, verify), Closing();
    PacketParts(image, verify);
    ReadsAck(z, Serve(r, Packets(image, verify), idle) + rest);
    ServeJoin(r, o, c, idle);
    var r', n := ObeyAll(r, o), 2 * |o|;
    var more := Serve(Obey(r', c[0]), c[1..], idle[n..][2..]);
    var crc := CrcBytes(Crc32(r'.flash, 0));
    var k := AckAfter(idle[n..][0]) + (ResponseAfter(idle[n..][1], crc) + (more + rest));
    assert Serve(r', c, idle[n..]) + rest == k by {
      assert Serve(r', c, idle[n..]) == AckAfter(idle[n..][0]) + (ResponseAfter(idle[n..][1], crc) + more);
    }
    assert Serve(r, Packets(image, verify), idle) + rest == Serve(r, o, idle[..n]) + k;
    Served(r, o, idle[..n], k);
    ServedOne(r', c[0], idle[n..][0], idle[n..][1], more + rest);
    CrcSize(Crc32(r'.flash, 0));
    CrcNumber(Crc32(r'.flash, 0));
  }

  /** Over a line that works, a run against a faithful loader succeeds exactly if the flash then holds the image, as
      far as its CRC tells. */
  lemma FaithfulLoader(r: Rom, image: seq<Byte>, verify: bool, z: nat, idle: seq<nat>, rest: seq<Byte>, io: seq<int>)
    requires |idle| == 2 * |Packets(image, verify)|
    requires var i := AckAfter(z) + (Serve(r, Packets(image, verify), idle) + rest);
        CanGo(io, i, |Script(image, verify)|)
    ensures var i := AckAfter(z) + (Serve(r, Packets(image, verify), idle) + rest);
      Cooperates(io, i, image, verify) <==> Crc32(ObeyAll(r, Opening(image, verify)).flash, 0) == Crc32(image, 0)
  {
    hide Crc32, CanGo, Script, Serve, Packets, Opening, ObeyAll, AckAfter, Acked, Converse, Reported;
    ServedReports(r, image, verify, z, idle, rest);
    Served(r, Packets(image, verify), idle, rest);
  }

  /** A flashing run against a faithful loader succeeds whatever its flash held before. */
  lemma FlashingSucceeds(r: Rom, image: seq<Byte>, z: nat, idle: seq<nat>, rest: seq<Byte>, io: seq<int>)
    requires |image| == FlashSize() && !r.left && !r.refused && |idle| == 2 * |Packets(image, false)|
    requires var i := AckAfter(z) + (Serve(r, Packets(image, false), idle) + rest); CanGo(io, i, |Script(image, false)|)
    ensures Cooperates(io, AckAfter(z) + (Serve(r, Packets(image, false), idle) + rest), image, false)
  {
    hide *;
    FaithfulLoader(r, image, false, z, idle, rest, io);
    Opened(r, image);
    WholeFlash(ObeyAll(r, Opening(image, false)), image);
  }

  lemma WholeFlash(r: Rom, image: seq<Byte>)
    requires Written(r, image, |image|)
    ensures r.flash == image
  {
    assert r.flash == r.flash[..|image|] && image == image[..|image|];
  }

  /** Before the CRC query of a flashing run, the image is in flash. */
  lemma Opened(r: Rom, image: seq<Byte>)
    requires |image| == FlashSize() && !r.left && !r.refused
    ensures Written(ObeyAll(r, Opening(image, false)), image, |image|)
  {
    hide *;
    var e, d := Packet(ERASE, []), Packet(DOWNLOAD, Be32(0) + Be32(FlashSize()));
    OpeningList(image);
    ObeyJoin(r, [Status(), e, Status(), d, Status()], Program(image, 0));
    StatusStep(r);
    SmallPackets();
    ObeyFive(r, e, d);
    ObeySetup(r, image);
    SizeFacts();
    ObeyProgram(Obey(Obey(Obey(Obey(r, e), Status()), d), Status()), image, 0);
  }

  lemma OpeningList(image: seq<Byte>)
    ensures var e, d := Packet(ERASE, []), Packet(DOWNLOAD, Be32(0) + Be32(FlashSize()));
      Opening(image, false) == [Status(), e, Status(), d, Status()] + Program(image, 0)
  {
    hide Program, Be32, FlashSize, Status;
  }

  /** A verify-only run against a faithful loader succeeds exactly if the CRC of its flash is that of the image. */
  lemma VerifyingSucceeds(r: Rom, image: seq<Byte>, z: nat, idle: seq<nat>, rest: seq<Byte>, io: seq<int>)
    requires !r.left && |idle| == 2 * |Packets(image, true)|
    requires var i := AckAfter(z) + (Serve(r, Packets(image, true), idle) + rest); CanGo(io, i, |Script(image, true)|)
    ensures Cooperates(io, AckAfter(z) + (Serve(r, Packets(image, true), idle) + rest), image, true) <==>
              Crc32(r.flash, 0) == Crc32(image, 0)
  {
    hide *;
    FaithfulLoader(r, image, true, z, idle, rest, io);
    PacketParts(image, true);
    StatusStep(r);
    ObeySingle(r);
  }

  /** So flash that differs from the image in one byte never passes: the run reports a CRC other than the one a
      reset requires. */
  lemma OneWrongByteIsNoticed(r: Rom, image: seq<Byte>, j: nat, x: Byte, z: nat, idle: seq<nat>, rest: seq<Byte>)
    requires !r.left && |idle| == 2 * |Packets(image, true)| && j < |image| && image[j] != x && r.flash == image[j := x]
    ensures Reported(AckAfter(z) + (Serve(r, Packets(image, true), idle) + rest), image, true) != Some(Crc32(image, 0))
  {
    hide *;
    ServedReports(r, image, true, z, idle, rest);
    PacketParts(image, true);
    StatusStep(r);
    ObeySingle(r);
    OneByteDiffers(image, j, x, 0);
  }
}
