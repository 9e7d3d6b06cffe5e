/** The CC1352 flasher's conversation with the ROM loader: the packets of package/cc1352-flash/cc1352-flash.c and
    the loader as the emulator of package/cc1352-flash/test_protocol.py plays it. */
module FlashSpec {
  import opened Bytes
  import opened Crc
  import opened Options

  const ACK: Byte := 0xcc
  const NACK: Byte := 0x33
  const MAX_DATA: nat := 252

  const STATUS: Byte := 0x23
  const ERASE: Byte := 0x2c
  const DOWNLOAD: Byte := 0x21
  const SEND_DATA: Byte := 0x24
  const CRC: Byte := 0x27
  const RESET: Byte := 0x25

  /** FLASH_SIZE, 704 KiB. */
  function FlashSize(): nat {
    704 * 1024
  }

  // ---------------------------------------------------------------- packets

  /** A command, and whether the loader answers it with a response besides the acknowledgement. */
  datatype Packet = Packet(cmd: Byte, data: seq<Byte>)

  /** Addition of bytes. */
  function Plus(a: Byte, b: Byte): Byte {
    a + b
  }

  lemma PlusLaws(a: Byte, b: Byte, c: Byte)
    ensures Plus(Plus(a, b), c) == Plus(a, Plus(b, c)) && Plus(a, 0) == a && Plus(0, a) == a
  {}

  /** The byte before. */
  lemma Predecessor(b: Byte) returns (c: Byte)
    requires Num8(b) > 0
    ensures Num8(c) == Num8(b) - 1 && Plus(c, 1) == b
  {
    LowOfByte(b);
    c := ByteExists(Num8(b) - 1);
    Largest(c);
    Increment(c);
    SameNumber(Plus(c, 1), b);
  }

  lemma SameNumber(a: Byte, b: Byte)
    requires Num8(a) == Num8(b)
    ensures a == b
  {
    LowOfByte(a);
    LowOfByte(b);
    hide Num8, Low;
  }

  lemma PlusOne(d: Byte)
    ensures Num8(Plus(d, 1)) == (Num8(d) + 1) % 256
  {
    if d == 255 {
      LastByte();
    } else {
      NextByte(d);
    }
  }

  lemma LastByte()
    ensures Plus(255, 1) == 0 && Num8(255) == 255 && Num8(0) == 0
  {}

  lemma NextByte(d: Byte)
    requires d != 255
    ensures Num8(Plus(d, 1)) == Num8(d) + 1 < 256
  {
    Increment(d);
    LowOfByte(Plus(d, 1));
  }

  lemma ZeroByte(b: Byte)
    requires Num8(b) == 0
    ensures b == 0
  {
    SameNumber(b, 0);
  }

  /** Bytes are added modulo 256. */
  lemma {:induction false} PlusIsModulo(a: Byte, b: Byte)
    ensures Num8(Plus(a, b)) == (Num8(a) + Num8(b)) % 256
    decreases Num8(b)
  {
    LowOfByte(a);
    LowOfByte(b);
    hide Num8, Low, Plus;
    if Num8(b) == 0 {
      ZeroByte(b);
      PlusLaws(a, 0, 0);
    } else {
      var c := Predecessor(b);
      PlusIsModulo(a, c);
      PlusLaws(a, c, 1);
      PlusOne(Plus(a, c));
    }
  }

  function Total(data: seq<Byte>): Byte {
    if data == [] then 0 else Plus(data[0], Total(data[1..]))
  }

  /** The bytes of a command: length, checksum, command, data. */
  function Encode(p: Packet): seq<Byte> {
    [Low(|p.data| + 3), Plus(p.cmd, Total(p.data)), p.cmd] + p.data
  }

  predicate Answered(p: Packet) {
    p.cmd == STATUS || p.cmd == CRC
  }

  /** What the host sends for a command: the packet, and the acknowledgement of the response if there is one. */
  function Exchange(p: Packet): seq<Byte> {
    Encode(p) + if Answered(p) then [ACK] else []
  }

  function Exchanges(ps: seq<Packet>): seq<Byte> {
    if ps == [] then [] else Exchange(ps[0]) + Exchanges(ps[1..])
  }

  function Status(): Packet {
    Packet(STATUS, [])
  }

  /** The loop over `off`: data packets, each followed by a status query. */
  function Program(image: seq<Byte>, off: nat): seq<Packet>
    decreases |image| - off
  {
    if off >= |image| then []
    else
      var n := if |image| - off > MAX_DATA then MAX_DATA else |image| - off;
      [Packet(SEND_DATA, image[off..off + n]), Status()] + Program(image, off + n)
  }

  function Padded(image: seq<Byte>): seq<Byte>
    requires |image| <= FlashSize()
  {
    image + seq(FlashSize() - |image|, i => 0xff)
  }

  function Flashing(image: seq<Byte>): seq<Packet> {
    [Packet(ERASE, []), Status(), Packet(DOWNLOAD, Be32(0) + Be32(FlashSize())), Status()] + Program(image, 0)
  }

  function Closing(): seq<Packet> {
    [Packet(CRC, Be32(0) + Be32(FlashSize()) + Be32(0)), Packet(RESET, [])]
  }

  /** Everything a run may send after the two sync bytes, `image` being padded already. */
  function Packets(image: seq<Byte>, verify: bool): seq<Packet> {
    [Status()] + (if verify then [] else Flashing(image)) + Closing()
  }

  function Sync(): seq<Byte> {
    [0x55, 0x55]
  }

  function Script(image: seq<Byte>, verify: bool): seq<Byte> {
    Sync() + Exchanges(Packets(image, verify))
  }

  /** A verify-only run has no erase, download or data packet. */
  lemma VerifyIsHarmless(image: seq<Byte>)
    ensures forall p :: p in Packets(image, true) ==> p.cmd != ERASE && p.cmd != DOWNLOAD && p.cmd != SEND_DATA
  {
    assert Packets(image, true) == [Status()] + Closing();
  }

  /** Every data packet of a flashing run carries 1 to 252 bytes, a multiple of four. */
  lemma {:induction false} DataPackets(image: seq<Byte>, off: nat)
    requires |image| % 4 == 0 && off % 4 == 0
    ensures forall p :: p in Program(image, off) && p.cmd == SEND_DATA ==> 0 < |p.data| <= MAX_DATA && |p.data| % 4 == 0
    decreases |image| - off
  {
    if off < |image| {
      var n := if |image| - off > MAX_DATA then MAX_DATA else |image| - off;
      DataPackets(image, off + n);
      hide Program;
    }
  }

  lemma FlashDataPackets(image: seq<Byte>)
    requires |image| == FlashSize()
    ensures forall p :: p in Packets(image, false) && p.cmd == SEND_DATA ==>
              0 < |p.data| <= MAX_DATA && |p.data| % 4 == 0
  {
    DataPackets(image, 0);
    hide Program, Be32;
  }

  // ---------------------------------------------------------------- the loader

  /** The loader, and whether anything it would refuse has happened. */
  datatype Rom = Rom(flash: seq<Byte>, offset: nat, remaining: nat, left: bool, refused: bool)

  function Num32Be(b: seq<Byte>): nat
    requires |b| == 4
  {
    Num8(b[3]) + 256 * Num8(b[2]) + 65536 * (Num8(b[1]) + 256 * Num8(b[0]))
  }

  /** What the loader does with a command.  Its numbers are its own, those of the emulator. */
  function Obey(r: Rom, p: Packet): Rom {
    if r.left then r.(refused := true)
    else if p.cmd == 0x23 then r
    else if p.cmd == 0x2c then r.(flash := seq(720896, i => 0xff))
    else if p.cmd == 0x21 then
      if |p.data| == 8 && Num32Be(p.data[..4]) == 0 && Num32Be(p.data[4..]) == 720896
      then r.(offset := 0, remaining := 720896) else r.(refused := true)
    else if p.cmd == 0x24 then
      if 0 < |p.data| <= 252 && |p.data| % 4 == 0 && |p.data| <= r.remaining && r.offset + |p.data| <= |r.flash|
      then r.(flash := r.flash[..r.offset] + p.data + r.flash[r.offset + |p.data|..], offset := r.offset + |p.data|,
              remaining := r.remaining - |p.data|)
      else r.(refused := true)
    else if p.cmd == 0x27 then
      if |p.data| == 12 && Num32Be(p.data[..4]) == 0 && Num32Be(p.data[4..8]) == 720896
         && Num32Be(p.data[8..]) == 0 && r.remaining == 0
      then r else r.(refused := true)
    else if p.cmd == 0x25 then r.(left := true)
    else r.(refused := true)
  }

  function ObeyAll(r: Rom, ps: seq<Packet>): Rom
    decreases |ps|
  {
    if ps == [] then r else ObeyAll(Obey(r, ps[0]), ps[1..])
  }

  /** The commands the loader answers with a response. */
  predicate Replies(cmd: Byte) {
    cmd == 0x23 || cmd == 0x27
  }

  lemma AnsweredReplies(p: Packet)
    ensures Answered(p) == Replies(p.cmd)
  {}

  /** The numbers of some bytes added up. */
  function Sum(data: seq<Byte>): nat {
    if data == [] then 0 else Num8(data[0]) + Sum(data[1..])
  }

  /** The checksum byte the loader wants. */
  function Checksum(p: Packet): nat {
    (Num8(p.cmd) + Sum(p.data)) % 256
  }

  /** The loader's parser on what it receives after the sync bytes: a packet at a time, and the acknowledgement
      after each answer.  A short packet or a wrong checksum is refused. */
  function Receive(r: Rom, s: seq<Byte>): Rom
    decreases |s|
  {
    if s == [] then r
    else
      var n := Num8(s[0]);
      if n < 3 || n > |s| then r.(refused := true)
      else
        var p := Packet(s[2], s[3..n]);
        if Num8(s[1]) != Checksum(p) then r.(refused := true)
        else if !Replies(p.cmd) then Receive(Obey(r, p), s[n..])
        else if n < |s| && s[n] == 0xcc then Receive(Obey(r, p), s[n + 1..])
        else r.(refused := true)
  }

  /** A packet small enough for its length byte. */
  predicate Sound(p: Packet) {
    |p.data| <= MAX_DATA
  }

  lemma {:induction false} TotalIsSum(data: seq<Byte>)
    ensures Num8(Total(data)) == Sum(data) % 256
  {
    hide Num8, Plus;
    if data == [] {
      ZeroNumber();
    } else {
      TotalIsSum(data[1..]);
      PlusIsModulo(data[0], Total(data[1..]));
      Modulo(Num8(data[0]), Sum(data[1..]));
    }
  }

  lemma Modulo(a: nat, s: nat)
    ensures (a + s % 256) % 256 == (a + s) % 256
  {
    assert a + s == a + s % 256 + 256 * (s / 256);
  }

  lemma ZeroNumber()
    ensures Num8(0) == 0
  {}

  lemma ChecksumAgrees(p: Packet)
    ensures Num8(Plus(p.cmd, Total(p.data))) == Checksum(p)
  {
    hide Total, Num8, Plus, Sum;
    PlusIsModulo(p.cmd, Total(p.data));
    TotalIsSum(p.data);
  }

  lemma ReceiveOne(r: Rom, p: Packet, rest: seq<Byte>)
    requires Sound(p)
    ensures Receive(r, Exchange(p) + rest) == Receive(Obey(r, p), rest)
  {
    hide Obey, Total, Num8, Low, Plus, Checksum, Replies, Answered, Receive, Encode;
    ChecksumAgrees(p);
    AnsweredReplies(p);
    LowIsByte(|p.data| + 3);
    SmallNumber(|p.data| + 3);
    var s, n := Exchange(p) + rest, |p.data| + 3;
    EncodeParts(p, (if Answered(p) then [ACK] else []) + rest);
    assert s == Encode(p) + ((if Answered(p) then [ACK] else []) + rest);
    if Answered(p) { assert s[n] == ACK && s[n + 1..] == rest; } else { assert s[n..] == rest; }
    ReceiveGood(r, s, n, p);
  }

  lemma ReceiveGood(r: Rom, s: seq<Byte>, n: nat, p: Packet)
    requires 3 <= n <= |s| && Num8(s[0]) == n && s[2] == p.cmd && s[3..n] == p.data && Num8(s[1]) == Checksum(p)
    requires Replies(p.cmd) ==> n < |s| && s[n] == ACK
    ensures Receive(r, s) == Receive(Obey(r, p), s[if Replies(p.cmd) then n + 1 else n..])
  {
    hide Obey, Num8, Checksum, Replies;
  }

  lemma SmallNumber(n: nat)
    requires n < 256
    ensures n % 256 == n
  {}

  lemma EncodeParts(p: Packet, rest: seq<Byte>)
    ensures var s := Encode(p) + rest; var n := |p.data| + 3;
      |s| == n + |rest| && s[0] == Low(n) && s[1] == Plus(p.cmd, Total(p.data)) && s[2] == p.cmd && s[3..n] == p.data
          && s[n..] == rest
  {
    hide Low, Total, Plus;
  }

  predicate AllSound(ps: seq<Packet>) {
    ps != [] ==> Sound(ps[0]) && AllSound(ps[1..])
  }

  /** The loader understands what the host sends. */
  lemma {:induction false} ReceiveAll(r: Rom, ps: seq<Packet>)
    requires AllSound(ps)
    ensures Receive(r, Exchanges(ps)) == ObeyAll(r, ps)
    decreases |ps|
  {
    hide Receive, Obey, Exchange;
    if ps == [] {
      ReceiveNothing(r);
    } else {
      ReceiveOne(r, ps[0], Exchanges(ps[1..]));
      ReceiveAll(Obey(r, ps[0]), ps[1..]);
    }
  }

  lemma ReceiveNothing(r: Rom)
    ensures Receive(r, []) == r
  {}

  lemma {:induction false} ObeyJoin(r: Rom, a: seq<Packet>, b: seq<Packet>)
    ensures ObeyAll(r, a + b) == ObeyAll(ObeyAll(r, a), b)
    ensures AllSound(a + b) <==> AllSound(a) && AllSound(b)
    decreases |a|
  {
    hide Obey;
    if a == [] {
      assert a + b == b;
    } else {
      assert (a + b)[1..] == a[1..] + b && (a + b)[0] == a[0];
      ObeyJoin(Obey(r, a[0]), a[1..], b);
    }
  }

  // ---------------------------------------------------------------- what flashing leaves behind

  /** Part-way through the data packets: what has been sent is in flash. */
  predicate Written(r: Rom, image: seq<Byte>, off: nat) {
    && !r.left && !r.refused && |image| == FlashSize() && off <= |image| && |r.flash| == |image|
    && r.offset == off && r.remaining == |image| - off && r.flash[..off] == image[..off]
  }

  lemma DataStep(r: Rom, image: seq<Byte>, off: nat, n: nat)
    requires Written(r, image, off) && off + n <= |image| && 0 < n <= MAX_DATA && n % 4 == 0
    ensures Written(Obey(r, Packet(SEND_DATA, image[off..off + n])), image, off + n)
  {
    hide FlashSize;
    var r' := Obey(r, Packet(SEND_DATA, image[off..off + n]));
    assert r'.flash[..off + n] == r.flash[..off] + image[off..off + n];
  }

  lemma StatusStep(r: Rom)
    requires !r.left
    ensures Obey(r, Status()) == r
  {}

  lemma {:induction false} ObeyProgram(r: Rom, image: seq<Byte>, off: nat)
    requires Written(r, image, off) && off % 4 == 0 && |image| % 4 == 0
    ensures Written(ObeyAll(r, Program(image, off)), image, |image|) && AllSound(Program(image, off))
    decreases |image| - off
  {
    hide Obey, FlashSize;
    if off < |image| {
      var n := if |image| - off > MAX_DATA then MAX_DATA else |image| - off;
      var p, q := Packet(SEND_DATA, image[off..off + n]), Program(image, off + n);
      DataStep(r, image, off, n);
      var r' := Obey(r, p);
      StatusStep(r');
      ObeyProgram(r', image, off + n);
      assert Program(image, off) == [p] + ([Status()] + q);
      ObeyTwo(r, p, Status(), q);
    }
  }

  lemma ObeyTwo(r: Rom, a: Packet, b: Packet, q: seq<Packet>)
    requires Sound(a) && Sound(b)
    ensures ObeyAll(r, [a] + ([b] + q)) == ObeyAll(Obey(Obey(r, a), b), q)
    ensures AllSound([a] + ([b] + q)) <==> AllSound(q)
  {
    hide Obey;
    assert ([a] + ([b] + q))[1..] == [b] + q && ([b] + q)[1..] == q;
  }

  lemma Be32RoundTrip(n: nat)
    requires n < TWO32
    ensures |Be32(n)| == 4 && Num32Be(Be32(n)) == n
  {
    LowIsByte(n);
    LowIsByte(n / 256);
    LowIsByte(n / 65536);
    LowIsByte(n / 65536 / 256);
    Digits(n);
    Digits(n / 65536);
    HighDigit(n);
    SmallRemainder(n / 65536);
    hide Low, Num8;
  }

  lemma SizeFacts()
    ensures 0 < FlashSize() < TWO32 && FlashSize() % 4 == 0
  {}

  lemma ObeySetup(r: Rom, image: seq<Byte>)
    requires !r.left && !r.refused && |image| == FlashSize()
    ensures var r1 := Obey(Obey(r, Packet(ERASE, [])), Status());
      Written(Obey(Obey(r1, Packet(DOWNLOAD, Be32(0) + Be32(FlashSize()))), Status()), image, 0)
  {
    SizeFacts();
    Be32RoundTrip(0);
    Be32RoundTrip(FlashSize());
    var a, b := Be32(0), Be32(FlashSize());
    assert (a + b)[..4] == a && (a + b)[4..] == b;
    hide Be32, FlashSize, Num32Be;
  }

  lemma ObeyClosing(r: Rom, image: seq<Byte>)
    requires Written(r, image, |image|)
    ensures var r' := Obey(Obey(r, Closing()[0]), Closing()[1]);
      r'.flash == image && r'.left && !r'.refused
  {
    SizeFacts();
    Be32RoundTrip(0);
    Be32RoundTrip(FlashSize());
    var a, b := Be32(0), Be32(FlashSize());
    assert (a + b + a)[..4] == a && (a + b + a)[4..8] == b && (a + b + a)[8..] == a;
    assert r.flash == r.flash[..|image|] && image == image[..|image|];
    hide Be32, FlashSize, Num32Be;
  }

  lemma ClosingSound()
    ensures AllSound(Closing()) && |Closing()| == 2
  {
    hide Low;
    assert Closing()[1..][1..] == [];
  }

  /** A loader that receives the whole script of a flashing run ends with the image in flash, has refused
      nothing and has been reset. */
  lemma FlashedImage(r: Rom, image: seq<Byte>)
    requires |image| == FlashSize() && !r.left && !r.refused
    ensures var r' := Receive(r, Exchanges(Packets(image, false))); r'.flash == image && r'.left && !r'.refused
  {
    hide *;
    var e, d, c := Packet(ERASE, []), Packet(DOWNLOAD, Be32(0) + Be32(FlashSize())), Closing();
    FlashParts(image);
    SmallPackets();
    ObeyJoin(r, [Status(), e, Status(), d, Status()] + Program(image, 0), c);
    ObeyJoin(r, [Status(), e, Status(), d, Status()], Program(image, 0));
    StatusStep(r);
    ObeyFive(r, e, d);
    ObeySetup(r, image);
    SizeFacts();
    ObeyProgram(Obey(Obey(Obey(Obey(r, e), Status()), d), Status()), image, 0);
    ClosingSound();
    ObeyPair(ObeyAll(r, [Status(), e, Status(), d, Status()] + Program(image, 0)), c);
    ObeyClosing(ObeyAll(r, [Status(), e, Status(), d, Status()] + Program(image, 0)), image);
    ReceiveAll(r, Packets(image, false));
  }

  lemma FlashParts(image: seq<Byte>)
    ensures var e, d := Packet(ERASE, []), Packet(DOWNLOAD, Be32(0) + Be32(FlashSize()));
      Packets(image, false) == ([Status(), e, Status(), d, Status()] + Program(image, 0)) + Closing()
  {
    hide Program, Closing, Be32, FlashSize, Status;
  }

  lemma SmallPackets()
    ensures var e, d := Packet(ERASE, []), Packet(DOWNLOAD, Be32(0) + Be32(FlashSize()));
      Sound(e) && Sound(d) && Sound(Status()) && AllSound([Status(), e, Status(), d, Status()])
  {
    hide Low;
    var e, d := Packet(ERASE, []), Packet(DOWNLOAD, Be32(0) + Be32(FlashSize()));
    var ps := [Status(), e, Status(), d, Status()];
    assert ps[1..] == [e, Status(), d, Status()] && ps[1..][1..] == [Status(), d, Status()];
    assert [Status(), d, Status()][1..] == [d, Status()] && [d, Status()][1..] == [Status()] && [Status()][1..] == [];
    assert AllSound([Status()]) && AllSound([d, Status()]) && AllSound([Status(), d, Status()]) && AllSound(ps[1..]);
  }

  lemma ObeyFive(r: Rom, e: Packet, d: Packet)
    requires Obey(r, Status()) == r
    ensures ObeyAll(r, [Status(), e, Status(), d, Status()]) == Obey(Obey(Obey(Obey(r, e), Status()), d), Status())
  {
    hide Obey, Status;
    var s := Status();
    assert [s, e, s, d, s][1..] == [e, s, d, s] && [e, s, d, s][1..] == [s, d, s];
    assert [s, d, s][1..] == [d, s] && [d, s][1..] == [s] && [s][1..] == [];
    var r1 := Obey(r, e);
    var r2 := Obey(r1, s);
    var r3 := Obey(r2, d);
    assert ObeyAll(r, [s, e, s, d, s]) == ObeyAll(r, [e, s, d, s]);
    assert ObeyAll(Obey(r3, s), []) == Obey(r3, s);
    assert ObeyAll(r3, [s]) == Obey(r3, s);
    assert ObeyAll(r2, [d, s]) == ObeyAll(r3, [s]);
    assert ObeyAll(r1, [s, d, s]) == ObeyAll(r2, [d, s]);
    assert ObeyAll(r, [e, s, d, s]) == ObeyAll(r1, [s, d, s]);
  }

  lemma ObeyPair(r: Rom, c: seq<Packet>)
    requires |c| == 2
    ensures ObeyAll(r, c) == Obey(Obey(r, c[0]), c[1])
  {
    hide Obey;
    assert c[1..] == [c[1]] && [c[1]][1..] == [];
    assert ObeyAll(Obey(r, c[0]), [c[1]]) == ObeyAll(Obey(Obey(r, c[0]), c[1]), []);
  }

  // ---------------------------------------------------------------- what the host reads

  function SkipZeros(i: seq<Byte>): seq<Byte> {
    if i != [] && i[0] == 0 then SkipZeros(i[1..]) else i
  }

  /** The input after an acknowledgement, idle zeros before it skipped. */
  function Acked(i: seq<Byte>): Option<seq<Byte>> {
    var s := SkipZeros(i);
    if s != [] && s[0] == ACK then Some(s[1..]) else None
  }

  datatype Answer = Answer(data: seq<Byte>, rest: seq<Byte>)

  /** A response of `n` bytes with its length and checksum. */
  function Answered1(i: seq<Byte>, n: nat): Option<Answer> {
    var s := SkipZeros(i);
    if |s| >= 2 + n && Num8(s[0]) == n + 2
        && Total(s[2..2 + n]) == s[1] then Some(Answer(s[2..2 + n], s[2 + n..])) else None
  }

  /** The input after the reply to a command; a status other than success is no reply. */
  function Reply(i: seq<Byte>, p: Packet): Option<Answer> {
    match Acked(i)
    case None => None
    case Some(j) =>
      if p.cmd == STATUS then
        match Answered1(j, 1)
        case None => None
        case Some(a) => if a.data == [0x40] then Some(a) else None
      else if p.cmd == CRC then Answered1(j, 4)
      else Some(Answer([], j))
  }

  /** The input after the replies to some commands. */
  function Converse(i: seq<Byte>, ps: seq<Packet>): Option<seq<Byte>>
    decreases |ps|
  {
    if ps == [] then Some(i)
    else
      match Reply(i, ps[0])
      case None => None
      case Some(a) => Converse(a.rest, ps[1..])
  }

  function Number(b: seq<Byte>): bv32
    requires |b| == 4
  {
    (b[0] as bv32 << 24) | (b[1] as bv32 << 16) | (b[2] as bv32 << 8) | (b[3] as bv32)
  }

  /** The commands before the CRC query. */
  function Opening(image: seq<Byte>, verify: bool): seq<Packet> {
    [Status()] + if verify then [] else Flashing(image)
  }

  /** The CRC the peer reports in a run whose input is `i`. */
  function Reported(i: seq<Byte>, image: seq<Byte>, verify: bool): Option<bv32> {
    match Acked(i)
    case None => None
    case Some(j) =>
      match Converse(j, Opening(image, verify))
      case None => None
      case Some(k) =>
        match Reply(k, Closing()[0])
        case None => None
        case Some(a) => if |a.data| == 4 then Some(Number(a.data)) else None
  }

  /** What has been sent is the start of the script, or that and a refusal of a damaged response. */
  predicate OnScript(sent: seq<Byte>, script: seq<Byte>) {
    sent <= script || (sent != [] && sent[|sent| - 1] == NACK && sent[..|sent| - 1] <= script)
  }

  /** The commands of `done` have been sent and answered. */
  predicate Talked(sent: seq<Byte>, input: seq<Byte>, start: seq<Byte>, done: seq<Packet>) {
    sent == Sync() + Exchanges(done) && Converse(start, done) == Some(input)
  }

  lemma {:induction false} ExchangesJoin(a: seq<Packet>, b: seq<Packet>)
    ensures Exchanges(a + b) == Exchanges(a) + Exchanges(b)
    decreases |a|
  {
    hide Exchange;
    if a == [] {
      assert a + b == b;
    } else {
      assert (a + b)[1..] == a[1..] + b;
      ExchangesJoin(a[1..], b);
    }
  }

  lemma {:induction false} ConverseSnoc(i: seq<Byte>, ps: seq<Packet>, p: Packet)
    ensures Converse(i, ps + [p]) ==
              match Converse(i, ps) case None => None case Some(j) =>
                match Reply(j, p) case None => None case Some(a) => Some(a.rest)
    decreases |ps|
  {
    hide Reply;
    if ps == [] {
      assert [] + [p] == [p] && [p][1..] == [];
    } else {
      assert (ps + [p])[1..] == ps[1..] + [p];
      match Reply(i, ps[0]) {
        case None =>
        case Some(a) => ConverseSnoc(a.rest, ps[1..], p);
      }
    }
  }

  /** One more command. */
  lemma TalkOn(sent0: seq<Byte>, input0: seq<Byte>, sent: seq<Byte>, input: seq<Byte>, start: seq<Byte>,
               done: seq<Packet>, p: Packet, data: seq<Byte>)
    requires Talked(sent0, input0, start, done) && sent == sent0 + Exchange(p)
        && Reply(input0, p) == Some(Answer(data, input))
    ensures Talked(sent, input, start, done + [p])
  {
    hide Reply, Exchange, Converse;
    ExchangesJoin(done, [p]);
    ExchangesOne(p);
    ConverseSnoc(start, done, p);
    assert Sync() + Exchanges(done) + Exchange(p) == Sync() + (Exchanges(done) + Exchange(p));
  }

  lemma ExchangesOne(p: Packet)
    ensures Exchanges([p]) == Exchange(p)
  {
    hide Exchange;
    assert [p][1..] == [] && Exchange(p) + [] == Exchange(p);
  }

  /** A command that may have been cut short keeps the run on its script. */
  lemma StaysOnScript(sent0: seq<Byte>, sent: seq<Byte>, done: seq<Packet>, p: Packet, all: seq<Packet>)
    requires sent0 == Sync() + Exchanges(done) && done + [p] <= all && sent0 <= sent
    requires sent <= sent0 + Exchange(p) || (sent == sent0 + Encode(p) + [NACK] && Answered(p))
    ensures OnScript(sent, Sync() + Exchanges(all)) && |sent| <= |Sync() + Exchanges(done + [p])|
  {
    var rest := all[|done| + 1..];
    assert all == (done + [p]) + rest;
    ExchangesJoin(done + [p], rest);
    ExchangesJoin(done, [p]);
    ExchangesOne(p);
    CutShort(Sync(), Exchanges(done), Encode(p), if Answered(p) then [ACK] else [], Exchanges(rest), sent);
  }

  lemma CutShort(y: seq<Byte>, d: seq<Byte>, e: seq<Byte>, a: seq<Byte>, rest: seq<Byte>, sent: seq<Byte>)
    requires y + d <= sent && (sent <= (y + d) + (e + a) || (sent == (y + d) + e + [NACK] && |a| == 1))
    ensures OnScript(sent, y + ((d + (e + a)) + rest)) && |sent| <= |y + (d + (e + a))|
  {
    var script := y + ((d + (e + a)) + rest);
    assert script == ((y + d) + (e + a)) + rest;
    if !(sent <= (y + d) + (e + a)) {
      assert sent[..|sent| - 1] == (y + d) + e;
      assert script == ((y + d) + e) + (a + rest);
    }
  }

  /** The bytes of the script up to, and without, the reset command. */
  function BeforeReset(image: seq<Byte>, verify: bool): seq<Byte> {
    Sync() + Exchanges(Opening(image, verify) + [Closing()[0]])
  }

  lemma PacketParts(image: seq<Byte>, verify: bool)
    ensures Packets(image, verify) == Opening(image, verify) + Closing()
    ensures Packets(image, verify) == (Opening(image, verify) + [Closing()[0]]) + [Closing()[1]]
    ensures [Status()] <= Opening(image, verify) && Opening(image, true) == [Status()]
  {
    hide Flashing, Be32;
  }

  lemma FlashingParts(image: seq<Byte>)
    ensures var e, d := Packet(ERASE, []), Packet(DOWNLOAD, Be32(0) + Be32(FlashSize()));
      Opening(image, false) == [Status()] + [e] + [Status()] + [d] + [Status()] + Program(image, 0)
  {
    hide Program, Be32, FlashSize, Status;
  }

  lemma ProgramParts(image: seq<Byte>, off: nat)
    requires off < |image|
    ensures var n := if |image| - off > MAX_DATA then MAX_DATA else |image| - off;
      Program(image, off) == [Packet(SEND_DATA, image[off..off + n])] + [Status()] + Program(image, off + n)
  {
    hide Status;
  }

  // ---------------------------------------------------------------- a line that works

  /** How many of the coming calls move something. */
  function Moves(io: seq<int>): nat {
    if io == [] then 0 else (if io[0] > 0 then 1 else 0) + Moves(io[1..])
  }

  /** No call fails, and there are enough of them to read all of `input` and to write `n` bytes. */
  predicate CanGo(io: seq<int>, input: seq<Byte>, n: nat) {
    0 !in io && Moves(io) >= |input| + n
  }

  /** No more calls have been used than bytes were read, plus `n` for bytes written. */
  predicate Used(io0: seq<int>, input0: seq<Byte>, io: seq<int>, input: seq<Byte>, n: nat) {
    0 !in io0 ==> 0 !in io && Moves(io) + n + |input0| >= Moves(io0) + |input|
  }

  lemma NextCall(io: seq<int>)
    requires io != []
    ensures Moves(io) == (if io[0] > 0 then 1 else 0) + Moves(io[1..])
    ensures 0 !in io ==> io[0] != 0 && 0 !in io[1..]
  {}

  lemma NoCall()
    ensures Moves([]) == 0
  {}

  lemma GoesOn(io0: seq<int>, input0: seq<Byte>, io: seq<int>, input: seq<Byte>, n: nat, k: nat)
    requires Used(io0, input0, io, input, n)
    ensures CanGo(io0, input0, n + k) ==> CanGo(io, input, k)
  {
    hide Moves;
  }

  lemma UsedBoth(io0: seq<int>, input0: seq<Byte>, io1: seq<int>, input1: seq<Byte>, io: seq<int>, input: seq<Byte>,
      n: nat, k: nat)
    requires Used(io0, input0, io1, input1, n) && Used(io1, input1, io, input, k)
    ensures Used(io0, input0, io, input, n + k)
  {
    hide Moves;
  }

  lemma UsedLess(io0: seq<int>, input0: seq<Byte>, io: seq<int>, input: seq<Byte>, n: nat, k: nat)
    requires Used(io0, input0, io, input, n) && n <= k
    ensures Used(io0, input0, io, input, k)
  {
    hide Moves;
  }

  lemma CanGoLess(io: seq<int>, input: seq<Byte>, n: nat, k: nat)
    requires CanGo(io, input, n) && k <= n
    ensures CanGo(io, input, k)
  {
    hide Moves;
  }

  lemma NothingUsed(io: seq<int>, input: seq<Byte>)
    ensures Used(io, input, io, input, 0)
  {}

  /** The line works for the commands `ps`, and they will all be answered. */
  predicate Going(io: seq<int>, input: seq<Byte>, ps: seq<Packet>) {
    CanGo(io, input, |Exchanges(ps)|) && Converse(input, ps).Some?
  }

  lemma GoingFirst(io: seq<int>, input: seq<Byte>, p: Packet, rest: seq<Packet>)
    requires Going(io, input, [p] + rest)
    ensures CanGo(io, input, |Exchange(p)|) && Reply(input, p).Some?
  {
    hide CanGo, Exchange, Reply;
    assert ([p] + rest)[1..] == rest;
    CanGoLess(io, input, |Exchanges([p] + rest)|, |Exchange(p)|);
  }

  lemma GoingNext(io0: seq<int>, input0: seq<Byte>, io: seq<int>, input: seq<Byte>, p: Packet, rest: seq<Packet>,
      data: seq<Byte>)
    requires Going(io0, input0, [p] + rest) && Used(io0, input0, io, input, |Exchange(p)|)
    requires Reply(input0, p) == Some(Answer(data, input))
    ensures Going(io, input, rest)
  {
    hide CanGo, Used, Exchange, Reply;
    assert ([p] + rest)[1..] == rest;
    GoesOn(io0, input0, io, input, |Exchange(p)|, |Exchanges(rest)|);
  }

  /** The peer answers every command, with the checksum of the image, over a line that works. */
  predicate Cooperates(io: seq<int>, input: seq<Byte>, image: seq<Byte>, verify: bool) {
    && CanGo(io, input, |Script(image, verify)|)
    && (match Acked(input) case None => false case Some(j) => Converse(j, Packets(image, verify)).Some?)
    && Reported(input, image, verify) == Some(Crc32(image, 0))
  }
}
