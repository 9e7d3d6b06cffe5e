/** cc1352-flash as it is written (package/cc1352-flash/cc1352-flash.c:63-174, 278-371): a host that talks to
    whatever is on the other end of the line. */
module Flash {
  import opened Bytes
  import opened Crc
  import opened FlashSpec
  import opened Options

  class Host {
    /** The bytes the other end will send. */
    var input: seq<Byte>
    /** What the coming read and write calls do: retry (negative), fail (zero), or move at most so many bytes.
        Without a next one, the deadline passes. */
    var io: seq<int>
    var sent: seq<Byte>

    constructor (input: seq<Byte>, io: seq<int>)
      ensures this.input == input && this.io == io && sent == []
    {
      this.input, this.io, sent := input, io, [];
    }

    /** transfer, writing.  False is the exit of the program. */
    method Put(bytes: seq<Byte>) returns (ok: bool)
      modifies this
      ensures input == old(input) && old(sent) <= sent <= old(sent) + bytes
      ensures ok ==> sent == old(sent) + bytes
      ensures Used(old(io), old(input), io, input, |bytes|) && (CanGo(old(io), old(input), |bytes|) ==> ok)
    {
      hide Moves;
      NoCall();
      var pos: nat := 0;
      while pos < |bytes|
        invariant pos <= |bytes| && input == old(input) && sent == old(sent) + bytes[..pos]
        invariant Used(old(io), old(input), io, input, pos)
        decreases |io|
      {
        if io == [] { return false; }
        NextCall(io);
        var n := io[0];
        io := io[1..];
        if n < 0 { continue; }
        if n == 0 { return false; }
        if n > |bytes| - pos { n := |bytes| - pos; }
        assert bytes[..pos] + bytes[pos..pos + n] == bytes[..pos + n];
        sent := sent + bytes[pos..pos + n];
        pos := pos + n;
      }
      assert bytes[..pos] == bytes;
      ok := true;
    }

    /** transfer, reading. */
    method Get(len: nat) returns (ok: bool, data: seq<Byte>)
      modifies this
      ensures sent == old(sent)
      ensures ok ==> |old(input)| >= len && data == old(input)[..len] && input == old(input)[len..]
      ensures Used(old(io), old(input), io, input, 0) && (CanGo(old(io), old(input), 0) && |old(input)| >= len ==> ok)
    {
      hide Moves;
      NoCall();
      data := [];
      while |data| < len
        invariant Used(old(io), old(input), io, input, 0)
        invariant |data| <= len && |data| <= |old(input)| && data == old(input)[..|data|]
            && input == old(input)[|data|..]
        invariant sent == old(sent)
        decreases |io|
      {
        if io == [] || input == [] { return false, data; }
        NextCall(io);
        var n := io[0];
        io := io[1..];
        if n < 0 { continue; }
        if n == 0 { return false, data; }
        if n > len - |data| { n := len - |data|; }
        if n > |input| { n := |input|; }
        assert data + input[..n] == old(input)[..|data| + n];
        data, input := data + input[..n], input[n..];
      }
      ok := true;
    }

    /** nonzero */
    method NonZero() returns (ok: bool, b: Byte)
      modifies this
      ensures sent == old(sent)
      ensures ok ==> var s := SkipZeros(old(input)); s != [] && b == s[0] && b != 0 && input == s[1..]
      ensures Used(old(io), old(input), io, input, 0)
          && (CanGo(old(io), old(input), 0) && SkipZeros(old(input)) != [] ==> ok)
    {
      hide CanGo, Used;
      b := 0;
      NothingUsed(io, input);
      while true
        invariant sent == old(sent) && SkipZeros(input) == SkipZeros(old(input))
        invariant Used(old(io), old(input), io, input, 0)
        decreases |input|
      {
        ghost var i, c := input, io;
        var data;
        GoesOn(old(io), old(input), c, i, 0, 0);
        ok, data := Get(1);
        UsedBoth(old(io), old(input), c, i, io, input, 0, 0);
        if !ok { return; }
        b := data[0];
        assert i[..1][0] == i[0];
        if b != 0 { return; }
      }
    }

    /** expect_ack */
    method ExpectAck() returns (ok: bool)
      modifies this
      ensures sent == old(sent)
      ensures ok ==> Acked(old(input)) == Some(input)
      ensures Used(old(io), old(input), io, input, 0)
          && (CanGo(old(io), old(input), 0) && Acked(old(input)).Some? ==> ok)
    {
      hide CanGo, Used, SkipZeros;
      var b;
      ok, b := NonZero();
      ok := ok && b == ACK;
    }

    /** command */
    method Command(p: Packet) returns (ok: bool)
      modifies this
      ensures old(sent) <= sent <= old(sent) + Encode(p)
      ensures ok ==> sent == old(sent) + Encode(p) && Acked(old(input)) == Some(input)
      ensures Used(old(io), old(input), io, input, |Encode(p)|)
      ensures CanGo(old(io), old(input), |Encode(p)|) && Acked(old(input)).Some? && |p.data| <= MAX_DATA ==> ok
    {
      hide Low, Plus, Acked, CanGo, Used;
      NothingUsed(io, input);
      UsedLess(io, input, io, input, 0, |Encode(p)|);
      if |p.data| > MAX_DATA { return false; }
      var sum := p.cmd;
      var i := 0;
      assert p.data[0..] == p.data;
      while i < |p.data|
        invariant i <= |p.data| && Plus(sum, Total(p.data[i..])) == Plus(p.cmd, Total(p.data))
        invariant sent == old(sent) && input == old(input) && io == old(io)
      {
        assert p.data[i..][0] == p.data[i] && p.data[i..][1..] == p.data[i + 1..];
        PlusLaws(sum, p.data[i], Total(p.data[i + 1..]));
        sum := Plus(sum, p.data[i]);
        i := i + 1;
      }
      PlusLaws(sum, 0, 0);
      assert p.data[i..] == [];
      ok := Put([Low(|p.data| + 3), sum, p.cmd] + p.data);
      ghost var c := io;
      GoesOn(old(io), old(input), io, input, |Encode(p)|, 0);
      if ok { ok := ExpectAck(); UsedBoth(old(io), old(input), c, old(input), io, input, |Encode(p)|, 0); }
    }

    /** response */
    method Response(n: nat) returns (ok: bool, data: seq<Byte>)
      modifies this
      ensures old(sent) <= sent && (sent <= old(sent) + [ACK] || sent == old(sent) + [NACK])
      ensures ok ==> sent == old(sent) + [ACK] && Answered1(old(input), n) == Some(Answer(data, input))
      ensures Used(old(io), old(input), io, input, 1)
      ensures CanGo(old(io), old(input), 1) && Answered1(old(input), n).Some? ==> ok
    {
      hide SkipZeros, Num8, CanGo, Used;
      data := [];
      var len, sum;
      ghost var s, c0, i0 := SkipZeros(input), io, input;
      Spare(c0, i0, 1);
      ok, len := NonZero();
      UsedLess(c0, i0, io, input, 0, 1);
      GoesOn(c0, i0, io, input, 0, 1);
      Spare(io, input, 1);
      ghost var c1, i1 := io, input;
      if !ok { return; }
      if Num8(len) != n + 2 { return false, data; }
      ok, sum := Get(1);
      UsedBoth(c0, i0, c1, i1, io, input, 0, 0);
      UsedLess(c0, i0, io, input, 0, 1);
      GoesOn(c0, i0, io, input, 0, 1);
      Spare(io, input, 1);
      ghost var c2, i2 := io, input;
      if !ok { return; }
      ok, data := Get(n);
      UsedBoth(c0, i0, c2, i2, io, input, 0, 0);
      UsedLess(c0, i0, io, input, 0, 1);
      GoesOn(c0, i0, io, input, 0, 1);
      ghost var c3, i3 := io, input;
      if !ok { return; }
      assert s[1..][..1][0] == s[1] && s[1..][1..] == s[2..] && s[2..][..n] == s[2..2 + n] && s[2..][n..] == s[2 + n..];
      var expected := Sum(data);
      var ack := ACK;
      if expected != sum[0] { ack := NACK; }
      ghost var before := sent;
      ok := Put([ack]);
      UsedBoth(c0, i0, c3, i3, io, input, 0, 1);
      if !ok { OneByte(before, sent, ack); return; }
      if ack == NACK { return false, data; }
    }

    lemma Spare(c: seq<int>, i: seq<Byte>, n: nat)
      ensures CanGo(c, i, n) ==> CanGo(c, i, 0)
    {}

    method Sum(data: seq<Byte>) returns (r: Byte)
      ensures r == Total(data)
    {
      hide Plus;
      r := 0;
      var i := 0;
      assert data[0..] == data;
      PlusLaws(Total(data), 0, 0);
      while i < |data|
        invariant i <= |data| && Plus(r, Total(data[i..])) == Total(data)
      {
        assert data[i..][0] == data[i] && data[i..][1..] == data[i + 1..];
        PlusLaws(r, data[i], Total(data[i + 1..]));
        r := Plus(r, data[i]);
        i := i + 1;
      }
      assert data[i..] == [];
      PlusLaws(r, 0, 0);
    }

    lemma OneByte(a: seq<Byte>, b: seq<Byte>, x: Byte)
      requires a <= b <= a + [x]
      ensures b == a || b == a + [x]
    {}

    // -------------------------------------------------------------- exchanges

    /** A command without a response, status, or the CRC query. */
    method Exchanged(p: Packet) returns (ok: bool, data: seq<Byte>)
      modifies this
      ensures old(sent) <= sent && (sent <= old(sent) + Exchange(p)
          || (sent == old(sent) + Encode(p) + [NACK] && Answered(p)))
      ensures ok ==> sent == old(sent) + Exchange(p) && Reply(old(input), p) == Some(Answer(data, input))
      ensures Used(old(io), old(input), io, input, |Exchange(p)|)
      ensures CanGo(old(io), old(input), |Exchange(p)|) && Reply(old(input), p).Some? && |p.data| <= MAX_DATA ==> ok
    {
      hide Encode, Acked, Answered1, CanGo, Used;
      data := [];
      ghost var s0, c0, i0, n := sent, io, input, |Encode(p)|;
      if CanGo(c0, i0, |Exchange(p)|) { CanGoLess(c0, i0, |Exchange(p)|, n); }
      ok := Command(p);
      ghost var c1, i1 := io, input;
      UsedLess(c0, i0, io, input, n, |Exchange(p)|);
      if !ok { return; }
      if Answered(p) { GoesOn(c0, i0, c1, i1, n, 1); }
      if p.cmd == STATUS {
        ok, data := Response(1);
        UsedBoth(c0, i0, c1, i1, io, input, n, 1);
        assert s0 + Encode(p) + [ACK] == s0 + Exchange(p);
        if ok && data != [0x40] { ok := false; }
      } else if p.cmd == CRC {
        ok, data := Response(4);
        UsedBoth(c0, i0, c1, i1, io, input, n, 1);
        assert s0 + Encode(p) + [ACK] == s0 + Exchange(p);
      } else {
        assert Exchange(p) == Encode(p) + [];
      }
    }

    /** One command of the script `all`, after those of `done`. */
    method Say(p: Packet, ghost done: seq<Packet>, ghost all: seq<Packet>, ghost start: seq<Byte>,
        ghost rest: seq<Packet>)
        returns (ok: bool, data: seq<Byte>)
      requires Talked(sent, input, start, done) && done + [p] <= all
      modifies this
      ensures OnScript(sent, Sync() + Exchanges(all)) && |sent| <= |Sync() + Exchanges(done + [p])|
      ensures ok ==> Talked(sent, input, start, done + [p]) && Reply(old(input), p) == Some(Answer(data, input))
      ensures Going(old(io), old(input), [p] + rest) && |p.data| <= MAX_DATA ==> ok && Going(io, input, rest)
    {
      hide *;
      ghost var s0, i0, c0 := sent, input, io;
      TalkedSent(sent, input, start, done);
      if Going(c0, i0, [p] + rest) { GoingFirst(c0, i0, p, rest); }
      ok, data := Exchanged(p);
      if Going(c0, i0, [p] + rest) && ok { GoingNext(c0, i0, io, input, p, rest, data); }
      StaysOnScript(s0, sent, done, p, all);
      if ok { TalkOn(s0, i0, sent, input, start, done, p, data); }
    }

    lemma TalkedSent(s: seq<Byte>, i: seq<Byte>, start: seq<Byte>, done: seq<Packet>)
      requires Talked(s, i, start, done)
      ensures s == Sync() + Exchanges(done)
    {}

    /** Erase, download and the loop over the image. */
    method Program(image: seq<Byte>, ghost all: seq<Packet>, ghost start: seq<Byte>, ghost tail: seq<Packet>)
        returns (ok: bool)
      requires |image| == FlashSize() && all == Packets(image, false) && Talked(sent, input, start, [Status()])
      modifies this
      ensures OnScript(sent, Sync() + Exchanges(all)) && |sent| <= |BeforeReset(image, false)|
      ensures ok ==> Talked(sent, input, start, Opening(image, false))
      ensures Going(old(io), old(input), Flashing(image) + tail) ==> ok && Going(io, input, tail)
    {
      hide Talked, OnScript, Reply, Exchanges, Packets, Closing, Be32, FlashSize, FlashSpec.Program, Status, Opening,
          BeforeReset,
           Flashing, Going;
      var data;
      ghost var e, d := Packet(ERASE, []), Packet(DOWNLOAD, Be32(0) + Be32(FlashSize()));
      ghost var good, p0 := Going(io, input, Flashing(image) + tail), FlashSpec.Program(image, 0) + tail;
      FlashingParts(image);
      FlashingFirst(image, tail);
      PacketParts(image, false);
      SmallCommands();
      ghost var done := [Status()];
      ok, data := Say(Packet(ERASE, []), done, all, start, [Status()] + ([d] + ([Status()] + p0)));
      Shorter(done + [e], image, all);
      if !ok { return; }
      done := done + [e];
      ok, data := Say(Status(), done, all, start, [d] + ([Status()] + p0));
      Shorter(done + [Status()], image, all);
      if !ok { return; }
      done := done + [Status()];
      ok, data := Say(Packet(DOWNLOAD, Be32(0) + Be32(FlashSize())), done, all, start, [Status()] + p0);
      Shorter(done + [d], image, all);
      if !ok { return; }
      done := done + [d];
      ok, data := Say(Status(), done, all, start, p0);
      Shorter(done + [Status()], image, all);
      if !ok { return; }
      done := done + [Status()];
      var off := 0;
      while off < |image|
        invariant off <= |image| && done + FlashSpec.Program(image, off) == Opening(image, false)
        invariant Talked(sent, input, start, done)
        invariant OnScript(sent, Sync() + Exchanges(all)) && |sent| <= |BeforeReset(image, false)|
        invariant good ==> Going(io, input, FlashSpec.Program(image, off) + tail)
        decreases |image| - off
      {
        var n := |image| - off;
        if n > MAX_DATA { n := MAX_DATA; }
        ProgramParts(image, off);
        ghost var p, q := Packet(SEND_DATA, image[off..off + n]), FlashSpec.Program(image, off + n);
        Regroup(done, p, q, tail);
        ok, data := Say(Packet(SEND_DATA, image[off..off + n]), done, all, start, [Status()] + (q + tail));
        Shorter(done + [p], image, all);
        if !ok { return; }
        done := done + [p];
        ok, data := Say(Status(), done, all, start, q + tail);
        Shorter(done + [Status()], image, all);
        if !ok { return; }
        done := done + [Status()];
        off := off + n;
      }
      ProgramEnds(image, off, done, tail);
      ok := true;
    }

    lemma SmallCommands()
      ensures |Be32(0) + Be32(FlashSize())| <= MAX_DATA && |Be32(0) + Be32(FlashSize()) + Be32(0)| <= MAX_DATA
      ensures |Status().data| <= MAX_DATA
    {}

    lemma FlashingFirst(image: seq<Byte>, tail: seq<Packet>)
      ensures Flashing(image) + tail ==
                [Packet(ERASE, [])] + ([Status()] + ([Packet(DOWNLOAD, Be32(0) + Be32(FlashSize()))]
                + ([Status()] + (FlashSpec.Program(image, 0) + tail))))
    {
      hide Be32, FlashSize, FlashSpec.Program, Status;
    }

    lemma ProgramEnds(image: seq<Byte>, off: nat, done: seq<Packet>, tail: seq<Packet>)
      requires off >= |image|
      ensures done + FlashSpec.Program(image, off) == done && FlashSpec.Program(image, off) + tail == tail
    {
      assert [] + tail == tail;
    }

    lemma Regroup(done: seq<Packet>, p: Packet, q: seq<Packet>, tail: seq<Packet>)
      ensures done + ([p] + [Status()] + q) == done + [p] + [Status()] + q
      ensures ([p] + [Status()] + q) + tail == [p] + ([Status()] + (q + tail))
    {}

    /** Fewer commands, fewer bytes. */
    lemma Shorter(done: seq<Packet>, image: seq<Byte>, all: seq<Packet>)
      requires done <= Opening(image, false)
      ensures |Sync() + Exchanges(done)| <= |BeforeReset(image, false)|
    {
      hide Exchange, Opening;
      var rest := Opening(image, false)[|done|..] + [Closing()[0]];
      assert Opening(image, false) + [Closing()[0]] == done + rest;
      ExchangesJoin(done, rest);
    }

    /** main, from the contents of the firmware file on.  The result is the exit status. */
    method Run(file: seq<Byte>, verify: bool) returns (code: int)
      requires sent == []
      modifies this
      ensures |file| == 0 || |file| > FlashSize() ==> code == 1 && sent == []
      ensures 0 < |file| <= FlashSize() ==>
                var image := Padded(file);
                && OnScript(sent, Script(image, verify))
                && (code == 0 ==> sent == Script(image, verify))
                && (|sent| > |BeforeReset(image, verify)| ==>
                    Reported(old(input), image, verify) == Some(Crc32(image, 0)))
                && (Cooperates(old(io), old(input), image, verify) ==> code == 0)
    {
      hide Talked, OnScript, Reply, Exchanges, Packets, Closing, Be32, Status, Opening, BeforeReset, Crc32, Acked,
          Converse, Number,
           CanGo, Used, Going, Cooperates, Reported, Flashing;
      if |file| == 0 || |file| > FlashSize() { return 1; }
      var image := Padded(file);
      var expected := FlasherCrc32(image);
      ghost var all, i0, c0 := Packets(image, verify), input, io;
      ghost var good := Cooperates(c0, i0, image, verify);
      RunParts(image, verify);
      ghost var tail := [Closing()[0]] + [Closing()[1]];
      if good { Willing(c0, i0, image, verify); }
      var ok := Put(Sync());
      SyncOnScript(sent, image, verify);
      if !ok { return 1; }
      ghost var c1 := io;
      GoesOn(c0, i0, c1, i0, 2, |Exchanges(all)|);
      Idle(c1, i0, |Exchanges(all)|);
      ok := ExpectAck();
      if !ok { return 1; }
      GoesOn(c1, i0, io, input, 0, |Exchanges(all)|);
      ghost var start := input;
      Begin(sent, input, start);
      if good { Ready(c0, i0, io, start, image, verify, tail); }
      SmallCommands();
      var data;
      ghost var more := if verify then tail else Flashing(image) + tail;
      ok, data := Say(Status(), [], all, start, more);
      if !ok { return 1; }
      if !verify {
        ok := Program(image, all, start, tail);
        if !ok { return 1; }
      }
      ghost var done := Opening(image, verify);
      ghost var k, s := input, sent;
      ok, data := Say(Packet(CRC, Be32(0) + Be32(FlashSize()) + Be32(0)), done, all, start, [Closing()[1]]);
      if !ok { return 1; }
      ReportedIs(i0, start, k, s, image, verify, data);
      if good { AsReported(c0, i0, image, verify); }
      if Number(data) != expected { return 1; }
      Last();
      ok, data := Say(Packet(RESET, []), done + [Closing()[0]], all, start, []);
      if !ok { return 1; }
      TalkedSent(sent, input, start, all);
      code := 0;
    }

    lemma Last()
      ensures [Closing()[1]] + [] == [Closing()[1]]
    {}

    lemma Idle(c: seq<int>, i: seq<Byte>, n: nat)
      ensures CanGo(c, i, n) ==> CanGo(c, i, 0)
    {}

    lemma Willing(c: seq<int>, i: seq<Byte>, image: seq<Byte>, verify: bool)
      requires Cooperates(c, i, image, verify)
      ensures CanGo(c, i, 2) && CanGo(c, i, 2 + |Exchanges(Packets(image, verify))|) && Acked(i).Some?
    {
      hide Moves, Exchanges, Packets, Acked, Reported;
    }

    lemma Ready(c: seq<int>, i: seq<Byte>, io: seq<int>, start: seq<Byte>, image: seq<Byte>, verify: bool,
        tail: seq<Packet>)
      requires Cooperates(c, i, image, verify) && Acked(i) == Some(start)
      requires CanGo(io, start, |Exchanges(Packets(image, verify))|) && tail == [Closing()[0]] + [Closing()[1]]
      ensures var more := if verify then tail else Flashing(image) + tail; Going(io, start, [Status()] + more)
    {
      hide CanGo, Exchanges, Converse, Acked, Reported, Flashing, Status, Be32, FlashSize;
      var more := if verify then tail else Flashing(image) + tail;
      assert tail == Closing();
      assert Packets(image, verify) == [Status()] + more;
    }

    lemma AsReported(c: seq<int>, i: seq<Byte>, image: seq<Byte>, verify: bool)
      requires Cooperates(c, i, image, verify)
      ensures Reported(i, image, verify) == Some(Crc32(image, 0))
    {
      hide Reported, Crc32, Acked, CanGo;
    }

    lemma SyncOnScript(s: seq<Byte>, image: seq<Byte>, verify: bool)
      requires s <= Sync()
      ensures OnScript(s, Sync() + Exchanges(Packets(image, verify))) && |s| <= |BeforeReset(image, verify)|
    {
      hide Exchanges, Packets, Opening, Closing;
    }

    lemma Begin(s: seq<Byte>, i: seq<Byte>, start: seq<Byte>)
      requires s == Sync() && i == start
      ensures Talked(s, i, start, [])
    {
      assert Sync() + [] == Sync();
    }

    lemma RunParts(image: seq<Byte>, verify: bool)
      ensures var all, o, c := Packets(image, verify), Opening(image, verify), Closing();
        && [] + [Status()] == [Status()] && [] + [Status()] <= all && o + [c[0]] <= all && o + [c[0]] + [c[1]] == all
        && (verify ==> o == [Status()]) && |Sync() + Exchanges([Status()])| <= |BeforeReset(image, verify)|
        && |Sync() + Exchanges(o)| <= |BeforeReset(image, verify)|
      ensures Closing() == [Packet(CRC, Be32(0) + Be32(FlashSize()) + Be32(0)), Packet(RESET, [])]
      ensures Script(image, verify) == Sync() + Exchanges(Packets(image, verify))
      ensures BeforeReset(image, verify) == Sync() + Exchanges(Opening(image, verify) + [Closing()[0]])
    {
      hide Exchange, Exchanges, Flashing, Be32, FlashSize;
      var o, c := Opening(image, verify), Closing();
      PacketParts(image, verify);
      var rest := o[1..] + [c[0]];
      assert o + [c[0]] == [Status()] + rest;
      ExchangesJoin([Status()], rest);
      ExchangesJoin(o, [c[0]]);
    }

    lemma ReportedIs(i0: seq<Byte>, start: seq<Byte>, k: seq<Byte>, s: seq<Byte>, image: seq<Byte>, verify: bool,
        data: seq<Byte>)
      requires Acked(i0) == Some(start) && Talked(s, k, start, Opening(image, verify))
      requires exists rest :: Reply(k, Closing()[0]) == Some(Answer(data, rest))
      ensures |data| == 4 && Reported(i0, image, verify) == Some(Number(data))
    {
      hide Converse, Opening, Be32, SkipZeros;
      assert Closing()[0].cmd == CRC;
    }
  }
}
