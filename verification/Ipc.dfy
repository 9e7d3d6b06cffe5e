/** ipc1_input and ipc1_write of package/tester1/ipc.cpp, and threads that write under the lock while another
    reads. */
module Ipc {
  import opened Bytes
  import opened IpcSpec
  import opened Options

  datatype ParseState = Sync | Payload

  // ---------------------------------------------------------------- receiving

  class Receiver {
    /** msg_fb: the buffer and its position.  Bytes at and after `pos` are left over from earlier messages. */
    const buf: array<Byte>
    var pos: nat
    var state: ParseState
    /** The messages handed to ipc1_input_msg. */
    var dispatched: seq<Msg>

    constructor ()
      ensures Valid() && Snap() == START && fresh(buf)
    {
      buf := new Byte[CAP](i => 0);
      pos, state, dispatched := 0, Sync, [];
    }

    ghost function Snap(): Rx
      requires pos <= buf.Length
      reads this, buf
    {
      Rx(buf[..pos], state == Sync, dispatched)
    }

    ghost predicate Valid()
      reads this, buf
    {
      buf.Length == CAP && pos <= CAP
    }

    /** memmove to the start of the buffer. */
    method MoveDown(from: nat, n: nat)
      requires from + n <= buf.Length
      modifies buf
      ensures buf[..n] == old(buf[from..from + n])
    {
      forall j | 0 <= j < n {
        buf[j] := buf[from + j];
      }
    }

    method InputMsg(m: Msg)
      modifies `dispatched
      ensures dispatched == old(dispatched) + [m]
    {
      dispatched := dispatched + [m];
    }

    /** The part of the loop of ipc1_input for a buffer that starts with a message.  The length field is read
        even while it is still left over from an earlier message. */
    method CollectPayload()
      requires Valid() && state == Payload
      modifies this, buf
      ensures Valid() && Snap() == Collect(old(buf[..pos]), old(dispatched))
    {
      hide Num16;
      ghost var p := buf[..pos];
      var size := HEADER + Num16(buf[8], buf[9]);
      if pos >= HEADER {
        assert p[8] == buf[8];
        assert p[9] == buf[9];
      }
      if pos < size { return; }
      assert p[HEADER..size] == buf[HEADER..size];
      assert p[4] == buf[4] && p[5] == buf[5] && p[6] == buf[6] && p[7] == buf[7];
      InputMsg(Msg(Num16(buf[4], buf[5]), Num16(buf[6], buf[7]), buf[HEADER..size]));
      if size >= pos {
        pos := 0;
        return;
      }
      assert p[size..] == buf[size..pos];
      pos := pos - size;
      MoveDown(size, pos);
    }

    /** The turn of the loop of ipc1_input for one byte. */
    method InputByte(c: Byte)
      requires Valid()
      modifies this, buf
      ensures Valid() && Snap() == Feed(old(Snap()), c)
    {
      hide Collect, Leading;
      if pos >= CAP {
        state := Sync;
        pos := 0;
      }
      ghost var before := buf[..pos];
      buf[pos] := c;
      pos := pos + 1;
      ghost var p := buf[..pos];
      assert p == before + [c];
      if state == Sync {
        if pos < HEADER { return; }
        assert p[..4] == buf[..4];
        if buf[..4] != Leading() {
          assert p[1..] == buf[1..pos];
          pos := pos - 1;
          MoveDown(1, pos);
          return;
        }
        state := Payload;
      }
      CollectPayload();
    }

    /** ipc1_input */
    method Input(data: seq<Byte>)
      requires Valid()
      modifies this, buf
      ensures Valid() && Snap() == FeedAll(old(Snap()), data)
    {
      hide Feed;
      ghost var s0 := Snap();
      var i := 0;
      assert data[0..] == data;
      while i < |data|
        invariant i <= |data| && Valid() && FeedAll(Snap(), data[i..]) == FeedAll(s0, data)
      {
        InputByte(data[i]);
        assert data[i..][0] == data[i] && data[i..][1..] == data[i + 1..];
        i := i + 1;
      }
    }
  }

  // ---------------------------------------------------------------- sending

  /** The socket, seen from the writers. */
  class Wire {
    var stream: seq<Byte>

    constructor ()
      ensures stream == []
    {
      stream := [];
    }

    /** write(2): takes part of what is offered; a result of zero or less takes nothing. */
    method Write(bytes: seq<Byte>, result: int) returns (r: int)
      modifies this
      ensures r == if result <= |bytes| then result else |bytes|
      ensures stream == old(stream) + if r > 0 then bytes[..r] else []
    {
      r := if result <= |bytes| then result else |bytes|;
      if r > 0 { stream := stream + bytes[..r]; }
    }
  }

  /** One of the two loops of ipc1_write: writes on until everything is sent or write fails.  `results` are
      what write returns, call by call; a call beyond them fails. */
  method WriteAll(wire: Wire, bytes: seq<Byte>, results: seq<int>) returns (pos: nat, rest: seq<int>)
    modifies wire
    ensures pos <= |bytes| && wire.stream == old(wire.stream) + bytes[..pos]
    ensures (forall r :: r in results ==> r > 0) && |results| >= |bytes| ==> pos == |bytes|
    ensures |rest| <= |results| && rest == results[|results| - |rest|..] && |results| - |rest| <= pos + 1
    ensures pos == |bytes| ==> |results| - |rest| <= pos
  {
    pos, rest := 0, results;
    ghost var used := 0;
    while pos < |bytes|
      invariant pos <= |bytes| && wire.stream == old(wire.stream) + bytes[..pos]
      invariant used <= pos && used <= |results| && rest == results[used..]
      decreases |bytes| - pos
    {
      if rest == [] { return; }
      assert rest[0] == results[used] && results[used] in results;
      var r := wire.Write(bytes[pos..], rest[0]);
      Further(results, used);
      rest, used := rest[1..], used + 1;
      if r <= 0 { return; }
      MoreWritten(old(wire.stream), bytes, pos, r);
      pos := pos + r;
    }
  }

  lemma Further(results: seq<int>, used: nat)
    requires used < |results|
    ensures results[used..][1..] == results[used + 1..]
  {}

  lemma MoreWritten(stream: seq<Byte>, bytes: seq<Byte>, pos: nat, r: nat)
    requires pos + r <= |bytes|
    ensures (stream + bytes[..pos]) + bytes[pos..][..r] == stream + bytes[..pos + r]
  {
    assert bytes[..pos] + bytes[pos..][..r] == bytes[..pos + r];
  }

  class Sender {
    /** msg_seq */
    var nextSeq: nat

    constructor ()
      ensures nextSeq == 1
    {
      nextSeq := 1;
    }

    /** ipc1_write, from taking the lock to releasing it.  `sent` is how much of the frame went out. */
    method Write(wire: Wire, kind: nat, data: seq<Byte>, results: seq<int>)
        returns (ret: int, seqNo: nat, ghost sent: nat)
      modifies this, wire
      ensures seqNo == old(nextSeq) % 65536 && nextSeq == old(nextSeq) + 1
      ensures var f := Frame(Msg(seqNo, kind % 65536, data));
        && sent <= |f| && wire.stream == old(wire.stream) + f[..sent]
        && ret == (if sent <= HEADER then 0 else sent - HEADER)
        && ((forall r :: r in results ==> r > 0) && |results| >= |f| ==> sent == |f|)
    {
      hide Header;
      seqNo := nextSeq % 65536;
      nextSeq := nextSeq + 1;
      var header := Header(seqNo, kind % 65536, |data|);
      ghost var f := header + data;
      var pos, rest := WriteAll(wire, header, results);
      if pos < |header| {
        assert f[..pos] == header[..pos];
        return 0, seqNo, pos;
      }
      assert header[..pos] == header;
      assert forall r :: r in rest ==> r in results;
      var dataPos, rest' := WriteAll(wire, data, rest);
      assert f[..HEADER + dataPos] == header + data[..dataPos];
      return dataPos, seqNo, HEADER + dataPos;
    }
  }

  // ---------------------------------------------------------------- writers under the lock

  type Tid = nat

  /** What a thread in ipc1_write has asked for, and how much of its frame is still to be written. */
  datatype Job = Job(kind: nat, data: seq<Byte>, rest: seq<Byte>)

  /** `order` holds the messages of which something is sent or will be, in lock order, and `torn` the position in it of
      the first one whose frame was given up half-way. */
  datatype System = System(lock: Tid, held: bool, jobs: map<Tid, Job>, nextSeq: nat, stream: seq<Byte>, order: seq<Msg>,
                           torn: Option<nat>)

  /** Fail is a write that fails: the lock is released with the rest of the frame unsent. */
  datatype Step =
    | Call(tid: Tid, kind: nat, data: seq<Byte>)
    | Lock(tid: Tid)
    | Put(tid: Tid, n: nat)
    | Unlock(tid: Tid)
    | Fail(tid: Tid)

  predicate Enabled(s: System, e: Step) {
    match e
    case Call(t, _, _) => t !in s.jobs
    case Lock(t) => t in s.jobs && !s.held
    case Put(t, n) => s.held && s.lock == t && t in s.jobs && 0 < n <= |s.jobs[t].rest|
    case Unlock(t) => s.held && s.lock == t && t in s.jobs && s.jobs[t].rest == []
    case Fail(t) => s.held && s.lock == t && t in s.jobs && s.jobs[t].rest != [] && s.order != []
  }

  /** The message a job becomes when it gets the lock. */
  function Numbered(s: System, j: Job): Msg {
    Msg(s.nextSeq % 65536, j.kind % 65536, j.data)
  }

  /** A step that is not enabled waits. */
  function Next(s: System, e: Step): System {
    if !Enabled(s, e) then s
    else
      match e
      case Call(t, kind, data) => s.(jobs := s.jobs[t := Job(kind, data, [])])
      case Lock(t) =>
        var m := Numbered(s, s.jobs[t]);
        s.(lock := t, held := true, nextSeq := s.nextSeq + 1, order := s.order + [m], jobs :=
            s.jobs[t := s.jobs[t].(rest := Frame(m))])
      case Put(t, n) =>
        var r := s.jobs[t].rest;
        s.(stream := s.stream + r[..n], jobs := s.jobs[t := s.jobs[t].(rest := r[n..])])
      case Unlock(t) => s.(held := false, jobs := s.jobs - {t})
      case Fail(t) =>
        var n := |s.order| - 1;
        var s' := s.(held := false, jobs := s.jobs - {t});
        if s.jobs[t].rest == Frame(s.order[n]) then s'.(order := s.order[..n])
        else s'.(torn := if s.torn.Some? then s.torn else Some(n))
  }

  /** Any interleaving of any number of threads. */
  function RunSteps(steps: seq<Step>): System
    decreases |steps|
  {
    if steps == [] then System(0, false, map[], 1, [], [], None)
    else Next(RunSteps(steps[..|steps| - 1]), steps[|steps| - 1])
  }

  /** The messages before the first torn frame. */
  function Intact(s: System): seq<Msg> {
    if s.torn.Some? && s.torn.value <= |s.order| then s.order[..s.torn.value] else s.order
  }

  /** What the holder of the lock still has to write. */
  ghost function Unsent(s: System): seq<Byte> {
    if s.held && s.lock in s.jobs then s.jobs[s.lock].rest else []
  }

  /** The end of the last frame. */
  ghost predicate EndsLast(s: System, rest: seq<Byte>) {
    s.order != [] && var f := Frame(s.order[|s.order| - 1]); |rest| <= |f| && rest == f[|f| - |rest|..]
  }

  /** As long as no frame was torn, the stream and what is still unsent are the frames in lock order; a torn frame comes
      behind all frames before it. */
  ghost predicate InLockOrder(s: System) {
    && (s.held ==> s.lock in s.jobs && EndsLast(s, s.jobs[s.lock].rest))
    && match s.torn
       case None => s.stream + Unsent(s) == Stream(s.order)
       case Some(k) => k + (if s.held then 1 else 0) < |s.order| && Stream(s.order[..k]) <= s.stream
  }

  lemma {:induction false} StreamSnoc(ms: seq<Msg>, m: Msg)
    ensures Stream(ms + [m]) == Stream(ms) + Frame(m)
  {
    hide Frame;
    if ms == [] {
      assert [] + [m] == [m] && [m][1..] == [];
    } else {
      assert (ms + [m])[1..] == ms[1..] + [m];
      StreamSnoc(ms[1..], m);
    }
  }

  lemma LockKeepsOrder(s: System, t: Tid)
    requires InLockOrder(s) && Enabled(s, Lock(t))
    ensures InLockOrder(Next(s, Lock(t)))
  {
    hide Stream, Frame;
    var m := Numbered(s, s.jobs[t]);
    StreamSnoc(s.order, m);
    if s.torn.Some? { assert (s.order + [m])[..s.torn.value] == s.order[..s.torn.value]; }
  }

  lemma PutKeepsOrder(s: System, t: Tid, n: nat)
    requires InLockOrder(s) && Enabled(s, Put(t, n))
    ensures InLockOrder(Next(s, Put(t, n)))
  {
    hide Stream, Frame;
    var r := s.jobs[t].rest;
    assert r[..n] + r[n..] == r;
    var f := Frame(s.order[|s.order| - 1]);
    assert f[|f| - |r|..][n..] == f[|f| - |r[n..]|..];
    assert s.stream <= s.stream + r[..n];
  }

  /** A failed write: nothing sent, and the message might as well not have been; or a torn frame. */
  lemma FailKeepsOrder(s: System, t: Tid)
    requires InLockOrder(s) && Enabled(s, Fail(t))
    ensures InLockOrder(Next(s, Fail(t)))
  {
    hide Stream, Frame;
    var n, r := |s.order| - 1, s.jobs[t].rest;
    var f := Frame(s.order[n]);
    if s.torn.None? {
      assert s.order == s.order[..n] + [s.order[n]];
      StreamSnoc(s.order[..n], s.order[n]);
      SameEnd(s.stream, r, Stream(s.order[..n]), f);
    } else {
      assert s.order[..n][..s.torn.value] == s.order[..s.torn.value];
    }
  }

  lemma SameEnd(a: seq<Byte>, r: seq<Byte>, b: seq<Byte>, f: seq<Byte>)
    requires a + r == b + f && |r| <= |f|
    ensures b <= a && (r == f ==> a == b)
  {
    assert b == (b + f)[..|b|] && b == (a + r)[..|b|] && |b| <= |a|;
    assert (a + r)[..|b|] == a[..|b|];
  }

  lemma SameFrames(s: System, s': System)
    requires InLockOrder(s) && s'.order == s.order && s'.torn == s.torn && s'.stream == s.stream
    requires s'.held == s.held && s'.lock == s.lock
        && (s.held ==> s.lock in s'.jobs && s'.jobs[s.lock] == s.jobs[s.lock])
    ensures InLockOrder(s')
  {
    hide Stream, Frame;
  }

  lemma StepKeepsOrder(s: System, e: Step)
    requires InLockOrder(s)
    ensures InLockOrder(Next(s, e))
  {
    hide Stream, Frame, EndsLast;
    if Enabled(s, e) {
      match e
      case Call(t, kind, data) => SameFrames(s, Next(s, e));
      case Lock(t) => LockKeepsOrder(s, t);
      case Put(t, n) => PutKeepsOrder(s, t, n);
      case Unlock(_) => assert s.stream + [] == s.stream;
      case Fail(t) => FailKeepsOrder(s, t);
    }
  }

  lemma {:induction false} AlwaysInLockOrder(steps: seq<Step>)
    ensures InLockOrder(RunSteps(steps))
    decreases |steps|
  {
    hide Next;
    if steps != [] {
      AlwaysInLockOrder(steps[..|steps| - 1]);
      StepKeepsOrder(RunSteps(steps[..|steps| - 1]), steps[|steps| - 1]);
    } else {
      assert Stream([]) == [];
    }
  }

  /** For any interleaving of locked writers, whichever of their writes fail, any garbage without the leading bytes
      before their stream and any part of it that has arrived: as far as the frames before the first torn one have
      arrived, the receiver has dispatched these messages in lock order, none twice and none made up.  Without a torn
      frame these are all the messages of which anything was sent. */
  lemma ReceivedInLockOrder(steps: seq<Step>, g: seq<Byte>, n: nat)
    requires Clean(g) && n <= |RunSteps(steps).stream| && forall m :: m in Intact(RunSteps(steps)) ==> Fitting(m)
    ensures var s := RunSteps(steps); var out, intact := FeedAll(START, g + s.stream[..n]).out, Intact(s);
      && (n <= |Stream(intact)| ==> out <= intact)
      && (n >= |Stream(intact)| ==> intact <= out)
      && (s.torn.None? ==> intact == s.order && n <= |Stream(intact)|)
  {
    hide *;
    AlwaysInLockOrder(steps);
    var s := RunSteps(steps);
    var intact, a := Intact(s), Stream(Intact(s));
    var sent := g + s.stream[..n];
    if intact == [] {
      NoFrames(intact);
      ArrivedNothing(s, g, n);
    } else {
      var all := s.stream + Unsent(s);
      IntactFirst(s);
      Delivered(g, intact);
      if n <= |a| {
        assert a == s.stream[..n] + all[n..|a|];
        assert g + a == sent + all[n..|a|];
        FeedJoin(START, sent, all[n..|a|]);
        FeedAdds(FeedAll(START, sent), all[n..|a|]);
      }
      if n >= |a| {
        assert s.stream[..n] == a + s.stream[|a|..n];
        assert sent == (g + a) + s.stream[|a|..n];
        FeedJoin(START, g + a, s.stream[|a|..n]);
        FeedAdds(FeedAll(START, g + a), s.stream[|a|..n]);
      }
    }
    NotTorn(s);
  }

  lemma NotTorn(s: System)
    requires InLockOrder(s)
    ensures s.torn.None? ==> Intact(s) == s.order && |s.stream| <= |Stream(Intact(s))|
  {
    hide Stream, EndsLast;
  }

  /** The intact frames are the start of the stream, or of what it will be. */
  lemma IntactFirst(s: System)
    requires InLockOrder(s)
    ensures Stream(Intact(s)) <= s.stream + Unsent(s)
  {
    hide Stream, EndsLast;
    if s.torn.Some? { assert s.stream <= s.stream + Unsent(s); }
  }

  lemma NoFrames(ms: seq<Msg>)
    requires ms == []
    ensures Stream(ms) == []
  {}

  /** With no intact message, nothing is expected of what arrives, and nothing comes of no bytes at all. */
  lemma ArrivedNothing(s: System, g: seq<Byte>, n: nat)
    requires n <= |s.stream| && Clean(g)
    ensures n == 0 ==> FeedAll(START, g + s.stream[..n]).out == []
  {
    if n == 0 {
      assert g + s.stream[..n] == g && [] + g == g;
      FeedClean([], g);
    }
  }

  /** What a torn frame does: of the first message only the header and `i` bytes of payload are sent.  The receiver
      takes the start of the next frame for the rest of it. */
  lemma TornFrameMisleads(g: seq<Byte>, m: Msg, i: nat, next: Msg)
    requires Clean(g) && Fitting(m) && i <= |m.data| <= i + |Frame(next)|
    ensures var wrong := Msg(m.seqNo, m.kind, m.data[..i] + Frame(next)[..|m.data| - i]);
      && [wrong] <= FeedAll(START, g + (Frame(m)[..HEADER + i] + Frame(next))).out
      && (wrong == m <==> Frame(next)[..|m.data| - i] == m.data[i..])
  {
    hide Frame, Feed, FeedAll, Clean, Collect, Fitting;
    var f, k := Frame(next), |m.data| - i;
    SameTail(m.data, i, f[..k]);
    var wrong := Msg(m.seqNo, m.kind, m.data[..i] + f[..k]);
    CompletedFrame(m, i, f[..k]);
    Rejoin(g, Frame(m)[..HEADER + i], f, k);
    FirstFrame(g, wrong);
    FeedJoin(START, g + Frame(wrong), f[k..]);
    FeedAdds(FeedAll(START, g + Frame(wrong)), f[k..]);
  }

  /** A frame torn inside its header, behind the leading bytes, takes the rest of the header from the next frame, and
      so its size as well. */
  lemma TornHeaderMisleads(g: seq<Byte>, m: Msg, j: nat, next: Msg)
    requires Clean(g) && 4 <= j < HEADER
    ensures var s := Frame(m)[..j] + Frame(next);
      SizeOf(s) <= CAP && SizeOf(s) <= |s| ==> [MsgOf(s)] <= FeedAll(START, g + s).out
  {
    hide FeedAll, Num16, Leading, Clean, Le16, MsgOf;
    var s := Frame(m)[..j] + Frame(next);
    assert |Frame(next)| >= HEADER && |Frame(m)| >= HEADER;
    FrameLeads(m);
    assert s[..4] == Frame(m)[..j][..4] == Frame(m)[..4];
    if SizeOf(s) <= CAP && SizeOf(s) <= |s| { LeadingBytesRule(g, s); }
  }

  lemma FrameLeads(m: Msg)
    ensures |Frame(m)| >= HEADER && Frame(m)[..4] == Leading()
  {
    hide Le16;
    var f, l := Frame(m), Leading();
    forall i | 0 <= i < 4 ensures f[i] == l[i] {}
  }

  /** Other bytes in the place of the rest of the payload make a frame of the same size. */
  lemma CompletedFrame(m: Msg, i: nat, b: seq<Byte>)
    requires Fitting(m) && i + |b| == |m.data|
    ensures var wrong := Msg(m.seqNo, m.kind, m.data[..i] + b);
      Fitting(wrong) && |Frame(m)| == HEADER + |m.data| && Frame(wrong) == Frame(m)[..HEADER + i] + b
  {
    hide Header;
  }

  lemma Rejoin(g: seq<Byte>, a: seq<Byte>, f: seq<Byte>, k: nat)
    requires k <= |f|
    ensures g + (a + f) == (g + (a + f[..k])) + f[k..]
  {
    assert f == f[..k] + f[k..];
  }

  lemma SameTail(d: seq<Byte>, i: nat, b: seq<Byte>)
    requires i <= |d|
    ensures d[..i] + b == d <==> b == d[i..]
  {
    assert (d[..i] + b)[i..] == b;
    if b == d[i..] { assert d[..i] + b == d; }
  }

  /** The state when a thread has given up its frame after `i` bytes of payload. */
  function TornState(m: Msg, i: nat): System
    requires i <= |m.data|
  {
    System(1, false, map[], 2, Frame(m)[..HEADER + i], [m], Some(0))
  }

  lemma TornSteps(kind: nat, data: seq<Byte>, i: nat)
    requires i < |data|
    ensures var m, s := Msg(1, kind % 65536, data), System(0, false, map[], 1, [], [], None);
      Next(Next(Next(Next(s, Call(1, kind, data)), Lock(1)), Put(1, HEADER + i)), Fail(1)) == TornState(m, i)
  {
    var m, s := Msg(1, kind % 65536, data), System(0, false, map[], 1, [], [], None);
    assert |Frame(m)| == HEADER + |data|;
    hide Frame;
    var f := Frame(m);
    var s1 := System(0, false, map[1 := Job(kind, data, [])], 1, [], [], None);
    assert Next(s, Call(1, kind, data)) == s1;
    var s2 := System(1, true, map[1 := Job(kind, data, f)], 2, [], [m], None);
    assert Next(s1, Lock(1)) == s2;
    var s3 := System(1, true, map[1 := Job(kind, data, f[HEADER + i..])], 2, f[..HEADER + i], [m], None);
    assert Next(s2, Put(1, HEADER + i)) == s3;
    assert |f[HEADER + i..]| < |f| && s3.jobs - {1} == map[];
  }

  lemma NextSteps(m: Msg, i: nat, kind: nat, data: seq<Byte>)
    requires i <= |m.data|
    ensures var next, s := Msg(2, kind % 65536, data), TornState(m, i);
      Next(Next(Next(Next(s, Call(2, kind, data)), Lock(2)), Put(2, HEADER + |data|)), Unlock(2)) ==
        System(2, false, map[], 3, Frame(m)[..HEADER + i] + Frame(next), [m, next], Some(0))
  {
    var next, s := Msg(2, kind % 65536, data), TornState(m, i);
    assert |Frame(next)| == HEADER + |data|;
    var a := Frame(m)[..HEADER + i];
    hide Frame;
    var f := Frame(next);
    assert [m] + [next] == [m, next];
    var s1 := System(1, false, map[2 := Job(kind, data, [])], 2, a, [m], Some(0));
    assert Next(s, Call(2, kind, data)) == s1;
    var s2 := System(2, true, map[2 := Job(kind, data, f)], 3, a, [m, next], Some(0));
    assert Next(s1, Lock(2)) == s2;
    assert f[..|f|] == f && f[|f|..] == [];
    var s3 := System(2, true, map[2 := Job(kind, data, [])], 3, a + f, [m, next], Some(0));
    assert Next(s2, Put(2, |f|)) == s3;
    assert s3.jobs - {2} == map[];
  }

  /** And there is such a run, for any two messages: one thread fails with its frame half sent, and another one
      sends. */
  lemma TornRun(kind1: nat, data1: seq<Byte>, i: nat, kind2: nat, data2: seq<Byte>) returns (steps: seq<Step>)
    requires i < |data1|
    ensures var m, next, s := Msg(1, kind1 % 65536, data1), Msg(2, kind2 % 65536, data2), RunSteps(steps);
      s.stream == Frame(m)[..HEADER + i] + Frame(next) && s.order == [m, next] && s.torn == Some(0) && !s.held
  {
    hide Frame, RunSteps, Next;
    NoSteps();
    TornSteps(kind1, data1, i);
    NextSteps(Msg(1, kind1 % 65536, data1), i, kind2, data2);
    steps := After([], Call(1, kind1, data1));
    steps := After(steps, Lock(1));
    steps := After(steps, Put(1, HEADER + i));
    steps := After(steps, Fail(1));
    steps := After(steps, Call(2, kind2, data2));
    steps := After(steps, Lock(2));
    steps := After(steps, Put(2, HEADER + |data2|));
    steps := After(steps, Unlock(2));
  }

  lemma NoSteps()
    ensures RunSteps([]) == System(0, false, map[], 1, [], [], None)
  {}

  lemma After(steps: seq<Step>, e: Step) returns (longer: seq<Step>)
    ensures longer == steps + [e] && RunSteps(longer) == Next(RunSteps(steps), e)
  {
    longer := steps + [e];
    assert longer[..|longer| - 1] == steps;
    hide Next;
  }

  /** Clean bytes dispatch nothing. */
  lemma {:induction false} FeedClean(w: seq<Byte>, r: seq<Byte>)
    requires |w| < HEADER && Clean(w + r)
    ensures FeedAll(Rx(w, true, []), r).out == []
    decreases |r|
  {
    hide Collect, Leading, Feed, FeedAll, Clean, LeadsAt;
    if r == [] {
      FeedNothing(Rx(w, true, []));
    } else {
      FeedSync(w, r, []);
      var p := w + [r[0]];
      if |p| < HEADER {
        FeedClean(p, r[1..]);
      } else {
        CleanShift(p + r[1..]);
        assert (p + r[1..])[..4] == p[..4] && (p + r[1..])[1..] == p[1..] + r[1..];
        FeedClean(p[1..], r[1..]);
      }
    }
  }

  lemma FeedNothing(s: Rx)
    ensures FeedAll(s, []) == s
  {}

  lemma CleanShift(s: seq<Byte>)
    requires Clean(s) && |s| >= 4
    ensures s[..4] != Leading() && Clean(s[1..])
  {
    assert !LeadsAt(s, 0) && s[0..4] == s[..4];
    forall i | 0 <= i < |s[1..]| ensures !LeadsAt(s[1..], i) { LeadsShift(s, i); }
  }
}
