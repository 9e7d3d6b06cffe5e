/** The message stream between threads of package/tester1/ipc.cpp: frames, and the receiver as a function of
    the bytes it is fed. */
module IpcSpec {
  import opened Bytes

  const HEADER: nat := 10
  const CAP: nat := 2048

  datatype Msg = Msg(seqNo: nat, kind: nat, data: seq<Byte>)

  function Leading(): seq<Byte> {
    [1, 0xa5, 1, 0x5a]
  }

  /** The header ipc1_write sends; fields wider than sixteen bits are cut. */
  function Header(seqNo: nat, kind: nat, size: nat): (h: seq<Byte>)
    ensures |h| == HEADER
  {
    Leading() + Le16(seqNo) + Le16(kind) + Le16(size)
  }

  function Frame(m: Msg): seq<Byte> {
    Header(m.seqNo, m.kind, |m.data|) + m.data
  }

  /** A message whose header fields survive the trip, with a payload that fits the receiver's buffer. */
  predicate Fitting(m: Msg) {
    m.seqNo < 65536 && m.kind < 65536 && |m.data| <= CAP - HEADER
  }

  function Stream(ms: seq<Msg>): seq<Byte> {
    if ms == [] then [] else Frame(ms[0]) + Stream(ms[1..])
  }

  // ---------------------------------------------------------------- the receiver

  /** What the receiver holds: the bytes of the message it is collecting, whether it is looking for the
      leading bytes, and the messages it has dispatched. */
  datatype Rx = Rx(pending: seq<Byte>, sync: bool, out: seq<Msg>)

  function SizeOf(p: seq<Byte>): nat
    requires |p| >= HEADER
  {
    HEADER + Num16(p[8], p[9])
  }

  function MsgOf(p: seq<Byte>): Msg
    requires |p| >= HEADER && |p| >= SizeOf(p)
  {
    Msg(Num16(p[4], p[5]), Num16(p[6], p[7]), p[HEADER..SizeOf(p)])
  }

  /** A collected message is dispatched when all of it is there. */
  function Collect(p: seq<Byte>, out: seq<Msg>): Rx {
    if |p| < HEADER || |p| < SizeOf(p) then Rx(p, false, out)
    else Rx(p[SizeOf(p)..], false, out + [MsgOf(p)])
  }

  /** One turn of the loop of ipc1_input. */
  function Feed(s: Rx, c: Byte): Rx {
    var t := if |s.pending| >= CAP then Rx([], true, s.out) else s;
    var p := t.pending + [c];
    if t.sync && |p| < HEADER then Rx(p, true, t.out)
    else if t.sync && p[..4] != Leading() then Rx(p[1..], true, t.out)
    else Collect(p, t.out)
  }

  function FeedAll(s: Rx, data: seq<Byte>): Rx
    decreases |data|
  {
    if data == [] then s else FeedAll(Feed(s, data[0]), data[1..])
  }

  const START := Rx([], true, [])

  // ---------------------------------------------------------------- every stream

  /** Kept by every byte of any stream whatever. */
  predicate Collecting(s: Rx) {
    if s.sync then |s.pending| < HEADER
    else |s.pending| <= CAP && (|s.pending| < HEADER || |s.pending| < SizeOf(s.pending))
  }

  /** When a message is dispatched it is all there is in the buffer: the branch for more data is dead. */
  lemma NoMoreData(s: Rx, c: Byte)
    requires Collecting(s)
    ensures Collecting(Feed(s, c))
    ensures Feed(s, c).out != s.out ==> Feed(s, c).pending == []
  {
    hide Num16, Leading;
  }

  lemma {:induction false} NeverMoreData(data: seq<Byte>)
    ensures Collecting(FeedAll(START, data))
  {
    FeedKeeps(START, data);
  }

  lemma {:induction false} FeedKeeps(s: Rx, data: seq<Byte>)
    requires Collecting(s)
    ensures Collecting(FeedAll(s, data))
    decreases |data|
  {
    if data != [] {
      NoMoreData(s, data[0]);
      FeedKeeps(Feed(s, data[0]), data[1..]);
    }
  }

  /** How the stream is cut into reads makes no difference. */
  lemma {:induction false} FeedJoin(s: Rx, a: seq<Byte>, b: seq<Byte>)
    ensures FeedAll(s, a + b) == FeedAll(FeedAll(s, a), b)
    decreases |a|
  {
    hide Feed;
    if a == [] {
      assert a + b == b;
    } else {
      assert (a + b)[1..] == a[1..] + b;
      FeedJoin(Feed(s, a[0]), a[1..], b);
    }
  }

  // ---------------------------------------------------------------- one frame

  lemma FrameFields(m: Msg)
    requires Fitting(m)
    ensures var f := Frame(m);
      && |f| == HEADER + |m.data| <= CAP && SizeOf(f) == |f| && MsgOf(f) == m && f[..4] == Leading()
  {
    hide Num16, Le16, Leading, Num8, Low;
    Num16Le16(m.seqNo);
    Num16Le16(m.kind);
    Num16Le16(|m.data|);
    SmallRemainder(m.seqNo);
    SmallRemainder(m.kind);
    SmallRemainder(|m.data|);
    var f, a, b, c := Frame(m), Le16(m.seqNo), Le16(m.kind), Le16(|m.data|);
    assert f[..4] == Leading() && f[4] == a[0] && f[5] == a[1] && f[6] == b[0] && f[7] == b[1] && f[8] == c[0]
        && f[9] == c[1];
    assert f[HEADER..] == m.data && |f| == HEADER + |m.data|;
  }

  /** A frame on the wire: four leading bytes, three fields of two bytes, low byte first, and the payload.  The receiver
      holds 2048 bytes. */
  lemma FrameLayout(m: Msg)
    ensures var f, n := Frame(m), |m.data|;
      && |f| == 10 + n && f[..4] == [1, 0xa5, 1, 0x5a] && f[10..] == m.data
      && Num8(f[4]) == m.seqNo % 256 && Num8(f[5]) == m.seqNo / 256 % 256
      && Num8(f[6]) == m.kind % 256 && Num8(f[7]) == m.kind / 256 % 256
      && Num8(f[8]) == n % 256 && Num8(f[9]) == n / 256 % 256
      && (Fitting(m) <==> m.seqNo < 65536 && m.kind < 65536 && |f| <= 2048)
  {
    Weights(m.seqNo);
    Weights(m.kind);
    Weights(|m.data|);
    FrameSlices(m);
    hide Num8, Le16, Le32, Be32;
  }

  lemma FrameSlices(m: Msg)
    ensures var f, a, b, c := Frame(m), Le16(m.seqNo), Le16(m.kind), Le16(|m.data|);
      && |f| == HEADER + |m.data| && f[..4] == Leading() && f[HEADER..] == m.data
      && |a| == |b| == |c| == 2 && f[4] == a[0] && f[5] == a[1] && f[6] == b[0] && f[7] == b[1] && f[8] == c[0]
      && f[9] == c[1]
  {
    hide Low;
  }

  /** Part of a frame is collected; the length field is read only once it is there. */
  lemma CollectPart(m: Msg, i: nat, out: seq<Msg>)
    requires Fitting(m) && i < |Frame(m)|
    ensures Collect(Frame(m)[..i], out) == Rx(Frame(m)[..i], false, out)
    ensures Collect(Frame(m), out) == Rx([], false, out + [m])
  {
    FrameFields(m);
    hide Frame, Num16;
  }

  lemma {:induction false} FeedRest(m: Msg, i: nat, out: seq<Msg>)
    requires Fitting(m) && i < |Frame(m)|
    ensures FeedAll(Rx(Frame(m)[..i], false, out), Frame(m)[i..]) == Rx([], false, out + [m])
    decreases |Frame(m)| - i
  {
    hide Frame, Fitting, Collect;
    var f := Frame(m);
    FrameFields(m);
    assert f[..i] + [f[i]] == f[..i + 1] && f[i..][1..] == f[i + 1..] && f[i..][0] == f[i];
    assert Feed(Rx(f[..i], false, out), f[i]) == Collect(f[..i + 1], out);
    if i + 1 < |f| {
      CollectPart(m, i + 1, out);
      FeedRest(m, i + 1, out);
    } else {
      assert f[..i + 1] == f;
      CollectPart(m, i, out);
    }
  }

  /** A frame fed to a receiver that is not looking for the leading bytes. */
  lemma FeedFrame(m: Msg, out: seq<Msg>)
    requires Fitting(m)
    ensures FeedAll(Rx([], false, out), Frame(m)) == Rx([], false, out + [m])
  {
    FrameFields(m);
    assert Frame(m)[..0] == [] && Frame(m)[0..] == Frame(m);
    FeedRest(m, 0, out);
  }

  lemma {:induction false} FeedFrames(ms: seq<Msg>, out: seq<Msg>)
    requires forall m :: m in ms ==> Fitting(m)
    ensures FeedAll(Rx([], false, out), Stream(ms)) == Rx([], false, out + ms)
  {
    hide Feed, Frame, Fitting;
    if ms != [] {
      FeedFrame(ms[0], out);
      FeedJoin(Rx([], false, out), Frame(ms[0]), Stream(ms[1..]));
      FeedFrames(ms[1..], out + [ms[0]]);
      assert (out + [ms[0]]) + ms[1..] == out + ms;
    } else {
      assert out + ms == out;
    }
  }

  // ---------------------------------------------------------------- finding the first frame

  /** The leading bytes stand at `i`. */
  predicate LeadsAt(s: seq<Byte>, i: nat) {
    i + 4 <= |s| && s[i..i + 4] == Leading()
  }

  /** Garbage that does not contain the leading bytes. */
  predicate Clean(g: seq<Byte>) {
    forall i :: 0 <= i < |g| ==> !LeadsAt(g, i)
  }

  /** No proper part at the start of the leading bytes is also at their end, so a frame after clean garbage is
      the first place where they stand. */
  lemma BorderFree(g: seq<Byte>, f: seq<Byte>, i: nat)
    requires Clean(g) && |f| >= 4 && f[..4] == Leading() && i < |g|
    ensures !LeadsAt(g + f, i)
  {
    var s := g + f;
    assert f[..4][0] == f[0] && f[..4][1] == f[1] && f[..4][2] == f[2];
    if i + 4 <= |s| {
      var t := s[i..i + 4];
      assert t[0] == s[i] && t[1] == s[i + 1] && t[2] == s[i + 2] && t[3] == s[i + 3];
      if i + 4 <= |g| {
        assert t == g[i..i + 4] && !LeadsAt(g, i);
      } else if i + 3 == |g| {
        assert t[3] == f[0] == 1;
      } else if i + 2 == |g| {
        assert t[3] == f[1] == 0xa5;
      } else {
        assert t[1] == f[0] == 1;
      }
    }
  }

  /** One byte while looking for the leading bytes. */
  lemma FeedSync(w: seq<Byte>, r: seq<Byte>, out: seq<Msg>)
    requires |w| < HEADER && r != []
    ensures var p := w + [r[0]];
      && w + r == p + r[1..]
      && FeedAll(Rx(w, true, out), r) ==
           FeedAll(if |p| < HEADER then Rx(p, true, out)
                   else if p[..4] != Leading() then Rx(p[1..], true, out)
                   else Collect(p, out), r[1..])
  {
    hide Collect, Leading;
  }

  /** The window stands on the frame. */
  lemma FoundNow(p: seq<Byte>, rest: seq<Byte>, m: Msg, out: seq<Msg>)
    requires Fitting(m) && |p| == HEADER && p + rest == Frame(m)
    ensures p[..4] == Leading() && FeedAll(Collect(p, out), rest) == Rx([], false, out + [m])
  {
    FrameFields(m);
    hide Frame, Fitting, Collect, Feed, Leading;
    var f := Frame(m);
    assert p == f[..HEADER] && rest == f[HEADER..] && p[..4] == f[..4];
    if rest == [] {
      assert p == f;
      CollectPart(m, 0, out);
    } else {
      CollectPart(m, HEADER, out);
      FeedRest(m, HEADER, out);
    }
  }

  /** No frame starts before `k`. */
  predicate NoneBefore(s: seq<Byte>, k: nat) {
    forall i :: 0 <= i < k ==> !LeadsAt(s, i)
  }

  lemma NoneBeforeShift(s: seq<Byte>, k: nat)
    requires NoneBefore(s, k) && 0 < k && |s| >= 4
    ensures s[..4] != Leading() && NoneBefore(s[1..], k - 1)
  {
    assert !LeadsAt(s, 0) && s[0..4] == s[..4];
    forall i | 0 <= i < k - 1 ensures !LeadsAt(s[1..], i) { LeadsShift(s, i); }
  }

  /** Looking for the leading bytes: `w` is what the receiver holds, `r` what is still to come. */
  lemma {:induction false} FindFrame(w: seq<Byte>, r: seq<Byte>, k: nat, m: Msg, out: seq<Msg>)
    requires Fitting(m) && |w| < HEADER && k <= |w + r| && (w + r)[k..] == Frame(m) && NoneBefore(w + r, k)
    ensures FeedAll(Rx(w, true, out), r) == Rx([], false, out + [m])
    decreases |r|
  {
    hide Frame, Fitting, Collect, Feed, FeedAll, NoneBefore, Leading;
    FrameSize(m);
    FeedSync(w, r, out);
    var p := w + [r[0]];
    if |p| < HEADER {
      FindFrame(p, r[1..], k, m, out);
    } else if k == 0 {
      FoundNow(p, r[1..], m, out);
    } else {
      NoneBeforeShift(p + r[1..], k);
      assert (p + r[1..])[..4] == p[..4] && (p + r[1..])[1..] == p[1..] + r[1..];
      assert (p[1..] + r[1..])[k - 1..] == (w + r)[k..];
      FindFrame(p[1..], r[1..], k - 1, m, out);
    }
  }

  lemma FrameSize(m: Msg)
    ensures |Frame(m)| == HEADER + |m.data|
  {}

  lemma LeadsShift(s: seq<Byte>, i: nat)
    requires s != []
    ensures LeadsAt(s[1..], i) <==> LeadsAt(s, i + 1)
  {
    if i + 4 < |s| { assert s[1..][i..i + 4] == s[i + 1..i + 5]; }
  }

  /** Whatever clean garbage comes first, the receiver dispatches exactly the frames, in order. */
  lemma Delivered(g: seq<Byte>, ms: seq<Msg>)
    requires Clean(g) && ms != [] && forall m :: m in ms ==> Fitting(m)
    ensures FeedAll(START, g + Stream(ms)) == Rx([], false, ms)
  {
    hide *;
    var m, f := ms[0], Frame(ms[0]);
    FirstFrame(g, m);
    StreamStarts(g, ms);
    FeedJoin(START, g + f, Stream(ms[1..]));
    FeedFrames(ms[1..], [m]);
    assert [m] + ms[1..] == ms;
  }

  /** Whatever the stream, every message dispatched is one that fits. */
  lemma {:induction false} DispatchedFits(s: Rx, data: seq<Byte>)
    requires Collecting(s) && forall m :: m in s.out ==> Fitting(m)
    ensures forall m :: m in FeedAll(s, data).out ==> Fitting(m)
    decreases |data|
  {
    hide Fitting, Num16;
    if data != [] {
      NoMoreData(s, data[0]);
      OneDispatch(s, data[0]);
      DispatchedFits(Feed(s, data[0]), data[1..]);
    }
  }

  lemma OneDispatch(s: Rx, c: Byte)
    requires Collecting(s) && forall m :: m in s.out ==> Fitting(m)
    ensures forall m :: m in Feed(s, c).out ==> Fitting(m)
  {
    var t := if |s.pending| >= CAP then Rx([], true, s.out) else s;
    var p := t.pending + [c];
    if |p| >= HEADER && |p| >= SizeOf(p) { MsgFits(p); }
    hide Fitting, MsgOf, SizeOf, Leading;
  }

  lemma MsgFits(p: seq<Byte>)
    requires HEADER <= |p| <= CAP && SizeOf(p) <= |p|
    ensures Fitting(MsgOf(p))
  {
    Num16Bound(p[4], p[5]);
    Num16Bound(p[6], p[7]);
    hide Num16;
  }

  /** After clean garbage, exactly the messages sent are dispatched if and only if all of them fit. */
  lemma DeliveredExactly(g: seq<Byte>, ms: seq<Msg>)
    requires Clean(g) && ms != []
    ensures FeedAll(START, g + Stream(ms)).out == ms <==> forall m :: m in ms ==> Fitting(m)
  {
    hide Fitting, Stream, Feed, FeedAll, Clean;
    DispatchedFits(START, g + Stream(ms));
    if forall m :: m in ms ==> Fitting(m) { Delivered(g, ms); }
  }

  lemma StreamStarts(g: seq<Byte>, ms: seq<Msg>)
    requires ms != []
    ensures g + Stream(ms) == (g + Frame(ms[0])) + Stream(ms[1..])
  {
    hide Frame;
  }

  lemma FirstFrame(g: seq<Byte>, m: Msg)
    requires Clean(g) && Fitting(m)
    ensures FeedAll(START, g + Frame(m)) == Rx([], false, [m])
  {
    var f := Frame(m);
    hide Feed, FeedAll, Frame, Fitting, Collect, LeadsAt, Clean;
    FrameFields(m);
    forall i | 0 <= i < |g| ensures !LeadsAt(g + f, i) { BorderFree(g, f, i); }
    assert [] + (g + f) == g + f && (g + f)[|g|..] == f && [] + [m] == [m];
    FindFrame([], g + f, |g|, m, []);
  }

  /** Dispatched messages are only ever added. */
  lemma {:induction false} FeedAdds(s: Rx, data: seq<Byte>)
    ensures s.out <= FeedAll(s, data).out
    decreases |data|
  {
    if data != [] {
      FeedAdds(Feed(s, data[0]), data[1..]);
      hide FeedAll, Collect;
      assert s.out <= Feed(s, data[0]).out by { CollectAdds(s, data[0]); }
    }
  }

  lemma CollectAdds(s: Rx, c: Byte)
    ensures s.out <= Feed(s, c).out
  {}

  /** Whatever begins with the leading bytes is the frame its header says. */
  lemma FrameOfParts(p: seq<Byte>)
    requires HEADER <= |p| == SizeOf(p) <= CAP && p[..4] == Leading()
    ensures Fitting(MsgOf(p)) && Frame(MsgOf(p)) == p
  {
    MsgFits(p);
    Le16Num16(p[4], p[5]);
    Le16Num16(p[6], p[7]);
    Le16Num16(p[8], p[9]);
    hide Num16, Le16, Leading;
    assert p == p[..4] + [p[4], p[5]] + [p[6], p[7]] + [p[8], p[9]] + p[HEADER..];
  }

  /** So the receiver takes it, wherever it comes from. */
  lemma LeadingBytesRule(g: seq<Byte>, s: seq<Byte>)
    requires Clean(g) && HEADER <= |s| && SizeOf(s) <= |s| && SizeOf(s) <= CAP && s[..4] == Leading()
    ensures [MsgOf(s)] <= FeedAll(START, g + s).out
  {
    hide Feed, FeedAll, Frame, Fitting, Clean, Num16, Leading;
    var n := SizeOf(s);
    var p := s[..n];
    assert p[..4] == s[..4] && p[HEADER..n] == s[HEADER..n];
    FrameOfParts(p);
    FirstFrame(g, MsgOf(p));
    assert g + s == (g + p) + s[n..];
    FeedJoin(START, g + p, s[n..]);
    FeedAdds(FeedAll(START, g + p), s[n..]);
  }

  /** A payload that does not fit is dropped after a full buffer, and the receiver looks for the leading bytes
      in what follows. */
  lemma OversizeIsDropped(m: Msg, out: seq<Msg>, next: Byte)
    requires CAP - HEADER < |m.data| < 65536
    ensures |Frame(m)| > CAP && FeedAll(Rx([], false, out), Frame(m)[..CAP]) == Rx(Frame(m)[..CAP], false, out)
    ensures Feed(Rx(Frame(m)[..CAP], false, out), next) == Rx([next], true, out)
  {
    Num16Le16(|m.data|);
    SmallRemainder(|m.data|);
    var f := Frame(m);
    assert f[8] == Le16(|m.data|)[0] && f[9] == Le16(|m.data|)[1] && |f| == HEADER + |m.data|;
    assert f[..0] == [] && f[0..CAP] == f[..CAP];
    hide Frame, Num16, Le16;
    FeedOversize(f, 0, out);
  }

  lemma {:induction false} FeedOversize(f: seq<Byte>, i: nat, out: seq<Msg>)
    requires i <= CAP < |f| && SizeOf(f) == |f|
    ensures FeedAll(Rx(f[..i], false, out), f[i..CAP]) == Rx(f[..CAP], false, out)
    decreases CAP - i
  {
    if i < CAP {
      assert f[..i] + [f[i]] == f[..i + 1] && f[i..CAP][1..] == f[i + 1..CAP] && f[i..CAP][0] == f[i];
      assert Collect(f[..i + 1], out) == Rx(f[..i + 1], false, out);
      FeedOversize(f, i + 1, out);
    }
  }
}
