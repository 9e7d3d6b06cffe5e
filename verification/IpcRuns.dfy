/** What the threads that call ipc1_write get: every call goes out at most once, under its own number. */
module IpcRuns {
  import opened Bytes
  import opened IpcSpec
  import opened Ipc

  /** How many calls for a message have been made by threads with none under way. */
  function Asked(steps: seq<Step>, kind: nat, data: seq<Byte>): nat
    decreases |steps|
  {
    if steps == [] then 0
    else
      var n := |steps| - 1;
      var e := steps[n];
      Asked(steps[..n], kind, data) +
      if e.Call? && e.kind % 65536 == kind && e.data == data && e.tid !in RunSteps(steps[..n]).jobs then 1 else 0
  }

  function Sent(ms: seq<Msg>, kind: nat, data: seq<Byte>): nat {
    if ms == [] then 0
    else
      var m := ms[|ms| - 1];
      Sent(ms[..|ms| - 1], kind, data) + if m.kind == kind && m.data == data then 1 else 0
  }

  /** The threads that wait for the lock with it. */
  function Waiting(s: System, kind: nat, data: seq<Byte>): set<Tid> {
    set t | t in s.jobs && !(s.held && s.lock == t) && s.jobs[t].kind % 65536 == kind && s.jobs[t].data == data
  }

  /** How often it stands in the lock order or waits for the lock. */
  function InFlight(s: System, kind: nat, data: seq<Byte>): nat {
    Sent(s.order, kind, data) + |Waiting(s, kind, data)|
  }

  lemma SentSnoc(ms: seq<Msg>, m: Msg, kind: nat, data: seq<Byte>)
    ensures Sent(ms + [m], kind, data) == Sent(ms, kind, data) + if m.kind == kind && m.data == data then 1 else 0
  {
    assert (ms + [m])[..|ms|] == ms;
  }

  lemma NoneWaits(kind: nat, data: seq<Byte>)
    ensures Waiting(RunSteps([]), kind, data) == {}
  {}

  lemma CallWaits(s: System, t: Tid, k: nat, d: seq<Byte>, kind: nat, data: seq<Byte>)
    requires t !in s.jobs && !(s.held && s.lock == t)
    ensures var w, s' := Waiting(s, kind, data), Next(s, Call(t, k, d));
      t !in w && Waiting(s', kind, data) == if k % 65536 == kind && d == data then w + {t} else w
  {}

  lemma LockTakes(s: System, t: Tid, kind: nat, data: seq<Byte>)
    requires t in s.jobs && !s.held
    ensures var w := Waiting(s, kind, data);
      Waiting(Next(s, Lock(t)), kind, data) == w - {t}
      && (t in w <==> s.jobs[t].kind % 65536 == kind && s.jobs[t].data == data)
  {
    hide Frame;
  }

  lemma HolderWaitsNot(s: System, e: Step, kind: nat, data: seq<Byte>)
    requires Enabled(s, e) && (e.Put? || e.Unlock? || e.Fail?)
    ensures Waiting(Next(s, e), kind, data) == Waiting(s, kind, data)
  {
    hide Frame;
  }

  /** The lock is only ever held by a thread with a job. */
  lemma {:induction false} HolderHasJob(steps: seq<Step>)
    ensures var s := RunSteps(steps); s.held ==> s.lock in s.jobs
    decreases |steps|
  {
    hide Frame;
    if steps != [] { HolderHasJob(steps[..|steps| - 1]); }
  }

  /** Every accepted call is on its way at most once: it waits for the lock, or stands in the lock order, and without
      a failing write it does exactly one of the two. */
  lemma {:induction false} OncePerCall(steps: seq<Step>, kind: nat, data: seq<Byte>)
    ensures var m, n := InFlight(RunSteps(steps), kind, data), Asked(steps, kind, data);
      m <= n && ((forall e :: e in steps ==> !e.Fail?) ==> m == n)
    decreases |steps|
  {
    hide Next, Enabled, Waiting, Sent, Frame;
    if steps == [] {
      NoneWaits(kind, data);
      NothingSent(kind, data);
    } else {
      var n := |steps| - 1;
      OncePerCall(steps[..n], kind, data);
      HolderHasJob(steps[..n]);
      OneStep(RunSteps(steps[..n]), steps[n], kind, data);
    }
  }

  lemma NothingSent(kind: nat, data: seq<Byte>)
    ensures Sent([], kind, data) == 0
  {}

  lemma OneStep(s: System, e: Step, kind: nat, data: seq<Byte>)
    requires s.held ==> s.lock in s.jobs
    ensures var added := if e.Call? && e.kind % 65536 == kind && e.data == data && e.tid !in s.jobs then 1 else 0;
      var a, b := InFlight(s, kind, data), InFlight(Next(s, e), kind, data);
      b <= a + added && (!e.Fail? ==> b == a + added)
  {
    hide Waiting, Sent, Frame;
    if Enabled(s, e) {
      match e
      case Call(t, k, d) => CallWaits(s, t, k, d, kind, data);
      case Lock(t) =>
        LockTakes(s, t, kind, data);
        SentSnoc(s.order, Numbered(s, s.jobs[t]), kind, data);
      case Put(_, _) => HolderWaitsNot(s, e, kind, data);
      case Unlock(_) => HolderWaitsNot(s, e, kind, data);
      case Fail(_) =>
        HolderWaitsNot(s, e, kind, data);
        var n := |s.order| - 1;
        assert s.order == s.order[..n] + [s.order[n]];
        SentSnoc(s.order[..n], s.order[n], kind, data);
    }
  }

  /** Messages are numbered 1, 2, 3 and so on in the order in which their threads get the lock, modulo 65536; a number
      is left out only by a write that fails before anything went out. */
  lemma {:induction false} NumberedInTurn(steps: seq<Step>) returns (ns: seq<nat>)
    ensures var s := RunSteps(steps);
      && |ns| == |s.order| && s.nextSeq >= 1
      && (forall i :: 0 <= i < |ns| ==> s.order[i].seqNo == ns[i] % 65536 && 1 <= ns[i] < s.nextSeq)
      && (forall i, j :: 0 <= i < j < |ns| ==> ns[i] < ns[j])
      && ((forall e :: e in steps ==> !e.Fail?) ==>
            s.nextSeq == |ns| + 1 && forall i :: 0 <= i < |ns| ==> ns[i] == i + 1)
    decreases |steps|
  {
    hide Frame;
    if steps == [] {
      ns := [];
    } else {
      var n := |steps| - 1;
      ns := NumberedInTurn(steps[..n]);
      var s, e := RunSteps(steps[..n]), steps[n];
      if Enabled(s, e) {
        if e.Lock? { ns := ns + [s.nextSeq]; }
        if e.Fail? && s.jobs[e.tid].rest == Frame(s.order[|s.order| - 1]) { ns := ns[..|ns| - 1]; }
      }
    }
  }
}
