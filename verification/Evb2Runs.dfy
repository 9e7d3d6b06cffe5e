/** Whole runs of an event loop, from aloe_evb2_create to aloe_evb2_destroy, and what the history of a
    handle says in plain terms. */
module Evb2Runs {
  import opened Evb2Spec
  import opened Evb2Ops
  import opened Evb2Turns
  import opened Evb2
  import opened Options

  // ---------------------------------------------------------------- reading the history

  /** A life that is not broken: added, told and freed at most once each, as the life says. */
  lemma {:induction false} LifeCounts(log: seq<Event>, h: Id)
    requires LifeOf(log, h) != Broken
    ensures multiset(log)[Added(h)] == if LifeOf(log, h) == Unknown then 0 else 1
    ensures multiset(log)[Freed(h)] == if LifeOf(log, h).Gone? then 1 else 0
    ensures multiset(log)[CancelNotified(h)] == if LifeOf(log, h) == Told || LifeOf(log, h) == Gone(true) then 1 else 0
  {
    if log != [] {
      var n := |log| - 1;
      LifeCounts(log[..n], h);
      assert log == log[..n] + [log[n]];
    }
  }

  lemma {:induction false} NeverBroken(log: seq<Event>, h: Id, k: nat)
    requires LifeOf(log, h) != Broken && k <= |log|
    ensures LifeOf(log[..k], h) != Broken
  {
    if k < |log| {
      var n := |log| - 1;
      NeverBroken(log[..n], h, k);
      assert log[..n][..k] == log[..k];
    } else {
      assert log[..k] == log;
    }
  }

  /** Nothing happens to a handle after its free, and only its free after its CANCELLED callback. */
  lemma {:induction false} LastEvents(log: seq<Event>, h: Id, i: nat, j: nat)
    requires LifeOf(log, h) != Broken && i < j < |log| && log[i].id == h && log[j].id == h
    ensures !log[i].Freed? && (log[i].CancelNotified? ==> log[j].Freed?)
  {
    NeverBroken(log, h, i + 1);
    NeverBroken(log, h, j + 1);
    assert log[..i + 1][..i] == log[..i] && log[..j + 1][..j] == log[..j];
    LifeBetween(log, h, i, j);
  }

  /** Between two of its events a life goes forward only. */
  lemma {:induction false} LifeBetween(log: seq<Event>, h: Id, i: nat, k: nat)
    requires LifeOf(log, h) != Broken && i < k <= |log| && log[i].id == h
    ensures log[i].Freed? ==> LifeOf(log[..k], h).Gone?
    ensures log[i].CancelNotified? ==> LifeOf(log[..k], h).Told? || LifeOf(log[..k], h).Gone?
  {
    NeverBroken(log, h, k);
    assert log[..k][..k - 1] == log[..k - 1];
    if k > i + 1 {
      LifeBetween(log, h, i, k - 1);
    }
  }

  // ---------------------------------------------------------------- who is dispatched

  /** What an armed handle is queued with in a pass, if anything. */
  function QueuedWith(hd: Handle, monitored: bool, timed: bool, evs: seq<(int, set<EpollBit>)>,
      now: Time): Option<set<Flag>> {
    if monitored && FirstHit(evs, hd, now).Some? then FirstHit(evs, hd, now)
    else if timed && hd.timeoutAt <= now then Some({TIMEOUT})
    else None
  }

  /** One pass dispatches a handle at most once.  It does so exactly when an epoll event or the deadline
      concerned the handle, and with the flags collected then, unless a callback cancels it first.  A
      one-shot handle is freed after that, and a persistent one kept unless it is cancelled or the loop stops. */
  lemma PassDispatches(before: State, p: Pass, x: Id)
    requires PassOk(before, p)
    ensures var a, n := SlotOf(p.installed, x), DispatchCount(p.done.log, x) - DispatchCount(p.collected.log, x);
      && 0 <= n <= 1
      && (a.handle.None? ==> n == 0)
      && (a.handle.Some? ==>
            match QueuedWith(a.handle.value, a.fdmon, a.timer, p.evs, p.now)
            case None => n == 0
            case Some(noti) =>
              (n == 1 || x in p.done.released)
              && (n == 1 ==> Since(Dispatched(x, noti), p.collected.log, p.done.log)))
      && (n == 1 ==> a.handle.Some? && AfterCallback(a.handle.value.oneshot, SlotOf(p.done, x), p.done.stopping))
  {
    hide LifeOf, DispatchCount, FirstHit, NoDup, TimersFit, Extended, QuietStep, Step, Since;
    assert SlotOk(SlotOf(p.installed, x));
    assert SlotOf(p.scanned, x) == Scanned(SlotOf(p.installed, x), p.evs, p.now);
    assert SlotOf(p.collected, x) == Expired(SlotOf(p.scanned, x), p.now);
    assert PassFor(p.collected, p.done, x);
  }

  /** TIMEOUT is reported only when the deadline has passed; CANCELLED never by a pass. */
  lemma TimeoutOnlyWhenDue(hd: Handle, monitored: bool, timed: bool, evs: seq<(int, set<EpollBit>)>, now: Time)
    requires QueuedWith(hd, monitored, timed, evs, now).Some?
    ensures var noti := QueuedWith(hd, monitored, timed, evs, now).value;
      noti != {} && CANCELLED !in noti && (TIMEOUT in noti <==> hd.timeoutAt <= now)
  {
    if monitored && FirstHit(evs, hd, now).Some? { FirstHitRaised(evs, hd, now); }
  }

  lemma {:induction false} FirstHitRaised(evs: seq<(int, set<EpollBit>)>, hd: Handle, now: Time)
    requires FirstHit(evs, hd, now).Some?
    ensures exists e :: FirstHit(evs, hd, now).value == Raised(hd, e, now) && Raised(hd, e, now) != {}
  {
    var n := |evs| - 1;
    if FirstHit(evs[..n], hd, now).Some? { FirstHitRaised(evs[..n], hd, now); }
  }

  // ---------------------------------------------------------------- when a timeout is reported

  lemma {:induction false} CountsDispatches(log: seq<Event>, k: nat, x: Id, a: set<Flag>, b: set<Flag>)
    requires k <= |log| && Dispatched(x, a) in log[k..]
    ensures DispatchCount(log, x) > DispatchCount(log[..k], x)
    ensures a != b && Dispatched(x, b) in log[k..] ==> DispatchCount(log, x) > DispatchCount(log[..k], x) + 1
    decreases |log|
  {
    var n := |log| - 1;
    assert log[k..] == log[..n][k..] + [log[n]] && log[..n][..k] == log[..k];
    if Dispatched(x, a) in log[..n][k..] {
      CountsDispatches(log[..n], k, x, a, b);
    } else if Dispatched(x, b) in log[..n][k..] {
      CountsDispatches(log[..n], k, x, b, a);
    } else {
      CountGrows(log[..n], k, x);
    }
  }

  lemma {:induction false} CountGrows(log: seq<Event>, k: nat, x: Id)
    requires k <= |log|
    ensures DispatchCount(log, x) >= DispatchCount(log[..k], x)
    decreases |log|
  {
    if k < |log| {
      assert log[..|log| - 1][..k] == log[..k];
      CountGrows(log[..|log| - 1], k, x);
    } else {
      assert log[..k] == log;
    }
  }

  /** No timeout is reported early: a pass reports one only to a handle that has waited its timeout since it was last
      armed (Evb2Calls says when that is).  The end of time is the one moment that can come too soon. */
  lemma NoTimeoutEarly(before: State, p: Pass, x: Id, noti: set<Flag>)
    requires PassOk(before, p) && Since(Dispatched(x, noti), p.collected.log, p.done.log) && p.now < MAX
    ensures x in p.installed.heap
    ensures TIMEOUT in noti ==> p.installed.heap[x].armedAt + p.installed.heap[x].timeoutMs <= p.now
  {
    PassDispatches(before, p, x);
    var a := SlotOf(p.installed, x);
    assert SlotOk(a) && PassFor(p.collected, p.done, x);
    assert p.done.log[..|p.collected.log|] == p.collected.log;
    CountsDispatches(p.done.log, |p.collected.log|, x, noti, noti);
    hide LifeOf, DispatchCount, FirstHit, NoDup, TimersFit, QuietStep, Step, PassOk, PassFor;
    var hd := p.installed.heap[x];
    var q := QueuedWith(hd, a.fdmon, a.timer, p.evs, p.now);
    if q.value != noti { CountsDispatches(p.done.log, |p.collected.log|, x, noti, q.value); }
    TimeoutOnlyWhenDue(hd, a.fdmon, a.timer, p.evs, p.now);
  }

  /** And none is late: a handle on the timer list that has waited its timeout, and at least a millisecond, is told
      so in this pass, unless a callback cancels it first. */
  lemma NoTimeoutMissed(before: State, p: Pass, x: Id)
    requires PassOk(before, p) && x in p.installed.timer
    ensures x in p.installed.heap
    ensures var hd := p.installed.heap[x];
      hd.armedAt + (if hd.timeoutMs == 0 then 1 else hd.timeoutMs) <= p.now && hd.timeoutMs < INFINITE ==>
        (exists noti :: TIMEOUT in noti && Since(Dispatched(x, noti), p.collected.log, p.done.log))
        || x in p.done.released
  {
    PassDispatches(before, p, x);
    var a := SlotOf(p.installed, x);
    assert SlotOk(a);
    hide LifeOf, DispatchCount, FirstHit, NoDup, TimersFit, QuietStep, Step, PassOk, Since;
    var hd := p.installed.heap[x];
    if hd.timeoutAt <= p.now { TimeoutOnlyWhenDue(hd, a.fdmon, a.timer, p.evs, p.now); }
  }

  // ---------------------------------------------------------------- what a pass returns

  ghost function Served(log: seq<Event>, k: nat, users: set<Id>): set<Id>
    requires k <= |log|
  {
    set x | x in users && DispatchCount(log, x) > DispatchCount(log[..k], x)
  }

  lemma {:induction false} CountsOnce(log: seq<Event>, k: nat, users: set<Id>)
    requires k <= |log| && forall x :: x in users ==> DispatchCount(log, x) <= DispatchCount(log[..k], x) + 1
    ensures UserCount(log, users) == UserCount(log[..k], users) + |Served(log, k, users)|
    decreases |log|
  {
    if k == |log| {
      assert log[..k] == log && Served(log, k, users) == {};
    } else {
      var n := |log| - 1;
      var before := log[..n];
      assert before[..k] == log[..k];
      CountsOnce(before, k, users);
      var x := log[n].id;
      CountGrows(before, k, x);
      assert Served(log, k, users) ==
          Served(before, k, users) + if log[n].Dispatched? && x in users then {x} else {};
    }
  }

  /** The number a pass returns is that of the user's handles whose callbacks it called, each counted once. */
  lemma ReturnsServed(before: State, p: Pass)
    requires PassOk(before, p)
    ensures var c := p.collected;
      Dispatches(p) ==
        |set x | x in c.ready && x in c.heap && !c.heap[x].internal
                 && Since(Dispatched(x, c.heap[x].noti), c.log, p.done.log)|
  {
    hide LifeOf, DispatchCount, UserCount, FirstHit, NoDup, TimersFit, QuietStep, Step;
    var c, log, k := p.collected, p.done.log, |p.collected.log|;
    var users := ReadyUsers(c);
    assert log[..k] == c.log;
    forall x | x in users
      ensures DispatchCount(log, x) <= DispatchCount(log[..k], x) + 1
      ensures x in Served(log, k, users) <==> Since(Dispatched(x, c.heap[x].noti), c.log, log)
    {
      assert PassFor(c, p.done, x);
      var e := c.heap[x].noti;
      if Since(Dispatched(x, e), c.log, log) { CountsDispatches(log, k, x, e, e); }
    }
    CountsOnce(log, k, users);
    var told := set x | x in c.ready && x in c.heap && !c.heap[x].internal
                        && Since(Dispatched(x, c.heap[x].noti), c.log, log);
    assert told == Served(log, k, users);
  }

  // ---------------------------------------------------------------- what epoll events mean

  /** What epoll_ctl(2) is asked for on behalf of a flag. */
  const ASKS: set<(Flag, EpollBit)> :=
    {(READ, EPOLLIN), (READ, EPOLLRDHUP), (WRITE, EPOLLOUT), (EXCEPT, EPOLLPRI)}

  /** What an epoll event says about a descriptor: a hangup can be read, and is an exception as well. */
  const TELLS: set<(EpollBit, Flag)> :=
    {(EPOLLIN, READ), (EPOLLRDHUP, READ), (EPOLLHUP, READ), (EPOLLOUT, WRITE), (EPOLLPRI, EXCEPT), (EPOLLERR, EXCEPT),
     (EPOLLHUP, EXCEPT)}

  predicate Says(e: set<EpollBit>, f: Flag) {
    exists bit :: bit in e && (bit, f) in TELLS
  }

  lemma InterestIsAsked(f: set<Flag>, bit: EpollBit)
    ensures bit in ToEpoll(f) <==> exists g :: g in f && (g, bit) in ASKS
  {
    if bit in ToEpoll(f) {
      var g := if bit == EPOLLOUT then WRITE else if bit == EPOLLPRI then EXCEPT else READ;
      assert g in f && (g, bit) in ASKS;
    }
  }

  lemma TellsExactly(e: set<EpollBit>, f: Flag)
    ensures f in FromEpoll(e) <==> Says(e, f)
  {
    if f in FromEpoll(e) {
      var bit := match f
        case READ => if EPOLLIN in e then EPOLLIN else if EPOLLRDHUP in e then EPOLLRDHUP else EPOLLHUP
        case WRITE => EPOLLOUT
        case _ => if EPOLLPRI in e then EPOLLPRI else if EPOLLERR in e then EPOLLERR else EPOLLHUP;
      assert bit in e && (bit, f) in TELLS;
    }
  }

  /** A callback is told what it asked for and epoll says, its timeout, and of an error or hangup at least the
      exception. */
  lemma RaisedMeans(hd: Handle, e: set<EpollBit>, now: Time, f: Flag)
    ensures var asked := exists g :: g in hd.flag && Says(e, g);
      f in Raised(hd, e, now) <==>
        || (f in hd.flag && Says(e, f))
        || (f == TIMEOUT && hd.timeoutAt <= now)
        || (f == EXCEPT && !asked && (EPOLLERR in e || EPOLLHUP in e))
  {
    hide FromEpoll, Says;
    TellsExactly(e, f);
    forall g | g in hd.flag ensures g in FromEpoll(e) <==> Says(e, g) { TellsExactly(e, g); }
    var io := FromEpoll(e) * hd.flag;
    if exists g :: g in hd.flag && Says(e, g) {
      var g :| g in hd.flag && Says(e, g);
      assert g in io;
    }
  }

  /** The events are taken in order: the first one that concerns a handle decides. */
  lemma {:induction false} FirstHitIsFirst(evs: seq<(int, set<EpollBit>)>, hd: Handle, now: Time) returns (k: nat)
    ensures k <= |evs| && forall i :: 0 <= i < k ==> evs[i].0 != hd.fd || Raised(hd, evs[i].1, now) == {}
    ensures FirstHit(evs, hd, now) == if k < |evs| then Some(Raised(hd, evs[k].1, now)) else None
    ensures k < |evs| ==> evs[k].0 == hd.fd && Raised(hd, evs[k].1, now) != {}
  {
    if evs == [] {
      k := 0;
    } else {
      var n := |evs| - 1;
      k := FirstHitIsFirst(evs[..n], hd, now);
      hide Raised;
      assert evs[..n] == evs[0..n];
      if k == n && (evs[n].0 != hd.fd || Raised(hd, evs[n].1, now) == {}) { k := n + 1; }
    }
  }

  // ---------------------------------------------------------------- a handle that is no longer valid

  /** The header says a handle is invalid once it is cancelled.  If its CANCELLED callback, called while
      asynchronous timers are installed, still sets its timeout, the freed handle stays on the timer list:
      exactly when aloe_evb2_set_timeout accepts the call and the new deadline is finite. */
  lemma RetimingACancelledHandle(s: State, h: Id, ms: Time, now: Time)
    requires Inv(s) && h in s.heap && s.cancelling == Some(h)
    ensures var s' := EndCancel(SetTimeout(s, h, ms, now).0, h);
      && h !in s'.heap
      && (h in s'.timer <==> RetimeAccepted(s, h, ms) && Deadline(ms, now) != MAX)
      && (Classified(s') <==> h !in s'.timer)
  {
    var s1 := SetTimeout(s, h, ms, now).0;
    var s' := EndCancel(s1, h);
    var hd := s.heap[h].(timeoutMs := ms, timeoutAt := Deadline(ms, now), armedAt := now);
    assert SlotOk(SlotOf(s, h));
    if RetimeAccepted(s, h, ms) { RequeueKeeps(s, h, hd); }
    LifeAfter(s.log, Freed(h));
    hide LifeOf, NoDup, TimersFit, Requeue;
    assert SlotOf(s', h).handle == None && SlotOf(s', h).timer == (h in s1.timer);
    if h !in s'.timer {
      SlotsBesides(s, s1, h);
      ClassifiedLocally(s, s', h);
    } else {
      assert !SlotOk(SlotOf(s', h));
    }
  }

  lemma SlotsBesides(s: State, s1: State, h: Id)
    requires SameElsewhere(s, s1, h) && s1.log == s.log && s1.notifying == s.notifying
    requires s1.nextId == s.nextId && s1.released == s.released && s1.cancelling == s.cancelling == Some(h)
    ensures SameElsewhere(s, EndCancel(s1, h), h)
  {
    LifeAfter(s.log, Freed(h));
    hide LifeOf;
  }

  // ---------------------------------------------------------------- create, run, destroy

  lemma EmptyIsFine()
    ensures Inv(EMPTY)
  {
    forall x: Id ensures SlotOk(SlotOf(EMPTY, x)) {}
    assert NoDups(EMPTY) && TimersOk(EMPTY);
    forall f: int ensures Wanted(EMPTY.fdmon, EMPTY.heap, f) == None {}
  }

  lemma MarkInternalKeeps(s: State, h: Id)
    requires Inv(s) && h in s.heap && !s.heap[h].oneshot
    ensures Inv(Assign(s, h, s.heap[h].(internal := true)))
  {
    var s' := Assign(s, h, s.heap[h].(internal := true));
    assert SlotOk(SlotOf(s, h));
    AssignKeeps(s, h, s.heap[h].(internal := true));
    hide LifeOf, NoDup, TimersFit;
    ClassifiedLocally(s, s', h);
    if !s.finalized { AgreesElsewhere(s, s', h, FD_TIMER); }
  }

  /** aloe_evb2_create; None when epoll refuses the wake pipe. */
  method Create(rd: int, wr: int, now: Time, ctl: bool) returns (l: Loop, ok: bool)
    requires rd >= 0
    ensures fresh(l) && (if ok then l.Idle() && !l.stopping else l.finalized) && Inv(l.Snap())
  {
    EmptyIsFine();
    hide Base, Classified, AgreesExcept;
    l := new Loop(rd, wr);
    var r := l.AddFd(true, rd, {READ}, INFINITE, false, now, ctl);
    if r == None {
      l.Destroy();
      return l, false;
    }
    MarkInternalKeeps(l.Snap(), r.value);
    l.SetHandle(r.value, l.heap[r.value].(internal := true));
    ok := true;
  }

  /** Nothing of a handle is left unless it is a pure timer whose deadline saturated. */
  predicate Settled(sl: Slot) {
    match sl.handle
    case None => sl.life == Unknown || sl.life.Gone?
    case Some(hd) => hd.fd == FD_TIMER && hd.timeoutAt == MAX && sl.life == Live && !OnList(sl)
  }

  lemma SettledAtTheEnd(s: State, x: Id)
    requires Core(s) && s.fdmon == [] && s.timer == [] && s.ready == [] && s.async == []
    requires s.notifying == None && s.cancelling == None
    ensures Settled(SlotOf(s, x))
  {
    assert SlotOk(SlotOf(s, x));
    hide LifeOf;
  }

  /** The handles that have been handed out according to the history. */
  ghost function HandedOut(log: seq<Event>): set<Id> {
    set e | e in log && e.Added? :: e.id
  }

  ghost predicate AllKnown(given: set<Id>, s: State) {
    forall x :: x in given ==> LifeOf(s.log, x) != Unknown
  }

  lemma KnownOnce(given: set<Id>, s: State)
    requires Core(s) && AllKnown(given, s)
    ensures AllKnown(given + HandedOut(s.log), s)
  {
    forall x | x in HandedOut(s.log) ensures LifeOf(s.log, x) != Unknown {
      assert SlotOk(SlotOf(s, x)) && Added(x) in s.log;
      LifeCounts(s.log, x);
      assert multiset(s.log)[Added(x)] > 0;
    }
    hide LifeOf;
  }

  lemma KnownAfter(given: set<Id>, s: State, s': State)
    requires AllKnown(given, s) && Remembers(s, s')
    ensures AllKnown(given, s')
  {
    hide LifeOf;
  }

  /** Freed, or a pure timer whose deadline saturated. */
  predicate Finished(sl: Slot) {
    sl.life.Gone? || (sl.handle.Some? && sl.handle.value.fd == FD_TIMER && sl.handle.value.timeoutAt == MAX
        && !OnList(sl))
  }

  /** Any run: create, any finite sequence of calls and passes with any callbacks and other threads, destroy.  Every
      handle handed out at any moment (`given`) is freed in the end, saturated pure timers apart. */
  method WholeRun(rd: int, wr: int, n: nat) returns (l: Loop, ok: bool, ghost given: set<Id>)
    requires rd >= 0
    ensures fresh(l) && (ok ==> l.finalized) && Inv(l.Snap()) && HandedOut(l.g.log) <= given
    ensures ok ==> forall x: Id :: Settled(SlotOf(l.Snap(), x))
    ensures ok ==> forall x :: x in given ==> Finished(SlotOf(l.Snap(), x))
  {
    var now: Time, ctl: bool := *, *;
    l, ok := Create(rd, wr, now, ctl);
    given := HandedOut(l.g.log);
    if !ok { return; }
    KnownOnce({}, l.Snap());
    hide Base, Classified, AgreesExcept, Step, Settled, PassOk, HandedOut, AllKnown, Remembers, Finished;
    var k := n;
    while k > 0 && !l.finalized
      invariant fresh(l) && Inv(l.Snap()) && (l.finalized || l.Idle()) && (l.finalized ==> Ended(l.Snap()))
      invariant AllKnown(given, l.Snap())
    {
      ghost var before := l.Snap();
      var timeoutMs: Time, pass: bool := *, *;
      if pass {
        var evs: seq<(int, set<EpollBit>)>, failed: bool, errno: Errno := *, *, *;
        var r, p := l.RunOnce(timeoutMs, evs, failed, errno);
      } else {
        ghost var s := l.Snap();
        l.OneCall(None);
        SameCallback(s, l.Snap(), false);
        StillIdle(s, l.Snap());
        RemembersStep(s, l.Snap(), false);
      }
      KnownAfter(given, before, l.Snap());
      KnownOnce(given, l.Snap());
      given := given + HandedOut(l.g.log);
      k := k - 1;
    }
    ghost var last := l.Snap();
    RemembersItself(last);
    if !l.finalized { l.Destroy(); }
    KnownAfter(given, last, l.Snap());
    KnownOnce(given, l.Snap());
    given := given + HandedOut(l.g.log);
    forall x: Id ensures Settled(SlotOf(l.Snap(), x)) { SettledAtTheEnd(l.Snap(), x); }
    forall x | x in given ensures Finished(SlotOf(l.Snap(), x)) { FinishedIs(given, l.Snap(), x); }
  }

  lemma FinishedIs(given: set<Id>, s: State, x: Id)
    requires AllKnown(given, s) && x in given && Settled(SlotOf(s, x))
    ensures Finished(SlotOf(s, x))
  {
    hide LifeOf;
  }

  lemma StillIdle(s: State, s': State)
    requires UserStep(s, s') && s.ready == []
    ensures s'.ready == []
  {
    hide SlotOf;
  }
}
