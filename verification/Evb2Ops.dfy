/** The calls of package/aloe/include/aloe/evb2.h as functions on the state, and the proof that each
    keeps the invariants and is a step user code may take in the middle of a dispatch. */
module Evb2Ops {
  import opened Evb2Spec
  import opened Options

  // ---------------------------------------------------------------- deadlines

  /** evb2_set_timeout: the absolute deadline, saturating at UINT64_MAX. */
  function Deadline(ms: Time, now: Time): Time {
    if ms == INFINITE || ms > MAX - now then MAX else now + ms
  }

  /** evb2_arm_timer: as Deadline, with a 1 ms floor for 0 ms timers. */
  function RearmDeadline(ms: Time, now: Time): Time {
    if ms == 0 then (if MIN_REARM_MS > MAX - now then MAX else now + MIN_REARM_MS) else Deadline(ms, now)
  }

  // ---------------------------------------------------------------- the helpers of evb2.c

  /** handle_alloc, with the fields its callers assign. */
  ghost function Alloc(s: State, hd: Handle): State {
    s.(nextId := s.nextId + 1, log := s.log + [Added(s.nextId)], heap := s.heap[s.nextId := hd])
  }

  /** qent_insert_tail on the descriptor list. */
  ghost function WatchTail(s: State, h: Id): State {
    s.(fdmon := s.fdmon + [h])
  }

  /** qent_insert_tail on the asynchronous list. */
  ghost function PendTail(s: State, h: Id): State {
    s.(async := s.async + [h])
  }

  /** epoll_refresh; `ctl` says whether the kernel carries the request out. */
  ghost function Refresh(s: State, fd: int, ctl: bool): State {
    s.(interest := NewInterest(s.interest, fd, Wanted(s.fdmon, s.heap, fd), ctl), suspect :=
        NewSuspect(s.suspect, fd, ctl))
  }

  ghost function NewInterest(interest: map<int, set<EpollBit>>, fd: int, w: Option<set<EpollBit>>, ctl: bool)
    : map<int, set<EpollBit>>
  {
    if fd <= FD_TIMER || !ctl then interest else if w.Some? then interest[fd := w.value] else interest - {fd}
  }

  ghost function NewSuspect(suspect: set<int>, fd: int, ctl: bool): set<int> {
    if fd <= FD_TIMER then suspect else if ctl then suspect - {fd} else suspect + {fd}
  }

  /** timer_insert unless the deadline is infinite, noting the moment of queueing. */
  ghost function Enqueue(s: State, h: Id): State {
    if Due(s.heap, h) == MAX then s
    else s.(timer := Inserted(s.timer, s.heap, h), queued := s.queued[h := s.ticks], ticks := s.ticks + 1)
  }

  /** qent_remove on the timer list. */
  ghost function UnlinkTimer(s: State, h: Id): State
    requires NoDups(s)
  {
    s.(timer := Without(s.timer, h))
  }

  /** handle_detach */
  ghost function Detach(s: State, h: Id): State
    requires NoDups(s)
  {
    s.(fdmon := Without(s.fdmon, h), timer := Without(s.timer, h), ready := Without(s.ready, h))
  }

  /** qent_remove on the asynchronous list. */
  ghost function Unpend(s: State, h: Id): State
    requires NoDups(s)
  {
    s.(async := Without(s.async, h))
  }

  /** Assignments to fields of a handle. */
  ghost function Assign(s: State, h: Id, hd: Handle): State {
    s.(heap := s.heap[h := hd])
  }

  /** free() in aloe_evb2_cancel. */
  ghost function Release(s: State, h: Id): State {
    s.(heap := s.heap - {h}, log := s.log + [Freed(h)], released := s.released + {h})
  }

  // ---------------------------------------------------------------- changes to one handle

  /** A new handle on the descriptor list (unless a pure timer) and the timer list (unless infinite). */
  ghost function Register(s: State, hd: Handle): State {
    var s0 := Alloc(s, hd);
    Enqueue(if hd.fd >= 0 then WatchTail(s0, s.nextId) else s0, s.nextId)
  }

  /** A new one-shot timer waiting on the asynchronous list. */
  ghost function Submit(s: State, hd: Handle): State {
    PendTail(Alloc(s, hd), s.nextId)
  }

  /** Off every list, and freed. */
  ghost function Drop(s: State, h: Id): State
    requires NoDups(s)
  {
    Release(Unpend(Detach(s, h), h), h)
  }

  /** A handle whose deadline changed, moved on the timer list. */
  ghost function Requeue(s: State, h: Id, hd: Handle): State
    requires NoDups(s)
  {
    Enqueue(UnlinkTimer(Assign(s, h, hd), h), h)
  }

  // ---------------------------------------------------------------- what they keep

  lemma EnqueueKeepsTimers(s: State, h: Id)
    requires NoDups(s) && TimersOk(s) && h !in s.timer
    ensures NoDups(Enqueue(s, h)) && TimersOk(Enqueue(s, h))
  {
    if Due(s.heap, h) != MAX {
      var q := s.queued[h := s.ticks];
      SortedFrame(s.timer, s.heap, s.queued, s.heap, q);
      SortedAfterInsert(s.timer, s.heap, q, h);
    }
  }

  lemma EnqueueIsLocal(s: State, h: Id)
    requires h !in s.timer
    ensures SameElsewhere(s, Enqueue(s, h), h)
    ensures SlotOf(Enqueue(s, h), h) == SlotOf(s, h).(timer := Due(s.heap, h) != MAX)
  {
    hide LifeOf, NoDup, Inserted;
  }

  lemma EnqueueIsStep(s: State, h: Id)
    requires !s.stopping
    ensures ContextStep(s, Enqueue(s, h), false)
  {
    hide LifeOf, NoDup, Inserted;
  }

  lemma EnqueueKeeps(s: State, h: Id)
    requires NoDups(s) && TimersOk(s) && h !in s.timer
    ensures var s' := Enqueue(s, h);
      && NoDups(s') && TimersOk(s') && SameElsewhere(s, s', h)
      && s'.interest == s.interest && s'.suspect == s.suspect && s'.finalized == s.finalized
      && (!s.stopping ==> ContextStep(s, s', false))
      && SlotOf(s', h) == SlotOf(s, h).(timer := Due(s.heap, h) != MAX)
  {
    EnqueueKeepsTimers(s, h);
    EnqueueIsLocal(s, h);
    if !s.stopping { EnqueueIsStep(s, h); }
    hide NoDups, TimersOk, SameElsewhere, SlotOf, ContextStep;
  }

  /** The order of the timer list depends only on the deadlines of its members. */
  lemma TimersFrame(s: State, s': State)
    requires TimersOk(s) && s'.timer == s.timer && s'.queued == s.queued && s'.ticks == s.ticks
    requires forall x :: x in s.timer ==> Due(s'.heap, x) == Due(s.heap, x)
    ensures TimersOk(s')
  {
    SortedFrame(s.timer, s.heap, s.queued, s'.heap, s'.queued);
  }

  lemma RefreshKeeps(s: State, fd: int, ctl: bool)
    ensures var s' := Refresh(s, fd, ctl);
      (Base(s) ==> Base(s')) && (Classified(s) ==> Classified(s')) && UserStep(s, s')
  {
    hide NoDup, TimersFit, SlotOk, Wanted, NewInterest, NewSuspect;
    var s' := Refresh(s, fd, ctl);
    StepLocally(s, s', 0, false);
    if Classified(s) {
      ClassifiedLocally(s, s', 0);
    }
  }

  lemma RefreshAgrees(s: State, fd: int, ctl: bool)
    requires fd >= FD_TIMER && AgreesExcept(s, fd)
    ensures EpollAgrees(Refresh(s, fd, ctl))
  {
    hide Wanted;
  }

  /** A change confined to handle `h`, which may move on or off the descriptor list of `fd`,
      followed by epoll_refresh of that descriptor. */
  lemma Finish(s: State, s1: State, h: Id, fd: int, ctl: bool)
    requires Inv(s) && Base(s1) && fd >= FD_TIMER
    requires SameElsewhere(s, s1, h) && SlotOk(SlotOf(s1, h)) && ContextStep(s, s1, false)
    requires SlotStep(SlotOf(s, h), SlotOf(s1, h), s.stopping, s.finalized)
    requires s1.interest == s.interest && s1.suspect == s.suspect
    requires (!SlotOf(s, h).fdmon && !SlotOf(s1, h).fdmon) || SameWatch(SlotOf(s, h), SlotOf(s1, h))
      || (forall f :: Watching(SlotOf(s, h), f) || Watching(SlotOf(s1, h), f) ==> f == fd)
    ensures Inv(Refresh(s1, fd, ctl)) && UserStep(s, Refresh(s1, fd, ctl))
  {
    ClassifiedLocally(s, s1, h);
    StepLocally(s, s1, h, false);
    RefreshKeeps(s1, fd, ctl);
    StepTransitive(s, s1, Refresh(s1, fd, ctl), false);
    if !s.finalized {
      AgreesElsewhere(s, s1, h, fd);
      RefreshAgrees(s1, fd, ctl);
    }
  }

  /** A change confined to handle `h` that leaves its place on the descriptor list alone. */
  lemma FinishQuietly(s: State, s1: State, h: Id)
    requires Inv(s) && Base(s1)
    requires SameElsewhere(s, s1, h) && SlotOk(SlotOf(s1, h)) && ContextStep(s, s1, false)
    requires SlotStep(SlotOf(s, h), SlotOf(s1, h), s.stopping, s.finalized)
    requires s1.interest == s.interest && s1.suspect == s.suspect
    requires (!SlotOf(s, h).fdmon && !SlotOf(s1, h).fdmon) || SameWatch(SlotOf(s, h), SlotOf(s1, h))
    ensures Inv(s1) && UserStep(s, s1)
  {
    Finish(s, s1, h, FD_TIMER, true);
  }

  lemma AllocKeeps(s: State, hd: Handle)
    requires Core(s)
    ensures var s' := Alloc(s, hd);
      && Base(s') && SameElsewhere(s, s', s.nextId) && ContextStep(s, s', false)
      && SlotOf(s, s.nextId) == NOWHERE
      && SlotOf(s', s.nextId) == NOWHERE.(handle := Some(hd), known := true, life := Live)
  {
    hide NoDup, TimersFit;
    assert SlotOk(SlotOf(s, s.nextId));
    LifeAfter(s.log, Added(s.nextId));
    TimersFrame(s, Alloc(s, hd));
  }

  lemma WatchKeeps(s: State, h: Id)
    requires Base(s) && h !in s.fdmon && !s.stopping
    ensures var s' := WatchTail(s, h);
      && Base(s') && SameElsewhere(s, s', h) && ContextStep(s, s', false)
      && SlotOf(s', h) == SlotOf(s, h).(fdmon := true)
  {
    NoDupAppend(s.fdmon, h);
    hide NoDup, TimersFit;
  }

  lemma RegisterKeeps(s: State, hd: Handle)
    requires Core(s) && hd.fd >= FD_TIMER && !hd.internal && !s.stopping
    ensures var s' := Register(s, hd);
      && Base(s') && SameElsewhere(s, s', s.nextId) && ContextStep(s, s', false)
      && s'.interest == s.interest && s'.suspect == s.suspect
      && SlotOf(s, s.nextId) == NOWHERE
      && SlotOf(s', s.nextId) == NOWHERE.(handle := Some(hd), fdmon := hd.fd >= 0,
           timer := hd.timeoutAt != MAX, known := true, life := Live)
  {
    hide SameElsewhere, ContextStep, NoDup, TimersFit, Classified;
    var h := s.nextId;
    var s0 := Alloc(s, hd);
    AllocKeeps(s, hd);
    var s1 := if hd.fd >= 0 then WatchTail(s0, h) else s0;
    if hd.fd >= 0 {
      WatchKeeps(s0, h);
      SameElsewhereTransitive(s, s0, s1, h);
      ContextStepTransitive(s, s0, s1, false);
    }
    EnqueueKeeps(s1, h);
    SameElsewhereTransitive(s, s1, Enqueue(s1, h), h);
    ContextStepTransitive(s, s1, Enqueue(s1, h), false);
    hide Enqueue;
    assert Register(s, hd) == Enqueue(s1, h);
  }

  lemma SubmitKeeps(s: State, hd: Handle)
    requires Core(s) && !s.stopping
    ensures var s' := Submit(s, hd);
      && Base(s') && SameElsewhere(s, s', s.nextId) && ContextStep(s, s', false)
      && s'.interest == s.interest && s'.suspect == s.suspect
      && SlotOf(s, s.nextId) == NOWHERE
      && SlotOf(s', s.nextId) == NOWHERE.(handle := Some(hd), async := true, known := true, life := Live)
  {
    AllocKeeps(s, hd);
    NoDupAppend(s.async, s.nextId);
    hide NoDup, TimersFit, Classified;
  }

  lemma AssignKeeps(s: State, h: Id, hd: Handle)
    requires Base(s) && h in s.heap && (h in s.timer ==> hd.timeoutAt == s.heap[h].timeoutAt)
    ensures var s' := Assign(s, h, hd);
      && Base(s') && SameElsewhere(s, s', h) && ContextStep(s, s', false)
      && s'.interest == s.interest && s'.suspect == s.suspect
      && SlotOf(s', h) == SlotOf(s, h).(handle := Some(hd))
  {
    hide NoDup, TimersFit;
    TimersFrame(s, Assign(s, h, hd));
  }

  lemma DropKeepsBase(s: State, h: Id)
    requires Base(s)
    ensures Base(Drop(s, h))
  {
    var s' := Drop(s, h);
    SortedAfterRemoval(s.timer, s.heap, s.queued, h);
    SortedFrame(s'.timer, s.heap, s.queued, s'.heap, s'.queued);
    hide NoDup, Sorted;
  }

  lemma DropKeeps(s: State, h: Id)
    requires Base(s) && h in s.heap
    ensures var s' := Drop(s, h);
      && Base(s') && SameElsewhere(s, s', h) && ContextStep(s, s', false)
      && s'.interest == s.interest && s'.suspect == s.suspect
      && SlotOf(s', h) == SlotOf(s, h).(handle := None, fdmon := false, timer := false, ready := false,
           async := false, life := NextLife(SlotOf(s, h).life, Freed(h)), released := true)
  {
    DropKeepsBase(s, h);
    LifeAfter(s.log, Freed(h));
    hide NoDup, TimersFit, LifeOf;
  }

  lemma UnlinkTimerKeeps(s: State, h: Id, hd: Handle)
    requires Base(s) && h in s.heap
    ensures var s' := UnlinkTimer(Assign(s, h, hd), h);
      && Base(s') && SameElsewhere(s, s', h) && ContextStep(s, s', false)
      && SlotOf(s', h) == SlotOf(s, h).(handle := Some(hd), timer := false)
  {
    var s' := UnlinkTimer(Assign(s, h, hd), h);
    SortedAfterRemoval(s.timer, s.heap, s.queued, h);
    SortedFrame(s'.timer, s.heap, s.queued, s'.heap, s'.queued);
    hide NoDup, Sorted;
  }

  lemma RequeueKeeps(s: State, h: Id, hd: Handle)
    requires Base(s) && h in s.heap && !s.stopping
    ensures var s' := Requeue(s, h, hd);
      && Base(s') && SameElsewhere(s, s', h) && ContextStep(s, s', false)
      && s'.interest == s.interest && s'.suspect == s.suspect
      && SlotOf(s', h) == SlotOf(s, h).(handle := Some(hd), timer := hd.timeoutAt != MAX)
  {
    hide SameElsewhere, ContextStep, NoDup, TimersFit;
    UnlinkTimerKeeps(s, h, hd);
    var s0 := UnlinkTimer(Assign(s, h, hd), h);
    EnqueueKeeps(s0, h);
    SameElsewhereTransitive(s, s0, Enqueue(s0, h), h);
    ContextStepTransitive(s, s0, Enqueue(s0, h), false);
  }

  // ---------------------------------------------------------------- the calls

  predicate AddAccepted(s: State, hasCb: bool, fd: int, ms: Time) {
    !s.stopping && !s.finalized && hasCb && fd >= FD_TIMER && !(fd == FD_TIMER && ms == INFINITE)
  }

  /** aloe_evb2_add_fd and, with `oneshot`, aloe_evb2_add_oneshot_fd */
  ghost function AddFd(s: State, hasCb: bool, fd: int, req: set<Flag>, ms: Time, oneshot: bool, now: Time, ctl: bool)
    : (State, Option<Id>)
  {
    if !AddAccepted(s, hasCb, fd, ms) then (s, None)
    else if fd >= 0 && !ctl then (s.(nextId := s.nextId + 1), None)
    else (Admitted(s, Handle(fd, req, ms, Deadline(ms, now), now, oneshot, false, false, {}), ctl), Some(s.nextId))
  }

  ghost function Admitted(s: State, hd: Handle, ctl: bool): State {
    var s0 := Alloc(s, hd);
    Enqueue(if hd.fd >= 0 then Refresh(WatchTail(s0, s.nextId), hd.fd, ctl) else s0, s.nextId)
  }

  /** aloe_evb2_add_oneshot_timer, from any thread. */
  ghost function AddOneshotTimer(s: State, hasCb: bool, ms: Time, now: Time): (State, Option<Id>) {
    if !hasCb || ms == INFINITE then (s, None)
    else if s.stopping || s.finalized then (s.(nextId := s.nextId + 1), None)
    else (Submit(s, Handle(FD_TIMER, {}, ms, Deadline(ms, now), now, true, false, false, {})), Some(s.nextId))
  }

  /** A handle is handed out exactly when the call logs it. */
  lemma LogsWhatItHandsOut(s: State, hasCb: bool, fd: int, req: set<Flag>, ms: Time, oneshot: bool, now: Time,
      ctl: bool)
    ensures var (s', r) := AddFd(s, hasCb, fd, req, ms, oneshot, now, ctl);
      s'.log == s.log + if r.Some? then [Added(r.value)] else []
    ensures var (s', r) := AddOneshotTimer(s, hasCb, ms, now);
        s'.log == s.log + if r.Some? then [Added(r.value)] else []
  {
    hide Deadline, Inserted, Wanted, NewInterest, NewSuspect;
    assert s.log + [] == s.log;
  }

  /** aloe_evb2_cancel */
  ghost function Cancel(s: State, h: Id, ctl: bool): (State, int)
    requires NoDups(s) && h in s.heap
  {
    var hd := s.heap[h];
    if hd.internal then (s, -1)
    else if s.notifying == Some(h) then (Assign(s, h, hd.(dead := true)), 0)
    else if h in s.async then (Release(Unpend(s, h), h), 0)
    else if h in s.fdmon || h in s.ready || h in s.timer then (Release(Refresh(Detach(s, h), hd.fd, ctl), h), 0)
    else (s, -1)
  }

  /** The descriptor and timer lists do not look at each other's changes. */
  lemma RefreshThenEnqueue(s: State, fd: int, ctl: bool, h: Id)
    ensures Enqueue(Refresh(s, fd, ctl), h) == Refresh(Enqueue(s, h), fd, ctl)
  {}

  lemma ReleaseLast(s: State, h: Id, fd: int, ctl: bool)
    requires NoDups(s) && h !in s.async
    ensures Release(Refresh(Detach(s, h), fd, ctl), h) == Refresh(Drop(s, h), fd, ctl)
  {
    WithoutAbsent(s.async, h);
    WantedFrame(Without(s.fdmon, h), s.heap, Without(s.fdmon, h), s.heap - {h}, fd);
  }

  lemma UnpendOnly(s: State, h: Id)
    requires NoDups(s) && h !in s.fdmon && h !in s.ready && h !in s.timer
    ensures Release(Unpend(s, h), h) == Drop(s, h)
  {
    WithoutAbsent(s.fdmon, h);
    WithoutAbsent(s.ready, h);
    WithoutAbsent(s.timer, h);
  }

  predicate RetimeAccepted(s: State, h: Id, ms: Time)
    requires h in s.heap
  {
    !s.heap[h].internal && !s.heap[h].dead && !s.stopping && !s.finalized
    && !(s.heap[h].fd == FD_TIMER && ms == INFINITE)
  }

  /** aloe_evb2_set_timeout */
  ghost function SetTimeout(s: State, h: Id, ms: Time, now: Time): (State, int)
    requires NoDups(s) && h in s.heap
  {
    var hd := s.heap[h].(timeoutMs := ms, timeoutAt := Deadline(ms, now), armedAt := now);
    if !RetimeAccepted(s, h, ms) then (s, -1)
    else if s.notifying == Some(h) || h in s.async || h in s.ready then (Assign(s, h, hd), 0)
    else (Requeue(s, h, hd), 0)
  }

  lemma WasteIdStep(s: State)
    requires Inv(s)
    ensures var s' := s.(nextId := s.nextId + 1); Inv(s') && UserStep(s, s')
  {
    var s' := s.(nextId := s.nextId + 1);
    assert SlotOk(SlotOf(s, s.nextId));
    TimersFrame(s, s');
    FinishQuietly(s, s', s.nextId);
  }

  lemma RegisterRefreshed(s: State, hd: Handle, ctl: bool)
    requires hd.fd >= FD_TIMER
    ensures Admitted(s, hd, ctl) == Refresh(Register(s, hd), hd.fd, ctl)
  {
    if hd.fd >= 0 { RefreshThenEnqueue(WatchTail(Alloc(s, hd), s.nextId), hd.fd, ctl, s.nextId); }
  }

  lemma AddFdStep(s: State, hasCb: bool, fd: int, req: set<Flag>, ms: Time, oneshot: bool, now: Time, ctl: bool)
    requires Inv(s)
    ensures var s' := AddFd(s, hasCb, fd, req, ms, oneshot, now, ctl).0; Inv(s') && UserStep(s, s')
  {
    hide SameElsewhere, ContextStep, EpollAgrees, NoDup, TimersFit, Alloc, WatchTail, PendTail, Register, Submit,
        Assign, Drop, Requeue, Refresh, Enqueue, Detach, Unpend, Release;
    WasteIdStep(s);
    StepReflexive(s, false);
    if AddAccepted(s, hasCb, fd, ms) && (fd < 0 || ctl) {
      var hd := Handle(fd, req, ms, Deadline(ms, now), now, oneshot, false, false, {});
      RegisterKeeps(s, hd);
      RegisterRefreshed(s, hd, ctl);
      Finish(s, Register(s, hd), s.nextId, fd, ctl);
    }
  }

  lemma AddOneshotTimerStep(s: State, hasCb: bool, ms: Time, now: Time)
    requires Inv(s)
    ensures var s' := AddOneshotTimer(s, hasCb, ms, now).0; Inv(s') && UserStep(s, s')
  {
    hide SameElsewhere, ContextStep, EpollAgrees, NoDup, TimersFit, Alloc, WatchTail, PendTail, Register, Submit,
        Assign, Drop, Requeue, Refresh, Enqueue, Detach, Unpend, Release;
    WasteIdStep(s);
    StepReflexive(s, false);
    if hasCb && ms != INFINITE && !s.stopping && !s.finalized {
      var hd := Handle(FD_TIMER, {}, ms, Deadline(ms, now), now, true, false, false, {});
      SubmitKeeps(s, hd);
      FinishQuietly(s, Submit(s, hd), s.nextId);
    }
  }

  lemma CancelStep(s: State, h: Id, ctl: bool)
    requires Inv(s) && h in s.heap
    ensures var s' := Cancel(s, h, ctl).0; Inv(s') && UserStep(s, s')
  {
    hide SameElsewhere, ContextStep, EpollAgrees, NoDup, TimersFit, Alloc, WatchTail, PendTail, Register, Submit,
        Assign, Drop, Requeue, Refresh, Enqueue, Detach, Unpend, Release;
    var hd := s.heap[h];
    StepReflexive(s, false);
    assert SlotOk(SlotOf(s, h));
    if hd.internal {
    } else if s.notifying == Some(h) {
      AssignKeeps(s, h, hd.(dead := true));
      FinishQuietly(s, Assign(s, h, hd.(dead := true)), h);
    } else if h in s.async || h in s.fdmon || h in s.ready || h in s.timer {
      DropKeeps(s, h);
      if h in s.async {
        UnpendOnly(s, h);
        FinishQuietly(s, Drop(s, h), h);
      } else {
        ReleaseLast(s, h, hd.fd, ctl);
        Finish(s, Drop(s, h), h, hd.fd, ctl);
      }
    }
  }

  /** The handle must still be valid: it is not the one being told that it is cancelled. */
  lemma SetTimeoutStep(s: State, h: Id, ms: Time, now: Time)
    requires Inv(s) && h in s.heap && s.cancelling != Some(h)
    ensures var s' := SetTimeout(s, h, ms, now).0; Inv(s') && UserStep(s, s')
  {
    hide SameElsewhere, ContextStep, EpollAgrees, NoDup, TimersFit, Alloc, WatchTail, PendTail, Register, Submit,
        Assign, Drop, Requeue, Refresh, Enqueue, Detach, Unpend, Release;
    var hd := s.heap[h].(timeoutMs := ms, timeoutAt := Deadline(ms, now), armedAt := now);
    StepReflexive(s, false);
    assert SlotOk(SlotOf(s, h));
    if RetimeAccepted(s, h, ms) {
      if s.notifying == Some(h) || h in s.async || h in s.ready {
        AssignKeeps(s, h, hd);
        FinishQuietly(s, Assign(s, h, hd), h);
      } else {
        RequeueKeeps(s, h, hd);
        FinishQuietly(s, Requeue(s, h, hd), h);
      }
    }
  }
}
