/** What the loop itself does to a handle: moving it to the ready list, dispatching it, telling it that
    it is cancelled, and arming or freeing it again. */
module Evb2Turns {
  import opened Evb2Spec
  import opened Evb2Ops
  import opened Options

  // ---------------------------------------------------------------- updates

  /** handle_to_ready without its epoll_refresh. */
  ghost function ToReady(s: State, h: Id, noti: set<Flag>): State
    requires NoDups(s) && h in s.heap
  {
    s.(fdmon := Without(s.fdmon, h), timer := Without(s.timer, h), ready := s.ready + [h],
       heap := s.heap[h := s.heap[h].(noti := noti)])
  }

  /** qent_pop from the ready list, up to entering the callback. */
  ghost function BeginDispatch(s: State): State
    requires s.ready != [] && s.ready[0] in s.heap
  {
    var h := s.ready[0];
    s.(ready := s.ready[1..], notifying := Some(h), log := s.log + [Dispatched(h, s.heap[h].noti)])
  }

  /** A one-shot or cancelled handle after its callback, and any handle once stopping. */
  ghost function EndWithFree(s: State, h: Id): State
    requires h in s.heap
  {
    s.(notifying := None, heap := s.heap - {h}, log := s.log + [Freed(h)],
       released := if s.heap[h].dead then s.released + {h} else s.released)
  }

  /** A persistent handle after its callback, up to its deadline. */
  ghost function Unnotify(s: State, h: Id, now: Time): State
    requires h in s.heap
  {
    var hd := s.heap[h];
    s.(notifying := None, heap := s.heap[h :=
        hd.(noti := {}, timeoutAt := RearmDeadline(hd.timeoutMs, now), armedAt := now)],
       fdmon := if hd.fd >= 0 then s.fdmon + [h] else s.fdmon)
  }

  /** The same with its timer armed, without the final epoll_refresh. */
  ghost function EndWithRearm(s: State, h: Id, now: Time): State
    requires h in s.heap
  {
    Enqueue(Unnotify(s, h, now), h)
  }

  /** A pending one-shot timer with a finite deadline goes to the timer list. */
  ghost function Install(s: State, h: Id): State
    requires NoDups(s)
  {
    Enqueue(Unpend(s, h), h)
  }

  /** evb2_notify_cancel up to entering the callback. */
  ghost function Announce(s: State, h: Id): State {
    s.(cancelling := Some(h), log := s.log + [CancelNotified(h)])
  }

  /** A handle taken off its lists to get its CANCELLED callback. */
  ghost function BeginCancel(s: State, h: Id): State
    requires NoDups(s)
  {
    Announce(Unpend(Detach(s, h), h), h)
  }

  /** free() in evb2_notify_cancel. */
  ghost function EndCancel(s: State, h: Id): State {
    s.(cancelling := None, heap := s.heap - {h}, log := s.log + [Freed(h)])
  }

  // ---------------------------------------------------------------- what they keep

  lemma ToReadyKeeps(s: State, h: Id, noti: set<Flag>, fd: int)
    requires Core(s) && h in s.heap && ClassOf(SlotOf(s, h)) == Armed && s.heap[h].fd == fd
    requires AgreesExcept(s, fd)
    ensures var s' := ToReady(s, h, noti); Core(s') && AgreesExcept(s', fd) && SameElsewhere(s, s', h)
  {
    var s' := ToReady(s, h, noti);
    assert SlotOk(SlotOf(s, h));
    NoDupAppend(s.ready, h);
    SortedAfterRemoval(s.timer, s.heap, s.queued, h);
    SortedFrame(s'.timer, s.heap, s.queued, s'.heap, s'.queued);
    assert Base(s');
    hide NoDup, Sorted;
    ClassifiedLocally(s, s', h);
    AgreesElsewhere(s, s', h, fd);
  }

  lemma BeginDispatchKeeps(s: State)
    requires Inv(s) && s.ready != [] && s.notifying == None && s.cancelling == None
    ensures s.ready[0] in s.heap
    ensures var s' := BeginDispatch(s); Inv(s') && SameElsewhere(s, s', s.ready[0]) && s'.heap == s.heap
  {
    var h := s.ready[0];
    assert SlotOk(SlotOf(s, h)) && h in s.ready;
    var s' := BeginDispatch(s);
    LifeAfter(s.log, Dispatched(h, s.heap[h].noti));
    TimersFrame(s, s');
    assert NoDups(s');
    hide NoDup, TimersFit;
    ClassifiedLocally(s, s', h);
    if !s.finalized { AgreesElsewhere(s, s', h, FD_TIMER); }
  }

  lemma EndWithFreeKeeps(s: State, h: Id)
    requires Inv(s) && s.notifying == Some(h) && s.cancelling == None && h in s.heap
    ensures var s' := EndWithFree(s, h); Inv(s') && SameElsewhere(s, s', h)
  {
    hide NoDup;
    assert SlotOk(SlotOf(s, h));
    var s' := EndWithFree(s, h);
    LifeAfter(s.log, Freed(h));
    TimersFrame(s, s');
    hide TimersFit;
    ClassifiedLocally(s, s', h);
    if !s.finalized { AgreesElsewhere(s, s', h, FD_TIMER); }
  }

  lemma UnnotifyKeeps(s: State, h: Id, now: Time)
    requires Core(s) && s.notifying == Some(h) && s.cancelling == None && h in s.heap
    ensures var s' := Unnotify(s, h, now);
      && Base(s') && SameElsewhere(s, s', h) && h !in s'.timer
      && SlotOf(s', h) == SlotOf(s, h).(notifying := false, handle := Some(s'.heap[h]), fdmon := s.heap[h].fd >= 0)
      && SlotOk(SlotOf(s', h).(timer := Due(s'.heap, h) != MAX))
      && s'.heap[h].fd == s.heap[h].fd
  {
    assert SlotOk(SlotOf(s, h));
    NoDupAppend(s.fdmon, h);
    TimersFrame(s, Unnotify(s, h, now));
    hide NoDup, TimersFit, LifeOf;
  }

  lemma EndWithRearmKeepsCore(s: State, h: Id, now: Time)
    requires Core(s) && s.notifying == Some(h) && s.cancelling == None && h in s.heap
    ensures var s' := EndWithRearm(s, h, now);
      && Core(s') && SameElsewhere(s, s', h)
      && !SlotOf(s, h).fdmon && SlotOf(s', h).handle.Some? && SlotOf(s', h).handle.value.fd == s.heap[h].fd
      && s'.interest == s.interest && s'.suspect == s.suspect && s'.finalized == s.finalized
  {
    assert SlotOk(SlotOf(s, h));
    var s0 := Unnotify(s, h, now);
    UnnotifyKeeps(s, h, now);
    EnqueueKeeps(s0, h);
    hide NoDup, TimersFit, LifeOf, Enqueue, SameElsewhere, SlotOk;
    assert EndWithRearm(s, h, now) == Enqueue(s0, h);
    SameElsewhereTransitive(s, s0, Enqueue(s0, h), h);
    ClassifiedLocally(s, Enqueue(s0, h), h);
  }

  lemma EndWithRearmKeeps(s: State, h: Id, now: Time, ctl: bool)
    requires Inv(s) && s.notifying == Some(h) && s.cancelling == None && h in s.heap
    ensures SameElsewhere(s, EndWithRearm(s, h, now), h)
    ensures Inv(Refresh(EndWithRearm(s, h, now), s.heap[h].fd, ctl))
  {
    assert SlotOk(SlotOf(s, h));
    hide NoDup, TimersFit, Refresh;
    EndWithRearmKeepsCore(s, h, now);
    hide EndWithRearm, SameElsewhere;
    var s1, fd := EndWithRearm(s, h, now), s.heap[h].fd;
    RefreshKeeps(s1, fd, ctl);
    if !s.finalized {
      AgreesElsewhere(s, s1, h, fd);
      RefreshAgrees(s1, fd, ctl);
    }
  }

  /** Nobody else sees anything of an asynchronous timer that becomes an armed one. */
  lemma InstallStep(s: State, h: Id)
    requires Inv(s) && h in s.async && !s.stopping
    ensures var s' := Install(s, h); h in s.heap && (s.heap[h].timeoutAt != MAX ==> Inv(s')) && Step(s, s', true)
  {
    assert SlotOk(SlotOf(s, h));
    var s0, s' := Unpend(s, h), Install(s, h);
    hide NoDup, LifeOf;
    TimersFrame(s, s0);
    hide TimersFit;
    EnqueueKeeps(s0, h);
    SameElsewhereTransitive(s, s0, s', h);
    StepLocally(s, s', h, true);
    if s.heap[h].timeoutAt != MAX {
      ClassifiedLocally(s, s', h);
      if !s.finalized { AgreesElsewhere(s, s', h, FD_TIMER); }
    }
  }

  lemma BeginCancelKeeps(s: State, h: Id)
    requires Inv(s) && h in s.heap && s.cancelling == None && s.notifying != Some(h)
    requires s.finalized || h !in s.fdmon
    ensures var s' := BeginCancel(s, h); Inv(s') && SameElsewhere(s, s', h)
  {
    var s' := BeginCancel(s, h);
    assert SlotOk(SlotOf(s, h));
    LifeAfter(s.log, CancelNotified(h));
    SortedAfterRemoval(s.timer, s.heap, s.queued, h);
    SortedFrame(s'.timer, s.heap, s.queued, s'.heap, s'.queued);
    hide NoDup, Sorted;
    ClassifiedLocally(s, s', h);
    if !s.finalized { AgreesElsewhere(s, s', h, FD_TIMER); }
  }

  lemma EndCancelKeeps(s: State, h: Id)
    requires Inv(s) && s.cancelling == Some(h)
    ensures var s' := EndCancel(s, h); Inv(s') && SameElsewhere(s, s', h)
  {
    var s' := EndCancel(s, h);
    assert SlotOk(SlotOf(s, h));
    LifeAfter(s.log, Freed(h));
    TimersFrame(s, s');
    hide NoDup, TimersFit;
    ClassifiedLocally(s, s', h);
    if !s.finalized { AgreesElsewhere(s, s', h, FD_TIMER); }
  }

  lemma CancelCycleSlot(s: State, h: Id, s2: State, x: Id)
    requires Inv(s) && h in s.heap && s.cancelling == None && s.notifying != Some(h) && OnList(SlotOf(s, h))
    requires s.finalized || h in s.async
    requires SameElsewhere(s, BeginCancel(s, h), h) && SameElsewhere(s2, EndCancel(s2, h), h)
    requires UserStep(BeginCancel(s, h), s2) && Inv(s2)
    ensures s2.cancelling == Some(h)
    ensures SlotStep(SlotOf(s, x), SlotOf(EndCancel(s2, h), x), s.stopping, s.finalized)
    ensures LifeOf(EndCancel(s2, h).log, h) == Gone(true)
  {
    var s1 := BeginCancel(s, h);
    hide NoDup, TimersFit, AgreesExcept;
    assert SlotStep(SlotOf(s1, h), SlotOf(s2, h), s1.stopping, s1.finalized) && SlotOf(s1, h).cancelling;
    assert SlotOk(SlotOf(s, x)) && SlotOk(SlotOf(s2, h));
    LifeAfter(s2.log, Freed(h));
    assert SlotStep(SlotOf(s1, x), SlotOf(s2, x), s1.stopping, s1.finalized);
    hide LifeOf;
    assert x != h ==> SlotOf(s1, x) == SlotOf(s, x) && SlotOf(EndCancel(s2, h), x) == SlotOf(s2, x);
  }

  /** A CANCELLED callback from its announcement to the free(), around whatever the callback does. */
  lemma CancelCycle(s: State, h: Id, s2: State)
    requires Inv(s) && h in s.heap && s.cancelling == None && s.notifying != Some(h) && OnList(SlotOf(s, h))
    requires s.finalized || h in s.async
    requires UserStep(BeginCancel(s, h), s2) && Inv(s2)
    ensures Inv(EndCancel(s2, h)) && QuietStep(s, EndCancel(s2, h))
    ensures LifeOf(EndCancel(s2, h).log, h) == Gone(true)
  {
    var s1, s3 := BeginCancel(s, h), EndCancel(s2, h);
    BeginCancelKeeps(s, h);
    CancelCycleSlotCancelling(s, h, s2);
    EndCancelKeeps(s2, h);
    hide NoDup, TimersFit, LifeOf, AgreesExcept, SlotOf, SlotOk, SlotStep, SameElsewhere, ContextStep;
    forall x: Id ensures SlotStep(SlotOf(s, x), SlotOf(s3, x), s.stopping, s.finalized) {
      CancelCycleSlot(s, h, s2, x);
    }
    CancelCycleSlot(s, h, s2, h);
    CancelCycleContext(s, h, s2);
  }

  lemma CancelCycleContext(s: State, h: Id, s2: State)
    requires NoDups(s) && ContextStep(BeginCancel(s, h), s2, false)
    ensures ContextStep(s, EndCancel(s2, h), true)
  {
    var s1, s3 := BeginCancel(s, h), EndCancel(s2, h);
    assert Extends(s.log, s1.log, true) && Extends(s1.log, s2.log, true) && Extends(s2.log, s3.log, true);
    ExtendsTransitive(s.log, s1.log, s2.log, true);
    ExtendsTransitive(s.log, s2.log, s3.log, true);
  }

  lemma CancelCycleSlotCancelling(s: State, h: Id, s2: State)
    requires NoDups(s) && UserStep(BeginCancel(s, h), s2)
    ensures s2.cancelling == Some(h)
  {
    hide LifeOf;
    var s1 := BeginCancel(s, h);
    assert SlotStep(SlotOf(s1, h), SlotOf(s2, h), s1.stopping, s1.finalized) && SlotOf(s1, h).cancelling;
  }

  // ---------------------------------------------------------------- what a pass collects

  /** The flags an epoll event raises on a handle (package/aloe/sys_linux/evb2.c:716-721). */
  function Raised(hd: Handle, e: set<EpollBit>, now: Time): set<Flag> {
    var io := FromEpoll(e) * hd.flag;
    (if io == {} && (EPOLLERR in e || EPOLLHUP in e) then {EXCEPT} else io)
    + if hd.timeoutAt <= now then {TIMEOUT} else {}
  }

  /** What the first event that concerns a handle raises. */
  function FirstHit(evs: seq<(int, set<EpollBit>)>, hd: Handle, now: Time): Option<set<Flag>> {
    if evs == [] then None
    else
      var n := |evs| - 1;
      var before := FirstHit(evs[..n], hd, now);
      if before.Some? || evs[n].0 != hd.fd || Raised(hd, evs[n].1, now) == {} then before
      else Some(Raised(hd, evs[n].1, now))
  }

  function Moved(a: Slot, noti: set<Flag>): Slot
    requires a.handle.Some?
  {
    a.(handle := Some(a.handle.value.(noti := noti)), fdmon := false, timer := false, ready := true)
  }

  /** A handle after one event has been handled. */
  function Hit(a: Slot, fd: int, e: set<EpollBit>, now: Time): Slot {
    if a.handle.Some? && a.fdmon && a.handle.value.fd == fd && Raised(a.handle.value, e, now) != {}
    then Moved(a, Raised(a.handle.value, e, now))
    else a
  }

  /** A handle after the events have been scanned. */
  function Scanned(a: Slot, evs: seq<(int, set<EpollBit>)>, now: Time): Slot {
    if a.handle.Some? && a.fdmon && FirstHit(evs, a.handle.value, now).Some?
    then Moved(a, FirstHit(evs, a.handle.value, now).value)
    else a
  }

  /** A handle after the due timers have been moved. */
  function Expired(a: Slot, now: Time): Slot {
    if a.handle.Some? && a.timer && a.handle.value.timeoutAt <= now then Moved(a, {TIMEOUT}) else a
  }

  // ---------------------------------------------------------------- scanning one event

  /** While one event is scanned: the handles in `rest` are still to come. */
  ghost predicate Scanning(s0: State, s: State, rest: seq<Id>, fd: int, e: set<EpollBit>, now: Time) {
    && NoDup(rest) && (forall x :: x in rest ==> x in s0.fdmon)
    && forall x: Id :: SlotOf(s, x) == if x in rest then SlotOf(s0, x) else Hit(SlotOf(s0, x), fd, e, now)
  }

  lemma ScanStart(s: State, fd: int, e: set<EpollBit>, now: Time)
    requires NoDups(s)
    ensures Scanning(s, s, s.fdmon, fd, e, now)
  {}

  lemma ScanHead(s0: State, s: State, rest: seq<Id>, fd: int, e: set<EpollBit>, now: Time)
    requires Core(s) && Scanning(s0, s, rest, fd, e, now) && rest != []
    ensures var h := rest[0];
      && h in s.heap && h in s.fdmon && s.heap[h].fd >= 0
      && ClassOf(SlotOf(s, h)) == Armed && SlotOf(s, h) == SlotOf(s0, h)
  {
    assert SlotOk(SlotOf(s, rest[0])) && SlotOf(s, rest[0]) == SlotOf(s0, rest[0]);
    hide LifeOf;
  }

  lemma ScanSkip(s0: State, s: State, rest: seq<Id>, fd: int, e: set<EpollBit>, now: Time)
    requires Core(s) && Scanning(s0, s, rest, fd, e, now) && rest != [] && rest[0] in s.heap
    requires s.heap[rest[0]].fd != fd || Raised(s.heap[rest[0]], e, now) == {}
    ensures Scanning(s0, s, rest[1..], fd, e, now)
  {
    hide LifeOf;
    ScanHead(s0, s, rest, fd, e, now);
    forall x: Id
      ensures SlotOf(s, x) == if x in rest[1..] then SlotOf(s0, x) else Hit(SlotOf(s0, x), fd, e, now)
    {
      if x == rest[0] { assert Hit(SlotOf(s0, x), fd, e, now) == SlotOf(s0, x); }
      assert x in rest <==> x == rest[0] || x in rest[1..];
    }
  }

  lemma ScanMove(s0: State, s: State, rest: seq<Id>, fd: int, e: set<EpollBit>, now: Time)
    requires Core(s) && Scanning(s0, s, rest, fd, e, now) && rest != [] && rest[0] in s.heap
    requires s.heap[rest[0]].fd == fd && Raised(s.heap[rest[0]], e, now) != {}
    requires AgreesExcept(s, fd)
    ensures var s' := ToReady(s, rest[0], Raised(s.heap[rest[0]], e, now));
      Core(s') && AgreesExcept(s', fd) && Scanning(s0, s', rest[1..], fd, e, now)
  {
    var h := rest[0];
    var noti := Raised(s.heap[h], e, now);
    var s' := ToReady(s, h, noti);
    ScanHead(s0, s, rest, fd, e, now);
    ToReadyKeeps(s, h, noti, fd);
    hide LifeOf, AgreesExcept, Base, Raised;
    ToReadySlot(s, h, noti);
    forall x: Id
      ensures SlotOf(s', x) == if x in rest[1..] then SlotOf(s0, x) else Hit(SlotOf(s0, x), fd, e, now)
    {
      assert x in rest <==> x == h || x in rest[1..];
      if x != h { assert SlotOf(s', x) == SlotOf(s, x); }
    }
  }

  lemma ToReadySlot(s: State, h: Id, noti: set<Flag>)
    requires NoDups(s) && h in s.heap && ClassOf(SlotOf(s, h)) == Armed
    ensures SlotOf(ToReady(s, h, noti), h) == Moved(SlotOf(s, h), noti)
  {
    hide LifeOf;
  }

  // ---------------------------------------------------------------- scanning all events

  ghost predicate ScannedUpTo(s0: State, s: State, evs: seq<(int, set<EpollBit>)>, now: Time) {
    forall x: Id :: SlotOf(s, x) == Scanned(SlotOf(s0, x), evs, now)
  }

  lemma ScannedMore(s0: State, s: State, s': State, evs: seq<(int, set<EpollBit>)>, k: nat, now: Time)
    requires k < |evs| && ScannedUpTo(s0, s, evs[..k], now)
    requires forall x: Id :: SlotOf(s', x) == Hit(SlotOf(s, x), evs[k].0, evs[k].1, now)
    ensures ScannedUpTo(s0, s', evs[..k + 1], now)
  {
    hide SlotOf, Raised;
    forall x: Id ensures SlotOf(s', x) == Scanned(SlotOf(s0, x), evs[..k + 1], now) {
      assert SlotOf(s', x) == Hit(SlotOf(s, x), evs[k].0, evs[k].1, now);
      assert SlotOf(s, x) == Scanned(SlotOf(s0, x), evs[..k], now);
      if SlotOf(s0, x).handle.Some? { FirstHitExtend(evs, k, SlotOf(s0, x).handle.value, now); }
    }
  }

  // ---------------------------------------------------------------- expiring timers

  /** While due timers are moved: those still on the timer list are unchanged. */
  ghost predicate Expiring(s0: State, s: State, now: Time) {
    forall x: Id :: SlotOf(s, x) == if x in s.timer then SlotOf(s0, x) else Expired(SlotOf(s0, x), now)
  }

  lemma ExpireStart(s: State, now: Time)
    ensures Expiring(s, s, now)
  {
    hide LifeOf;
  }

  lemma ExpireHead(s0: State, s: State, now: Time)
    requires Core(s) && Expiring(s0, s, now) && s.timer != []
    ensures var h := s.timer[0];
      h in s.timer && h in s.heap && s.heap[h].fd >= FD_TIMER
      && ClassOf(SlotOf(s, h)) == Armed && SlotOf(s, h) == SlotOf(s0, h)
  {
    assert s.timer[0] in s.timer && SlotOk(SlotOf(s, s.timer[0]));
    hide LifeOf;
  }

  lemma ExpireMove(s0: State, s: State, now: Time, ctl: bool)
    requires Inv(s) && !s.finalized && Expiring(s0, s, now) && s.timer != []
    requires s.timer[0] in s.heap && s.heap[s.timer[0]].timeoutAt <= now
    ensures var h := s.timer[0]; var s' := Refresh(ToReady(s, h, {TIMEOUT}), s.heap[h].fd, ctl);
      Inv(s') && Expiring(s0, s', now) && !s'.finalized
  {
    var h, fd := s.timer[0], s.heap[s.timer[0]].fd;
    var s1 := ToReady(s, h, {TIMEOUT});
    var s' := Refresh(s1, fd, ctl);
    ExpireHead(s0, s, now);
    assert AgreesExcept(s, fd);
    ToReadyKeeps(s, h, {TIMEOUT}, fd);
    RefreshKeeps(s1, fd, ctl);
    RefreshAgrees(s1, fd, ctl);
    hide LifeOf, AgreesExcept, Base;
    ToReadySlot(s, h, {TIMEOUT});
    forall x: Id
      ensures SlotOf(s', x) == if x in s'.timer then SlotOf(s0, x) else Expired(SlotOf(s0, x), now)
    {
      assert SlotOf(s', x) == SlotOf(s1, x);
      if x != h { assert SlotOf(s1, x) == SlotOf(s, x); }
    }
  }

  /** The list is sorted: once its head is not due, nothing on it is. */
  lemma NothingDueLeft(s: State, now: Time)
    requires TimersOk(s) && (s.timer == [] || Due(s.heap, s.timer[0]) > now)
    ensures forall x :: x in s.timer ==> Due(s.heap, x) > now
  {
    forall x | x in s.timer ensures Due(s.heap, x) > now {
      if x != s.timer[0] { assert Before(s.heap, s.queued, s.timer[0], x); }
    }
  }

  lemma ExpireDone(s0: State, s: State, now: Time)
    requires Core(s) && Expiring(s0, s, now) && (s.timer == [] || Due(s.heap, s.timer[0]) > now)
    ensures forall x: Id :: SlotOf(s, x) == Expired(SlotOf(s0, x), now)
  {
    NothingDueLeft(s, now);
    hide LifeOf, TimersFit, NoDup;
    forall x: Id ensures SlotOf(s, x) == Expired(SlotOf(s0, x), now) {
      assert SlotOf(s, x) == if x in s.timer then SlotOf(s0, x) else Expired(SlotOf(s0, x), now);
      assert SlotOk(SlotOf(s, x));
    }
  }

  lemma FirstHitExtend(evs: seq<(int, set<EpollBit>)>, k: nat, hd: Handle, now: Time)
    requires k < |evs|
    ensures var before := FirstHit(evs[..k], hd, now);
      FirstHit(evs[..k + 1], hd, now) ==
        if before.Some? || evs[k].0 != hd.fd || Raised(hd, evs[k].1, now) == {} then before
        else Some(Raised(hd, evs[k].1, now))
  {
    assert evs[..k + 1][..k] == evs[..k];
  }

  // ---------------------------------------------------------------- counting callbacks

  /** How often `h` was dispatched. */
  function DispatchCount(log: seq<Event>, h: Id): nat {
    if log == [] then 0
    else
      var n := |log| - 1;
      DispatchCount(log[..n], h) + if log[n].Dispatched? && log[n].id == h then 1 else 0
  }

  /** How many dispatches went to handles of `users`. */
  function UserCount(log: seq<Event>, users: set<Id>): nat {
    if log == [] then 0
    else
      var n := |log| - 1;
      UserCount(log[..n], users) + if log[n].Dispatched? && log[n].id in users then 1 else 0
  }

  lemma {:induction false} QuietCounts(log: seq<Event>, log': seq<Event>, h: Id, users: set<Id>)
    requires Extends(log, log', true)
    ensures DispatchCount(log', h) == DispatchCount(log, h)
    ensures UserCount(log', users) == UserCount(log, users)
    decreases |log'|
  {
    if |log'| > |log| {
      var n := |log'| - 1;
      assert log'[..n][..|log|] == log;
      QuietCounts(log, log'[..n], h, users);
    } else {
      assert log' == log;
    }
  }

  lemma CountAfter(log: seq<Event>, e: Event, h: Id, users: set<Id>)
    ensures DispatchCount(log + [e], h) == DispatchCount(log, h) + if e.Dispatched? && e.id == h then 1 else 0
    ensures UserCount(log + [e], users) == UserCount(log, users) + if e.Dispatched? && e.id in users then 1 else 0
  {
    assert (log + [e])[..|log|] == log;
  }

  // ---------------------------------------------------------------- what a pass does to a handle

  /** From the start of dispatching to any moment of it: a handle that was ready is dispatched once,
      with the flags it was queued with, unless a callback cancels it first; others are not.  After its
      callback a one-shot handle is freed, and a persistent one is kept unless it is cancelled or the loop
      stops. */
  ghost predicate PassSlot(a: Slot, b: Slot, count: int, told: bool, stopping: bool) {
    && 0 <= count <= 1
    && (a.released ==> b.released) && (a.known ==> b.known)
    && (b.ready ==> a.ready && a.known && count == 0 && a.handle.Some? && b.handle.Some?
                    && SameRegistration(a.handle.value, b.handle.value))
    && (a.ready && !b.ready ==> count == 1 || b.released)
    && (!a.ready ==> count == 0)
    && (count == 1 ==> told && a.known && a.handle.Some? && AfterCallback(a.handle.value.oneshot, b, stopping))
  }

  predicate AfterCallback(oneshot: bool, b: Slot, stopping: bool) {
    if oneshot then b.handle.None? else (b.handle.Some? && !b.async) || b.released || stopping
  }

  ghost predicate PassSoFar(s: State, s': State) {
    && Extended(s.log, s'.log)
    && forall x: Id :: PassFor(s, s', x)
  }

  ghost predicate Extended(log: seq<Event>, log': seq<Event>) {
    |log| <= |log'| && log'[..|log|] == log
  }

  /** One turn of the dispatch loop: the callback of the first ready handle, then its free or re-arm. */
  ghost predicate Turn(s: State, mid: State, s': State)
    requires s.ready != [] && s.ready[0] in s.heap
  {
    var h := s.ready[0];
    && !s.finalized && Core(mid) && QuietStep(BeginDispatch(s), mid)
    && SameElsewhere(mid, s', h) && !SlotOf(s', h).ready && (SlotOf(mid, h).released ==> SlotOf(s', h).released)
    && Extends(mid.log, s'.log, true) && s'.stopping == mid.stopping && s'.nextId == mid.nextId
    && h in mid.heap
    && (if mid.stopping || mid.heap[h].dead || s.heap[h].oneshot
        then h !in s'.heap && (mid.heap[h].dead ==> h in s'.released)
        else h in s'.heap && h !in s'.async)
  }

  /** How a turn ends: the handle is freed, or re-armed at some clock reading with epoll refreshed. */
  ghost predicate TurnEnd(mid: State, s': State, h: Id, oneshot: bool)
    requires h in mid.heap
  {
    if mid.stopping || mid.heap[h].dead || oneshot then s' == EndWithFree(mid, h)
    else exists now, ctl :: s' == Refresh(EndWithRearm(mid, h, now), mid.heap[h].fd, ctl)
  }

  ghost predicate PassFor(s: State, s': State, x: Id) {
    PassSlot(SlotOf(s, x), SlotOf(s', x), DispatchCount(s'.log, x) - DispatchCount(s.log, x),
             x in s.heap && Since(Dispatched(x, s.heap[x].noti), s.log, s'.log), s'.stopping)
  }

  /** Among the events by which `log'` continues `log`. */
  ghost predicate Since(e: Event, log: seq<Event>, log': seq<Event>) {
    |log| <= |log'| && e in log'[|log|..]
  }

  lemma SinceLater(e: Event, a: seq<Event>, b: seq<Event>, c: seq<Event>)
    requires Extended(a, b) && Extended(b, c) && (Since(e, a, b) || Since(e, b, c))
    ensures Since(e, a, c)
  {
    assert c[|a|..] == b[|a|..] + c[|b|..] by {
      assert b == c[..|b|];
    }
  }

  lemma TurnKeepsPassFor(s0: State, s: State, mid: State, s': State, x: Id)
    requires Inv(s) && s.ready != [] && s.ready[0] in s.heap && PassFor(s0, s, x) && Turn(s, mid, s')
    requires Extended(s0.log, s.log)
    ensures PassFor(s0, s', x)
  {
    LogAcrossTurn(s, mid, s');
    if x in s0.heap { SinceAcrossTurn(s0, s, mid, s', x); }
    CountAcrossTurn(s, mid, s', x, {});
    StoppingAcrossTurn(s, mid, s');
    ReadyHandle(s0, s, x);
    ghost var n := DispatchCount(s.log, x) - DispatchCount(s0.log, x);
    var told := x in s0.heap && Since(Dispatched(x, s0.heap[x].noti), s0.log, s.log);
    var told' := x in s0.heap && Since(Dispatched(x, s0.heap[x].noti), s0.log, s'.log);
    if x == s.ready[0] {
      OwnAcrossTurn(s, mid, s');
      hide LifeOf, SlotOf, SlotOk, Turn, Core, Inv, DispatchCount, Extended, Since, AfterCallback;
      OwnPass(SlotOf(s0, x), SlotOf(s, x), SlotOf(s', x), n, told, told', s.stopping, s'.stopping);
    } else {
      OtherAcrossTurn(s, mid, s', x);
      hide LifeOf, SlotOf, SlotOk, Turn, Core, Inv, DispatchCount, Extended, Since, AfterCallback;
      OtherPass(SlotOf(s0, x), SlotOf(s, x), SlotOf(s', x), n, told, told', s.stopping, s'.stopping);
    }
  }

  lemma OwnPass(a0: Slot, a: Slot, b: Slot, n: int, told: bool, told': bool, stopping: bool, stopping': bool)
    requires PassSlot(a0, a, n, told, stopping) && a.ready && told' && (a.released ==> b.released) && b.known
        && !b.ready
    requires AfterCallback(a.handle.value.oneshot, b, stopping')
    ensures PassSlot(a0, b, n + 1, told', stopping')
  {
    hide AfterCallback;
  }

  lemma OtherPass(a0: Slot, a: Slot, b: Slot, n: int, told: bool, told': bool, stopping: bool, stopping': bool)
    requires PassSlot(a0, a, n, told, stopping) && (told ==> told') && (stopping ==> stopping')
    requires OtherSlot(a, b)
    ensures PassSlot(a0, b, n, told', stopping')
  {}

  lemma TurnKeepsPass(s0: State, s: State, mid: State, s': State)
    requires Inv(s) && s.ready != [] && s.ready[0] in s.heap && PassSoFar(s0, s) && Turn(s, mid, s')
    ensures PassSoFar(s0, s')
  {
    LogAcrossTurn(s, mid, s');
    assert Extended(s0.log, s'.log) by {
      assert s'.log[..|s0.log|] == s'.log[..|s.log|][..|s0.log|];
    }
    hide Extended, PassFor, Turn, Inv;
    forall x: Id ensures PassFor(s0, s', x) {
      assert PassFor(s0, s, x);
      TurnKeepsPassFor(s0, s, mid, s', x);
    }
  }

  lemma ReadyHandle(s0: State, s: State, x: Id)
    ensures SlotOf(s0, x).handle.Some? ==> x in s0.heap && s0.heap[x] == SlotOf(s0, x).handle.value
    ensures SlotOf(s, x).handle.Some? ==> x in s.heap && s.heap[x] == SlotOf(s, x).handle.value
    ensures SlotOf(s, x).ready == (x in s.ready)
  {}

  lemma LogAcrossTurn(s: State, mid: State, s': State)
    requires s.ready != [] && s.ready[0] in s.heap && Turn(s, mid, s')
    ensures Extended(s.log, s'.log) && s.ready[0] in s.ready
    ensures Since(Dispatched(s.ready[0], s.heap[s.ready[0]].noti), s.log, s'.log)
  {
    var s1, e := BeginDispatch(s), Dispatched(s.ready[0], s.heap[s.ready[0]].noti);
    hide SlotOf, SlotOk, Core, SameElsewhere;
    assert s1.log == mid.log[..|s1.log|] && mid.log == s'.log[..|mid.log|];
    assert s'.log[..|s.log|] == s'.log[..|mid.log|][..|s1.log|][..|s.log|];
    assert s'.log[|s.log|] == s'.log[..|mid.log|][..|s1.log|][|s.log|] == e;
    assert s'.log[|s.log|..][0] == e;
  }

  lemma SinceAcrossTurn(s0: State, s: State, mid: State, s': State, x: Id)
    requires s.ready != [] && s.ready[0] in s.heap && Turn(s, mid, s') && Extended(s0.log, s.log) && x in s0.heap
    ensures Since(Dispatched(x, s0.heap[x].noti), s0.log, s.log) ==>
        Since(Dispatched(x, s0.heap[x].noti), s0.log, s'.log)
    ensures x == s.ready[0] && s.heap[x].noti == s0.heap[x].noti ==>
        Since(Dispatched(x, s0.heap[x].noti), s0.log, s'.log)
  {
    LogAcrossTurn(s, mid, s');
    hide *;
    var e := Dispatched(x, s0.heap[x].noti);
    if Since(e, s0.log, s.log) || (x == s.ready[0] && s.heap[x].noti == s0.heap[x].noti) {
        SinceLater(e, s0.log, s.log, s'.log); }
  }

  lemma CountAcrossTurn(s: State, mid: State, s': State, x: Id, users: set<Id>)
    requires s.ready != [] && s.ready[0] in s.heap && Turn(s, mid, s')
    ensures DispatchCount(s'.log, x) == DispatchCount(s.log, x) + if x == s.ready[0] then 1 else 0
    ensures UserCount(s'.log, users) == UserCount(s.log, users) + if s.ready[0] in users then 1 else 0
  {
    hide SlotOf, SlotOk, Core, SameElsewhere;
    var h, s1 := s.ready[0], BeginDispatch(s);
    CountAfter(s.log, Dispatched(h, s.heap[h].noti), x, users);
    QuietCounts(s1.log, mid.log, x, users);
    QuietCounts(mid.log, s'.log, x, users);
  }

  /** The handle whose turn it was. */
  lemma OwnAcrossTurn(s: State, mid: State, s': State)
    requires Inv(s) && s.ready != [] && s.ready[0] in s.heap && Turn(s, mid, s')
    ensures var a, b := SlotOf(s, s.ready[0]), SlotOf(s', s.ready[0]);
      && (a.released ==> b.released) && a.known && b.known && !b.ready
          && AfterCallback(s.heap[s.ready[0]].oneshot, b, s'.stopping)
  {
    var h, s1 := s.ready[0], BeginDispatch(s);
    assert SlotStep(SlotOf(s1, h), SlotOf(mid, h), s1.stopping, s1.finalized);
    assert SlotOk(SlotOf(s, h)) && SlotOk(SlotOf(mid, h));
    hide LifeOf;
  }

  /** Another handle meanwhile. */
  ghost predicate OtherSlot(a: Slot, b: Slot) {
    && (a.released ==> b.released) && (a.known ==> b.known)
    && (b.ready ==> a.ready && a.handle.Some? && b.handle.Some? && SameRegistration(a.handle.value, b.handle.value))
    && (a.ready && !b.ready ==> b.released)
    && (a.known && a.handle.None? ==> b.handle.None?)
    && (a.handle.Some? && !a.async ==> (b.handle.Some? && !b.async) || b.released)
  }

  lemma OtherAcrossTurn(s: State, mid: State, s': State, x: Id)
    requires Inv(s) && s.ready != [] && s.ready[0] in s.heap && Turn(s, mid, s') && x != s.ready[0]
    ensures OtherSlot(SlotOf(s, x), SlotOf(s', x))
  {
    var h, s1 := s.ready[0], BeginDispatch(s);
    assert SlotStep(SlotOf(s1, x), SlotOf(mid, x), s1.stopping, s1.finalized);
    assert SlotOf(s', x) == SlotOf(mid, x);
    assert SlotOk(SlotOf(s, x)) && SlotOk(SlotOf(mid, x));
    assert s.ready == [h] + s1.ready;
    LifeAfter(s.log, Dispatched(h, s.heap[h].noti));
    hide LifeOf;
  }

  lemma StoppingAcrossTurn(s: State, mid: State, s': State)
    requires s.ready != [] && s.ready[0] in s.heap && Turn(s, mid, s')
    ensures s.stopping ==> s'.stopping
  {
    hide SlotOf, SlotOk, Core, SameElsewhere;
  }

  lemma TurnByFree(s: State, mid: State)
    requires Inv(s) && s.ready != [] && s.ready[0] in s.heap && !s.finalized
    requires Core(mid) && QuietStep(BeginDispatch(s), mid) && mid.notifying == Some(s.ready[0])
        && s.ready[0] in mid.heap
    requires mid.stopping || mid.heap[s.ready[0]].dead || s.heap[s.ready[0]].oneshot
    ensures var s' := EndWithFree(mid, s.ready[0]);
      Turn(s, mid, s') && |s'.ready| < |s.ready| && s'.inRun == mid.inRun && s'.cancelling == mid.cancelling
  {
    hide LifeOf, NoDup, TimersFit, AgreesExcept, SlotOf, Classified;
    var h := s.ready[0];
    var s' := EndWithFree(mid, h);
    FreedElsewhere(mid, h);
    NotReady(mid, h);
    assert Extends(mid.log, s'.log, true);
  }

  lemma FreedElsewhere(mid: State, h: Id)
    requires h in mid.heap && mid.notifying == Some(h)
    ensures SameElsewhere(mid, EndWithFree(mid, h), h)
    ensures SlotOf(EndWithFree(mid, h), h).ready == SlotOf(mid, h).ready
    ensures SlotOf(mid, h).released ==> SlotOf(EndWithFree(mid, h), h).released
  {
    LifeAfter(mid.log, Freed(h));
    hide LifeOf;
  }

  lemma NotReady(mid: State, h: Id)
    requires Core(mid) && mid.notifying == Some(h)
    ensures !SlotOf(mid, h).ready
  {
    assert SlotOk(SlotOf(mid, h));
    hide LifeOf, NoDup, TimersFit;
  }

  lemma TurnByRearm(s: State, mid: State, now: Time, ctl: bool)
    requires Inv(s) && s.ready != [] && s.ready[0] in s.heap && !s.finalized
    requires Core(mid) && QuietStep(BeginDispatch(s), mid) && mid.notifying == Some(s.ready[0])
    requires s.ready[0] in mid.heap && SameElsewhere(mid, EndWithRearm(mid, s.ready[0], now), s.ready[0])
    requires !mid.stopping && !mid.heap[s.ready[0]].dead && !s.heap[s.ready[0]].oneshot
    ensures var s' := Refresh(EndWithRearm(mid, s.ready[0], now), mid.heap[s.ready[0]].fd, ctl);
      Turn(s, mid, s') && |s'.ready| < |s.ready| && s'.inRun == mid.inRun && s'.cancelling == mid.cancelling
      && s'.notifying == None && s'.finalized == mid.finalized
  {
    var h := s.ready[0];
    assert SlotOk(SlotOf(mid, h));
    hide LifeOf, NoDup, TimersFit, Wanted, NewInterest, NewSuspect, Inserted;
    var s1 := EndWithRearm(mid, h, now);
    var s' := Refresh(s1, mid.heap[h].fd, ctl);
    assert forall x: Id :: SlotOf(s', x) == SlotOf(s1, x);
    assert s'.log == mid.log && Extends(mid.log, s'.log, true);
  }

  /** The handles of user code among those that are ready. */
  ghost function ReadyUsers(s: State): set<Id> {
    set h | h in s.ready && h in s.heap && !s.heap[h].internal
  }

  lemma ReadyKeepsOwner(s0: State, s: State)
    requires PassSoFar(s0, s) && s.ready != [] && s.ready[0] in s.heap
    ensures s.ready[0] in ReadyUsers(s0) <==> !s.heap[s.ready[0]].internal
  {
    hide LifeOf, DispatchCount;
    assert PassFor(s0, s, s.ready[0]);
    assert s.ready[0] in s.ready;
  }

  lemma PassStarts(s: State)
    requires Classified(s)
    ensures PassSoFar(s, s)
  {
    hide LifeOf, DispatchCount;
    forall x: Id ensures PassFor(s, s, x) { assert SlotOk(SlotOf(s, x)); }
  }

  // ---------------------------------------------------------------- teardown

  /** evb2_finalize from start to end. */
  ghost predicate TornDown(s: State, s': State) {
    && s'.finalized && s'.fdmon == [] && s'.timer == [] && s'.ready == [] && s'.async == []
    && Inv(s') && QuietStep(s.(finalized := true), s')
  }

  /** After teardown every handle that was on a list has been freed, after exactly one CANCELLED callback
      unless a callback of the teardown cancelled it; what is left was on no list before, which is the
      case exactly for pure timers whose deadline saturated. */
  lemma TeardownLeavesOrphans(s: State, s': State, x: Id)
    requires Core(s) && s.stopping && s.notifying == None && s.cancelling == None && TornDown(s, s')
    ensures x in s'.heap <==> x in s.heap && !OnList(SlotOf(s, x))
    ensures x in s.heap && !OnList(SlotOf(s, x)) ==> s.heap[x].fd == FD_TIMER && s.heap[x].timeoutAt == MAX
    ensures x in s.heap && OnList(SlotOf(s, x)) ==>
              (LifeOf(s'.log, x) == Gone(true) && x !in s'.released)
              || (LifeOf(s'.log, x) == Gone(false) && x in s'.released)
  {
    var s1 := s.(finalized := true);
    assert SlotOk(SlotOf(s, x)) && SlotOk(SlotOf(s', x));
    assert SlotStep(SlotOf(s1, x), SlotOf(s', x), s1.stopping, s1.finalized);
    hide LifeOf, NoDup, TimersFit;
    assert SlotOf(s1, x) == SlotOf(s, x);
  }

  lemma FinalizedKeeps(s: State)
    requires Inv(s)
    ensures Inv(s.(finalized := true))
  {
    hide NoDup, TimersFit, LifeOf;
    assert SlotOk(SlotOf(s, 0));
    hide SlotOk;
    ClassifiedLocally(s, s.(finalized := true), 0);
  }

  /** During teardown the set of live handles shrinks with every CANCELLED callback. */
  lemma FewerHandles(s: State, s': State, h: Id)
    requires QuietStep(s, s') && s.stopping && h in s.heap && Core(s') && LifeOf(s'.log, h) == Gone(true)
    ensures s'.heap.Keys < s.heap.Keys
  {
    hide NoDup, TimersFit, LifeOf;
    forall x | x in s'.heap ensures x in s.heap {
      assert SlotStep(SlotOf(s, x), SlotOf(s', x), s.stopping, s.finalized);
    }
    assert SlotOk(SlotOf(s', h));
    assert h in s.heap.Keys && h !in s'.heap.Keys;
  }

  /** A handle found on a list by the teardown. */
  lemma TeardownHead(s: State, h: Id)
    requires Inv(s) && s.finalized && (h in s.fdmon || h in s.timer || h in s.ready)
    ensures h in s.heap && OnList(SlotOf(s, h)) && s.notifying != Some(h)
    ensures Announce(Detach(s, h), h) == BeginCancel(s, h)
  {
    assert SlotOk(SlotOf(s, h));
    WithoutAbsent(s.async, h);
  }
}
