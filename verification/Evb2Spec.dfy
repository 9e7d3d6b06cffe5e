/** The state of one event-loop context and, as pure functions, what each call of
    package/aloe/include/aloe/evb2.h does to it.  Clock readings and the outcome of
    epoll_ctl are parameters.  The class in Evb2.dfy is proved against these functions. */
module Evb2Spec {
  import opened Options

  const MAX: int := 0xFFFF_FFFF_FFFF_FFFF // UINT64_MAX
  type Time = t: int | 0 <= t <= MAX      // uint64_t milliseconds
  const INFINITE: Time := MAX
  const FD_TIMER: int := -1
  const MIN_REARM_MS: Time := 1

  datatype Flag = READ | WRITE | EXCEPT | TIMEOUT | CANCELLED
  datatype EpollBit = EPOLLIN | EPOLLRDHUP | EPOLLOUT | EPOLLPRI | EPOLLERR | EPOLLHUP

  /** Identity of a handle allocation; never reused. */
  type Id = nat

  /** `armedAt` is the clock reading `timeoutAt` was last computed from; it is specification only. */
  datatype Handle = Handle(
    fd: int, flag: set<Flag>, timeoutMs: Time, timeoutAt: Time, armedAt: Time,
    oneshot: bool, dead: bool, internal: bool, noti: set<Flag>)

  /** `at` is `ms` milliseconds after `from`, or the end of time when there is no such moment. */
  predicate Lasts(ms: Time, from: Time, at: Time) {
    if ms != INFINITE && from + ms <= MAX then at - from == ms else at == MAX
  }

  /** The deadline of a handle is its timeout after it was last armed; a persistent handle without one gets a
      millisecond. */
  predicate OnTime(hd: Handle) {
    Lasts(hd.timeoutMs, hd.armedAt, hd.timeoutAt) || (hd.timeoutMs == 0 && Lasts(1, hd.armedAt, hd.timeoutAt))
  }

  datatype Event =
    | Added(id: Id)
    | Dispatched(id: Id, noti: set<Flag>)
    | CancelNotified(id: Id)
    | Freed(id: Id)

  /** `heap` holds the handles that are allocated.  `queued` and `ticks` record when a handle last
      joined the timer list; `log` is the history and `released` the handles that were freed for
      aloe_evb2_cancel;
      they are specification only, as are `cancelling` (the handle whose CANCELLED callback runs) and
      `suspect` (descriptors whose last epoll_ctl failed). */
  datatype State = State(
    heap: map<Id, Handle>, nextId: Id,
    fdmon: seq<Id>, timer: seq<Id>, ready: seq<Id>, async: seq<Id>,
    notifying: Option<Id>, cancelling: Option<Id>,
    stopping: bool, inRun: bool, finalized: bool,
    interest: map<int, set<EpollBit>>, suspect: set<int>,
    queued: map<Id, nat>, ticks: nat, log: seq<Event>, released: set<Id>)

  // ---------------------------------------------------------------- lists

  ghost predicate NoDup(s: seq<Id>) {
    s != [] ==> s[0] !in s[1..] && NoDup(s[1..])
  }

  /** qent_insert_tail of something that is not there yet. */
  lemma {:induction false} NoDupAppend(s: seq<Id>, h: Id)
    requires NoDup(s) && h !in s
    ensures NoDup(s + [h])
  {
    if s != [] {
      NoDupAppend(s[1..], h);
      assert (s + [h])[1..] == s[1..] + [h];
    }
  }

  /** qent_remove: unlink `h` if it is there. */
  function Without(s: seq<Id>, h: Id): (r: seq<Id>)
    requires NoDup(s)
    ensures NoDup(r)
    ensures forall x :: x in r <==> x in s && x != h
    ensures |r| == |s| - if h in s then 1 else 0
  {
    if s == [] then []
    else if s[0] == h then s[1..]
    else
      assert s == [s[0]] + s[1..];
      var r := Without(s[1..], h);
      assert ([s[0]] + r)[1..] == r;
      [s[0]] + r
  }

  lemma {:induction false} WithoutAbsent(s: seq<Id>, h: Id)
    requires NoDup(s) && h !in s
    ensures Without(s, h) == s
  {
    if s != [] {
      WithoutAbsent(s[1..], h);
      assert s == [s[0]] + s[1..];
    }
  }

  function Due(heap: map<Id, Handle>, h: Id): Time {
    if h in heap then heap[h].timeoutAt else 0
  }

  function Stamp(queued: map<Id, nat>, h: Id): nat {
    if h in queued then queued[h] else 0
  }

  /** timer_insert: behind every entry that is due no later than `h`. */
  function Inserted(s: seq<Id>, heap: map<Id, Handle>, h: Id): (r: seq<Id>)
    ensures forall x :: x in r <==> x in s || x == h
    ensures NoDup(s) && h !in s ==> NoDup(r)
    ensures |r| == |s| + 1
  {
    if s == [] || Due(heap, h) < Due(heap, s[0]) then
      assert ([h] + s)[1..] == s;
      [h] + s
    else
      assert s == [s[0]] + s[1..];
      var r := Inserted(s[1..], heap, h);
      assert ([s[0]] + r)[1..] == r;
      [s[0]] + r
  }

  /** Timer order: by deadline, then by the moment of queueing. */
  ghost predicate Before(heap: map<Id, Handle>, queued: map<Id, nat>, a: Id, b: Id) {
    Due(heap, a) < Due(heap, b) || (Due(heap, a) == Due(heap, b) && Stamp(queued, a) < Stamp(queued, b))
  }

  ghost predicate Sorted(s: seq<Id>, heap: map<Id, Handle>, queued: map<Id, nat>) {
    s != [] ==> (forall x :: x in s[1..] ==> Before(heap, queued, s[0], x)) && Sorted(s[1..], heap, queued)
  }

  lemma {:induction false} SortedAfterRemoval(s: seq<Id>, heap: map<Id, Handle>, queued: map<Id, nat>, h: Id)
    requires NoDup(s) && Sorted(s, heap, queued)
    ensures Sorted(Without(s, h), heap, queued)
  {
    if s != [] && s[0] != h {
      SortedAfterRemoval(s[1..], heap, queued, h);
      assert Without(s, h)[1..] == Without(s[1..], h);
    }
  }

  /** Deadlines and stamps of other handles do not matter to the order of `s`. */
  lemma {:induction false} SortedFrame(
      s: seq<Id>, heap: map<Id, Handle>, queued: map<Id, nat>, heap': map<Id, Handle>, queued': map<Id, nat>)
    requires Sorted(s, heap, queued)
    requires forall x :: x in s ==> Due(heap, x) == Due(heap', x) && Stamp(queued, x) == Stamp(queued', x)
    ensures Sorted(s, heap', queued')
  {
    if s != [] {
      assert forall x :: x in s[1..] ==> x in s;
      SortedFrame(s[1..], heap, queued, heap', queued');
      forall x | x in s[1..] ensures Before(heap', queued', s[0], x) {
        assert Before(heap, queued, s[0], x) && s[0] in s && x in s;
      }
    }
  }

  lemma {:induction false} SortedAfterInsert(
      s: seq<Id>, heap: map<Id, Handle>, queued: map<Id, nat>, h: Id)
    requires Sorted(s, heap, queued) && forall x :: x in s ==> Stamp(queued, x) < Stamp(queued, h)
    ensures Sorted(Inserted(s, heap, h), heap, queued)
  {
    if s == [] || Due(heap, h) < Due(heap, s[0]) {
      assert ([h] + s)[1..] == s;
      forall x | x in s ensures Before(heap, queued, h, x) {
        assert x == s[0] || x in s[1..];
      }
    } else {
      assert s[0] in s && forall x :: x in s[1..] ==> x in s;
      SortedAfterInsert(s[1..], heap, queued, h);
      assert Inserted(s, heap, h)[1..] == Inserted(s[1..], heap, h);
    }
  }

  // ---------------------------------------------------------------- one handle's situation

  /** How far a handle has come, according to the history. */
  datatype Life =
    | Unknown
    | Live
    | Told               // its CANCELLED callback has been called
    | Gone(told: bool)   // freed, after or without that callback
    | Broken             // freed twice, called back after free or after CANCELLED, or added twice

  function NextLife(l: Life, e: Event): Life {
    match e
    case Added(_) => if l == Unknown then Live else Broken
    case Dispatched(_, _) => if l == Live then Live else Broken
    case CancelNotified(_) => if l == Live then Told else Broken
    case Freed(_) => if l == Live then Gone(false) else if l == Told then Gone(true) else Broken
  }

  function LifeOf(log: seq<Event>, h: Id): Life {
    if log == [] then Unknown
    else
      var n := |log| - 1;
      if log[n].id == h then NextLife(LifeOf(log[..n], h), log[n]) else LifeOf(log[..n], h)
  }

  /** Everything the context, and its history, say about one handle. */
  datatype Slot = Slot(handle: Option<Handle>, fdmon: bool, timer: bool, ready: bool, async: bool,
                       notifying: bool, cancelling: bool, known: bool, life: Life, released: bool)

  ghost function SlotOf(s: State, h: Id): Slot {
    Slot(if h in s.heap then Some(s.heap[h]) else None,
         h in s.fdmon, h in s.timer, h in s.ready, h in s.async,
         s.notifying == Some(h), s.cancelling == Some(h),
         h < s.nextId, LifeOf(s.log, h), h in s.released)
  }

  const NOWHERE: Slot := Slot(None, false, false, false, false, false, false, false, Unknown, false)

  /** The five mutually exclusive situations of a live handle. */
  datatype Class = Pending | Armed | Queued | Notifying | Cancelling

  predicate SlotIs(sl: Slot, c: Class)
    requires sl.handle.Some?
  {
    var hd := sl.handle.value;
    match c
    case Pending =>
      sl.async && !sl.fdmon && !sl.timer && !sl.ready && !sl.notifying && !sl.cancelling
      && hd.fd == FD_TIMER && hd.oneshot && !hd.internal
    case Armed =>
      (sl.fdmon <==> hd.fd >= 0) && (sl.timer <==> hd.timeoutAt != MAX)
      && !sl.ready && !sl.async && !sl.notifying && !sl.cancelling
    case Queued =>
      sl.ready && !sl.fdmon && !sl.timer && !sl.async && !sl.notifying && !sl.cancelling
    case Notifying =>
      sl.notifying && !sl.cancelling && !sl.fdmon && !sl.timer && !sl.ready && !sl.async
    case Cancelling =>
      sl.cancelling && !sl.notifying && !sl.fdmon && !sl.timer && !sl.ready && !sl.async
  }

  function ClassOf(sl: Slot): Class {
    if sl.cancelling then Cancelling
    else if sl.notifying then Notifying
    else if sl.async then Pending
    else if sl.ready then Queued
    else Armed
  }

  /** A live handle is in its class; a freed or unknown one is nowhere; history agrees. */
  predicate SlotOk(sl: Slot) {
    && (match sl.handle
        case None => !sl.fdmon && !sl.timer && !sl.ready && !sl.async && !sl.notifying && !sl.cancelling
        case Some(hd) => hd.fd >= FD_TIMER && OnTime(hd) && SlotIs(sl, ClassOf(sl)))
    && sl.life != Broken
    && (sl.handle.Some? <==> sl.life == Live || sl.life == Told)
    && (sl.cancelling <==> sl.life == Told)
    && (sl.released ==> sl.life == Gone(false))
    && (!sl.known ==> sl.life == Unknown)
  }

  lemma ClassesExclude(sl: Slot, c: Class)
    requires sl.handle.Some? && SlotOk(sl)
    ensures SlotIs(sl, c) <==> c == ClassOf(sl)
  {}

  /** The link shared by the descriptor, ready and asynchronous lists is used by at most one of them. */
  lemma LinkUsedOnce(s: State, h: Id)
    requires Classified(s)
    ensures !(h in s.fdmon && h in s.ready) && !(h in s.fdmon && h in s.async) && !(h in s.ready && h in s.async)
    ensures h in s.fdmon || h in s.timer || h in s.ready || h in s.async ==> h in s.heap
  {
    assert SlotOk(SlotOf(s, h));
  }

  ghost predicate Classified(s: State) {
    forall h: Id :: SlotOk(SlotOf(s, h))
  }

  // ---------------------------------------------------------------- epoll

  function ToEpoll(f: set<Flag>): set<EpollBit> {
    (if READ in f then {EPOLLIN, EPOLLRDHUP} else {})
    + (if WRITE in f then {EPOLLOUT} else {})
    + (if EXCEPT in f then {EPOLLPRI} else {})
  }

  function FromEpoll(e: set<EpollBit>): set<Flag> {
    (if EPOLLIN in e || EPOLLRDHUP in e || EPOLLHUP in e then {READ} else {})
    + (if EPOLLOUT in e then {WRITE} else {})
    + (if EPOLLPRI in e || EPOLLERR in e || EPOLLHUP in e then {EXCEPT} else {})
  }

  predicate Watches(l: seq<Id>, heap: map<Id, Handle>, h: Id, fd: int) {
    h in l && h in heap && heap[h].fd == fd
  }

  /** The OR of the flags requested by the handles of the descriptor list on `fd`. */
  ghost function Requested(l: seq<Id>, heap: map<Id, Handle>, fd: int): set<Flag> {
    set h, f | h in l && Watches(l, heap, h, fd) && f in heap[h].flag :: f
  }

  /** What epoll should hold for `fd`: the OR of the requests, or nothing. */
  ghost function Wanted(l: seq<Id>, heap: map<Id, Handle>, fd: int): Option<set<EpollBit>> {
    if exists h :: Watches(l, heap, h, fd) then Some(ToEpoll(Requested(l, heap, fd))) else None
  }

  ghost function Registered(interest: map<int, set<EpollBit>>, fd: int): Option<set<EpollBit>> {
    if fd in interest then Some(interest[fd]) else None
  }

  /** The kernel's interest set agrees with the list, for descriptors whose last epoll_ctl worked. */
  ghost predicate AgreesExcept(s: State, fd: int) {
    forall f :: f >= 0 && f != fd && f !in s.suspect ==> Registered(s.interest, f) == Wanted(s.fdmon, s.heap, f)
  }

  ghost predicate EpollAgrees(s: State) {
    AgreesExcept(s, FD_TIMER)
  }

  // ---------------------------------------------------------------- invariants

  ghost predicate NoDups(s: State) {
    NoDup(s.fdmon) && NoDup(s.timer) && NoDup(s.ready) && NoDup(s.async)
  }

  ghost predicate TimersFit(timer: seq<Id>, heap: map<Id, Handle>, queued: map<Id, nat>, ticks: nat) {
    (forall h :: h in timer ==> Stamp(queued, h) < ticks) && Sorted(timer, heap, queued)
  }

  ghost predicate TimersOk(s: State) {
    TimersFit(s.timer, s.heap, s.queued, s.ticks)
  }

  ghost predicate Base(s: State) {
    NoDups(s) && TimersOk(s)
  }

  /** Holds at every callback entry and API return, also while the context is torn down. */
  ghost predicate Core(s: State) {
    Base(s) && Classified(s)
  }

  /** Holds at every callback entry and API return before teardown. */
  ghost predicate Inv(s: State) {
    Core(s) && (!s.finalized ==> EpollAgrees(s))
  }

  // ---------------------------------------------------------------- what other parties may do

  ghost predicate SameRegistration(a: Handle, b: Handle) {
    a.fd == b.fd && a.flag == b.flag && a.oneshot == b.oneshot && a.internal == b.internal && a.noti == b.noti
  }

  /** `log'` continues `log` with bookkeeping only or, if `cancels`, with CANCELLED callbacks too. */
  ghost predicate Extends(log: seq<Event>, log': seq<Event>, cancels: bool) {
    && |log| <= |log'| && log'[..|log|] == log
    && forall i :: |log| <= i < |log'| ==> log'[i].Added? || log'[i].Freed? || (cancels && log'[i].CancelNotified?)
  }

  predicate OnList(sl: Slot) {
    sl.fdmon || sl.timer || sl.ready || sl.async
  }

  /** What may happen to one handle in the meantime. */
  ghost predicate SlotStep(a: Slot, b: Slot, stopping: bool, finalized: bool) {
    && (a.life == Gone(true) ==> b.life == Gone(true))
    && (a.ready && !b.ready ==> b.released || (finalized && b.life == Gone(true)))
    && (b.ready ==> a.ready) && b.notifying == a.notifying && b.cancelling == a.cancelling
    && (a.released ==> b.released) && (a.known ==> b.known)
    && (b.handle.Some? && a.handle.Some? ==> SameRegistration(a.handle.value, b.handle.value))
    && (b.handle.Some? && a.handle.None? ==> !a.known)
    && (a.handle.Some? && b.handle.None? ==> b.released || (b.life == Gone(true) && (a.async || finalized)))
    && (a.handle.Some? && b.handle.Some? && b.async ==> a.async)
    && (stopping ==>
        && (b.fdmon ==> a.fdmon) && (b.timer ==> a.timer) && (b.async ==> a.async)
        && (b.handle.Some? ==> a.handle.Some? && a.handle.value.timeoutAt == b.handle.value.timeoutAt)
        && (a.handle.Some? && b.handle.None? ==> OnList(a))
        && (a.async && b.handle.Some? ==> b.async))
  }

  ghost predicate ContextStep(s: State, s': State, cancels: bool) {
    && s'.inRun == s.inRun && s'.finalized == s.finalized && (s.stopping ==> s'.stopping)
    && s.nextId <= s'.nextId && |s'.ready| <= |s.ready|
    && (s.stopping ==> |s'.fdmon| <= |s.fdmon| && |s'.timer| <= |s.timer| && |s'.async| <= |s.async|)
    && Extends(s.log, s'.log, cancels)
  }

  ghost predicate Step(s: State, s': State, cancels: bool) {
    && (forall h: Id :: SlotStep(SlotOf(s, h), SlotOf(s', h), s.stopping, s.finalized))
    && ContextStep(s, s', cancels)
  }

  /** What a user callback, or another thread, may have done between two states. */
  ghost predicate UserStep(s: State, s': State) {
    Step(s, s', false)
  }

  /** What may have happened while asynchronous timers were installed: also CANCELLED callbacks. */
  ghost predicate QuietStep(s: State, s': State) {
    Step(s, s', true)
  }

  lemma ExtendsTransitive(a: seq<Event>, b: seq<Event>, c: seq<Event>, cancels: bool)
    requires Extends(a, b, cancels) && Extends(b, c, cancels)
    ensures Extends(a, c, cancels)
  {
    assert c[..|a|] == c[..|b|][..|a|];
    forall i | |a| <= i < |c| ensures c[i].Added? || c[i].Freed? || (cancels && c[i].CancelNotified?) {
      if i < |b| { assert c[i] == c[..|b|][i]; }
    }
  }

  lemma ContextStepTransitive(a: State, b: State, c: State, cancels: bool)
    requires ContextStep(a, b, cancels) && ContextStep(b, c, cancels)
    ensures ContextStep(a, c, cancels)
  {
    ExtendsTransitive(a.log, b.log, c.log, cancels);
  }

  lemma StepReflexive(s: State, cancels: bool)
    ensures Step(s, s, cancels)
  {}

  lemma UserStepIsQuiet(s: State, s': State)
    requires UserStep(s, s')
    ensures QuietStep(s, s')
  {}

  lemma StepTransitive(a: State, b: State, c: State, cancels: bool)
    requires Classified(a) && Step(a, b, cancels) && Step(b, c, cancels)
    ensures Step(a, c, cancels)
  {
    assert a.nextId <= b.nextId && (a.stopping ==> b.stopping);
    forall h: Id ensures SlotStep(SlotOf(a, h), SlotOf(c, h), a.stopping, a.finalized) {
      assert SlotOk(SlotOf(a, h));
      assert SlotStep(SlotOf(a, h), SlotOf(b, h), a.stopping, a.finalized);
      assert SlotStep(SlotOf(b, h), SlotOf(c, h), b.stopping, b.finalized);
    }
    ContextStepTransitive(a, b, c, cancels);
  }

  // ---------------------------------------------------------------- changes confined to one handle

  ghost predicate SameElsewhere(s: State, s': State, h: Id) {
    forall x: Id :: x != h ==> SlotOf(s', x) == SlotOf(s, x)
  }

  lemma SameElsewhereTransitive(a: State, b: State, c: State, h: Id)
    requires SameElsewhere(a, b, h) && SameElsewhere(b, c, h)
    ensures SameElsewhere(a, c, h)
  {}

  lemma ClassifiedLocally(s: State, s': State, h: Id)
    requires Classified(s) && SameElsewhere(s, s', h) && SlotOk(SlotOf(s', h))
    ensures Classified(s')
  {
    forall x: Id ensures SlotOk(SlotOf(s', x)) {
      assert SlotOk(SlotOf(s, x));
    }
  }

  lemma StepLocally(s: State, s': State, h: Id, cancels: bool)
    requires SameElsewhere(s, s', h) && ContextStep(s, s', cancels)
    requires SlotStep(SlotOf(s, h), SlotOf(s', h), s.stopping, s.finalized)
    ensures Step(s, s', cancels)
  {
    forall x: Id ensures SlotStep(SlotOf(s, x), SlotOf(s', x), s.stopping, s.finalized) {
      if x != h { assert SlotOf(s', x) == SlotOf(s, x); }
    }
  }

  predicate Watching(sl: Slot, fd: int) {
    sl.fdmon && sl.handle.Some? && sl.handle.value.fd == fd
  }

  predicate SameWatch(a: Slot, b: Slot) {
    && a.fdmon == b.fdmon && a.handle.Some? && b.handle.Some?
    && a.handle.value.fd == b.handle.value.fd && a.handle.value.flag == b.handle.value.flag
  }

  lemma WantedFrame(l: seq<Id>, heap: map<Id, Handle>, l': seq<Id>, heap': map<Id, Handle>, fd: int)
    requires forall h :: Watches(l, heap, h, fd) <==> Watches(l', heap', h, fd)
    requires forall h :: Watches(l, heap, h, fd) && Watches(l', heap', h, fd) ==> heap[h].flag == heap'[h].flag
    ensures Wanted(l, heap, fd) == Wanted(l', heap', fd)
  {
    assert Requested(l, heap, fd) == Requested(l', heap', fd);
  }

  lemma WantedElsewhere(s: State, s': State, h: Id, fd: int)
    requires SameElsewhere(s, s', h)
    requires Watching(SlotOf(s, h), fd) || Watching(SlotOf(s', h), fd) ==> SameWatch(SlotOf(s, h), SlotOf(s', h))
    ensures Wanted(s'.fdmon, s'.heap, fd) == Wanted(s.fdmon, s.heap, fd)
  {
    hide LifeOf;
    forall x: Id
      ensures Watches(s.fdmon, s.heap, x, fd) <==> Watches(s'.fdmon, s'.heap, x, fd)
      ensures Watches(s.fdmon, s.heap, x, fd) ==> s.heap[x].flag == s'.heap[x].flag
    {
      if x != h { assert SlotOf(s', x) == SlotOf(s, x); }
    }
    WantedFrame(s.fdmon, s.heap, s'.fdmon, s'.heap, fd);
  }

  lemma AgreesElsewhere(s: State, s': State, h: Id, fd: int)
    requires SameElsewhere(s, s', h) && AgreesExcept(s, fd)
    requires s'.interest == s.interest && s'.suspect == s.suspect
    requires (!SlotOf(s, h).fdmon && !SlotOf(s', h).fdmon)
      || SameWatch(SlotOf(s, h), SlotOf(s', h))
      || (forall f :: Watching(SlotOf(s, h), f) || Watching(SlotOf(s', h), f) ==> f == fd)
    ensures AgreesExcept(s', fd)
  {
    forall f | f >= 0 && f != fd ensures Wanted(s'.fdmon, s'.heap, f) == Wanted(s.fdmon, s.heap, f) {
      WantedElsewhere(s, s', h, f);
    }
  }

  lemma LifeAfter(log: seq<Event>, e: Event)
    ensures LifeOf(log + [e], e.id) == NextLife(LifeOf(log, e.id), e)
    ensures forall x: Id :: x != e.id ==> LifeOf(log + [e], x) == LifeOf(log, x)
  {
    assert (log + [e])[..|log|] == log;
  }
}
