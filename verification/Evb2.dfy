/** The event loop of package/aloe/sys_linux/evb2.c.  Lists are sequences of handle identities and
    the allocator is a map; Qent.dfy proves the pointer form of the list operations.  What the code takes
    from outside is a parameter or an arbitrary value: clock readings, epoll_ctl and epoll_wait results,
    what user callbacks do, and what other threads submit before each lock of async_lock. */
module Evb2 {
  import opened Evb2Spec
  import opened Evb2Ops
  import opened Evb2Turns
  import opened Evb2Sweep
  import opened Options

  datatype CtlOp = ADD | MOD | DEL
  datatype Errno = OK | EEXIST | ENOENT | EINTR | EOTHER

  /** The specification-only part of the state. */
  datatype Ghosts = Ghosts(cancelling: Option<Id>, suspect: set<int>, queued: map<Id, nat>, ticks: nat,
                           log: seq<Event>, released: set<Id>)

  class Loop {
    var heap: map<Id, Handle>
    var nextId: Id
    var fdmon: seq<Id>
    var timer: seq<Id>
    var ready: seq<Id>
    var async: seq<Id>
    var notifying: Option<Id>
    var stopping: bool
    var inRun: bool
    var finalized: bool
    var interest: map<int, set<EpollBit>> // the kernel's side of epfd
    var budget: nat // one-shot timers the outside will still submit; arbitrary but finite
    const pipeRead: int
    const pipeWrite: int
    ghost var g: Ghosts

    /** The context before aloe_evb2_create has registered anything. */
    constructor (rd: int, wr: int)
      ensures Snap() == EMPTY && pipeRead == rd && pipeWrite == wr
    {
      heap, nextId, fdmon, timer, ready, async := map[], 0, [], [], [], [];
      notifying, stopping, inRun, finalized := None, false, false, false;
      interest, pipeRead, pipeWrite := map[], rd, wr;
      g := Ghosts(None, {}, map[], 0, [], {});
      budget := *;
    }

    ghost function Snap(): State
      reads this
    {
      State(heap, nextId, fdmon, timer, ready, async, notifying, g.cancelling, stopping, inRun, finalized,
            interest, g.suspect, g.queued, g.ticks, g.log, g.released)
    }

    // -------------------------------------------------------------- epoll

    /** The kernel: `ctl` says whether it accepts what is otherwise possible. */
    method EpollCtl(op: CtlOp, fd: int, mask: set<EpollBit>, ctl: bool) returns (e: Errno)
      modifies this`interest
      ensures op == ADD ==> e == if fd in old(interest) then EEXIST else if ctl then OK else EOTHER
      ensures op == MOD ==> e == if !ctl then EOTHER else if fd in old(interest) then OK else ENOENT
      ensures op == DEL ==> e == if !ctl then EOTHER else if fd in old(interest) then OK else ENOENT
      ensures interest == if e != OK then old(interest)
                          else if op == DEL then old(interest) - {fd} else old(interest)[fd := mask]
    {
      e := match op
        case ADD => if fd in interest then EEXIST else if ctl then OK else EOTHER
        case MOD => if !ctl then EOTHER else if fd in interest then OK else ENOENT
        case DEL => if !ctl then EOTHER else if fd in interest then OK else ENOENT;
      if e == OK {
        interest := if op == DEL then interest - {fd} else interest[fd := mask];
      }
    }

    /** The walk over the descriptor list in epoll_refresh. */
    method Requests(fd: int) returns (evReq: set<Flag>, found: bool)
      requires forall h :: h in fdmon ==> h in heap
      ensures found <==> exists h :: h in fdmon && heap[h].fd == fd
      ensures evReq == set h, f | h in fdmon && heap[h].fd == fd && f in heap[h].flag :: f
    {
      evReq, found := {}, false;
      var i := 0;
      while i < |fdmon|
        invariant 0 <= i <= |fdmon|
        invariant found <==> exists h :: h in fdmon[..i] && heap[h].fd == fd
        invariant forall f :: f in evReq <==> exists h :: h in fdmon[..i] && heap[h].fd == fd && f in heap[h].flag
      {
        var h := fdmon[i];
        assert fdmon[..i + 1] == fdmon[..i] + [h];
        if heap[h].fd == fd {
          evReq := evReq + heap[h].flag;
          found := true;
        }
        i := i + 1;
      }
      assert fdmon[..i] == fdmon;
    }

    /** The epoll_ctl calls of epoll_refresh. */
    method Sync(fd: int, evReq: set<Flag>, found: bool, ctl: bool) returns (r: int)
      requires fd > FD_TIMER
      modifies this`interest
      ensures interest == NewInterest(old(interest), fd, if found then Some(ToEpoll(evReq)) else None, ctl)
      ensures r == if !ctl then -1 else 0
    {
      var e;
      if !found {
        e := EpollCtl(DEL, fd, {}, ctl);
        return if e != OK && e != ENOENT then -1 else 0;
      }
      e := EpollCtl(ADD, fd, ToEpoll(evReq), ctl);
      if e == EEXIST {
        e := EpollCtl(MOD, fd, ToEpoll(evReq), ctl);
      }
      r := if e != OK then -1 else 0;
    }

    method EpollRefresh(fd: int, ctl: bool) returns (r: int)
      requires forall h :: h in fdmon ==> h in heap
      modifies this`interest, this`g
      ensures Snap() == Refresh(old(Snap()), fd, ctl)
      ensures r == if fd > FD_TIMER && !ctl then -1 else 0
    {
      hide Wanted;
      if fd <= FD_TIMER { return 0; }
      var evReq, found := Requests(fd);
      WantedIs(fdmon, heap, fd, evReq, found);
      hide NewInterest;
      r := Sync(fd, evReq, found, ctl);
      g := g.(suspect := NewSuspect(g.suspect, fd, ctl));
    }

    // -------------------------------------------------------------- timers

    /** The walk over the timer list in timer_insert. */
    method InsertIntoTimers(h: Id) returns (l: seq<Id>)
      requires h in heap && (forall x :: x in timer ==> x in heap)
      ensures l == Inserted(timer, heap, h)
    {
      hide Inserted, Spliced;
      var i := 0;
      SplicedWhole(timer, heap, h);
      while i < |timer| && heap[timer[i]].timeoutAt <= heap[h].timeoutAt
        invariant 0 <= i <= |timer|
        invariant Spliced(timer, i, heap, h) == Inserted(timer, heap, h)
      {
        SplicedFurther(timer, heap, h, i);
        i := i + 1;
      }
      SplicedHere(timer, heap, h, i);
      l := timer[..i] + [h] + timer[i..];
    }

    /** timer_insert, for a finite deadline only, as all its callers guard it. */
    method TimerInsert(h: Id)
      requires h in heap && (forall x :: x in timer ==> x in heap)
      modifies this`timer, this`g
      ensures Snap() == Enqueue(old(Snap()), h)
    {
      if heap[h].timeoutAt != MAX {
        timer := InsertIntoTimers(h);
        g := g.(queued := g.queued[h := g.ticks], ticks := g.ticks + 1);
      }
    }

    // -------------------------------------------------------------- handles

    method HandleAlloc(hd: Handle) returns (h: Id)
      modifies this`heap, this`nextId, this`g
      ensures h == old(nextId) && Snap() == Alloc(old(Snap()), hd)
    {
      h := nextId;
      heap, nextId := heap[h := hd], nextId + 1;
      g := g.(log := g.log + [Added(h)]);
    }

    method SetHandle(h: Id, hd: Handle)
      modifies this`heap
      ensures Snap() == Assign(old(Snap()), h, hd)
    {
      heap := heap[h := hd];
    }

    method HandleDetach(h: Id)
      requires NoDups(Snap())
      modifies this`fdmon, this`timer, this`ready
      ensures Snap() == Detach(old(Snap()), h)
    {
      fdmon, timer, ready := Without(fdmon, h), Without(timer, h), Without(ready, h);
    }

    method RemoveTimer(h: Id)
      requires NoDups(Snap())
      modifies this`timer
      ensures Snap() == UnlinkTimer(old(Snap()), h)
    {
      timer := Without(timer, h);
    }

    method RemoveAsync(h: Id)
      requires NoDups(Snap())
      modifies this`async
      ensures Snap() == Unpend(old(Snap()), h)
    {
      async := Without(async, h);
    }

    method AppendFdmon(h: Id)
      modifies this`fdmon
      ensures Snap() == WatchTail(old(Snap()), h)
    {
      fdmon := fdmon + [h];
    }

    method AppendAsync(h: Id)
      modifies this`async
      ensures Snap() == PendTail(old(Snap()), h)
    {
      async := async + [h];
    }

    method FreeReleased(h: Id)
      modifies this`heap, this`g
      ensures Snap() == Release(old(Snap()), h)
    {
      heap := heap - {h};
      g := g.(log := g.log + [Freed(h)], released := g.released + {h});
    }

    /** The failure path of aloe_evb2_add_fd: handle_detach and free of a handle nobody has seen. */
    method Unregister(h: Id, ghost s: State, hd: Handle, fd: int)
      requires Core(s) && s.nextId == h && Snap() == Refresh(WatchTail(Alloc(s, hd), h), fd, false)
      modifies this`heap, this`fdmon, this`g
      ensures Snap() == s.(nextId := h + 1)
    {
      ListsAllocated(s);
      DetachNew(s.fdmon, s.heap, h, hd);
      fdmon, heap := Without(fdmon, h), heap - {h};
      g := g.(log := s.log, suspect := s.suspect);
    }

    // -------------------------------------------------------------- API

    /** The descriptor part of aloe_evb2_add_fd: monitored, or undone if epoll refuses. */
    method Monitor(h: Id, ghost s: State, hd: Handle, ctl: bool) returns (e: int)
      requires Core(s) && s.nextId == h && hd.fd >= 0 && Snap() == Alloc(s, hd)
      modifies this`heap, this`g, this`fdmon, this`interest
      ensures e == if ctl then 0 else -1
      ensures Snap() == if ctl then Refresh(WatchTail(Alloc(s, hd), h), hd.fd, ctl) else s.(nextId := h + 1)
      ensures ctl ==> heap == old(heap)
    {
      ListsAllocated(s);
      hide NoDup, Wanted, Core, NewInterest, NewSuspect;
      AppendFdmon(h);
      e := EpollRefresh(hd.fd, ctl);
      if e != 0 { Unregister(h, s, hd, hd.fd); }
    }

    /** aloe_evb2_add_fd once its arguments are accepted, for a pure timer. */
    method AdmitTimer(hd: Handle) returns (r: Option<Id>)
      requires Core(Snap()) && hd.fd == FD_TIMER
      modifies this`heap, this`nextId, this`g, this`timer
      ensures r == Some(old(nextId)) && Snap() == Admitted(old(Snap()), hd, true)
    {
      ListsAllocated(Snap());
      hide Core, Enqueue;
      var h := HandleAlloc(hd);
      TimerInsert(h);
      r := Some(h);
    }

    /** The same for a descriptor. */
    method AdmitFd(hd: Handle, ctl: bool) returns (r: Option<Id>)
      requires Core(Snap()) && hd.fd >= 0
      modifies this`heap, this`nextId, this`g, this`fdmon, this`timer, this`interest
      ensures !ctl ==> r == None && Snap() == old(Snap()).(nextId := old(nextId) + 1)
      ensures ctl ==> r == Some(old(nextId)) && Snap() == Admitted(old(Snap()), hd, true)
    {
      ghost var s := Snap();
      ListsAllocated(s);
      AllocHeap(s, hd);
      hide Core, Refresh, WatchTail, Enqueue, Alloc, Admitted;
      var h := HandleAlloc(hd);
      assert heap == s.heap[h := hd] && timer == s.timer;
      var e := Monitor(h, s, hd, ctl);
      if e != 0 { return None; }
      AdmittedFd(s, hd);
      TimerInsert(h);
      r := Some(h);
    }

    /** aloe_evb2_add_fd; aloe_evb2_add_oneshot_fd marks the handle afterwards, here with `oneshot`. */
    method AddFd(hasCb: bool, fd: int, req: set<Flag>, ms: Time, oneshot: bool, now: Time, ctl: bool)
      returns (r: Option<Id>)
      requires Inv(Snap())
      modifies this`heap, this`nextId, this`g, this`fdmon, this`timer, this`interest
      ensures (Snap(), r) == Evb2Ops.AddFd(old(Snap()), hasCb, fd, req, ms, oneshot, now, ctl)
      ensures Inv(Snap()) && UserStep(old(Snap()), Snap())
    {
      AddFdStep(Snap(), hasCb, fd, req, ms, oneshot, now, ctl);
      hide Base, Classified, AgreesExcept, Step, Admitted;
      if stopping || finalized || !hasCb || fd < FD_TIMER { return None; }
      if fd == FD_TIMER && ms == INFINITE { return None; }
      var hd := Handle(fd, req, ms, Deadline(ms, now), now, oneshot, false, false, {});
      if fd >= 0 { r := AdmitFd(hd, ctl); } else { r := AdmitTimer(hd); }
    }

    /** aloe_evb2_add_oneshot_timer; the lock is held from the test of `stopping` on. */
    method AddOneshotTimer(hasCb: bool, ms: Time, now: Time) returns (r: Option<Id>)
      requires Inv(Snap())
      modifies this`heap, this`nextId, this`g, this`async
      ensures (Snap(), r) == Evb2Ops.AddOneshotTimer(old(Snap()), hasCb, ms, now)
      ensures Inv(Snap()) && UserStep(old(Snap()), Snap())
      ensures |async| <= |old(async)| + 1
    {
      AddOneshotTimerStep(Snap(), hasCb, ms, now);
      hide Base, Classified, AgreesExcept, Step;
      if !hasCb || ms == INFINITE { return None; }
      if stopping || finalized {
        nextId := nextId + 1;
        return None;
      }
      var h := HandleAlloc(Handle(FD_TIMER, {}, ms, Deadline(ms, now), now, true, false, false, {}));
      AppendAsync(h);
      r := Some(h);
    }

    /** The end of aloe_evb2_cancel for a handle found on a list. */
    method Withdraw(h: Id, fd: int, ctl: bool)
      requires NoDups(Snap()) && (forall x :: x in fdmon ==> x in heap)
      modifies this`heap, this`g, this`fdmon, this`timer, this`ready, this`interest
      ensures Snap() == Release(Refresh(Detach(old(Snap()), h), fd, ctl), h)
    {
      hide NoDup, Wanted, NewInterest, NewSuspect;
      HandleDetach(h);
      var _ := EpollRefresh(fd, ctl);
      FreeReleased(h);
    }

    /** aloe_evb2_cancel of a handle that is still valid. */
    method Cancel(h: Id, ctl: bool) returns (r: int)
      requires Inv(Snap()) && h in heap
      modifies this`heap, this`g, this`fdmon, this`timer, this`ready, this`async, this`interest
      ensures (Snap(), r) == Evb2Ops.Cancel(old(Snap()), h, ctl)
      ensures Inv(Snap()) && UserStep(old(Snap()), Snap())
      ensures |async| <= |old(async)|
    {
      hide NoDup, Wanted, Classified, AgreesExcept, TimersFit, Step, Base;
      CancelStep(Snap(), h, ctl);
      ListsAllocated(Snap());
      CoreNoDups(Snap());
      if heap[h].internal { return -1; }
      if notifying == Some(h) {
        SetHandle(h, heap[h].(dead := true));
        return 0;
      }
      if h in async {
        RemoveAsync(h);
        FreeReleased(h);
        return 0;
      }
      var fd := heap[h].fd;
      var removed := h in fdmon || h in ready || h in timer;
      if !removed { return -1; }
      Withdraw(h, fd, ctl);
      r := 0;
    }

    /** aloe_evb2_set_timeout of a handle that is still valid and not being told it is cancelled. */
    method SetTimeout(h: Id, ms: Time, now: Time) returns (r: int)
      requires Inv(Snap()) && h in heap && g.cancelling != Some(h)
      modifies this`heap, this`g, this`timer
      ensures (Snap(), r) == Evb2Ops.SetTimeout(old(Snap()), h, ms, now)
      ensures Inv(Snap()) && UserStep(old(Snap()), Snap())
    {
      SetTimeoutStep(Snap(), h, ms, now);
      ListsAllocated(Snap());
      hide NoDup, Inserted, Classified, AgreesExcept, TimersFit, Step;
      if heap[h].internal || heap[h].dead { return -1; }
      if stopping || finalized { return -1; }
      if heap[h].fd == FD_TIMER && ms == INFINITE { return -1; }
      var hd := heap[h].(timeoutMs := ms, timeoutAt := Deadline(ms, now), armedAt := now);
      SetHandle(h, hd);
      if notifying == Some(h) { return 0; }
      if h in async { return 0; }
      if h in ready { return 0; }
      RemoveTimer(h);
      TimerInsert(h);
      r := 0;
    }

    /** aloe_evb2_destroy while the loop runs: teardown is left to run_once. */
    method RequestStop()
      requires Inv(Snap()) && inRun
      modifies this`stopping
      ensures Inv(Snap()) && UserStep(old(Snap()), Snap())
      ensures stopping
    {
      StopStep(Snap());
      hide Base, Classified, AgreesExcept, Step;
      stopping := true;
    }

    // -------------------------------------------------------------- the outside

    /** One call of another thread, or none. */
    method OneSubmission()
      requires Inv(Snap())
      modifies this`heap, this`nextId, this`g, this`async, this`budget
      ensures Inv(Snap()) && UserStep(old(Snap()), Snap())
      ensures |async| + budget <= |old(async)| + old(budget)
    {
      StepReflexive(Snap(), false);
      hide Base, Classified, AgreesExcept, Step, Evb2Ops.AddOneshotTimer;
      if budget > 0 {
        budget := budget - 1;
        var hasCb: bool, ms: Time, now: Time := *, *, *;
        var _ := AddOneshotTimer(hasCb, ms, now);
      }
    }

    /** What other threads submit before the loop thread gets async_lock. */
    method OtherThreads()
      requires Inv(Snap())
      modifies this`heap, this`nextId, this`g, this`async, this`budget
      ensures Inv(Snap()) && UserStep(old(Snap()), Snap())
      ensures |async| + budget <= |old(async)| + old(budget)
    {
      StepReflexive(Snap(), false);
      hide Base, Classified, AgreesExcept, Step;
      ghost var s := Snap();
      var n: nat := *;
      while n > 0
        invariant Inv(Snap()) && UserStep(s, Snap())
        invariant |async| + budget <= |old(async)| + old(budget)
      {
        ghost var s1 := Snap();
        OneSubmission();
        StepTransitive(s, s1, Snap(), false);
        n := n - 1;
      }
    }

    /** One call that a callback may make: any entry point, any arguments, any valid handle.  A handle
        becomes invalid when its callback is told (`told`) that it is cancelled. */
    method OneCall(told: Option<Id>)
      requires Inv(Snap()) && told == g.cancelling
      modifies this`heap, this`nextId, this`g, this`fdmon, this`timer, this`ready, this`async, this`interest,
               this`stopping, this`budget
      ensures Inv(Snap()) && UserStep(old(Snap()), Snap())
      ensures |async| + budget <= |old(async)| + old(budget)
    {
      StepReflexive(Snap(), false);
      hide Base, Classified, AgreesExcept, Step, Evb2Ops.AddFd, Evb2Ops.Cancel, Evb2Ops.SetTimeout;
      var hasCb: bool, fd: int, req: set<Flag>, oneshot: bool := *, *, *, *;
      var ms: Time, now: Time, ctl: bool, h: Id := *, *, *, *;
      if
      case true => var _ := AddFd(hasCb, fd, req, ms, oneshot, now, ctl);
      case true => OneSubmission();
      case h in heap => var _ := Cancel(h, ctl);
      case h in heap && told != Some(h) => var _ := SetTimeout(h, ms, now);
      case true => var _ := CancelFd(fd);
      case inRun => RequestStop();
      case true => // aloe_evb2_run_once: a callback is refused, others see RunOnce
    }

    /** A user callback: any finite sequence of calls. */
    method UserCallback(told: Option<Id>)
      requires Inv(Snap()) && inRun && told == g.cancelling
      modifies this`heap, this`nextId, this`g, this`fdmon, this`timer, this`ready, this`async, this`interest,
               this`stopping, this`budget
      ensures Inv(Snap()) && UserStep(old(Snap()), Snap())
      ensures g.cancelling == told
      ensures |async| + budget <= |old(async)| + old(budget)
    {
      StepReflexive(Snap(), false);
      hide Base, Classified, AgreesExcept, Step;
      ghost var s := Snap();
      var n: nat := *;
      while n > 0
        invariant Inv(Snap()) && UserStep(s, Snap()) && inRun && told == g.cancelling
        invariant |async| + budget <= |old(async)| + old(budget)
      {
        ghost var s1 := Snap();
        OneCall(told);
        SameCallback(s1, Snap(), false);
        StepTransitive(s, s1, Snap(), false);
        n := n - 1;
      }
    }

    // -------------------------------------------------------------- CANCELLED callbacks

    method Announce(h: Id)
      modifies this`g
      ensures Snap() == Evb2Turns.Announce(old(Snap()), h)
    {
      g := g.(cancelling := Some(h), log := g.log + [CancelNotified(h)]);
    }

    method FreeTold(h: Id)
      modifies this`heap, this`g
      ensures Snap() == EndCancel(old(Snap()), h)
    {
      heap := heap - {h};
      g := g.(cancelling := None, log := g.log + [Freed(h)]);
    }

    /** evb2_notify_cancel of a handle that was taken off its lists in state `s`. */
    method NotifyCancel(h: Id, ghost s: State)
      requires Inv(s) && h in s.heap && s.cancelling == None && s.notifying != Some(h) && OnList(SlotOf(s, h))
      requires s.finalized || h in s.async
      requires Evb2Turns.Announce(Snap(), h) == BeginCancel(s, h) && inRun && h in heap
      modifies this`heap, this`nextId, this`g, this`fdmon, this`timer, this`ready, this`async, this`interest,
               this`stopping, this`budget
      ensures Inv(Snap()) && QuietStep(s, Snap()) && LifeOf(g.log, h) == Gone(true)
      ensures |async| + budget <= |old(async)| + old(budget)
    {
      BeginCancelKeeps(s, h);
      StepReflexive(BeginCancel(s, h), false);
      hide NoDup, LifeOf, TimersFit, Classified, AgreesExcept, Step, SlotOf, SameElsewhere, OnList;
      var internal := heap[h].internal;
      Announce(h);
      if !internal { UserCallback(Some(h)); } // the wake-pipe handler ignores CANCELLED
      CancelCycle(s, h, Snap());
      FreeTold(h);
    }

    // -------------------------------------------------------------- asynchronous timers

    method PopAsync() returns (h: Id)
      requires NoDups(Snap()) && async != []
      modifies this`async
      ensures h == old(async)[0] && Snap() == Unpend(old(Snap()), h)
      ensures |async| == |old(async)| - 1
    {
      h := async[0];
      async := async[1..];
    }

    /** One round of evb2_install_async, from qent_pop to the next test of the list. */
    method InstallOne()
      requires Inv(Snap()) && inRun && g.cancelling == None && async != []
      modifies this
      ensures Inv(Snap()) && QuietStep(old(Snap()), Snap())
      ensures |async| + budget < |old(async)| + old(budget)
      ensures var h := old(async)[0];
        h in old(heap) && (if old(stopping) || old(heap)[h].timeoutAt == MAX then LifeOf(g.log, h) == Gone(true)
                           else Snap() == Install(old(Snap()), h))
    {
      ghost var s := Snap();
      AsyncHead(s);
      hide NoDup, LifeOf, TimersFit, Classified, AgreesExcept, Step, SlotOf, SameElsewhere;
      var h := PopAsync();
      if stopping || heap[h].timeoutAt == MAX {
        NotifyCancel(h, s);
        ghost var s1 := Snap();
        OtherThreads();
        UserStepIsQuiet(s1, Snap());
        StepTransitive(s, s1, Snap(), true);
      } else {
        InstallStep(s, h);
        TimerInsert(h);
      }
    }

    /** evb2_install_async */
    method InstallAsync()
      requires Inv(Snap()) && inRun && g.cancelling == None
      modifies this
      ensures Inv(Snap()) && QuietStep(old(Snap()), Snap())
      ensures async == []
    {
      ghost var s := Snap();
      hide Base, Classified, AgreesExcept, Step;
      OtherThreads();
      UserStepIsQuiet(s, Snap());
      SameCallback(s, Snap(), true);
      while async != []
        invariant Inv(Snap()) && QuietStep(s, Snap()) && inRun && g.cancelling == None
        decreases |async| + budget
      {
        ghost var s1 := Snap();
        InstallOne();
        SameCallback(s1, Snap(), true);
        StepTransitive(s, s1, Snap(), true);
      }
    }

    // -------------------------------------------------------------- collecting

    /** Moves a handle to the ready list; handle_to_ready refreshes epoll afterwards. */
    method MoveToReady(h: Id, noti: set<Flag>)
      requires NoDups(Snap()) && h in heap
      modifies this`heap, this`fdmon, this`timer, this`ready
      ensures Snap() == ToReady(old(Snap()), h, noti)
      ensures |timer| <= |old(timer)| && (h in old(timer) ==> |timer| < |old(timer)|)
    {
      fdmon, timer := Without(fdmon, h), Without(timer, h);
      heap, ready := heap[h := heap[h].(noti := noti)], ready + [h];
    }

    /** The handles of one epoll event (package/aloe/sys_linux/evb2.c:706-726). */
    method ScanEvent(fd: int, e: set<EpollBit>, now: Time, ctl: bool)
      requires Inv(Snap()) && !finalized
      modifies this`heap, this`fdmon, this`timer, this`ready, this`interest, this`g
      ensures Inv(Snap())
      ensures forall x: Id :: SlotOf(Snap(), x) == Hit(SlotOf(old(Snap()), x), fd, e, now)
    {
      ghost var s0 := Snap();
      ScanStart(s0, fd, e, now);
      hide NoDup, TimersFit, Scanning, Wanted, SlotOf, Classified, ToReady, Refresh, Raised, Hit, AgreesExcept;
      AgreesAfterAll(s0, fd);
      var rest, hit := fdmon, false;
      while rest != []
        invariant Core(Snap()) && AgreesExcept(Snap(), fd) && (!hit ==> EpollAgrees(Snap()))
        invariant Scanning(s0, Snap(), rest, fd, e, now) && (hit ==> fd >= 0)
      {
        var h := rest[0];
        ghost var s := Snap();
        ScanHead(s0, s, rest, fd, e, now);
        var noti := Raised(heap[h], e, now);
        if heap[h].fd == fd && noti != {} {
          ScanMove(s0, s, rest, fd, e, now);
          MoveToReady(h, noti);
          hit := true;
        } else {
          ScanSkip(s0, s, rest, fd, e, now);
        }
        rest := rest[1..];
      }
      ScanDone(s0, Snap(), fd, e, now, ctl);
      if hit {
        ListsAllocated(Snap());
        RefreshKeeps(Snap(), fd, ctl);
        RefreshAgrees(Snap(), fd, ctl);
        var _ := EpollRefresh(fd, ctl);
      }
    }

    /** The epoll events of a pass. */
    method ScanEvents(evs: seq<(int, set<EpollBit>)>, now: Time)
      requires Inv(Snap()) && !finalized
      modifies this`heap, this`fdmon, this`timer, this`ready, this`interest, this`g
      ensures Inv(Snap()) && ScannedUpTo(old(Snap()), Snap(), evs, now)
    {
      ghost var s0 := Snap();
      hide Base, Classified, AgreesExcept, SlotOf, Hit, ScannedUpTo;
      ScannedNothing(s0, now);
      var k := 0;
      assert evs[..0] == [];
      while k < |evs|
        invariant 0 <= k <= |evs| && Inv(Snap()) && ScannedUpTo(s0, Snap(), evs[..k], now)
      {
        ghost var s := Snap();
        var ctl: bool := *;
        ScanEvent(evs[k].0, evs[k].1, now, ctl);
        ScannedMore(s0, s, Snap(), evs, k, now);
        k := k + 1;
      }
      assert evs[..k] == evs;
    }

    /** The due timers of a pass. */
    method ExpireTimers(now: Time)
      requires Inv(Snap()) && !finalized
      modifies this`heap, this`fdmon, this`timer, this`ready, this`interest, this`g
      ensures Inv(Snap())
      ensures forall x: Id :: SlotOf(Snap(), x) == Expired(SlotOf(old(Snap()), x), now)
      ensures forall x :: x in timer ==> Due(heap, x) > now
    {
      ghost var s0 := Snap();
      hide NoDup, TimersFit, Expiring, Wanted, SlotOf, Classified, ToReady, Refresh, AgreesExcept;
      ExpireStart(s0, now);
      while timer != []
        invariant Inv(Snap()) && Expiring(s0, Snap(), now) && !finalized
        decreases |timer|
      {
        var h := timer[0];
        ghost var s := Snap();
        ExpireHead(s0, s, now);
        if heap[h].timeoutAt > now { break; }
        var fd, ctl: bool := heap[h].fd, *;
        ExpireMove(s0, s, now, ctl);
        ListsAllocated(s);
        MoveToReady(h, {TIMEOUT});
        ToReadyAllocated(s, h, {TIMEOUT});
        var _ := EpollRefresh(fd, ctl);
      }
      NothingDueLeft(Snap(), now);
      ExpireDone(s0, Snap(), now);
    }

    // -------------------------------------------------------------- dispatching

    method PopReady() returns (h: Id)
      requires ready != [] && ready[0] in heap
      modifies this`ready, this`notifying, this`g
      ensures h == old(ready)[0] && Snap() == BeginDispatch(old(Snap()))
    {
      h := ready[0];
      ready, notifying := ready[1..], Some(h);
      g := g.(log := g.log + [Dispatched(h, heap[h].noti)]);
    }

    method FreeDispatched(h: Id)
      requires h in heap
      modifies this`heap, this`notifying, this`g
      ensures Snap() == EndWithFree(old(Snap()), h)
    {
      g := g.(log := g.log + [Freed(h)], released := if heap[h].dead then g.released + {h} else g.released);
      notifying, heap := None, heap - {h};
    }

    method Settle(h: Id, now: Time)
      requires h in heap
      modifies this`heap, this`notifying, this`fdmon
      ensures Snap() == Unnotify(old(Snap()), h, now)
    {
      var hd := heap[h];
      notifying, heap := None, heap[h :=
          hd.(noti := {}, timeoutAt := RearmDeadline(hd.timeoutMs, now), armedAt := now)];
      if hd.fd >= 0 { fdmon := fdmon + [h]; }
    }

    /** The persistent branch after a callback: back on its lists, timer restarted, epoll refreshed. */
    method RearmHandle(h: Id, now: Time, ctl: bool)
      requires Inv(Snap()) && notifying == Some(h) && g.cancelling == None && h in heap
      modifies this`heap, this`notifying, this`fdmon, this`timer, this`interest, this`g
      ensures Inv(Snap()) && Snap() == Refresh(EndWithRearm(old(Snap()), h, now), old(heap)[h].fd, ctl)
    {
      ghost var s := Snap();
      EndWithRearmKeeps(s, h, now, ctl);
      UnnotifyAllocated(s, h, now);
      hide Base, Classified, AgreesExcept, Unnotify, Enqueue, Wanted, NewInterest, NewSuspect;
      var fd := heap[h].fd;
      Settle(h, now);
      TimerInsert(h);
      var _ := EpollRefresh(fd, ctl);
    }

    /** What the callback slot of a handle runs: the wake-pipe handler or user code. */
    method Callback(internal: bool)
      requires Inv(Snap()) && inRun && g.cancelling == None
      modifies this
      ensures Inv(Snap()) && QuietStep(old(Snap()), Snap())
    {
      hide Base, Classified, AgreesExcept, Step;
      if internal {
        InstallAsync();
      } else {
        ghost var s := Snap();
        UserCallback(None);
        UserStepIsQuiet(s, Snap());
      }
    }

    /** One turn of the dispatch loop (package/aloe/sys_linux/evb2.c:736-757). */
    method DispatchOne() returns (counted: bool, ghost mid: State)
      requires Inv(Snap()) && inRun && g.cancelling == None && notifying == None && ready != [] && !finalized
      requires ready[0] in heap
      modifies this
      ensures Inv(Snap()) && inRun && g.cancelling == None && notifying == None && !finalized
      ensures Turn(old(Snap()), mid, Snap()) && |ready| < |old(ready)|
      ensures counted == !old(heap)[old(ready)[0]].internal
      ensures TurnEnd(mid, Snap(), old(ready)[0], old(heap)[old(ready)[0]].oneshot)
    {
      ghost var s := Snap();
      BeginDispatchKeeps(s);
      var oneshot := heap[ready[0]].oneshot;
      hide Base, Classified, AgreesExcept, Step, SameElsewhere, SlotOf, Turn, EndWithRearm, Refresh;
      var h := PopReady();
      ghost var s1 := Snap();
      Callback(heap[h].internal);
      mid := Snap();
      SameCallback(s1, mid, true);
      NotifyingKept(s1, mid, h);
      counted := !heap[h].internal;
      if stopping || heap[h].dead || oneshot {
        EndWithFreeKeeps(mid, h);
        TurnByFree(s, mid);
        FreeDispatched(h);
      } else {
        var now: Time, ctl: bool := *, *;
        EndWithRearmKeeps(mid, h, now, ctl);
        TurnByRearm(s, mid, now, ctl);
        RearmHandle(h, now, ctl);
      }
    }

    /** The dispatch loop. */
    method DispatchReady() returns (cnt: int)
      requires Inv(Snap()) && inRun && g.cancelling == None && notifying == None && !finalized
      modifies this
      ensures Inv(Snap()) && inRun && g.cancelling == None && notifying == None && !finalized
      ensures ready == [] && PassSoFar(old(Snap()), Snap())
      ensures cnt == UserCount(g.log, ReadyUsers(old(Snap()))) - UserCount(old(g.log), ReadyUsers(old(Snap())))
    {
      ghost var s0 := Snap();
      PassStarts(s0);
      ghost var users := ReadyUsers(s0);
      hide Base, Classified, AgreesExcept, Turn, PassFor, Extended, ReadyUsers, UserCount;
      cnt := 0;
      while ready != []
        invariant Inv(Snap()) && inRun && g.cancelling == None && notifying == None && !finalized
        invariant PassSoFar(s0, Snap()) && cnt == UserCount(g.log, users) - UserCount(s0.log, users)
        decreases |ready|
      {
        ghost var s := Snap();
        ReadyHead(s);
        var counted, mid := DispatchOne();
        TurnKeepsPass(s0, s, mid, Snap());
        ReadyKeepsOwner(s0, s);
        CountAcrossTurn(s, mid, Snap(), 0, users);
        if counted { cnt := cnt + 1; }
      }
    }

    // -------------------------------------------------------------- teardown

    /** One handle of evb2_finalize: off its lists, told, freed. */
    method CancelListed(h: Id)
      requires Inv(Snap()) && finalized && stopping && inRun && notifying == None && g.cancelling == None
      requires h in fdmon || h in timer || h in ready
      modifies this
      ensures Inv(Snap()) && QuietStep(old(Snap()), Snap()) && heap.Keys < old(heap.Keys)
    {
      ghost var s := Snap();
      TeardownHead(s, h);
      hide Base, Classified, AgreesExcept, Step, SlotOf, OnList, BeginCancel, Evb2Turns.Announce;
      CoreNoDups(s);
      HandleDetach(h);
      NotifyCancel(h, s);
      FewerHandles(s, Snap(), h);
    }

    /** A pending asynchronous timer of evb2_finalize; the lock is released around the callback. */
    method CancelPending()
      requires Inv(Snap()) && finalized && stopping && inRun && notifying == None && g.cancelling == None
      requires async != []
      modifies this
      ensures Inv(Snap()) && QuietStep(old(Snap()), Snap()) && heap.Keys < old(heap.Keys)
    {
      ghost var s := Snap();
      AsyncHead(s);
      hide Base, Classified, AgreesExcept, Step, SlotOf, OnList, BeginCancel, Evb2Turns.Announce;
      CoreNoDups(s);
      var h := PopAsync();
      NotifyCancel(h, s);
      ghost var s1 := Snap();
      OtherThreads();
      UserStepIsQuiet(s1, Snap());
      StepTransitive(s, s1, Snap(), true);
      GoneStays(s1, Snap(), h);
      FewerHandles(s, Snap(), h);
    }

    /** evb2_finalize, when it has not been done before. */
    method Finalize()
      requires Inv(Snap()) && !finalized && stopping && inRun && notifying == None && g.cancelling == None
      modifies this
      ensures TornDown(old(Snap()), Snap()) && Ended(Snap()) && stopping
    {
      FinalizedKeeps(Snap());
      hide Base, Classified, AgreesExcept, Step;
      finalized := true;
      ghost var s := Snap();
      StepReflexive(s, true);
      while fdmon != []
        invariant Tearing(s, Snap())
        decreases heap.Keys
      {
        ghost var s1 := Snap();
        CancelListed(fdmon[0]);
        TearingOn(s, s1, Snap());
      }
      while timer != []
        invariant Tearing(s, Snap()) && fdmon == []
        decreases heap.Keys
      {
        ghost var s1 := Snap();
        CancelListed(timer[0]);
        TearingOn(s, s1, Snap());
      }
      while ready != []
        invariant Tearing(s, Snap()) && fdmon == [] && timer == []
        decreases heap.Keys
      {
        ghost var s1 := Snap();
        CancelListed(ready[0]);
        TearingOn(s, s1, Snap());
      }
      ghost var s2 := Snap();
      OtherThreads();
      UserStepIsQuiet(s2, Snap());
      TearingOn(s, s2, Snap());
      while async != []
        invariant Tearing(s, Snap()) && fdmon == [] && timer == [] && ready == []
        decreases heap.Keys
      {
        ghost var s1 := Snap();
        CancelPending();
        TearingOn(s, s1, Snap());
      }
    }

    // -------------------------------------------------------------- the calls that run the loop

    /** How long epoll_wait may sleep, in milliseconds; -1 is for ever. */
    method WaitMs(timeoutMs: Time, now: Time) returns (t: int)
      requires forall x :: x in timer ==> x in heap
      ensures t == -1 <==> timer == [] && timeoutMs == INFINITE
      ensures t != -1 ==> 0 <= t <= INT_MAX
      ensures timer != [] ==> t <= 0 || now + t <= Due(heap, timer[0])
      ensures timeoutMs != INFINITE ==> t <= timeoutMs
      ensures t == -1 || t == INT_MAX || t == timeoutMs
              || (timer != [] && t == if Due(heap, timer[0]) <= now then 0 else Due(heap, timer[0]) - now)
    {
      t := -1;
      if timer != [] {
        var due := heap[timer[0]].timeoutAt;
        if due <= now {
          t := 0;
        } else {
          t := if due - now > INT_MAX then INT_MAX else due - now;
        }
      }
      if timeoutMs != INFINITE {
        var userTo := if timeoutMs > INT_MAX then INT_MAX else timeoutMs;
        if t < 0 || userTo < t { t := userTo; }
      }
    }

    /** Between calls from outside: nothing is being dispatched. */
    ghost predicate Idle()
      reads this
    {
      Inv(Snap()) && !inRun && ready == [] && notifying == None && g.cancelling == None && !finalized
    }

    /** evb2_run_leave */
    method RunLeave(rc: int) returns (r: int)
      requires Inv(Snap()) && inRun && notifying == None && g.cancelling == None && !finalized && ready == []
      modifies this
      ensures Inv(Snap())
      ensures stopping == old(stopping)
      ensures if old(stopping) then r == -1 && TornDown(old(Snap()), Snap()) && Ended(Snap())
              else r == rc && Idle() && Snap() == old(Snap()).(inRun := false)
    {
      LeaveKeeps(Snap());
      hide Base, Classified, AgreesExcept, Step;
      if !stopping {
        inRun := false;
        return rc;
      }
      Finalize();
      r := -1;
    }

    /** aloe_evb2_run_once.  epoll_wait delivers `evs`, or fails with `errno`.  `p` records the pass for the
        specification; it is None when the call is refused or epoll_wait fails. */
    method RunOnce(timeoutMs: Time, evs: seq<(int, set<EpollBit>)>, failed: bool, errno: Errno)
        returns (r: int, ghost p: Option<Pass>)
      requires Inv(Snap()) && (inRun || finalized || Idle())
      modifies this
      ensures Inv(Snap())
      ensures old(stopping || finalized || inRun) ==> r == -1 && p == None && Snap() == old(Snap())
      ensures !old(stopping || finalized || inRun) ==>
                if stopping then r == -1 && finalized && Ended(Snap()) else Idle()
      ensures p.Some? <==> !old(stopping || finalized || inRun) && !failed
      ensures !old(stopping || finalized || inRun) && failed && !stopping ==>
                r == (if errno == EINTR then 0 else -1) && async == []
                && QuietStep(old(Snap()).(inRun := true), Snap().(inRun := true))
      ensures p.Some? ==> PassOk(old(Snap()), p.value) && p.value.evs == evs
      ensures p.Some? ==> if stopping then TornDown(p.value.done, Snap())
                          else Snap() == p.value.done.(inRun := false) && r == Dispatches(p.value)
      ensures Remembers(old(Snap()), Snap())
    {
      hide Remembers, Base, Classified, AgreesExcept, Step, Expired, ScannedUpTo, SlotOf, PassFor, Extended, UserCount,
          ReadyUsers, Wanted, Sorted, NoDup, LifeOf, TimersFit;
      RemembersItself(Snap());
      if stopping || finalized || inRun { return -1, None; }
      ghost var s0 := Snap();
      EnterKeeps(s0);
      inRun := true;
      ghost var s1 := Snap();
      InstallAsync();
      SameCallback(s1, Snap(), true);
      NoReadyYet(s1, Snap());
      ListsAllocated(Snap());
      var now: Time := *;
      var timeout := WaitMs(timeoutMs, now);
      if failed {
        ghost var s2 := Snap();
        r := RunLeave(if errno == EINTR then 0 else -1);
        RemembersFailure(s0, s2, Snap());
        return r, None;
      }
      now := *;
      ghost var installed := Snap();
      ScanEvents(evs, now);
      ghost var scanned := Snap();
      ScannedKeeps(installed, scanned, evs, now);
      ExpireTimers(now);
      ExpiredKeeps(scanned, Snap(), now);
      ghost var collected := Snap();
      var cnt := DispatchReady();
      p := Some(Pass(installed, evs, now, scanned, collected, Snap()));
      r := RunLeave(cnt);
      RemembersPass(s0, p.value, Snap());
    }

    /** aloe_evb2_destroy */
    method Destroy()
      requires Inv(Snap()) && (inRun || finalized || Idle())
      modifies this
      ensures Inv(Snap())
      ensures old(inRun || finalized) ==> Snap() == old(Snap()).(stopping := true)
      ensures !old(inRun || finalized) ==>
                TornDown(old(Snap()).(stopping := true, inRun := true), Snap()) && Ended(Snap())
      ensures Remembers(old(Snap()), Snap())
    {
      StopStep(Snap());
      EnterKeeps(Snap().(stopping := true));
      hide Base, Classified, AgreesExcept, Step;
      ghost var s := Snap();
      RemembersItself(s);
      stopping := true;
      if inRun || finalized { return; }
      inRun := true;
      Finalize();
      RemembersTeardown(s.(stopping := true, inRun := true), Snap());
    }

    /** aloe_evb2_cancel_fd: every handle on `fd` that is on a list is freed, and no other handle changes.
        In particular the handle whose own callback makes the call is not cancelled. */
    method CancelFd(fd: int) returns (n: int)
      requires Inv(Snap())
      modifies this`heap, this`g, this`fdmon, this`timer, this`ready, this`async, this`interest
      ensures fd <= FD_TIMER || fd == pipeRead || fd == pipeWrite ==> n == -1 && Snap() == old(Snap())
      ensures !(fd <= FD_TIMER || fd == pipeRead || fd == pipeWrite) ==> n >= 0 && Swept(old(Snap()), Snap(), fd, n)
      ensures Inv(Snap()) && UserStep(old(Snap()), Snap()) && |async| <= |old(async)|
    {
      StepReflexive(Snap(), false);
      if fd <= FD_TIMER || fd == pipeRead || fd == pipeWrite { return -1; }
      hide Base, Classified, AgreesExcept, Step, SlotOf, Sweep, Swept;
      ghost var s := Snap();
      CoreNoDups(s);
      SweepStart(s, fd);
      n := CancelEach(s, fdmon, fd, 0);
      CoreNoDups(Snap());
      SweepNext(s, Snap(), timer, fd, n);
      n := CancelEach(s, timer, fd, n);
      CoreNoDups(Snap());
      SweepNext(s, Snap(), ready, fd, n);
      ReadyStillThere(s, Snap(), fd, n);
      n := CancelEach(s, ready, fd, n);
      SweepDone(s, Snap(), fd, n);
    }

    /** One of the three walks of aloe_evb2_cancel_fd; `next` is read before the handle is cancelled. */
    method CancelEach(ghost s: State, l: seq<Id>, fd: int, n0: int) returns (n: int)
      requires Inv(s) && Inv(Snap()) && fd >= 0 && Sweep(s, Snap(), l, fd, n0) && UserStep(s, Snap())
      modifies this`heap, this`g, this`fdmon, this`timer, this`ready, this`async, this`interest
      ensures Inv(Snap()) && UserStep(s, Snap()) && Sweep(s, Snap(), [], fd, n) && |async| <= |old(async)|
      ensures forall x: Id :: x in l || SweptSlot(s, old(Snap()), x, fd) ==> SweptSlot(s, Snap(), x, fd)
    {
      hide Base, Classified, AgreesExcept, Step, SlotOf, Sweep, SweptSlot, Evb2Ops.Cancel;
      ghost var s0 := Snap();
      var rest := l;
      n := n0;
      while rest != []
        invariant Inv(Snap()) && UserStep(s, Snap()) && Sweep(s, Snap(), rest, fd, n) && |async| <= |old(async)|
        invariant forall x: Id :: (x in l && x !in rest) || SweptSlot(s, s0, x, fd) ==> SweptSlot(s, Snap(), x, fd)
      {
        var h := rest[0];
        ghost var s1 := Snap();
        SweepHead(s, s1, rest, fd, n);
        if heap[h].fd == fd {
          var ctl: bool := *;
          if heap[h].internal {
            SweepSkip(s, s1, rest, fd, n);
            CancelInternal(s1, h, ctl);
          } else {
            SweepHit(s, s1, rest, fd, n, ctl);
          }
          var r := Cancel(h, ctl);
          StepTransitive(s, s1, Snap(), false);
          if r == 0 { n := n + 1; }
        } else {
          SweepSkip(s, s1, rest, fd, n);
        }
        rest := rest[1..];
      }
    }
  }

  // ---------------------------------------------------------------- nothing is forgotten

  /** A handle that was ever handed out stays in the history. */
  ghost predicate Remembers(s: State, s': State) {
    forall x: Id :: LifeOf(s.log, x) != Unknown ==> LifeOf(s'.log, x) != Unknown
  }

  lemma RemembersItself(s: State)
    ensures Remembers(s, s) && Remembers(s, s.(stopping := true))
  {}

  lemma {:induction false} KnownStays(log: seq<Event>, log': seq<Event>, x: Id)
    requires Extended(log, log') && LifeOf(log, x) != Unknown
    ensures LifeOf(log', x) != Unknown
    decreases |log'|
  {
    if |log| < |log'| {
      var n := |log'| - 1;
      assert log'[..n][..|log|] == log;
      KnownStays(log, log'[..n], x);
    } else {
      assert log' == log;
    }
  }

  lemma RemembersLog(s: State, s': State)
    requires Extended(s.log, s'.log)
    ensures Remembers(s, s')
  {
    hide LifeOf;
    forall x: Id | LifeOf(s.log, x) != Unknown ensures LifeOf(s'.log, x) != Unknown { KnownStays(s.log, s'.log, x); }
  }

  lemma RemembersStep(s: State, s': State, cancels: bool)
    requires Step(s, s', cancels)
    ensures Remembers(s, s')
  {
    hide SlotStep, SlotOf;
    RemembersLog(s, s');
  }

  lemma RemembersTeardown(s: State, s': State)
    requires TornDown(s, s')
    ensures Remembers(s, s')
  {
    hide Step, Inv, Remembers;
    var s1 := s.(finalized := true);
    RemembersStep(s1, s', true);
    SameLog(s, s1, s', s');
  }

  lemma SameLog(s: State, s1: State, t1: State, t: State)
    requires s.log == s1.log && t.log == t1.log && Remembers(s1, t1)
    ensures Remembers(s, t)
  {
    hide LifeOf;
  }

  lemma RemembersBoth(s: State, s1: State, s2: State)
    requires Remembers(s, s1) && Remembers(s1, s2)
    ensures Remembers(s, s2)
  {
    hide LifeOf;
  }

  lemma RemembersFailure(s0: State, s2: State, s': State)
    requires QuietStep(s0.(inRun := true), s2) && (TornDown(s2, s') || s' == s2.(inRun := false))
    ensures Remembers(s0, s')
  {
    hide Step, TornDown, Remembers;
    RemembersStep(s0.(inRun := true), s2, true);
    SameLog(s0, s0.(inRun := true), s2, s2);
    if TornDown(s2, s') { RemembersTeardown(s2, s'); } else { RemembersItself(s2); SameLog(s2, s2, s2, s'); }
    RemembersBoth(s0, s2, s');
  }

  lemma RemembersCollecting(p: Pass, before: State)
    requires PassOk(before, p)
    ensures Remembers(p.installed, p.collected)
  {
    hide LifeOf, Core, QuietStep, Step, PassSoFar, FirstHit;
    forall x: Id ensures LifeOf(p.installed.log, x) == LifeOf(p.collected.log, x) {
      assert SlotOf(p.scanned, x) == Scanned(SlotOf(p.installed, x), p.evs, p.now);
      assert SlotOf(p.collected, x) == Expired(SlotOf(p.scanned, x), p.now);
    }
  }

  lemma RemembersPass(before: State, p: Pass, s': State)
    requires PassOk(before, p) && (TornDown(p.done, s') || s' == p.done.(inRun := false))
    ensures Remembers(before, s')
  {
    RemembersCollecting(p, before);
    hide Step, TornDown, Remembers, Core, PassFor, ScannedUpTo, Expired, SlotOf, Extended;
    RemembersStep(before.(inRun := true), p.installed, true);
    SameLog(before, before.(inRun := true), p.installed, p.installed);
    RemembersBoth(before, p.installed, p.collected);
    RemembersLog(p.collected, p.done);
    RemembersBoth(before, p.collected, p.done);
    if TornDown(p.done, s') { RemembersTeardown(p.done, s'); } else {
        RemembersItself(p.done); SameLog(p.done, p.done, p.done, s'); }
    RemembersBoth(before, p.done, s');
  }

  lemma CancelInternal(s: State, h: Id, ctl: bool)
    requires Core(s) && h in s.heap && s.heap[h].internal
    ensures Evb2Ops.Cancel(s, h, ctl) == (s, -1)
  {}

  /** No list holds anything and no callback runs. */
  ghost predicate Ended(s: State) {
    s.fdmon == [] && s.timer == [] && s.ready == [] && s.async == [] && s.notifying == None && s.cancelling == None
  }

  const EMPTY: State := State(map[], 0, [], [], [], [], None, None, false, false, false, map[], {}, map[], 0, [], {})

  const INT_MAX: int := 0x7FFF_FFFF

  /** What one pass saw: the state after installing asynchronous timers, the epoll events and the clock
      reading it collected with, and the states after the scan, after expiry and after dispatch. */
  datatype Pass = Pass(installed: State, evs: seq<(int, set<EpollBit>)>, now: Time,
                       scanned: State, collected: State, done: State)

  ghost predicate PassOk(before: State, p: Pass) {
    && QuietStep(before.(inRun := true), p.installed) && p.installed.ready == [] && p.installed.async == []
    && Core(p.installed)
    && ScannedUpTo(p.installed, p.scanned, p.evs, p.now)
    && (forall x: Id :: SlotOf(p.collected, x) == Expired(SlotOf(p.scanned, x), p.now))
    && PassSoFar(p.collected, p.done) && p.done.ready == [] && Core(p.done)
  }

  ghost function Dispatches(p: Pass): int {
    UserCount(p.done.log, ReadyUsers(p.collected)) - UserCount(p.collected.log, ReadyUsers(p.collected))
  }

  /** Somewhere in evb2_finalize, which began in `s`. */
  ghost predicate Tearing(s: State, s': State) {
    && Inv(s') && QuietStep(s, s')
    && s'.finalized && s'.stopping && s'.inRun && s'.notifying == None && s'.cancelling == None
  }

  lemma TearingOn(s: State, s1: State, s2: State)
    requires Core(s) && Tearing(s, s1) && QuietStep(s1, s2) && Inv(s2)
    ensures Tearing(s, s2)
    ensures |s2.fdmon| <= |s1.fdmon| && |s2.timer| <= |s1.timer| && |s2.ready| <= |s1.ready| && |s2.async| <= |s1.async|
  {
    hide Base, Classified, AgreesExcept, SlotOf, SlotStep;
    SameCallback(s1, s2, true);
    StepTransitive(s, s1, s2, true);
  }

  lemma GoneStays(s: State, s': State, h: Id)
    requires QuietStep(s, s') && LifeOf(s.log, h) == Gone(true)
    ensures LifeOf(s'.log, h) == Gone(true)
  {
    assert SlotStep(SlotOf(s, h), SlotOf(s', h), s.stopping, s.finalized);
    hide LifeOf;
  }

  lemma ScannedKeeps(s: State, s': State, evs: seq<(int, set<EpollBit>)>, now: Time)
    requires ScannedUpTo(s, s', evs, now)
    ensures s'.cancelling == s.cancelling
  {
    hide LifeOf, FirstHit;
    assert forall x: Id :: SlotOf(s', x).cancelling == SlotOf(s, x).cancelling;
    assert s.cancelling.Some? ==> SlotOf(s', s.cancelling.value).cancelling;
    assert s'.cancelling.Some? ==> SlotOf(s', s'.cancelling.value).cancelling;
  }

  lemma ExpiredKeeps(s: State, s': State, now: Time)
    requires forall x: Id :: SlotOf(s', x) == Expired(SlotOf(s, x), now)
    ensures s'.cancelling == s.cancelling
  {
    hide LifeOf;
    assert forall x: Id :: SlotOf(s', x).cancelling == SlotOf(s, x).cancelling;
    assert s.cancelling.Some? ==> SlotOf(s', s.cancelling.value).cancelling;
    assert s'.cancelling.Some? ==> SlotOf(s', s'.cancelling.value).cancelling;
  }

  lemma EnterKeeps(s: State)
    requires Inv(s)
    ensures Inv(s.(inRun := true))
  {
    hide NoDup, TimersFit, LifeOf;
    assert SlotOk(SlotOf(s, 0));
    hide SlotOk;
    ClassifiedLocally(s, s.(inRun := true), 0);
  }

  lemma LeaveKeeps(s: State)
    requires Inv(s)
    ensures Inv(s.(inRun := false))
  {
    hide NoDup, TimersFit, LifeOf;
    assert SlotOk(SlotOf(s, 0));
    hide SlotOk;
    ClassifiedLocally(s, s.(inRun := false), 0);
  }

  lemma NoReadyYet(s: State, s': State)
    requires QuietStep(s, s') && s.ready == []
    ensures s'.ready == []
  {
    hide SlotOf;
  }

  lemma CoreNoDups(s: State)
    requires Core(s)
    ensures NoDups(s)
  {
    hide NoDup;
  }

  lemma ReadyHead(s: State)
    requires Core(s) && s.ready != []
    ensures s.ready[0] in s.heap
  {
    ListsAllocated(s);
  }

  lemma UnnotifyAllocated(s: State, h: Id, now: Time)
    requires Core(s) && h in s.heap
    ensures forall x :: x in Unnotify(s, h, now).fdmon ==> x in Unnotify(s, h, now).heap
    ensures forall x :: x in Unnotify(s, h, now).timer ==> x in Unnotify(s, h, now).heap
    ensures h in Unnotify(s, h, now).heap
  {
    ListsAllocated(s);
  }

  lemma NotifyingKept(s: State, s': State, h: Id)
    requires Core(s) && Core(s') && QuietStep(s, s') && s.notifying == Some(h)
    ensures h in s.heap && h in s'.heap && SameRegistration(s.heap[h], s'.heap[h])
  {
    hide LifeOf, NoDup, TimersFit;
    assert SlotStep(SlotOf(s, h), SlotOf(s', h), s.stopping, s.finalized);
    assert SlotOk(SlotOf(s, h)) && SlotOk(SlotOf(s', h));
  }

  lemma AgreesAfterAll(s: State, fd: int)
    requires EpollAgrees(s)
    ensures AgreesExcept(s, fd)
  {
    hide Wanted;
  }

  lemma ScanDone(s0: State, s: State, fd: int, e: set<EpollBit>, now: Time, ctl: bool)
    requires Scanning(s0, s, [], fd, e, now)
    ensures forall x: Id :: SlotOf(s, x) == Hit(SlotOf(s0, x), fd, e, now)
    ensures forall x: Id :: SlotOf(Refresh(s, fd, ctl), x) == Hit(SlotOf(s0, x), fd, e, now)
  {
    hide LifeOf, Hit, Wanted;
    assert forall x: Id :: SlotOf(Refresh(s, fd, ctl), x) == SlotOf(s, x);
  }

  lemma ScannedNothing(s: State, now: Time)
    ensures ScannedUpTo(s, s, [], now)
  {
    hide LifeOf;
  }

  lemma ToReadyAllocated(s: State, h: Id, noti: set<Flag>)
    requires Core(s) && h in s.heap
    ensures forall x :: x in ToReady(s, h, noti).fdmon ==> x in ToReady(s, h, noti).heap
  {
    ListsAllocated(s);
  }

  /** The head of the asynchronous list is a pending timer, and so are its fields. */
  lemma AsyncHead(s: State)
    requires Inv(s) && s.async != []
    ensures var h := s.async[0];
      && h in s.async && h in s.heap && OnList(SlotOf(s, h)) && s.notifying != Some(h)
      && h !in s.fdmon && h !in s.ready && h !in s.timer
      && Evb2Turns.Announce(Unpend(s, h), h) == BeginCancel(s, h)
      && (forall x :: x in s.timer ==> x in s.heap)
  {
    var h := s.async[0];
    assert h in s.async && SlotOk(SlotOf(s, h));
    ListsAllocated(s);
    WithoutAbsent(s.fdmon, h);
    WithoutAbsent(s.ready, h);
    WithoutAbsent(s.timer, h);
  }

  /** The slots that a callback runs for do not change under it. */
  lemma SameCallback(s: State, s': State, cancels: bool)
    requires Step(s, s', cancels)
    ensures s'.cancelling == s.cancelling && s'.notifying == s.notifying
    ensures s'.inRun == s.inRun && s'.finalized == s.finalized && (s.stopping ==> s'.stopping)
  {
    hide LifeOf;
    if s.cancelling.Some? { assert SlotStep(SlotOf(s, s.cancelling.value), SlotOf(s', s.cancelling.value), s.stopping,
        s.finalized); }
    if s'.cancelling.Some? { assert SlotStep(SlotOf(s, s'.cancelling.value), SlotOf(s', s'.cancelling.value),
        s.stopping, s.finalized); }
    if s.notifying.Some? { assert SlotStep(SlotOf(s, s.notifying.value), SlotOf(s', s.notifying.value), s.stopping,
        s.finalized); }
    if s'.notifying.Some? { assert SlotStep(SlotOf(s, s'.notifying.value), SlotOf(s', s'.notifying.value), s.stopping,
        s.finalized); }
  }

  lemma StopStep(s: State)
    requires Inv(s)
    ensures var s' := s.(stopping := true); Inv(s') && UserStep(s, s')
  {
    hide NoDup, TimersFit, LifeOf;
    assert SlotOk(SlotOf(s, 0));
    hide SlotOk;
    var s' := s.(stopping := true);
    ClassifiedLocally(s, s', 0);
    StepLocally(s, s', 0, false);
  }

  lemma ListsAllocated(s: State)
    requires Core(s)
    ensures forall h :: h in s.fdmon ==> h in s.heap
    ensures forall h :: h in s.timer ==> h in s.heap
    ensures forall h :: h in s.ready ==> h in s.heap
    ensures forall h :: h in s.async ==> h in s.heap
    ensures s.nextId !in s.heap
    ensures NoDup(s.fdmon)
  {
    forall h | h in s.fdmon || h in s.timer || h in s.ready || h in s.async ensures h in s.heap {
      assert SlotOk(SlotOf(s, h));
    }
    assert SlotOk(SlotOf(s, s.nextId));
  }

  lemma AdmittedFd(s: State, hd: Handle)
    requires hd.fd >= 0
    ensures Admitted(s, hd, true) == Enqueue(Refresh(WatchTail(Alloc(s, hd), s.nextId), hd.fd, true), s.nextId)
  {}

  lemma AllocHeap(s: State, hd: Handle)
    ensures Alloc(s, hd).heap == s.heap[s.nextId := hd] && Alloc(s, hd).timer == s.timer
  {}

  lemma {:induction false} DetachLast(s: seq<Id>, h: Id)
    requires NoDup(s) && h !in s
    ensures NoDup(s + [h]) && Without(s + [h], h) == s
  {
    NoDupAppend(s, h);
    if s != [] {
      assert (s + [h])[1..] == s[1..] + [h];
      DetachLast(s[1..], h);
    }
  }

  lemma DetachNew(l: seq<Id>, heap: map<Id, Handle>, h: Id, hd: Handle)
    requires NoDup(l) && h !in heap && (forall x :: x in l ==> x in heap)
    ensures NoDup(l + [h]) && Without(l + [h], h) == l && heap[h := hd] - {h} == heap
  {
    DetachLast(l, h);
  }

  ghost function Spliced(s: seq<Id>, i: nat, heap: map<Id, Handle>, h: Id): seq<Id>
    requires i <= |s|
  {
    s[..i] + Inserted(s[i..], heap, h)
  }

  lemma SplicedWhole(s: seq<Id>, heap: map<Id, Handle>, h: Id)
    ensures Spliced(s, 0, heap, h) == Inserted(s, heap, h)
  {
    assert s[0..] == s;
  }

  lemma SplicedFurther(s: seq<Id>, heap: map<Id, Handle>, h: Id, i: nat)
    requires i < |s| && Due(heap, s[i]) <= Due(heap, h)
    ensures Spliced(s, i, heap, h) == Spliced(s, i + 1, heap, h)
  {
    assert s[i..][1..] == s[i + 1..];
    var rest := Inserted(s[i + 1..], heap, h);
    assert Inserted(s[i..], heap, h) == [s[i]] + rest;
    hide Inserted;
    assert s[..i] + ([s[i]] + rest) == s[..i + 1] + rest;
  }

  lemma SplicedHere(s: seq<Id>, heap: map<Id, Handle>, h: Id, i: nat)
    requires i <= |s| && (i < |s| ==> Due(heap, h) < Due(heap, s[i]))
    ensures Spliced(s, i, heap, h) == s[..i] + [h] + s[i..]
  {
    assert i == |s| ==> s[i..] == [];
    assert i < |s| ==> s[i..][0] == s[i];
    assert Inserted(s[i..], heap, h) == [h] + s[i..];
  }

  lemma WantedIs(l: seq<Id>, heap: map<Id, Handle>, fd: int, evReq: set<Flag>, found: bool)
    requires forall h :: h in l ==> h in heap
    requires found <==> exists h :: h in l && heap[h].fd == fd
    requires evReq == set h, f | h in l && heap[h].fd == fd && f in heap[h].flag :: f
    ensures Wanted(l, heap, fd) == if found then Some(ToEpoll(evReq)) else None
  {
    assert forall h :: Watches(l, heap, h, fd) <==> h in l && heap[h].fd == fd;
    assert evReq == Requested(l, heap, fd);
  }
}
