/** What each call of package/aloe/include/aloe/evb2.h does for its caller, in the caller's terms. */
module Evb2Calls {
  import opened Evb2Spec
  import opened Evb2Ops
  import opened Evb2Turns
  import opened Options

  /** Only the handle `h` is different. */
  ghost predicate OnlyThat(s: State, s': State, h: Id) {
    && (forall x :: x in s'.heap && x != h ==> x in s.heap && s'.heap[x] == s.heap[x])
    && (forall x :: x in s.heap && x != h ==> x in s'.heap)
    && forall x :: x != h ==>
        && (x in s'.fdmon <==> x in s.fdmon) && (x in s'.timer <==> x in s.timer)
        && (x in s'.ready <==> x in s.ready) && (x in s'.async <==> x in s.async)
  }

  /** The call has no effect but that it may use up an identity. */
  ghost predicate Nothing(s: State, s': State) {
    s' == s || s' == s.(nextId := s.nextId + 1)
  }

  /** What a handle is registered for. */
  ghost predicate For(hd: Handle, fd: int, req: set<Flag>, oneshot: bool) {
    hd.fd == fd && hd.flag == req && hd.oneshot == oneshot && !hd.dead && !hd.internal && hd.noti == {}
  }

  lemma ElsewhereIsOnlyThat(s: State, s': State, h: Id)
    requires SameElsewhere(s, s', h)
    ensures OnlyThat(s, s', h)
  {
    hide LifeOf;
    forall x: Id | x != h
      ensures (x in s.heap <==> x in s'.heap) && (x in s.heap ==> s'.heap[x] == s.heap[x])
      ensures (x in s'.fdmon <==> x in s.fdmon) && (x in s'.timer <==> x in s.timer)
          && (x in s'.ready <==> x in s.ready) && (x in s'.async <==> x in s.async)
    {
      assert SlotOf(s, x) == SlotOf(s', x);
    }
  }

  /** aloe_evb2_add_fd and aloe_evb2_add_timer: accepted unless the context is ending, there is no callback, the
      arguments ask for nothing, or epoll refuses; then the handle is new, waits for what was asked, and is due `ms`
          after now. */
  lemma AddGives(s: State, hasCb: bool, fd: int, req: set<Flag>, ms: Time, oneshot: bool, now: Time, ctl: bool)
    requires Inv(s)
    ensures var (s', r) := AddFd(s, hasCb, fd, req, ms, oneshot, now, ctl);
      && (r.Some? <==> !s.stopping && !s.finalized && hasCb
                       && if fd == -1 then ms < INFINITE else fd >= 0 && ctl)
      && (r.None? ==> Nothing(s, s'))
      && (r.Some? ==>
            && r.value !in s.heap && r.value in s'.heap && OnlyThat(s, s', r.value)
            && var h, hd := r.value, s'.heap[r.value];
              && For(hd, fd, req, oneshot) && hd.timeoutMs == ms && Lasts(ms, now, hd.timeoutAt)
              && (h in s'.fdmon <==> fd >= 0) && (h in s'.timer <==> hd.timeoutAt < MAX)
              && h !in s'.ready && h !in s'.async)
  {
    hide NoDup, TimersFit, EpollAgrees, LifeOf, Admitted, Register, Refresh, ContextStep;
    if AddAccepted(s, hasCb, fd, ms) && (fd < 0 || ctl) {
      var hd := Handle(fd, req, ms, Deadline(ms, now), now, oneshot, false, false, {});
      RegisterKeeps(s, hd);
      RegisterRefreshed(s, hd, ctl);
      RefreshLists(Register(s, hd), fd, ctl);
      ElsewhereIsOnlyThat(s, Register(s, hd), s.nextId);
    }
  }

  lemma RefreshLists(s: State, fd: int, ctl: bool)
    ensures var s' := Refresh(s, fd, ctl);
      s'.heap == s.heap && s'.fdmon == s.fdmon && s'.timer == s.timer && s'.ready == s.ready && s'.async == s.async
  {
    hide NewInterest, NewSuspect, Wanted;
  }

  /** aloe_evb2_add_oneshot_timer, from any thread. */
  lemma SubmitGives(s: State, hasCb: bool, ms: Time, now: Time)
    requires Inv(s)
    ensures var (s', r) := AddOneshotTimer(s, hasCb, ms, now);
      && (r.Some? <==> !s.stopping && !s.finalized && hasCb && ms < INFINITE)
      && (r.None? ==> Nothing(s, s'))
      && (r.Some? ==>
            && r.value !in s.heap && r.value in s'.heap && OnlyThat(s, s', r.value)
            && var h, hd := r.value, s'.heap[r.value];
              && For(hd, -1, {}, true) && hd.timeoutMs == ms && Lasts(ms, now, hd.timeoutAt)
              && h in s'.async && h !in s'.fdmon && h !in s'.timer && h !in s'.ready)
  {
    hide NoDup, TimersFit, EpollAgrees, LifeOf, ContextStep;
    if hasCb && ms != INFINITE && !s.stopping && !s.finalized {
      var hd := Handle(FD_TIMER, {}, ms, Deadline(ms, now), now, true, false, false, {});
      SubmitKeeps(s, hd);
      ElsewhereIsOnlyThat(s, Submit(s, hd), s.nextId);
    }
  }

  /** aloe_evb2_set_timeout of a valid handle: its timeout starts anew at once, in force for the timer list only
      while the handle waits there. */
  lemma RetimeGives(s: State, h: Id, ms: Time, now: Time)
    requires Inv(s) && h in s.heap && s.cancelling != Some(h)
    ensures var (s', r) := SetTimeout(s, h, ms, now);
      var a := s.heap[h];
      && (r == 0 <==> !s.stopping && !s.finalized && !a.internal && !a.dead && (a.fd >= 0 || ms < INFINITE))
      && (r != 0 ==> r == -1 && s' == s)
      && (r == 0 ==>
            && h in s'.heap && OnlyThat(s, s', h)
            && var hd := s'.heap[h];
              && hd == a.(timeoutMs := ms, timeoutAt := hd.timeoutAt, armedAt := now) && Lasts(ms, now, hd.timeoutAt)
              && (h in s'.fdmon <==> h in s.fdmon) && (h in s'.ready <==> h in s.ready)
              && (h in s'.async <==> h in s.async)
              && (h in s'.timer <==> hd.timeoutAt < MAX && h !in s.ready && h !in s.async && s.notifying != Some(h)))
  {
    hide NoDup, TimersFit, EpollAgrees, LifeOf, ContextStep, Requeue;
    var hd := s.heap[h].(timeoutMs := ms, timeoutAt := Deadline(ms, now), armedAt := now);
    assert SlotOk(SlotOf(s, h));
    if RetimeAccepted(s, h, ms) {
      if s.notifying == Some(h) || h in s.async || h in s.ready {
        AssignKeeps(s, h, hd);
        ElsewhereIsOnlyThat(s, Assign(s, h, hd), h);
      } else {
        RequeueKeeps(s, h, hd);
        assert SlotOf(Requeue(s, h, hd), h).handle == Some(hd);
        ElsewhereIsOnlyThat(s, Requeue(s, h, hd), h);
      }
    }
  }

  /** aloe_evb2_cancel of a valid handle: from its own callback it only asks for the free that follows; on a list it is
      freed; an internal handle, and one on no list, is refused. */
  lemma CancelGives(s: State, h: Id, ctl: bool)
    requires Inv(s) && h in s.heap
    ensures var (s', r) := Cancel(s, h, ctl);
      if s.heap[h].internal then r == -1 && s' == s
      else if s.notifying == Some(h) then
        r == 0 && OnlyThat(s, s', h) && h in s'.heap && s'.heap[h] == s.heap[h].(dead := true)
      else if h in s.fdmon || h in s.timer || h in s.ready || h in s.async then
        r == 0 && OnlyThat(s, s', h) && h !in s'.heap && LifeOf(s'.log, h) == Gone(false)
        && h !in s'.fdmon && h !in s'.timer && h !in s'.ready && h !in s'.async
      else r == -1 && s' == s
  {
    hide NoDup, TimersFit, EpollAgrees, LifeOf, ContextStep, Drop, Detach, Unpend, Release, Refresh;
    assert SlotOk(SlotOf(s, h));
    var hd := s.heap[h];
    if hd.internal {
    } else if s.notifying == Some(h) {
      AssignKeeps(s, h, hd.(dead := true));
      ElsewhereIsOnlyThat(s, Assign(s, h, hd.(dead := true)), h);
    } else if h in s.async || h in s.fdmon || h in s.ready || h in s.timer {
      DropKeeps(s, h);
      ElsewhereIsOnlyThat(s, Drop(s, h), h);
      RefreshLists(Drop(s, h), hd.fd, ctl);
      RefreshLog(Drop(s, h), hd.fd, ctl);
      if h in s.async { UnpendOnly(s, h); } else { ReleaseLast(s, h, hd.fd, ctl); }
      assert SlotOf(Drop(s, h), h).life == Gone(false);
    }
  }

  lemma RefreshLog(s: State, fd: int, ctl: bool)
    ensures Refresh(s, fd, ctl).log == s.log
  {
    hide NewInterest, NewSuspect, Wanted;
  }

  /** A persistent handle after its callback waits again for what it was registered for, and is due its timeout, or a
      millisecond if it has none, after now. */
  lemma RearmGives(s: State, h: Id, now: Time)
    requires Inv(s) && s.notifying == Some(h) && s.cancelling == None && h in s.heap
    ensures var s', a := EndWithRearm(s, h, now), s.heap[h];
      && OnlyThat(s, s', h) && s'.notifying == None && h in s'.heap
      && var hd := s'.heap[h];
        && hd == a.(noti := {}, timeoutAt := hd.timeoutAt, armedAt := now)
        && Lasts(if a.timeoutMs == 0 then 1 else a.timeoutMs, now, hd.timeoutAt)
        && (h in s'.fdmon <==> a.fd >= 0) && (h in s'.timer <==> hd.timeoutAt < MAX)
        && h !in s'.ready && h !in s'.async
  {
    assert SlotOk(SlotOf(s, h));
    var s0 := Unnotify(s, h, now);
    UnnotifyKeeps(s, h, now);
    EnqueueKeeps(s0, h);
    hide NoDup, TimersFit, LifeOf, EpollAgrees, Inserted;
    SameElsewhereTransitive(s, s0, Enqueue(s0, h), h);
    ElsewhereIsOnlyThat(s, Enqueue(s0, h), h);
  }
}
