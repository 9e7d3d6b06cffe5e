/** Bookkeeping for aloe_evb2_cancel_fd: which handles it frees. */
module Evb2Sweep {
  import opened Evb2Spec
  import opened Evb2Ops
  import opened Options

  predicate Listed(a: Slot) {
    a.fdmon || a.timer || a.ready
  }

  /** The handles aloe_evb2_cancel_fd is meant for. */
  predicate Target(a: Slot, fd: int) {
    a.handle.Some? && a.handle.value.fd == fd && !a.handle.value.internal && Listed(a)
  }

  function SweptTo(a: Slot): Slot {
    a.(handle := None, fdmon := false, timer := false, ready := false, life := Gone(false), released := true)
  }

  ghost predicate SweptSlot(s: State, s': State, x: Id, fd: int) {
    Target(SlotOf(s, x), fd) ==> SlotOf(s', x) == SweptTo(SlotOf(s, x))
  }

  ghost predicate UntouchedOrSwept(s: State, s': State, x: Id, fd: int) {
    SlotOf(s', x) == SlotOf(s, x) || (Target(SlotOf(s, x), fd) && SlotOf(s', x) == SweptTo(SlotOf(s, x)))
  }

  /** In the middle of a walk over `rest`, with `n` handles cancelled since state `s`. */
  ghost predicate Sweep(s: State, s': State, rest: seq<Id>, fd: int, n: int) {
    && NoDup(rest) && (forall x :: x in rest ==> Listed(SlotOf(s', x)))
    && (forall x: Id :: UntouchedOrSwept(s, s', x, fd))
    && n >= 0 && s.released <= s'.released && |s'.released| == |s.released| + n
  }

  /** aloe_evb2_cancel_fd from start to end: exactly the targets are freed, and they are counted. */
  ghost predicate Swept(s: State, s': State, fd: int, n: int) {
    && (forall x: Id :: SlotOf(s', x) == if Target(SlotOf(s, x), fd) then SweptTo(SlotOf(s, x)) else SlotOf(s, x))
    && s.released <= s'.released && |s'.released| == |s.released| + n
  }

  lemma CancelListedSlots(s: State, h: Id, ctl: bool)
    requires Core(s) && h in s.heap && !s.heap[h].internal && Listed(SlotOf(s, h))
    ensures var (s', r) := Cancel(s, h, ctl);
      r == 0 && SameElsewhere(s, s', h) && SlotOf(s', h) == SweptTo(SlotOf(s, h))
      && h !in s.released && s'.released == s.released + {h}
  {
    assert SlotOk(SlotOf(s, h));
    DropKeeps(s, h);
    ReleaseLast(s, h, s.heap[h].fd, ctl);
    hide LifeOf, NoDup, TimersFit, Wanted, NewInterest, NewSuspect;
    var d := Drop(s, h);
    var s' := Refresh(d, s.heap[h].fd, ctl);
    assert forall x: Id :: SlotOf(s', x) == SlotOf(d, x);
  }

  lemma SweepHead(s: State, s1: State, rest: seq<Id>, fd: int, n: int)
    requires Core(s1) && Sweep(s, s1, rest, fd, n) && rest != []
    ensures rest[0] in s1.heap
  {
    assert rest[0] in rest && SlotOk(SlotOf(s1, rest[0]));
    hide LifeOf;
  }

  lemma SweepSkip(s: State, s1: State, rest: seq<Id>, fd: int, n: int)
    requires Core(s1) && Sweep(s, s1, rest, fd, n) && rest != [] && rest[0] in s1.heap
    requires s1.heap[rest[0]].fd != fd || s1.heap[rest[0]].internal
    ensures Sweep(s, s1, rest[1..], fd, n) && SweptSlot(s, s1, rest[0], fd)
  {
    hide LifeOf;
    assert UntouchedOrSwept(s, s1, rest[0], fd);
  }

  lemma SweepHit(s: State, s1: State, rest: seq<Id>, fd: int, n: int, ctl: bool)
    requires Core(s1) && Sweep(s, s1, rest, fd, n) && rest != [] && rest[0] in s1.heap
    requires s1.heap[rest[0]].fd == fd && !s1.heap[rest[0]].internal
    ensures var (s2, r) := Cancel(s1, rest[0], ctl);
      r == 0 && Sweep(s, s2, rest[1..], fd, n + 1) && SweptSlot(s, s2, rest[0], fd)
      && forall x: Id :: SweptSlot(s, s1, x, fd) ==> SweptSlot(s, s2, x, fd)
  {
    var h := rest[0];
    var s2 := Cancel(s1, h, ctl).0;
    assert h in rest;
    CancelListedSlots(s1, h, ctl);
    hide LifeOf, Core, Cancel;
    assert UntouchedOrSwept(s, s1, h, fd);
    assert SlotOf(s1, h) == SlotOf(s, h);
    forall x: Id ensures UntouchedOrSwept(s, s2, x, fd) {
      assert UntouchedOrSwept(s, s1, x, fd);
      if x != h { assert SlotOf(s2, x) == SlotOf(s1, x); }
    }
    forall x: Id | SweptSlot(s, s1, x, fd) ensures SweptSlot(s, s2, x, fd) {
      if x != h { assert SlotOf(s2, x) == SlotOf(s1, x); }
    }
    forall x | x in rest[1..] ensures Listed(SlotOf(s2, x)) {
      assert x in rest && SlotOf(s2, x) == SlotOf(s1, x);
    }
  }

  lemma SweepStart(s: State, fd: int)
    requires NoDups(s)
    ensures Sweep(s, s, s.fdmon, fd, 0)
  {
    hide LifeOf;
  }

  lemma SweepNext(s: State, s1: State, l: seq<Id>, fd: int, n: int)
    requires NoDups(s1) && Sweep(s, s1, [], fd, n) && (l == s1.timer || l == s1.ready)
    ensures Sweep(s, s1, l, fd, n)
  {
    hide LifeOf;
  }

  lemma SweepDone(s: State, s1: State, fd: int, n: int)
    requires Core(s) && fd >= 0 && Sweep(s, s1, [], fd, n)
    requires forall x :: x in s.fdmon ==> SweptSlot(s, s1, x, fd)
    requires forall x :: x in s.ready && x !in s.fdmon ==> SweptSlot(s, s1, x, fd)
    ensures Swept(s, s1, fd, n)
  {
    forall x: Id
      ensures SlotOf(s1, x) == if Target(SlotOf(s, x), fd) then SweptTo(SlotOf(s, x)) else SlotOf(s, x)
    {
      hide LifeOf, NoDup, TimersFit;
      assert UntouchedOrSwept(s, s1, x, fd) && SlotOk(SlotOf(s, x));
    }
  }

  /** Before the walk over the ready list, a target that was there is still there or already freed. */
  lemma ReadyStillThere(s: State, s1: State, fd: int, n: int)
    requires Sweep(s, s1, [], fd, n)
    ensures forall x :: x in s.ready && x !in s1.ready ==> SweptSlot(s, s1, x, fd)
  {
    hide LifeOf;
    forall x | x in s.ready && x !in s1.ready ensures SweptSlot(s, s1, x, fd) {
      assert UntouchedOrSwept(s, s1, x, fd);
    }
  }
}
