/** How a tried network ends, and the interleavings that defeat the failsafe
    (package/tester1/app_network.c:28-97, 714-783, 926-944). */
module WifiRuns {
  import opened WifiConf
  import opened WifiSafety
  import opened WifiSpec
  import opened Options

  // ---------------------------------------------------------------- the state diagram

  /** The files and wpa_supplicant are left alone. */
  predicate Untouched(s: State, r: State) {
    r.files == s.files && r.wpa == s.wpa
  }

  /** INIT, PROVISIONING and CONNECTED: each waits for one thing, and then goes to RESET. */
  lemma WaitingStations(s: State, e: Env)
    requires s.thread == Looping && !s.requestReset && s.station in {Init, Provisioning, Connected}
    ensures var r := LoopTurn(s, e);
      && Untouched(s, r)
      && r.station ==
          if s.station == Init then if e.iface then Reset else Init
          else if s.station == Provisioning then if Usable(s.official) then Reset else Provisioning
          else if e.linked && e.ip then Connected else Reset
  {
    hide Usable;
  }

  /** RESET: the try file, else the official one, is started, with thirty seconds to connect; else the access point.  A
      requested reset comes here from anywhere. */
  lemma ResetStation(s: State, e: Env)
    requires s.thread == Looping && (s.requestReset || s.station == Reset)
    ensures var r := LoopTurn(s, e);
      var conf := if Usable(s.attempt) then s.attempt else if Usable(s.official) then s.official else None;
      && !r.requestReset && r.official == s.official && r.attempt == s.attempt
      && (conf.Some? ==>
            if e.wpaStarts then
              r.station == Connecting && r.wpa == conf && r.deadline == e.later + 30
            else r.station == Reset && r.wpa == None)
      && (conf.None? ==> r.wpa == None && r.station == if e.apStarts then Provisioning else Reset)
  {
    MissingIsUnusable();
    hide Usable;
  }

  /** CONNECTING and IPSETUP: success goes on; a timeout drops the try, or without one tries again. */
  lemma TryingStations(s: State, e: Env)
    requires s.thread == Looping && !s.requestReset && s.station in {Connecting, IpSetup}
    ensures var r, late := LoopTurn(s, e), s.deadline != 0 && e.now >= s.deadline;
      var dropped := r.official == s.official && r.attempt == if e.unlinks then None else s.attempt;
      && r.wpa == s.wpa
      && if s.station == Connecting then
          if e.linked then r.station == IpSetup && r.deadline == e.later + 30 && Untouched(s, r)
          else if late then r.station == Reset && dropped
          else r == s
        else if e.ip then
          && r.station == Connected
          && if Usable(s.attempt) && e.renames then r.official == s.attempt && r.attempt == None
             else r.official == s.official && r.attempt == s.attempt
        else if late then
          if Usable(s.attempt) then r.station == Reset && dropped
          else r.station == Connecting && r.deadline == e.later + 30 && Untouched(s, r)
        else r == s
  {
    MissingIsUnusable();
    hide Usable, Moved, Renamed;
  }

  // ---------------------------------------------------------------- how long a try takes

  /** Turns of the loop with nothing in between or inside (WifiSpec.TurnIsAccesses). */
  function Turns(s: State, es: seq<Env>): State
    decreases |es|
  {
    if es == [] then s else Turns(LoopTurn(s, es[0]), es[1..])
  }

  /** Between two turns the loop sleeps for a second, and at most `d` seconds pass from turn to turn. */
  predicate Paced(es: seq<Env>, now: int, later: int, d: int) {
    es == [] || (later < es[0].now <= now + d && es[0].now <= es[0].later && Paced(es[1..], es[0].now, es[0].later, d))
  }

  /** unlink and rename succeed. */
  predicate FilesWork(es: seq<Env>) {
    es == [] || (es[0].unlinks && es[0].renames && FilesWork(es[1..]))
  }

  /** A network from the try file is being tried. */
  predicate Trying(s: State) {
    s.thread == Looping && !s.requestReset && (s.station == Connecting || s.station == IpSetup) && Usable(s.attempt)
        && s.deadline != 0
  }

  /** The try is over: committed, or dropped with the official file as it was. */
  predicate Resolved(s: State, r: State) {
    && r.attempt == None
    && ((r.station == Connected && r.official == s.attempt)
        || (r.station == Reset && r.official == s.official))
  }

  /** Seconds left before the current deadline, and the stations still ahead: every turn of a try that does
      not end it makes this pair smaller. */
  function Stage(s: State): nat {
    if s.station == Connecting then 1 else 0
  }

  function Left(s: State, clock: int): nat {
    if s.deadline > clock then s.deadline - clock else 0
  }

  /** A turn of a try ends it, or keeps both files and the deadline, or goes from CONNECTING to IPSETUP. */
  lemma TurnBounds(s: State, e: Env, clock: int)
    requires Trying(s) && clock < e.now <= e.later && e.unlinks && e.renames && e.later > 0
    ensures var r := LoopTurn(s, e);
      || Resolved(s, r)
      || (Trying(r) && r.attempt == s.attempt && r.official == s.official
          && if r.station == s.station then r.deadline == s.deadline && e.now < s.deadline
             else s.station == Connecting && r.deadline == e.later + IPSETUP_TIMEOUT)
  {
    MissingIsUnusable();
    hide Usable;
  }

  lemma TurnProgress(s: State, e: Env, clock: int)
    requires Trying(s) && clock < e.now <= e.later && e.unlinks && e.renames && e.later > 0
    ensures var r := LoopTurn(s, e);
      Resolved(s, r) || (Trying(r) && (Stage(r) < Stage(s)
          || (Stage(r) == Stage(s) && Left(r, e.later) < Left(s, clock))))
  {
    TurnBounds(s, e, clock);
    hide LoopTurn, Usable;
    var r := LoopTurn(s, e);
    if !Resolved(s, r) {
      assert Trying(r);
      if r.station == s.station {
        assert Left(s, clock) == s.deadline - clock;
        assert Left(r, e.later) < Left(s, clock);
      } else {
        assert Stage(r) < Stage(s);
      }
    }
  }

  /** The turns a try may still need. */
  function Budget(s: State, clock: int): nat {
    (if Left(s, clock) == 0 then 1 else Left(s, clock)) + if s.station == Connecting then IPSETUP_TIMEOUT else 0
  }

  /** With files that work, a try ends within its budget of turns. */
  lemma {:induction false} TryEnds(s: State, es: seq<Env>, now: int, clock: int, d: int) returns (k: nat)
    requires Trying(s) && Paced(es, now, clock, d) && FilesWork(es) && clock >= 0 && |es| >= Budget(s, clock)
    ensures 0 < k <= Budget(s, clock) && k <= |es| && Resolved(s, Turns(s, es[..k]))
    decreases |es|
  {
    var e := es[0];
    var r := LoopTurn(s, e);
    TurnBounds(s, e, clock);
    assert es[..1] == [e] && Turns(s, [e]) == Turns(r, []) == r;
    if Resolved(s, r) {
      k := 1;
    } else {
      hide LoopTurn, Usable;
      var j := TryEnds(r, es[1..], e.now, e.later, d);
      k := j + 1;
      assert es[..k][0] == e && es[..k][1..] == es[1..][..j];
    }
  }

  /** RESET has just started wpa_supplicant with the try file, at `clock`. */
  predicate JustStarted(s: State, clock: int) {
    Trying(s) && s.station == Connecting && s.deadline == clock + CONNECT_TIMEOUT && s.wpa == s.attempt
  }

  /** What RESET does with a usable try file. */
  lemma ResetStarts(s: State, e: Env)
    requires s.thread == Looping && (s.requestReset || s.station == Reset) && Usable(s.attempt) && e.wpaStarts
        && e.later >= 0
    ensures JustStarted(LoopTurn(s, e), e.later) && LoopTurn(s, e).official == s.official
        && LoopTurn(s, e).attempt == s.attempt
  {
    assert s.attempt.Some?;
    hide Usable;
  }

  /** A started try is committed or removed within the two timeouts counted in turns of at least a second;
      when it is removed, the next RESET goes to the official file or to access-point mode. */
  lemma TryIsResolved(s: State, es: seq<Env>, now: int, clock: int, d: int) returns (k: nat)
    requires JustStarted(s, clock) && Paced(es, now, clock, d) && FilesWork(es) && clock >= 0
    requires |es| >= CONNECT_TIMEOUT + IPSETUP_TIMEOUT
    ensures k <= CONNECT_TIMEOUT + IPSETUP_TIMEOUT && k <= |es|
    ensures var r := Turns(s, es[..k]);
      && r.attempt == None
      && (r.station == Connected || r.station == Reset)
      && (r.station == Connected ==> r.official == s.attempt)
      && (r.station == Reset ==>
            r.official == s.official && Choice(r) == if Usable(s.official) then s.official else None)
  {
    k := TryEnds(s, es, now, clock, d);
    assert !Usable(None);
  }

  /** The clock of the last turn. */
  function LastNow(es: seq<Env>, now: int): int {
    if es == [] then now else es[|es| - 1].now
  }

  /** A try that no turn has ended yet. */
  predicate StillTrying(s: State, es: seq<Env>)
    decreases |es|
  {
    es == [] || (!Resolved(s, LoopTurn(s, es[0])) && StillTrying(LoopTurn(s, es[0]), es[1..]))
  }

  lemma {:induction false} IpSetupInTime(s: State, es: seq<Env>, now: int, clock: int, d: int)
    requires Trying(s) && s.station == IpSetup && Paced(es, now, clock, d) && FilesWork(es) && clock >= 0
    requires StillTrying(s, es) && now < s.deadline
    ensures LastNow(es, now) < s.deadline
    decreases |es|
  {
    if es != [] {
      TurnBounds(s, es[0], clock);
      hide LoopTurn, Usable;
      assert es[1..] != [] ==> es[1..][|es[1..]| - 1] == es[|es| - 1];
      IpSetupInTime(LoopTurn(s, es[0]), es[1..], es[0].now, es[0].later, d);
    }
  }

  /** Measured on the clock: a try that is still going on is younger than the two timeouts and two turns. */
  lemma {:induction false} TryInTime(s: State, es: seq<Env>, now: int, clock: int, d: int)
    requires Trying(s) && s.station == Connecting && Paced(es, now, clock, d) && FilesWork(es) && clock >= 0 && d >= 0
    requires StillTrying(s, es) && now < s.deadline
    ensures LastNow(es, now) < s.deadline + IPSETUP_TIMEOUT + 2 * d
    decreases |es|
  {
    if es != [] {
      var r := LoopTurn(s, es[0]);
      TurnBounds(s, es[0], clock);
      hide LoopTurn, Usable;
      assert es[1..] != [] ==> es[1..][|es[1..]| - 1] == es[|es| - 1];
      if r.station == Connecting {
        TryInTime(r, es[1..], es[0].now, es[0].later, d);
      } else if es[1..] != [] {
        assert es[0].later < es[1].now <= es[0].now + d;
        IpSetupInTime(r, es[1..], es[0].now, es[0].later, d);
      }
    }
  }

  /** The condition on unlink is needed: after a try that timed out, the next RESET tries the same credentials again
      exactly if unlink failed, or if they are the official ones. */
  lemma FailedUnlinkTriesAgain(s: State, e: Env)
    requires Trying(s) && TimedOut(s, e) && (if s.station == Connecting then !e.linked else !e.ip)
    ensures var r := LoopTurn(s, e);
      r.station == Reset && (Choice(r) == s.attempt <==> !e.unlinks || s.official == s.attempt)
  {
    MissingIsUnusable();
    hide Usable;
  }

  // ---------------------------------------------------------------- the race

  const CALM := Env(1, 1, true, true, true, true, true, true, true)

  function Manager(a: File, station: Station, place: Place, deadline: int, attempt: File, wpa: File,
      reset: bool): State {
    State(true, Looping, reset, station, deadline, Files(a, attempt, map[], attempt.Some?, true), wpa, place)
  }

  /** `f` has neither been given to app_wifi_provision nor been seen to work. */
  predicate Unproven(s: State, evs: seq<Event>, f: File) {
    !Granted(s, evs, f) && !Seen(s, evs, f)
  }

  /** One more event. */
  lemma Follow(s: State, evs: seq<Event>, ev: Event, f: File, now: State, next: State) returns (evs': seq<Event>)
    requires Run(s, evs) == now && Step(now, ev) == next && now.wpa != f
    ensures evs' == evs + [ev] && Run(s, evs') == next
    ensures Granted(s, evs', f) == (Granted(s, evs, f) || Grants(ev, f)) && Seen(s, evs', f) == Seen(s, evs, f)
  {
    evs' := evs + [ev];
    RunSnoc(s, evs, ev);
    JustifiedSnoc(s, evs, ev, f);
    hide Step, Run, Granted, Seen;
  }

  /** One more event that proves nothing of `f`. */
  lemma Extend(s: State, evs: seq<Event>, ev: Event, f: File, now: State, next: State) returns (evs': seq<Event>)
    requires Unproven(s, evs, f) && Run(s, evs) == now && Step(now, ev) == next && !Grants(ev, f) && now.wpa != f
    ensures evs' == evs + [ev] && Run(s, evs') == next && Unproven(s, evs', f)
  {
    hide Step, Run, Granted, Seen;
    evs' := Follow(s, evs, ev, f, now, next);
  }

  /** From the start to waiting for an address with the official network. */
  lemma ReachIpSetup(a: File, f: File) returns (s: State, evs: seq<Event>)
    requires Usable(a) && f != a && f.Some?
    ensures Fresh(s) && s.official == a && Unproven(s, evs, f)
        && Run(s, evs) == Manager(a, IpSetup, Top, 31, None, a, false)
  {
    s := State(false, Off, false, Init, 0, Files(a, None, map[], false, true), None, Top);
    MissingIsUnusable();
    evs := [];
    NothingYet(s, f);
    var s1, s2 := s.(thread := Created), s.(thread := Created, running := true);
    hide Usable, Run, Granted, Seen, Unproven;
    evs := Extend(s, evs, Create(true), f, s, s1);
    evs := Extend(s, evs, Announce, f, s1, s2);
    evs := Extend(s, evs, ThreadStart(true), f, s2, Manager(a, Init, Top, 0, None, None, false));
    evs := ToReset(s, evs, a, f);
    evs := ToConnecting(s, evs, a, f);
    var c := Manager(a, Connecting, Handling, 31, None, a, false);
    evs := Extend(s, evs, Act(CALM), f, c.(place := Top), c);
    evs := Extend(s, evs, Act(CALM), f, c, Manager(a, IpSetup, Top, 31, None, a, false));
  }

  lemma NothingYet(s: State, f: File)
    requires f != s.official
    ensures Unproven(s, [], f) && Run(s, []) == s
  {}

  lemma ToReset(s: State, evs0: seq<Event>, a: File, f: File) returns (evs: seq<Event>)
    requires Unproven(s, evs0, f) && Run(s, evs0) == Manager(a, Init, Top, 0, None, None, false) && f.Some?
    ensures Unproven(s, evs, f) && Run(s, evs) == Manager(a, Reset, Top, 0, None, None, false)
  {
    hide Usable, Run, Unproven;
    var m := Manager(a, Init, Handling, 0, None, None, false);
    evs := Extend(s, evs0, Act(CALM), f, m.(place := Top), m);
    evs := Extend(s, evs, Act(CALM), f, m, Manager(a, Reset, Top, 0, None, None, false));
  }

  lemma ToConnecting(s: State, evs0: seq<Event>, a: File, f: File) returns (evs: seq<Event>)
    requires Unproven(s, evs0, f) && Run(s, evs0) == Manager(a, Reset, Top, 0, None, None, false) && f.Some?
        && Usable(a)
    ensures Unproven(s, evs, f) && Run(s, evs) == Manager(a, Connecting, Top, 31, None, a, false)
  {
    MissingIsUnusable();
    assert a.Some?;
    hide Usable, Run, Unproven;
    var m := Manager(a, Reset, Handling, 0, None, None, false);
    evs := Extend(s, evs0, Act(CALM), f, m.(place := Top), m);
    evs := Extend(s, evs, Act(CALM), f, m, m.(place := TryUnusable));
    evs := Extend(s, evs, Act(CALM), f, m.(place := TryUnusable), m.(place := Starting(false)));
    evs := Extend(s, evs, Act(CALM), f, m.(place := Starting(false)), Manager(a, Connecting, Top, 31, None, a, false));
  }

  /** A handler of IPSETUP that sees an address and a try file commits it. */
  lemma ToCommit(s: State, evs0: seq<Event>, a: File, f: File, reset: bool) returns (evs: seq<Event>)
    requires Unproven(s, evs0, f) && Run(s, evs0) == Manager(a, IpSetup, Handling, 31, f, a, reset)
    requires Usable(f) && f != a
    ensures Unproven(s, evs, f) && Run(s, evs).official == f
  {
    MissingIsUnusable();
    assert f.Some?;
    hide Usable, Run, Unproven;
    var m := Manager(a, IpSetup, Handling, 31, f, a, reset);
    evs := Extend(s, evs0, Act(CALM), f, m, m.(place := Addressed));
    evs := Extend(s, evs, Act(CALM), f, m.(place := Addressed), m.(place := Committing));
    evs := Extend(s, evs, Act(CALM), f, m.(place := Committing), m.(place := Renaming));
    var n := Step(m.(place := Renaming), Act(CALM));
    evs := Extend(s, evs, Act(CALM), f, m.(place := Renaming), n);
  }

  /** A whole failsafe call but for its last access, with nothing in between. */
  lemma FailsafeCall(s: State, evs0: seq<Event>, ssid: Option<Text>, password: Option<Text>, f: File, m: State)
      returns (evs: seq<Event>)
    requires Unproven(s, evs0, f) && Run(s, evs0) == m && m.writers == map[] && m.wpa != f
    requires f.Some? && f == Provisioned(ssid, password)
    ensures Unproven(s, evs, f) && Run(s, evs) == m.(files := Files(m.official, f, map[], true, true))
  {
    hide Run, Unproven, Provisioned, Opened, AfterRename, Closed;
    var t := f.value;
    CallByItself(m.files, 1, t, true);
    var m1 := m.(files := m.files.(writers := map[1 := Writer(t, true, false, Temporary)]));
    var m2 := m.(files := Files(m.official, Some([]), map[1 := Writer(t, true, true, Try)], true, false));
    var m3 := m.(files := Files(m.official, f, map[], true, true));
    assert m3.files == m.files.(attempt := Some(t), replaced := true, whole := true);
    evs := Extend(s, evs0, OpenTemp(1, ssid, password, true, true), f, m, m1);
    evs := Extend(s, evs, RenameTemp(1, true), f, m1, m2);
    evs := Extend(s, evs, CloseTemp(1, |t|), f, m2, m3);
  }

  /** Two kinds of run end with official credentials that were never tried: a failsafe call falls into a turn of IPSETUP
      as a whole (`whole`), or a turn of IPSETUP falls between the two halves of the call. */
  lemma RaceCommitsUntried(a: File, ssid: Option<Text>, password: Option<Text>, whole: bool)
      returns (s: State, evs: seq<Event>)
    requires Usable(a) && Accepted(ssid, password) && Provisioned(ssid, password) != a
    ensures Fresh(s) && s.official == a && Run(s, evs).official == Provisioned(ssid, password)
    ensures !Justified(s, evs, Run(s, evs).official)
  {
    var f := Provisioned(ssid, password);
    ProvisionedIsUsable(ssid, password);
    MissingIsUnusable();
    assert f.Some?;
    s, evs := ReachIpSetup(a, f);
    hide Usable, Run, Unproven, Accepted, Provisioned;
    var m, t := Manager(a, IpSetup, Handling, 31, None, a, false), Manager(a, IpSetup, Handling, 31, f, a, false);
    if whole {
      evs := Extend(s, evs, Act(CALM), f, m.(place := Top), m);
      evs := FailsafeCall(s, evs, ssid, password, f, m);
      evs := Extend(s, evs, Signal, f, t, t.(requestReset := true));
      evs := ToCommit(s, evs, a, f, true);
    } else {
      evs := FailsafeCall(s, evs, ssid, password, f, m.(place := Top));
      evs := Extend(s, evs, Act(CALM), f, t.(place := Top), t);
      evs := ToCommit(s, evs, a, f, false);
    }
    NotJustified(s, evs, f);
  }

  lemma NotJustified(s: State, evs: seq<Event>, f: File)
    requires Unproven(s, evs, f)
    ensures !Justified(s, evs, f)
  {
    hide Granted, Seen, GivenToFailsafe;
  }

  // ---------------------------------------------------------------- two calls at once

  /** Two calls from the first rename on, when both had opened the temporary file before: the second one has nothing to
      rename, and they both write the official file. */
  lemma OverlapFiles(a: File, h: Text, g: Text)
    ensures var f := Files(a, None, map[], false, true);
      var u, v := Writer(h, false, false, Temporary), Writer(g, true, false, Temporary);
      var u', v' := u.(renamed := true, at := Official), v.(at := Official);
      var f2 := f.(writers := map[1 := u, 2 := v]);
      var f3 := f.(official := Some([]), writers := map[1 := u', 2 := v']);
      var f4 := f3.(writers := map[1 := u', 2 := v'.(renamed := true)]);
      && Opened(Opened(f, 1, Some(h), false), 2, Some(g), true) == f2
      && AfterRename(f2, 1, true) == f3
      && AfterRename(f3, 2, true) == f4
      && Moved(f4.writers, Temporary, Unlinked) == f4.writers
  {
    var u, v := Writer(h, false, false, Temporary), Writer(g, true, false, Temporary);
    var u', v' := u.(renamed := true, at := Official), v.(at := Official);
    assert map[1 := u][2 := v] == map[1 := u, 2 := v];
    var ws := map[1 := u.(renamed := true), 2 := v];
    assert map[1 := u, 2 := v][1 := u.(renamed := true)] == ws;
    assert 1 in ws && Open(ws, Temporary);
    assert Moved(ws, Official, Unlinked) == ws;
    assert Renamed(ws, Temporary, Official) == map[1 := u', 2 := v'];
  }

  lemma OverlapCloses(a: File, h: Text, g: Text)
    ensures var u, v := Writer(h, false, true, Official), Writer(g, true, true, Official);
      var f4 := Files(Some([]), None, map[1 := u, 2 := v], false, true);
      var f5 := Files(Some(h), None, map[2 := v], false, true);
      && Closed(f4, 1, |h|) == f5
      && Closed(f5, 2, |g|) == Files(Overlay(Some(h), g), None, map[], false, true)
  {
    hide Overlay, Piece;
    var u, v := Writer(h, false, true, Official), Writer(g, true, true, Official);
    FirstWrite(h, |h|);
    NoWriters(2, v);
    WholePiece(g);
    assert map[1 := u, 2 := v] - {1} == map[2 := v];
  }

  lemma WholePiece(t: Text)
    ensures Piece(t, |t|) == t
  {}

  /** Two overlapping calls, app_wifi_provision with `home` and a failsafe call with `guest`. */
  function Overlap(home: (Option<Text>, Option<Text>), guest: (Option<Text>, Option<Text>)): seq<Event>
    requires Accepted(home.0, home.1) && Accepted(guest.0, guest.1)
  {
    [DropTry(true), OpenTemp(1, home.0, home.1, false, true), OpenTemp(2, guest.0, guest.1, true, true),
     RenameTemp(1, true), RenameTemp(2, true), DropTemp, CloseTemp(1, |Provisioned(home.0, home.1).value|),
     CloseTemp(2, |Provisioned(guest.0, guest.1).value|)]
  }

  /** Up to the moment when both have the official file open. */
  lemma OverlapOpens(s: State, home: (Option<Text>, Option<Text>), guest: (Option<Text>, Option<Text>), h: Text,
      g: Text,
      f: File) returns (evs: seq<Event>)
    requires Fresh(s) && Provisioned(home.0, home.1) == Some(h) && Provisioned(guest.0, guest.1) == Some(g) && f.Some?
    ensures evs == [DropTry(true), OpenTemp(1, home.0, home.1, false, true), OpenTemp(2, guest.0, guest.1, true, true),
                    RenameTemp(1, true), RenameTemp(2, true), DropTemp]
    ensures var ws := map[1 := Writer(h, false, true, Official), 2 := Writer(g, true, true, Official)];
      && Run(s, evs) == s.(files := Files(Some([]), None, ws, false, true))
      && Granted(s, evs, f) == (f == s.official || f == Some(h)) && !Seen(s, evs, f) && s.wpa == None
  {
    hide Run, Granted, Seen, Accepted, Provisioned, Opened, AfterRename, Closed, Moved, Overlay;
    OverlapFiles(s.official, h, g);
    NothingMoves();
    StartsOut(s, f);
    var u, v := Writer(h, false, false, Temporary), Writer(g, true, false, Temporary);
    var u' := u.(renamed := true, at := Official);
    var f1 := Files(s.official, None, map[], false, true);
    var f2 := Opened(f1, 1, Some(h), false);
    var f3 := Files(s.official, None, map[1 := u, 2 := v], false, true);
    var f4 := Files(Some([]), None, map[1 := u', 2 := v.(at := Official)], false, true);
    var f5 := Files(Some([]), None, map[1 := u', 2 := v.(renamed := true, at := Official)], false, true);
    evs := Follow(s, [], DropTry(true), f, s, s.(files := f1));
    evs := Follow(s, evs, OpenTemp(1, home.0, home.1, false, true), f, s.(files := f1), s.(files := f2));
    evs := Follow(s, evs, OpenTemp(2, guest.0, guest.1, true, true), f, s.(files := f2), s.(files := f3));
    evs := Follow(s, evs, RenameTemp(1, true), f, s.(files := f3), s.(files := f4));
    evs := Follow(s, evs, RenameTemp(2, true), f, s.(files := f4), s.(files := f5));
    evs := Follow(s, evs, DropTemp, f, s.(files := f5), s.(files := f5));
  }

  lemma FollowClose(s: State, evs: seq<Event>, id: nat, n: nat, f: File, now: State, files: Files)
      returns (evs': seq<Event>)
    requires Run(s, evs) == now && Closed(now.files, id, n) == files && now.wpa != f
    ensures evs' == evs + [CloseTemp(id, n)] && Run(s, evs') == now.(files := files)
    ensures Granted(s, evs', f) == Granted(s, evs, f) && Seen(s, evs', f) == Seen(s, evs, f)
  {
    hide Run, Granted, Seen, Closed;
    evs' := Follow(s, evs, CloseTemp(id, n), f, now, now.(files := files));
  }

  /** A run without any commit that puts the failsafe text into the official file, over the provisioned one. */
  lemma OverlapMixes(s: State, home: (Option<Text>, Option<Text>), guest: (Option<Text>, Option<Text>))
    requires Fresh(s) && Accepted(home.0, home.1) && Accepted(guest.0, guest.1)
    ensures var evs, h, g := Overlap(home, guest), Provisioned(home.0, home.1), Provisioned(guest.0, guest.1);
      var f := Overlay(h, g.value);
      && Run(s, evs).official == f && AtRest(Run(s, evs).files)
      && (|h.value| <= |g.value| ==> f == g)
      && (Justified(s, evs, f) <==> f == h || f == s.official)
  {
    var h, g := Provisioned(home.0, home.1).value, Provisioned(guest.0, guest.1).value;
    var f := Overlay(Some(h), g);
    assert f.Some?;
    OverlapCloses(s.official, h, g);
    NothingMoves();
    var evs := OverlapOpens(s, home, guest, h, g, f);
    hide Run, Step, Granted, Seen, Accepted, Provisioned, Closed, Overlay, Fresh;
    var ws := map[1 := Writer(h, false, true, Official), 2 := Writer(g, true, true, Official)];
    var f1 := Files(Some([]), None, ws, false, true);
    var f2 := Files(Some(h), None, map[2 := Writer(g, true, true, Official)], false, true);
    var f3 := Files(f, None, map[], false, true);
    evs := FollowClose(s, evs, 1, |h|, f, s.(files := f1), f2);
    evs := FollowClose(s, evs, 2, |g|, f, s.(files := f2), f3);
    assert evs == Overlap(home, guest);
  }

  lemma NothingMoves()
    ensures Moved(map[], Try, Unlinked) == map[] && !Open(map[], Official)
  {}

  lemma StartsOut(s: State, f: File)
    requires Fresh(s)
    ensures Run(s, []) == s && Granted(s, [], f) == (f == s.official) && !Seen(s, [], f)
    ensures s.wpa == None && !s.replaced && s.whole && s.writers == map[]
  {}
}
