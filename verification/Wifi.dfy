/** The Wi-Fi manager of package/tester1/app_network.c as it is written: static variables and two files that the
    handlers and the API calls update in place, with other threads' calls in between. */
module Wifi {
  import opened WifiConf
  import opened WifiSafety
  import opened WifiSpec
  import opened Options

  const SUCCESS := true
  const FAIL := false

  /** wifi_conf_needs_escape */
  method ConfNeedsEscape(s: Text) returns (r: bool)
    ensures r == NeedsEscape(s)
  {
    var i := 0;
    assert s[0..] == s;
    while i < |s|
      invariant i <= |s| && NeedsEscape(s) == NeedsEscape(s[i..])
    {
      if s[i] == '"' || s[i] == '\\' || s[i] == '\n' || s[i] == '\r' { return true; }
      i := i + 1;
    }
    return false;
  }

  /** wifi_write_provision_conf up to its fopen: the text it is going to write, None when it refuses or fopen fails. */
  method WriteProvisionConf(ssid: Option<Text>, password: Option<Text>, opens: bool) returns (conf: Option<Text>)
    ensures conf == if opens then Provisioned(ssid, password) else None
  {
    var openNet := password == None || CStr(password.value) == [];
    if ssid == None || CStr(ssid.value) == [] { return None; }
    var bad := ConfNeedsEscape(CStr(ssid.value));
    if !bad && !openNet { bad := ConfNeedsEscape(CStr(password.value)); }
    if bad { return None; }
    if !openNet && (|CStr(password.value)| < 8 || |CStr(password.value)| > 63) { return None; }
    if !opens { return None; }
    return Some(ConfFor(CStr(ssid.value), if openNet then [] else CStr(password.value)));
  }

  /** The accesses of wifi_write_provision_conf behind its fopen; `renamed` says that its rename succeeds. */
  function FinishAccesses(id: nat, renames: bool, renamed: bool, written: nat): seq<Event> {
    [RenameTemp(id, renames)] + (if renamed then [] else [DropTemp]) + [CloseTemp(id, written)]
  }

  function WriteAccesses(id: nat, ssid: Option<Text>, password: Option<Text>, forTry: bool, opens: bool, renames: bool,
      renamed: bool, written: nat): seq<Event>
  {
    [OpenTemp(id, ssid, password, forTry, opens)]
        + if Accepted(ssid, password) && opens then FinishAccesses(id, renames, renamed, written) else []
  }

  /** The accesses of app_wifi_provision; `done` says that it succeeds. */
  function ProvisionAccesses(id: nat, ssid: Option<Text>, password: Option<Text>, unlinksOfficial: bool,
      unlinksTry: bool, opens: bool, renames: bool, done: bool, written: nat): seq<Event>
  {
    (if Clears(ssid) then [ClearOfficial(unlinksOfficial), DropTry(unlinksTry)]
     else [DropTry(unlinksTry)] + WriteAccesses(id, ssid, password, false, opens, renames, done, written))
    + if done then [Signal] else []
  }

  /** The accesses of app_wifi_provision_fallsafe. */
  function FailsafeAccesses(id: nat, ssid: Option<Text>, password: Option<Text>, unlinksTry: bool, opens: bool,
      renames: bool, done: bool, written: nat): seq<Event>
  {
    (if Clears(ssid) then [DropTry(unlinksTry)]
     else WriteAccesses(id, ssid, password, true, opens, renames, done, written))
    + if done then [Signal] else []
  }

  /** The result of a call that writes: it got as far as its rename, the k-th of its accesses, and found a file
      there. */
  ghost predicate Renames(ret: bool, isOpen: bool, renames: bool, marks: seq<nat>, k: nat, first: State,
      trace: seq<Event>)
  {
    if isOpen
    then k < |marks| && marks[k] <= |trace|
        && ret == (renames && Open(Run(first, trace[..marks[k]]).writers, Temporary))
    else !ret
  }

  /** The events at `marks` of a trace, all from a certain place on, are `own`, in this order. */
  predicate Within(own: seq<Event>, marks: seq<nat>, from: nat, trace: seq<Event>) {
    && |marks| == |own|
    && (forall k :: 0 <= k < |own| ==> from <= marks[k] < |trace| && trace[marks[k]] == own[k])
    && (forall j, k :: 0 <= j < k < |own| ==> marks[j] < marks[k])
  }

  lemma WithinLength(own: seq<Event>, marks: seq<nat>, from: nat, trace: seq<Event>)
    requires Within(own, marks, from, trace)
    ensures |marks| == |own|
  {}

  lemma WithinNothing(from: nat, trace: seq<Event>)
    ensures Within([], [], from, trace)
  {}

  lemma WithinLonger(own: seq<Event>, marks: seq<nat>, from: nat, trace: seq<Event>, longer: seq<Event>)
    requires Within(own, marks, from, trace) && trace <= longer
    ensures Within(own, marks, from, longer)
  {}

  /** One more access, and anything behind it. */
  lemma WithinSnoc(own: seq<Event>, marks: seq<nat>, from: nat, trace: seq<Event>, ev: Event, longer: seq<Event>)
    requires Within(own, marks, from, trace) && from <= |trace| && trace + [ev] <= longer
    ensures Within(own + [ev], marks + [|trace|], from, longer)
  {
    assert longer[|trace|] == (trace + [ev])[|trace|];
  }

  class Manager {
    var running: bool
    var thread: Thread
    var requestReset: bool
    var station: Station
    var deadline: int
    /** The two files, and the calls that have a file open. */
    var official: File
    var attempt: File
    var writers: Writers
    /** Where the thread is in its code. */
    var place: Place
    ghost var wpa: File
    ghost var replaced: bool
    ghost var whole: bool

    /** The state the manager began in, and everything that has happened since. */
    ghost const first: State
    ghost var trace: seq<Event>

    constructor (official: File, attempt: File)
      ensures Fresh(Snap()) && this.official == official && this.attempt == attempt
      ensures Traced() && trace == [] && first == Snap()
    {
      running, thread, requestReset, station, deadline, place := false, Off, false, Init, 0, Top;
      this.official, this.attempt, writers := official, attempt, map[];
      wpa, replaced, whole := None, false, true;
      first := State(false, Off, false, Init, 0, Files(official, attempt, map[], false, true), None, Top);
      trace := [];
    }

    ghost function Disk(): Files
      reads this
    {
      Files(official, attempt, writers, replaced, whole)
    }

    ghost function Snap(): State
      reads this
    {
      State(running, thread, requestReset, station, deadline, Disk(), wpa, place)
    }

    /** The state is what the events made of it. */
    ghost predicate Traced()
      reads this
    {
      Snap() == Run(first, trace)
    }

    /** Exactly this has happened. */
    twostate predicate Did(ev: Event)
      reads this
    {
      Traced() && trace == old(trace) + [ev] && Snap() == Step(old(Snap()), ev)
    }

    /** The one event since a state: what every access below ends with. */
    ghost method Log(s: State, ev: Event)
      requires s == Run(first, trace) && Snap() == Step(s, ev)
      modifies `trace
      ensures trace == old(trace) + [ev] && Traced()
    {
      hide Step, Run;
      RunSnoc(first, trace, ev);
      trace := trace + [ev];
    }

    ghost method LogAct(s: State, e: Env)
      requires s == Run(first, trace) && Snap() == NextAccess(s, e)
      modifies `trace
      ensures trace == old(trace) + [Act(e)] && Traced() && Snap() == Step(s, Act(e))
    {
      hide Run, NextAccess;
      Log(s, Act(e));
    }

    // -------------------------------------------------------------- files

    method RenameFile(renames: bool)
      modifies `official, `attempt, `replaced, `writers
      ensures Disk() == Committed(old(Disk()), renames)
    {
      if renames && attempt.Some? {
        official, attempt, writers := attempt, None, Renamed(writers, Try, Official);
        replaced := false;
      }
    }

    method UnlinkTry(unlinks: bool)
      modifies `attempt, `replaced, `writers
      ensures Disk() == Dropped(old(Disk()), unlinks)
    {
      if unlinks {
        attempt, writers := None, Moved(writers, Try, Unlinked);
        replaced := false;
      }
    }

    method InstallTemp(id: nat, renames: bool) returns (ok: bool)
      requires id in writers && !writers[id].renamed
      modifies `official, `attempt, `replaced, `whole, `writers
      ensures Disk() == AfterRename(old(Disk()), id, renames) && ok == (renames && Open(old(writers), Temporary))
    {
      hide Open, Renamed;
      MarkedOpen(writers, id, Temporary);
      var forTry := writers[id].forTry;
      writers := writers[id := writers[id].(renamed := true)];
      ok := renames && Open(writers, Temporary);
      if ok && forTry {
        attempt, writers := Some([]), Renamed(writers, Temporary, Try);
        replaced, whole := true, false;
      } else if ok {
        official, writers := Some([]), Renamed(writers, Temporary, Official);
      }
    }

    method CloseFile(id: nat, written: nat)
      requires id in writers && writers[id].renamed
      modifies `official, `attempt, `replaced, `whole, `writers
      ensures Disk() == Closed(old(Disk()), id, written) && id !in writers
    {
      hide Overlay, Piece;
      var w := writers[id];
      writers := writers - {id};
      if w.at == Official {
        official := Overlay(official, Piece(w.text, written));
      } else if w.at == Try {
        whole := attempt == Some([]) && written >= |w.text|;
        attempt := Overlay(attempt, Piece(w.text, written));
        replaced := true;
      }
    }

    // -------------------------------------------------------------- single accesses of the calls

    /** unlink of the try file */
    method RemoveTryConf(unlinks: bool)
      requires Traced()
      modifies this
      ensures Did(DropTry(unlinks))
    {
      hide Run, Dropped;
      UnlinkTry(unlinks);
      Log(old(Snap()), DropTry(unlinks));
    }

    /** unlink of the official file */
    method RemoveConf(unlinks: bool)
      requires Traced()
      modifies this
      ensures Did(ClearOfficial(unlinks))
    {
      hide Run, Moved;
      if unlinks { official, writers := None, Moved(writers, Official, Unlinked); }
      Log(old(Snap()), ClearOfficial(unlinks));
    }

    /** fopen of the temporary file, by a call with the number `id`, if there is something to write. */
    method OpenTempConf(id: nat, ssid: Option<Text>, password: Option<Text>, forTry: bool, opens: bool)
        returns (ok: bool)
      requires Traced() && id !in writers
      modifies this
      ensures Did(OpenTemp(id, ssid, password, forTry, opens)) && ok == (Accepted(ssid, password) && opens)
      ensures (ok <==> id in writers) && (ok ==> !writers[id].renamed)
    {
      hide Run, Accepted, Provisioned;
      ProvisionedIff(ssid, password);
      var conf := WriteProvisionConf(ssid, password, opens);
      ok := conf.Some?;
      if ok { writers := writers[id := Writer(conf.value, forTry, false, Temporary)]; }
      Log(old(Snap()), OpenTemp(id, ssid, password, forTry, opens));
    }

    /** rename of the temporary file; the result is false when it fails. */
    method RenameTempConf(id: nat, renames: bool) returns (ok: bool)
      requires Traced() && id in writers && !writers[id].renamed
      modifies this
      ensures Did(RenameTemp(id, renames)) && ok == (renames && Open(old(writers), Temporary))
      ensures id in writers && writers[id].renamed
    {
      hide Run, AfterRename, Open;
      RenameKeeps(Disk(), id, renames, id);
      ok := InstallTemp(id, renames);
      Log(old(Snap()), RenameTemp(id, renames));
    }

    /** unlink of the temporary file */
    method UnlinkTempConf()
      requires Traced()
      modifies this
      ensures Did(DropTemp)
    {
      hide Run, Moved;
      writers := Moved(writers, Temporary, Unlinked);
      Log(old(Snap()), DropTemp);
    }

    /** fclose, which gets `written` bytes out. */
    method CloseTempConf(id: nat, written: nat)
      requires Traced() && id in writers && writers[id].renamed
      modifies this
      ensures Did(CloseTemp(id, written)) && id !in writers
    {
      hide Run, Closed;
      CloseFile(id, written);
      Log(old(Snap()), CloseTemp(id, written));
    }

    /** `if (wifi_running) wifi_request_reset = 1`, which every successful call ends with. */
    method RequestsReset()
      requires Traced()
      modifies this
      ensures Did(Signal)
    {
      hide Run;
      if running { requestReset := true; }
      Log(old(Snap()), Signal);
    }

    /** app_wifi_init up to the creation of the thread. */
    method InitCreates(ok: bool) returns (ret: bool)
      requires Traced() && (running || thread == Off)
      modifies this
      ensures Did(Create(ok)) && ret == (!old(running) && ok)
    {
      hide Run;
      ret := !running && ok;
      if !running {
        requestReset, station := false, Init;
        if ok { thread := Created; }
      }
      Log(old(Snap()), Create(ok));
    }

    /** The rest of app_wifi_init. */
    method InitAnnounces()
      requires Traced() && thread != Off
      modifies this
      ensures Did(Announce)
    {
      hide Run;
      running := true;
      Log(old(Snap()), Announce);
    }

    /** app_wifi_deinit, which waits for the thread to end its turn. */
    method Deinitialise()
      requires Traced() && (thread == Looping ==> place == Top)
      modifies this
      ensures Did(Deinit)
    {
      hide Run;
      if running {
        thread := Off;
        running, requestReset, station := false, false, Init;
      }
      Log(old(Snap()), Deinit);
    }

    // -------------------------------------------------------------- other threads

    /** What calls leave alone while the manager thread is within its turn. */
    twostate predicate OnlyOthers()
      reads this
    {
      && Traced() && old(trace) <= trace
      && thread == old(thread) && station == old(station) && deadline == old(deadline) && wpa == old(wpa)
          && place == old(place)
    }

    /** What everybody leaves alone while the writing call `id` is between two accesses. */
    twostate predicate Meanwhile(id: nat)
      reads this
    {
      Traced() && old(trace) <= trace && SameWriter(old(writers), writers, id)
    }

    /** Any access of any API call, other than the writing call `id`. */
    method OtherCall(id: nat)
      requires Traced()
      modifies this
      ensures OnlyOthers() && Meanwhile(id)
    {
      hide Run, Accepted, Provisioned, AfterRename, Closed, Moved, Open, Dropped;
      ghost var s := Snap();
      var k: nat, n: nat, ssid: Option<Text>, password: Option<Text>, ok: bool, forTry: bool := *, *, *, *, *, *;
      if {
        case true => RemoveConf(ok);
          OthersKeep(s, ClearOfficial(ok), id);
        case true => RemoveTryConf(ok);
          OthersKeep(s, DropTry(ok), id);
        case k != id && k !in writers => var _ := OpenTempConf(k, ssid, password, forTry, ok);
          OthersKeep(s, OpenTemp(k, ssid, password, forTry, ok), id);
        case k != id && k in writers && !writers[k].renamed => var _ := RenameTempConf(k, ok);
          OthersKeep(s, RenameTemp(k, ok), id);
        case true => UnlinkTempConf();
          OthersKeep(s, DropTemp, id);
        case k != id && k in writers && writers[k].renamed => CloseTempConf(k, n);
          OthersKeep(s, CloseTemp(k, n), id);
        case true => RequestsReset();
        case thread != Off => InitAnnounces();
      }
    }

    /** Any accesses of any API calls, of any number of other threads. */
    method Others()
      requires Traced()
      modifies this
      ensures OnlyOthers()
    {
      hide Run, SameWriter;
      var n: nat := *;
      while n > 0
        invariant OnlyOthers()
        decreases n
      {
        var k: nat := *;
        OtherCall(k);
        n := n - 1;
      }
    }

    // -------------------------------------------------------------- the thread

    /** wifi_set_state */
    method Goto(to: Station, timeout: int, e: Env)
      modifies `station, `deadline
      ensures Snap() == SetStation(old(Snap()), to, timeout, e)
    {
      station := to;
      if timeout > 0 { deadline := e.later + timeout; } else { deadline := 0; }
    }

    method GoesTo(to: Place)
      modifies `place
      ensures Snap() == old(Snap()).(place := to)
    {
      place := to;
    }

    /** What wpa_supplicant is running with from now on. */
    ghost method Runs(conf: File, fromTry: bool)
      modifies `wpa, `replaced
      ensures Snap() == old(Snap()).(wpa := conf, files := Started(old(Disk()), fromTry))
    {
      wpa, replaced := conf, replaced && !fromTry;
    }

    /** wifi_kill_daemons */
    ghost method RunsNothing()
      modifies `wpa
      ensures Snap() == old(Snap()).(wpa := None)
    {
      wpa := None;
    }

    method TakeReset()
      modifies `requestReset, `station, `deadline
      ensures Snap() == Effective(old(Snap()))
    {
      if requestReset {
        requestReset, station, deadline := false, Reset, 0;
      }
    }

    /** One access of the thread. */
    twostate predicate Acted(e: Env)
      reads this
    {
      Did(Act(e)) && thread == Looping
    }

    /** Within the handler of a state. */
    ghost predicate In(to: Station)
      reads this
    {
      Traced() && thread == Looping && place == Handling && station == to
    }

    /** The handler has come to its end, through accesses of the thread and of others. */
    twostate predicate Handled()
      reads this
    {
      Traced() && thread == Looping && place == Top && old(trace) < trace
    }

    // -------------------------------------------------------------- single accesses of the thread

    /** The part of wifi_thread before its loop. */
    method ThreadBegins(unlinks: bool)
      requires Traced() && thread == Created
      modifies this
      ensures Did(ThreadStart(unlinks))
    {
      hide Run, NextAccess, Dropped;
      UnlinkTry(unlinks);
      station, deadline, thread, place := Init, 0, Looping, Top;
      Log(old(Snap()), ThreadStart(unlinks));
    }

    /** The test of wifi_request_reset. */
    method TestReset(e: Env)
      requires Traced() && thread == Looping && place == Top
      modifies this
      ensures Acted(e) && place == Handling
    {
      hide Run, Step, NextAccess;
      AtTop(Snap(), e);
      TakeReset();
      GoesTo(Handling);
      LogAct(old(Snap()), e);
    }

    method OnInit(e: Env)
      requires In(Init)
      modifies this
      ensures Acted(e) && Handled()
    {
      hide Run, Step, Usable;
      if e.iface { Goto(Reset, 0, e); }
      GoesTo(Top);
      LogAct(old(Snap()), e);
    }

    /** RESET: the daemons are killed, and the try file is tested. */
    method TestTryConf(e: Env) returns (usable: bool)
      requires In(Reset)
      modifies this
      ensures Acted(e) && place == if usable then Starting(true) else TryUnusable
    {
      hide Run, Step, Usable, NextAccess;
      AtReset(Snap(), e);
      RunsNothing();
      usable := NetworkConfigured(attempt);
      GoesTo(if usable then Starting(true) else TryUnusable);
      LogAct(old(Snap()), e);
    }

    method TestConf(e: Env) returns (usable: bool)
      requires Traced() && thread == Looping && place == TryUnusable
      modifies this
      ensures Acted(e) && place == if usable then Starting(false) else StartingAp
    {
      hide Run, Step, Usable, NextAccess;
      AtTryUnusable(Snap(), e);
      usable := NetworkConfigured(official);
      GoesTo(if usable then Starting(false) else StartingAp);
      LogAct(old(Snap()), e);
    }

    /** wifi_start_wpa, which reads the chosen file, and the state after it. */
    method StartWpa(fromTry: bool, e: Env)
      requires Traced() && thread == Looping && place == Starting(fromTry)
      modifies this
      ensures Acted(e) && Handled()
    {
      hide Run, Step, NextAccess;
      AtStarting(Snap(), fromTry, e);
      var conf := if fromTry then attempt else official;
      if e.wpaStarts && conf.Some? {
        Runs(conf, fromTry);
        Goto(Connecting, CONNECT_TIMEOUT, e);
      }
      GoesTo(Top);
      LogAct(old(Snap()), e);
    }

    method StartAp(e: Env)
      requires Traced() && thread == Looping && place == StartingAp
      modifies this
      ensures Acted(e) && Handled()
    {
      hide Run, Step, Usable, HandleFirst;
      if e.apStarts { Goto(Provisioning, 0, e); }
      GoesTo(Top);
      LogAct(old(Snap()), e);
    }

    method OnProvisioning(e: Env)
      requires In(Provisioning)
      modifies this
      ensures Acted(e) && Handled()
    {
      hide Run, Step, Usable;
      var usable := NetworkConfigured(official);
      if usable { Goto(Reset, 0, e); }
      GoesTo(Top);
      LogAct(old(Snap()), e);
    }

    /** CONNECTING: the link and the timeout. */
    method TestLink(e: Env) returns (expired: bool)
      requires In(Connecting)
      modifies this
      ensures Acted(e) && place == if expired then Aborting else Top
    {
      hide Run, Step, Usable;
      expired := !e.linked && deadline != 0 && e.now >= deadline;
      if e.linked { Goto(IpSetup, IPSETUP_TIMEOUT, e); }
      GoesTo(if expired then Aborting else Top);
      LogAct(old(Snap()), e);
    }

    /** The end of a failed try. */
    method Abort(e: Env)
      requires Traced() && thread == Looping && place == Aborting
      modifies this
      ensures Acted(e) && Handled()
    {
      hide Run, Step, Usable, HandleFirst, Dropped;
      UnlinkTry(e.unlinks);
      Goto(Reset, 0, e);
      GoesTo(Top);
      LogAct(old(Snap()), e);
    }

    /** IPSETUP: the address and the timeout. */
    method TestAddress(e: Env)
      requires In(IpSetup)
      modifies this
      ensures Acted(e)
      ensures place == if e.ip then Addressed else if old(deadline) != 0 && e.now >= old(deadline) then Expired else Top
    {
      hide Run, Step, Usable;
      var timedOut := deadline != 0 && e.now >= deadline;
      GoesTo(if e.ip then Addressed else if timedOut then Expired else Top);
      LogAct(old(Snap()), e);
    }

    /** Once an address was seen, the try file is tested. */
    method TestAddressed(e: Env) returns (usable: bool)
      requires Traced() && thread == Looping && place == Addressed
      modifies this
      ensures Acted(e) && place == if usable then Committing else Top
    {
      hide Run, Step, Usable, HandleFirst;
      usable := NetworkConfigured(attempt);
      if !usable { Goto(Connected, 0, e); }
      GoesTo(if usable then Committing else Top);
      LogAct(old(Snap()), e);
    }

    /** wifi_commit_try_conf tests it again. */
    method TestCommitting(e: Env) returns (usable: bool)
      requires Traced() && thread == Looping && place == Committing
      modifies this
      ensures Acted(e) && place == if usable then Renaming else Top
    {
      hide Run, Step, Usable, NextAccess;
      AtCommitting(Snap(), e);
      usable := NetworkConfigured(attempt);
      if !usable { Goto(Connected, 0, e); }
      GoesTo(if usable then Renaming else Top);
      LogAct(old(Snap()), e);
    }

    /** rename in wifi_commit_try_conf, and the state after it. */
    method RenameTryConf(e: Env)
      requires Traced() && thread == Looping && place == Renaming
      modifies this
      ensures Acted(e) && Handled()
    {
      hide Run, Step, NextAccess, Committed;
      AtRenaming(Snap(), e);
      RenameFile(e.renames);
      Goto(Connected, 0, e);
      GoesTo(Top);
      LogAct(old(Snap()), e);
    }

    /** IPSETUP once its time is over. */
    method TestExpired(e: Env) returns (usable: bool)
      requires Traced() && thread == Looping && place == Expired
      modifies this
      ensures Acted(e) && place == if usable then Aborting else Top
    {
      hide Run, Step, Usable, HandleFirst;
      usable := NetworkConfigured(attempt);
      if !usable { Goto(Connecting, CONNECT_TIMEOUT, e); }
      GoesTo(if usable then Aborting else Top);
      LogAct(old(Snap()), e);
    }

    method OnConnected(e: Env)
      requires In(Connected)
      modifies this
      ensures Acted(e) && Handled()
    {
      hide Run, Step, Usable;
      if !e.linked || !e.ip { Goto(Reset, 0, e); }
      GoesTo(Top);
      LogAct(old(Snap()), e);
    }

    /** Whatever access of the thread comes next. */
    method ThreadAccess(e: Env)
      requires Traced() && thread == Looping
      modifies this
      ensures Acted(e)
    {
      hide Run, Step;
      match place
      case Top => TestReset(e);
      case Handling => FirstOf(e);
      case TryUnusable => var _ := TestConf(e);
      case Starting(fromTry) => StartWpa(fromTry, e);
      case StartingAp => StartAp(e);
      case Addressed => var _ := TestAddressed(e);
      case Committing => var _ := TestCommitting(e);
      case Renaming => RenameTryConf(e);
      case Expired => var _ := TestExpired(e);
      case Aborting => Abort(e);
    }

    method FirstOf(e: Env)
      requires Traced() && thread == Looping && place == Handling
      modifies this
      ensures Acted(e)
    {
      hide Run, Step;
      match station
      case Init => OnInit(e);
      case Reset => var _ := TestTryConf(e);
      case Provisioning => OnProvisioning(e);
      case Connecting => var _ := TestLink(e);
      case IpSetup => TestAddress(e);
      case Connected => OnConnected(e);
    }

    // -------------------------------------------------------------- the handlers

    method OnReset(e: Env)
      requires In(Reset)
      modifies this
      ensures Handled()
    {
      hide Run, Step;
      var fromTry := TestTryConf(e);
      var found := fromTry;
      Others();
      if !fromTry {
        found := TestConf(e);
        Others();
      }
      if found { StartWpa(fromTry, e); } else { StartAp(e); }
    }

    method OnConnecting(e: Env)
      requires In(Connecting)
      modifies this
      ensures Handled()
    {
      hide Run, Step;
      var expired := TestLink(e);
      if expired {
        Others();
        Abort(e);
      }
    }

    /** wifi_commit_try_conf */
    method CommitTryConf(e: Env)
      requires Traced() && thread == Looping && place == Committing
      modifies this
      ensures Handled()
    {
      hide Run, Step;
      var usable := TestCommitting(e);
      if usable {
        Others();
        RenameTryConf(e);
      }
    }

    method OnIpSetup(e: Env)
      requires In(IpSetup)
      modifies this
      ensures Handled()
    {
      hide Run, Step;
      var timedOut := deadline != 0 && e.now >= deadline;
      TestAddress(e);
      if e.ip {
        Others();
        var usable := TestAddressed(e);
        if usable {
          Others();
          CommitTryConf(e);
        }
      } else if timedOut {
        Others();
        var usable := TestExpired(e);
        if usable {
          Others();
          Abort(e);
        }
      }
    }

    method Handle(e: Env)
      requires Traced() && thread == Looping && place == Handling
      modifies this
      ensures Handled()
    {
      hide Run, Step;
      match station
      case Init => OnInit(e);
      case Reset => OnReset(e);
      case Provisioning => OnProvisioning(e);
      case Connecting => OnConnecting(e);
      case IpSetup => OnIpSetup(e);
      case Connected => OnConnected(e);
    }

    /** One turn of the loop of wifi_thread, with any calls of other threads between its accesses: from the test of
        wifi_request_reset to the end of the handler, everything that happens is a run of single accesses. */
    method ThreadTurns(e: Env)
      requires Traced() && thread == Looping && place == Top
      modifies this
      ensures Traced() && thread == Looping && place == Top
      ensures |trace| >= |old(trace)| + 2 && trace[..|old(trace)|] == old(trace) && trace[|old(trace)|] == Act(e)
    {
      hide Run, Step;
      TestReset(e);
      ghost var begun := trace;
      Others();
      Handle(e);
      Prefixes(old(trace), Act(e), begun, trace);
    }

    // -------------------------------------------------------------- the provisioning calls

    /** Any accesses of the manager thread and of any other calls than `id`. */
    method Anyone(id: nat)
      requires Traced()
      modifies this
      ensures Meanwhile(id)
    {
      hide Run, Step, SameWriter;
      var n: nat := *;
      SameAsBefore(writers, id);
      while n > 0
        invariant Meanwhile(id)
        decreases n
      {
        ghost var s := Snap();
        var e: Env, ok: bool := *, *;
        if {
          case true => OtherCall(id);
          case thread == Looping => ThreadAccess(e); OthersKeep(s, Act(e), id);
          case thread == Created => ThreadBegins(ok); OthersKeep(s, ThreadStart(ok), id);
          case running || thread == Off => var _ := InitCreates(ok); OthersKeep(s, Create(ok), id);
          case thread != Looping || place == Top => Deinitialise(); OthersKeep(s, Deinit, id);
        }
        StillSame(old(writers), s.writers, writers, id);
        n := n - 1;
      }
    }

    /** The call `id` renames the temporary file, and closes it: what follows a successful fopen. */
    method FinishConf(id: nat, renames: bool, written: nat, ghost own: seq<Event>, ghost from: nat,
        ghost before: seq<nat>)
      returns (ret: bool, ghost marks: seq<nat>)
      requires Traced() && id in writers && !writers[id].renamed && Within(own, before, from, trace) && from <= |trace|
      modifies this
      ensures Traced() && old(trace) <= trace && id !in writers && before + [|old(trace)|] <= marks
      ensures Within(own + FinishAccesses(id, renames, ret, written), marks, from, trace)
      ensures ret == (renames && Open(old(writers), Temporary))
    {
      hide Run, Step, Open, Within;
      ghost var t := trace;
      ret := RenameTempConf(id, renames);
      Anyone(id);
      WithinSnoc(own, before, from, t, RenameTemp(id, renames), trace);
      marks := before + [|t|];
      ghost var so := own + [RenameTemp(id, renames)];
      if !ret {
        t := trace;
        UnlinkTempConf();
        OthersKeep(Run(first, t), DropTemp, id);
        Anyone(id);
        WithinSnoc(so, marks, from, t, DropTemp, trace);
        so, marks := so + [DropTemp], marks + [|t|];
      }
      t := trace;
      CloseTempConf(id, written);
      WithinSnoc(so, marks, from, t, CloseTemp(id, written), trace);
      marks := marks + [|t|];
      assert so + [CloseTemp(id, written)] == own + FinishAccesses(id, renames, ret, written);
    }

    /** wifi_write_provision_conf by the call `id`, with anything in between: its accesses, and its result, which is
        false also when another call has taken the temporary file away. */
    method WriteConf(id: nat, ssid: Option<Text>, password: Option<Text>, forTry: bool, opens: bool, renames: bool,
        written: nat, ghost own: seq<Event>, ghost from: nat, ghost before: seq<nat>)
      returns (ret: bool, ghost marks: seq<nat>)
      requires Traced() && id !in writers && Within(own, before, from, trace) && from <= |trace|
      modifies this
      ensures Traced() && old(trace) <= trace && id !in writers
      ensures Within(own + WriteAccesses(id, ssid, password, forTry, opens, renames, ret, written), marks, from, trace)
      ensures Renames(ret, Accepted(ssid, password) && opens, renames, marks, |own| + 1, first, trace)
    {
      hide Run, Step, Accepted, Open, Within;
      ghost var t := trace;
      var ok := OpenTempConf(id, ssid, password, forTry, opens);
      ghost var ev, so := OpenTemp(id, ssid, password, forTry, opens), own
          + [OpenTemp(id, ssid, password, forTry, opens)];
      if ok {
        Anyone(id);
        WithinSnoc(own, before, from, t, ev, trace);
        marks := before + [|t|];
        t := trace;
        WithinLength(so, marks, from, t);
        ret, marks := FinishConf(id, renames, written, so, from, marks);
        assert marks[|own| + 1] == |t| && trace[..|t|] == t;
        assert own + WriteAccesses(id, ssid, password, forTry, opens, renames, ret, written) ==
            so + FinishAccesses(id, renames, ret, written);
      } else {
        ret := false;
        WithinSnoc(own, before, from, t, ev, trace);
        marks := before + [|t|];
        assert own + WriteAccesses(id, ssid, password, forTry, opens, renames, ret, written) == so;
      }
    }

    /** unlink of the try file by a call, then anything. */
    method DropsTry(id: nat, unlinks: bool, ghost own: seq<Event>, ghost from: nat, ghost before: seq<nat>)
      returns (ghost marks: seq<nat>)
      requires Traced() && id !in writers && Within(own, before, from, trace) && from <= |trace|
      modifies this
      ensures Traced() && old(trace) <= trace && id !in writers
      ensures Within(own + [DropTry(unlinks)], marks, from, trace)
    {
      hide Run, Step, Within;
      ghost var t := trace;
      RemoveTryConf(unlinks);
      OthersKeep(Run(first, t), DropTry(unlinks), id);
      Anyone(id);
      WithinSnoc(own, before, from, t, DropTry(unlinks), trace);
      marks := before + [|t|];
    }

    /** unlink of the official file by a call, then anything. */
    method ClearsConf(id: nat, unlinks: bool) returns (ghost marks: seq<nat>)
      requires Traced() && id !in writers
      modifies this
      ensures Traced() && old(trace) <= trace && id !in writers
      ensures Within([ClearOfficial(unlinks)], marks, |old(trace)|, trace)
    {
      hide Run, Step, Within;
      ghost var t := trace;
      RemoveConf(unlinks);
      OthersKeep(Run(first, t), ClearOfficial(unlinks), id);
      Anyone(id);
      WithinNothing(|t|, t);
      WithinSnoc([], [], |t|, t, ClearOfficial(unlinks), trace);
      assert [] + [ClearOfficial(unlinks)] == [ClearOfficial(unlinks)];
      marks := [] + [|t|];
    }

    /** Anything, then the end of a successful call. */
    method Signals(id: nat, ghost own: seq<Event>, ghost from: nat, ghost before: seq<nat>)
      returns (ghost marks: seq<nat>)
      requires Traced() && id !in writers && Within(own, before, from, trace) && from <= |trace|
      modifies this
      ensures Traced() && old(trace) <= trace && id !in writers
      ensures Within(own + [Signal], marks, from, trace) && before <= marks
    {
      hide Run, Step, Within;
      Anyone(id);
      WithinLonger(own, before, from, old(trace), trace);
      ghost var t := trace;
      RequestsReset();
      OthersKeep(Run(first, t), Signal, id);
      WithinSnoc(own, before, from, t, Signal, trace);
      marks := before + [|t|];
    }

    /** app_wifi_provision, with anything in between: its accesses, in order, and its result. */
    method Provisions(id: nat, ssid: Option<Text>, password: Option<Text>, unlinksOfficial: bool, unlinksTry: bool,
        opens: bool, renames: bool, written: nat)
      returns (ret: bool, ghost marks: seq<nat>)
      requires Traced() && id !in writers
      modifies this
      ensures Traced() && old(trace) <= trace && id !in writers
      ensures Within(ProvisionAccesses(id, ssid, password, unlinksOfficial, unlinksTry, opens, renames, ret, written),
                  marks, |old(trace)|, trace)
      ensures if Clears(ssid) then ret
              else Renames(ret, Accepted(ssid, password) && opens, renames, marks, 2, first, trace)
    {
      hide Run, Step, Accepted, Open, Within, WriteAccesses, Renames;
      ghost var from, own := |trace|, [];
      WithinNothing(from, trace);
      if ssid == None || CStr(ssid.value) == [] {
        marks := ClearsConf(id, unlinksOfficial);
        own := [ClearOfficial(unlinksOfficial)];
        marks := DropsTry(id, unlinksTry, own, from, marks);
        own := [ClearOfficial(unlinksOfficial), DropTry(unlinksTry)];
        assert [ClearOfficial(unlinksOfficial)] + [DropTry(unlinksTry)] == own;
      } else {
        marks := DropsTry(id, unlinksTry, [], from, []);
        own := [DropTry(unlinksTry)];
        assert [] + own == own;
        ret, marks := WriteConf(id, ssid, password, false, opens, renames, written, own, from, marks);
        own := own + WriteAccesses(id, ssid, password, false, opens, renames, ret, written);
        assert own + [] == own;
        if !ret { return; }
      }
      ghost var so, t := marks, trace;
      marks := Signals(id, own, from, so);
      RenamesStill(Accepted(ssid, password) && opens, renames, so, marks, 2, first, t, trace);
      ret := true;
    }

    /** app_wifi_provision_fallsafe, likewise. */
    method FailsafeProvisions(id: nat, ssid: Option<Text>, password: Option<Text>, unlinksTry: bool, opens: bool,
        renames: bool, written: nat)
      returns (ret: bool, ghost marks: seq<nat>)
      requires Traced() && id !in writers
      modifies this
      ensures Traced() && old(trace) <= trace && id !in writers
      ensures Within(FailsafeAccesses(id, ssid, password, unlinksTry, opens, renames, ret, written),
                  marks, |old(trace)|, trace)
      ensures if Clears(ssid) then ret
              else Renames(ret, Accepted(ssid, password) && opens, renames, marks, 1, first, trace)
    {
      hide Run, Step, Accepted, Open, Within, WriteAccesses, Renames;
      ghost var from, own := |trace|, [];
      WithinNothing(from, trace);
      if ssid == None || CStr(ssid.value) == [] {
        marks := DropsTry(id, unlinksTry, [], from, []);
        own := [DropTry(unlinksTry)];
        assert [] + own == own;
      } else {
        ret, marks := WriteConf(id, ssid, password, true, opens, renames, written, [], from, []);
        own := WriteAccesses(id, ssid, password, true, opens, renames, ret, written);
        assert own + [] == [] + own == own;
        if !ret { return; }
      }
      ghost var so, t := marks, trace;
      marks := Signals(id, own, from, so);
      RenamesStill(Accepted(ssid, password) && opens, renames, so, marks, 1, first, t, trace);
      ret := true;
    }
  }

  lemma RenamesStill(isOpen: bool, renames: bool, marks: seq<nat>, marks': seq<nat>, k: nat, first: State,
      trace: seq<Event>, trace': seq<Event>)
    requires marks <= marks' && trace <= trace'
    ensures Renames(true, isOpen, renames, marks, k, first, trace) ==>
              Renames(true, isOpen, renames, marks', k, first, trace')
  {
    hide Run, Open;
    if k < |marks| && marks[k] <= |trace| { assert trace'[..marks[k]] == trace[..marks[k]]; }
  }

  lemma Prefixes(a: seq<Event>, ev: Event, b: seq<Event>, c: seq<Event>)
    requires b == a + [ev] && b < c
    ensures |c| >= |a| + 2 && c[..|a|] == a && c[|a|] == ev
  {
    assert c[..|b|] == b && c[..|a|] == b[..|a|];
  }

  lemma AtTop(s: State, e: Env)
    requires s.thread == Looping && s.place == Top
    ensures NextAccess(s, e) == Effective(s).(place := Handling)
  {
    hide Usable, HandleFirst;
  }

  lemma AtReset(s: State, e: Env)
    requires s.thread == Looping && s.place == Handling && s.station == Reset
    ensures NextAccess(s, e) == s.(wpa := None, place := if Usable(s.attempt) then Starting(true) else TryUnusable)
  {
    hide Usable;
  }

  lemma AtTryUnusable(s: State, e: Env)
    requires s.thread == Looping && s.place == TryUnusable
    ensures NextAccess(s, e) == s.(place := if Usable(s.official) then Starting(false) else StartingAp)
  {
    hide Usable, HandleFirst;
  }

  lemma AtStarting(s: State, fromTry: bool, e: Env)
    requires s.thread == Looping && s.place == Starting(fromTry)
    ensures NextAccess(s, e) == Start(s, fromTry, e).(place := Top)
  {
    hide Usable, HandleFirst;
  }

  lemma AtCommitting(s: State, e: Env)
    requires s.thread == Looping && s.place == Committing
    ensures NextAccess(s, e) ==
              if Usable(s.attempt) then s.(place := Renaming) else SetStation(s, Connected, 0, e).(place := Top)
  {
    hide Usable, HandleFirst;
  }

  lemma AtRenaming(s: State, e: Env)
    requires s.thread == Looping && s.place == Renaming
    ensures NextAccess(s, e) == SetStation(Rename(s, e.renames), Connected, 0, e).(place := Top)
  {
    hide Usable, HandleFirst;
  }

  lemma ProvisionedIff(ssid: Option<Text>, password: Option<Text>)
    ensures Provisioned(ssid, password).Some? <==> Accepted(ssid, password)
    ensures Clears(ssid) ==> !Accepted(ssid, password)
  {}

  lemma SameAsBefore(ws: Writers, id: nat)
    ensures SameWriter(ws, ws, id)
  {}

  lemma StillSame(a: Writers, b: Writers, c: Writers, id: nat)
    requires SameWriter(a, b, id) && SameWriter(b, c, id)
    ensures SameWriter(a, c, id)
  {}
}
