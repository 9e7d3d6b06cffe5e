/** The Wi-Fi manager of package/tester1/app_network.c as a state machine: the two credential files, the temporary file
    through which both are written, the manager thread's state, and what each access of the thread or of an API call
    does to them.  Nothing locks them, so accesses of different threads interleave freely. */
module WifiSpec {
  import opened WifiConf
  import opened Options

  datatype Station = Init | Reset | Provisioning | Connecting | IpSetup | Connected

  /** The thread: not there, created but not yet in its loop, or looping. */
  datatype Thread = Off | Created | Looping

  const CONNECT_TIMEOUT: int := 30
  const IPSETUP_TIMEOUT: int := 30

  /** A credential file; None when it does not exist. */
  type File = Option<Text>

  /** Where the thread is within a turn of its loop. */
  datatype Place =
    | Top                     // before the test of wifi_request_reset
    | Handling                // in the handler of its state
    | TryUnusable             // RESET: the official file is tested next
    | Starting(fromTry: bool) // RESET: wpa_supplicant is started next
    | StartingAp              // RESET: the access point is started next
    | Addressed               // IPSETUP: an address was seen
    | Committing              // IPSETUP: the try file was usable, wifi_commit_try_conf tests it again
    | Renaming                // IPSETUP: wifi_commit_try_conf renames it
    | Expired                 // IPSETUP: timed out
    | Aborting                // the try file is removed next

  /** Which name the file that a call has open goes by. */
  datatype Spot = Temporary | Official | Try | Unlinked

  /** A call of wifi_write_provision_conf from fopen to fclose.  Until then stdio holds the text back, so the file is
      renamed while it is still empty, and written wherever it is by the time of fclose. */
  datatype Writer = Writer(text: Text, forTry: bool, renamed: bool, at: Spot)

  type Writers = map<nat, Writer>

  /** Some call has the file of that name open. */
  predicate Open(ws: Writers, at: Spot) {
    exists i :: i in ws && ws[i].at == at
  }

  /** A file gets another name, or loses its own. */
  function Moved(ws: Writers, from: Spot, to: Spot): Writers {
    map i | i in ws :: if ws[i].at == from then ws[i].(at := to) else ws[i]
  }

  /** rename, as the calls that have the two files open see it. */
  function Renamed(ws: Writers, from: Spot, to: Spot): Writers {
    Moved(Moved(ws, to, Unlinked), from, to)
  }

  /** write at the start of a file, which keeps what is longer. */
  function Overlay(f: File, t: Text): File {
    match f
    case None => None
    case Some(was) => Some(if |was| <= |t| then t else t + was[|t|..])
  }

  /** The credential files, and the calls that are writing.  Specification only: `replaced` says that a call has
      replaced the try file or written to it since wpa_supplicant was last started with it, and `whole` that the try
      file is the whole text of one call, or what it was at first. */
  datatype Files = Files(official: File, attempt: File, writers: Writers, replaced: bool, whole: bool)

  /** `wpa` is the configuration wpa_supplicant was last started with. */
  datatype State = State(
    running: bool, thread: Thread, requestReset: bool, station: Station, deadline: int, files: Files, wpa: File,
    place: Place)
  {
    const official: File := files.official
    const attempt: File := files.attempt
    const writers: Writers := files.writers
    const replaced: bool := files.replaced
    const whole: bool := files.whole
  }

  /** What one loop turn meets: the clock when the timeout is tested and when a new deadline is set, the
      interface, the outcome of starting daemons, the link, the address, and of unlink and rename. */
  datatype Env = Env(now: int, later: int, iface: bool, wpaStarts: bool, apStarts: bool, linked: bool, ip: bool,
                     unlinks: bool, renames: bool)

  /** wifi_set_state */
  function SetStation(s: State, to: Station, timeout: int, e: Env): State {
    s.(station := to, deadline := if timeout > 0 then e.later + timeout else 0)
  }

  /** wifi_state_timed_out */
  predicate TimedOut(s: State, e: Env) {
    s.deadline != 0 && e.now >= s.deadline
  }

  /** wifi_remove_try_conf */
  function Dropped(f: Files, unlinks: bool): Files {
    if unlinks then f.(attempt := None, replaced := false, writers := Moved(f.writers, Try, Unlinked)) else f
  }

  function RemoveAttempt(s: State, unlinks: bool): State {
    s.(files := Dropped(s.files, unlinks))
  }

  /** wpa_supplicant is started with the try file, or with the official one. */
  function Started(f: Files, fromTry: bool): Files {
    f.(replaced := f.replaced && !fromTry)
  }

  /** What RESET starts wpa_supplicant with; None means access-point mode. */
  function Choice(s: State): File {
    if Usable(s.attempt) then s.attempt else if Usable(s.official) then s.official else None
  }

  function HandleInit(s: State, e: Env): State {
    if e.iface then SetStation(s, Reset, 0, e) else s
  }

  function HandleReset(s: State, e: Env): State {
    var cfg := Choice(s);
    if cfg.Some? then
      if e.wpaStarts then SetStation(s.(wpa := cfg, files := Started(s.files, Usable(s.attempt))), Connecting,
          CONNECT_TIMEOUT, e)
      else s.(wpa := None)
    else
      var s' := s.(wpa := None);
      if e.apStarts then SetStation(s', Provisioning, 0, e) else s'
  }

  function HandleProvisioning(s: State, e: Env): State {
    if Usable(s.official) then SetStation(s, Reset, 0, e) else s
  }

  function HandleConnecting(s: State, e: Env): State {
    if e.linked then SetStation(s, IpSetup, IPSETUP_TIMEOUT, e)
    else if TimedOut(s, e) then SetStation(RemoveAttempt(s, e.unlinks), Reset, 0, e)
    else s
  }

  /** rename in wifi_commit_try_conf: whatever the try file holds by then. */
  function Committed(f: Files, renames: bool): Files {
    if renames && f.attempt.Some?
    then f.(official := f.attempt, attempt := None, replaced := false, writers := Renamed(f.writers, Try, Official))
    else f
  }

  function Rename(s: State, renames: bool): State {
    s.(files := Committed(s.files, renames))
  }

  /** wifi_commit_try_conf */
  function Commit(s: State, renames: bool): State {
    if Usable(s.attempt) then Rename(s, renames) else s
  }

  function HandleIpSetup(s: State, e: Env): State {
    if e.ip then
      SetStation(if Usable(s.attempt) then Commit(s, e.renames) else s, Connected, 0, e)
    else if TimedOut(s, e) then
      if Usable(s.attempt) then SetStation(RemoveAttempt(s, e.unlinks), Reset, 0, e)
      else SetStation(s, Connecting, CONNECT_TIMEOUT, e)
    else s
  }

  function HandleConnected(s: State, e: Env): State {
    if !e.linked || !e.ip then SetStation(s, Reset, 0, e) else s
  }

  /** The state a loop turn acts on: a requested reset comes first. */
  function Effective(s: State): State {
    if s.requestReset then s.(requestReset := false, station := Reset, deadline := 0) else s
  }

  /** One turn of the loop of wifi_thread that nothing interrupts. */
  function LoopTurn(s0: State, e: Env): State {
    if s0.thread != Looping then s0
    else
      var s := Effective(s0);
      match s.station
      case Init => HandleInit(s, e)
      case Reset => HandleReset(s, e)
      case Provisioning => HandleProvisioning(s, e)
      case Connecting => HandleConnecting(s, e)
      case IpSetup => HandleIpSetup(s, e)
      case Connected => HandleConnected(s, e)
  }

  // ---------------------------------------------------------------- one access of the thread

  function HandleFirst(s: State, e: Env): State {
    match s.station
    case Init => HandleInit(s, e).(place := Top)
    case Reset => s.(wpa := None, place := if Usable(s.attempt) then Starting(true) else TryUnusable)
    case Provisioning => HandleProvisioning(s, e).(place := Top)
    case Connecting =>
      if e.linked then SetStation(s, IpSetup, IPSETUP_TIMEOUT, e).(place := Top)
      else s.(place := if TimedOut(s, e) then Aborting else Top)
    case IpSetup => s.(place := if e.ip then Addressed else if TimedOut(s, e) then Expired else Top)
    case Connected => HandleConnected(s, e).(place := Top)
  }

  function Start(s: State, fromTry: bool, e: Env): State {
    var f := if fromTry then s.attempt else s.official;
    if e.wpaStarts && f.Some?
    then SetStation(s.(wpa := f, files := Started(s.files, fromTry)), Connecting, CONNECT_TIMEOUT, e)
    else s
  }

  /** The thread up to its next access to a file or a flag that others change. */
  function NextAccess(s: State, e: Env): State {
    if s.thread != Looping then s
    else
      match s.place
      case Top => Effective(s).(place := Handling)
      case Handling => HandleFirst(s, e)
      case TryUnusable => s.(place := if Usable(s.official) then Starting(false) else StartingAp)
      case Starting(fromTry) => Start(s, fromTry, e).(place := Top)
      case StartingAp => (if e.apStarts then SetStation(s, Provisioning, 0, e) else s).(place := Top)
      case Addressed => if Usable(s.attempt) then s.(place := Committing)
          else SetStation(s, Connected, 0, e).(place := Top)
      case Committing => if Usable(s.attempt) then s.(place := Renaming)
          else SetStation(s, Connected, 0, e).(place := Top)
      case Renaming => SetStation(Rename(s, e.renames), Connected, 0, e).(place := Top)
      case Expired =>
        if Usable(s.attempt) then s.(place := Aborting)
            else SetStation(s, Connecting, CONNECT_TIMEOUT, e).(place := Top)
      case Aborting => SetStation(RemoveAttempt(s, e.unlinks), Reset, 0, e).(place := Top)
  }

  // ---------------------------------------------------------------- everybody's accesses

  /** What happens, in the order it happens.  Create and Announce are the two halves of app_wifi_init;
      app_wifi_provision is made of ClearOfficial, DropTry and Signal, or of DropTry, OpenTemp, RenameTemp, CloseTemp
      and Signal, and app_wifi_provision_fallsafe of DropTry and Signal, or of OpenTemp, RenameTemp, CloseTemp and
      Signal; DropTemp comes after a rename that fails.  Calls that write are told apart by numbers. */
  datatype Event =
    | Create(ok: bool)
    | Announce
    | ThreadStart(unlinks: bool)
    | Act(env: Env)
    | Deinit
    | ClearOfficial(unlinks: bool)
    | DropTry(unlinks: bool)
    | OpenTemp(id: nat, ssid: Option<Text>, password: Option<Text>, forTry: bool, opens: bool)
    | RenameTemp(id: nat, renames: bool)
    | DropTemp
    | CloseTemp(id: nat, written: nat)
    | Signal

  predicate Clears(ssid: Option<Text>) {
    ssid.None? || CStr(ssid.value) == []
  }

  /** unlink of the official file in app_wifi_provision */
  function Cleared(f: Files, unlinks: bool): Files {
    if unlinks then f.(official := None, writers := Moved(f.writers, Official, Unlinked)) else f
  }

  /** fopen of the temporary file, which truncates it: calls that overlap have the same file open. */
  function Opened(f: Files, id: nat, conf: File, forTry: bool): Files {
    if conf.Some? && id !in f.writers
    then f.(writers := f.writers[id := Writer(conf.value, forTry, false, Temporary)])
    else f
  }

  /** rename of whatever file has the temporary name, which nobody has written to yet. */
  function Installed(f: Files, forTry: bool, renames: bool): Files {
    if !renames || !Open(f.writers, Temporary) then f
    else if forTry then
      f.(attempt := Some([]), replaced := true, whole := false, writers := Renamed(f.writers, Temporary, Try))
    else f.(official := Some([]), writers := Renamed(f.writers, Temporary, Official))
  }

  function AfterRename(f: Files, id: nat, renames: bool): Files {
    if id in f.writers && !f.writers[id].renamed
    then Installed(f.(writers := f.writers[id := f.writers[id].(renamed := true)]), f.writers[id].forTry, renames)
    else f
  }

  /** What fclose writes of a text, if it gets no further than `n` bytes. */
  function Piece(t: Text, n: nat): Text {
    t[..if n < |t| then n else |t|]
  }

  function Flushed(f: Files, w: Writer, n: nat): Files {
    match w.at
    case Official => f.(official := Overlay(f.official, Piece(w.text, n)))
    case Try =>
      f.(attempt := Overlay(f.attempt, Piece(w.text, n)), replaced := true,
      whole := f.attempt == Some([]) && n >= |w.text|)
    case _ => f
  }

  /** fclose */
  function Closed(f: Files, id: nat, n: nat): Files {
    if id in f.writers && f.writers[id].renamed
    then Flushed(f.(writers := f.writers - {id}), f.writers[id], n)
    else f
  }

  function Step(s: State, ev: Event): State {
    match ev
    case Create(ok) =>
      if s.running || s.thread != Off then s
      else s.(requestReset := false, station := Init, thread := if ok then Created else Off)
    case Announce => if s.thread != Off then s.(running := true) else s
    case ThreadStart(unlinks) =>
      if s.thread == Created
      then RemoveAttempt(s, unlinks).(thread := Looping, station := Init, deadline := 0, place := Top) else s
    case Act(e) => NextAccess(s, e)
    case Deinit => // waits for the thread to end its turn
      if !s.running || (s.thread == Looping && s.place != Top) then s
      else s.(running := false, thread := Off, requestReset := false, station := Init)
    case ClearOfficial(unlinks) => s.(files := Cleared(s.files, unlinks))
    case DropTry(unlinks) => RemoveAttempt(s, unlinks)
    case OpenTemp(id, ssid, password, forTry, opens) =>
      if opens then s.(files := Opened(s.files, id, Provisioned(ssid, password), forTry)) else s
    case RenameTemp(id, renames) => s.(files := AfterRename(s.files, id, renames))
    case DropTemp => s.(files := s.files.(writers := Moved(s.writers, Temporary, Unlinked)))
    case CloseTemp(id, n) => s.(files := Closed(s.files, id, n))
    case Signal => if s.running then s.(requestReset := true) else s
  }

  function Run(s: State, evs: seq<Event>): State
    decreases |evs|
  {
    if evs == [] then s else Step(Run(s, evs[..|evs| - 1]), evs[|evs| - 1])
  }

  lemma RunSnoc(s: State, evs: seq<Event>, ev: Event)
    ensures Run(s, evs + [ev]) == Step(Run(s, evs), ev)
  {
    assert (evs + [ev])[..|evs + [ev]| - 1] == evs;
    hide Step;
  }

  /** The manager before app_wifi_init: whatever the two files hold. */
  predicate Fresh(s: State) {
    !s.running && s.thread == Off && !s.requestReset && s.station == Init && s.writers == map[] && s.wpa == None
        && !s.replaced && s.whole && s.place == Top
  }

  // ---------------------------------------------------------------- a turn that nothing interrupts

  function Accesses(s: State, e: Env, n: nat): State
    decreases n
  {
    if n == 0 then s else Accesses(NextAccess(s, e), e, n - 1)
  }

  lemma FirstAccesses(s: State, e: Env)
    ensures var s1 := NextAccess(s, e); var s2 := NextAccess(s1, e); var s3 := NextAccess(s2, e);
      && Accesses(s, e, 1) == s1 && Accesses(s, e, 2) == s2 && Accesses(s, e, 3) == s3
      && Accesses(s, e, 4) == NextAccess(s3, e)
  {
    hide NextAccess;
    var s1 := NextAccess(s, e);
    var s2 := NextAccess(s1, e);
    var s3 := NextAccess(s2, e);
    assert Accesses(s, e, 1) == Accesses(s1, e, 0);
    assert Accesses(s, e, 2) == Accesses(s1, e, 1) == Accesses(s2, e, 0);
    assert Accesses(s, e, 3) == Accesses(s1, e, 2) == Accesses(s2, e, 1) == Accesses(s3, e, 0);
    assert Accesses(s, e, 4) == Accesses(s1, e, 3) == Accesses(s2, e, 2) == Accesses(s3, e, 1) ==
        Accesses(NextAccess(s3, e), e, 0);
  }

  lemma ResetTurn(s: State, e: Env) returns (n: nat)
    requires s.thread == Looping && s.place == Handling && s.station == Reset
    ensures n <= 4 && Accesses(s, e, n) == HandleReset(s, e).(place := Top)
  {
    hide Accesses, Usable, HandleInit, HandleProvisioning, HandleConnected, Rename, RemoveAttempt, TimedOut;
    FirstAccesses(s, e);
    MissingIsUnusable();
    n := if Usable(s.attempt) then 2 else 3;
  }

  lemma MissingIsUnusable()
    ensures !Usable(None)
  {}

  lemma IpSetupTurn(s: State, e: Env) returns (n: nat)
    requires s.thread == Looping && s.place == Handling && s.station == IpSetup
    ensures n <= 4 && Accesses(s, e, n) == HandleIpSetup(s, e).(place := Top)
  {
    hide Accesses, Usable, HandleInit, HandleProvisioning, HandleConnected, Start, Effective, Dropped, Committed;
    FirstAccesses(s, e);
    MissingIsUnusable();
    if e.ip {
      n := if Usable(s.attempt) then 4 else 2;
    } else if TimedOut(s, e) {
      n := if Usable(s.attempt) then 3 else 2;
    } else {
      n := 1;
    }
  }

  lemma ConnectingTurn(s: State, e: Env) returns (n: nat)
    requires s.thread == Looping && s.place == Handling && s.station == Connecting
    ensures n <= 4 && Accesses(s, e, n) == HandleConnecting(s, e).(place := Top)
  {
    hide Accesses, Usable, Dropped;
    FirstAccesses(s, e);
    n := if e.linked || !TimedOut(s, e) then 1 else 2;
  }

  /** Access by access, such a turn does what the handlers say. */
  lemma TurnIsAccesses(s: State, e: Env) returns (n: nat)
    requires s.thread == Looping && s.place == Top
    ensures 0 < n <= 5 && Accesses(s, e, n) == LoopTurn(s, e) && LoopTurn(s, e).place == Top
  {
    hide Accesses, Usable, HandleReset, HandleConnecting, HandleIpSetup;
    var s1 := NextAccess(s, e);
    var k := 1;
    FirstAccesses(s1, e);
    match s1.station {
      case Reset => k := ResetTurn(s1, e);
      case Connecting => k := ConnectingTurn(s1, e);
      case IpSetup => k := IpSetupTurn(s1, e);
      case _ =>
    }
    n := k + 1;
    OneMoreAccess(s, e, k);
    SameReset(s1, Effective(s), e);
    SameConnecting(s1, Effective(s), e);
    SameIpSetup(s1, Effective(s), e);
  }

  lemma OneMoreAccess(s: State, e: Env, k: nat)
    ensures Accesses(s, e, k + 1) == Accesses(NextAccess(s, e), e, k)
  {}

  /** The handlers neither look at the place nor change it. */
  lemma SameReset(s1: State, s: State, e: Env)
    requires s.place == Top && s1 == s.(place := Handling)
    ensures HandleReset(s1, e).(place := Top) == HandleReset(s, e) && HandleReset(s, e).place == Top
  {
    hide Usable;
  }

  lemma SameConnecting(s1: State, s: State, e: Env)
    requires s.place == Top && s1 == s.(place := Handling)
    ensures HandleConnecting(s1, e).(place := Top) == HandleConnecting(s, e) && HandleConnecting(s, e).place == Top
  {
    hide Dropped;
  }

  lemma SameIpSetup(s1: State, s: State, e: Env)
    requires s.place == Top && s1 == s.(place := Handling)
    ensures HandleIpSetup(s1, e).(place := Top) == HandleIpSetup(s, e) && HandleIpSetup(s, e).place == Top
  {
    hide Usable, Dropped, Committed;
  }

  // ---------------------------------------------------------------- what is tried

  /** While a network is being tried and no failsafe call has replaced the try file meanwhile, a usable try file is the
      very configuration wpa_supplicant runs with. */
  predicate TriesWhatItSays(s: State) {
    s.thread == Looping ==>
      && ((s.station == Connecting || s.station == IpSetup) && !s.replaced && Usable(s.attempt) ==> s.wpa == s.attempt)
      && ((s.place == TryUnusable || s.place == Starting(false) || s.place == StartingAp) && !s.replaced ==>
          !Usable(s.attempt))
      && (s.place == Renaming && !s.replaced && s.attempt.Some? ==> Usable(s.attempt))
      && (s.place == Addressed || s.place == Committing || s.place == Renaming || s.place == Expired ==>
          s.station == IpSetup)
  }

  lemma HandlingKeepsTries(s: State, e: Env)
    requires TriesWhatItSays(s) && s.thread == Looping && s.place == Handling
    ensures TriesWhatItSays(NextAccess(s, e))
  {
    hide Usable, TimedOut;
  }

  lemma StartKeepsTries(s: State, e: Env)
    requires TriesWhatItSays(s) && s.thread == Looping && s.place.Starting?
    ensures TriesWhatItSays(NextAccess(s, e))
  {
    hide Usable;
  }

  lemma AccessKeepsTries(s: State, e: Env)
    requires TriesWhatItSays(s)
    ensures TriesWhatItSays(NextAccess(s, e))
  {
    hide Usable, TimedOut, HandleFirst, Start;
    MissingIsUnusable();
    if s.thread == Looping {
      if s.place == Handling { HandlingKeepsTries(s, e); }
      if s.place.Starting? { StartKeepsTries(s, e); }
    }
  }

  lemma StepKeepsTries(s: State, ev: Event)
    requires TriesWhatItSays(s)
    ensures TriesWhatItSays(Step(s, ev))
  {
    assert !Usable(None);
    if ev.Act? { AccessKeepsTries(s, ev.env); }
    hide Usable, Accepted, Provisioned, NextAccess;
  }

  lemma {:induction false} RunKeepsTries(s: State, evs: seq<Event>)
    requires TriesWhatItSays(s)
    ensures TriesWhatItSays(Run(s, evs))
    decreases |evs|
  {
    hide Step, TriesWhatItSays;
    if evs != [] {
      RunKeepsTries(s, evs[..|evs| - 1]);
      StepKeepsTries(Run(s, evs[..|evs| - 1]), evs[|evs| - 1]);
    }
  }

  // ---------------------------------------------------------------- calls that are writing

  /** The access is one of the writing call of that number. */
  predicate IsOf(ev: Event, id: nat) {
    (ev.OpenTemp? || ev.RenameTemp? || ev.CloseTemp?) && ev.id == id
  }

  /** The file a call has open may get another name, but what the call writes stays. */
  predicate SameWriter(before: Writers, after: Writers, id: nat) {
    && (id in before <==> id in after)
    && (id in before ==> after[id] == before[id].(at := after[id].at))
  }

  lemma MovedKeeps(ws: Writers, from: Spot, to: Spot, id: nat)
    ensures SameWriter(ws, Moved(ws, from, to), id)
  {}

  lemma RenamedKeeps(ws: Writers, from: Spot, to: Spot, id: nat)
    ensures SameWriter(ws, Renamed(ws, from, to), id)
  {
    hide Moved;
    MovedKeeps(ws, to, Unlinked, id);
    MovedKeeps(Moved(ws, to, Unlinked), from, to, id);
  }

  /** What the thread's accesses do to the files. */
  lemma ThreadFiles(s: State, e: Env)
    ensures var f, f' := s.files, NextAccess(s, e).files;
      || f' == f || f' == Started(f, true) || f' == Started(f, false)
      || f' == Dropped(f, e.unlinks)
      || (s.thread == Looping && s.place == Renaming && f' == Committed(f, e.renames))
    ensures s.thread == Looping && s.place == Renaming ==> NextAccess(s, e).files == Committed(s.files, e.renames)
  {
    hide Usable, TimedOut, Started, Dropped, Committed;
  }

  lemma RenameKeeps(f: Files, k: nat, renames: bool, id: nat)
    ensures var ws := AfterRename(f, k, renames).writers;
      && (k != id ==> SameWriter(f.writers, ws, id))
      && (id in ws <==> id in f.writers)
      && (k == id && id in ws ==> ws[id] == f.writers[id].(renamed := true, at := ws[id].at))
  {
    hide Open, Renamed;
    if k in f.writers {
      var ws := f.writers[k := f.writers[k].(renamed := true)];
      RenamedKeeps(ws, Temporary, Try, id);
      RenamedKeeps(ws, Temporary, Official, id);
    }
  }

  /** Nobody else's access changes what a call writes. */
  lemma OthersKeep(s: State, ev: Event, id: nat)
    requires !IsOf(ev, id)
    ensures SameWriter(s.writers, Step(s, ev).writers, id)
  {
    hide Moved, Provisioned, NextAccess, AfterRename, Renamed, Overlay, Piece;
    match ev {
      case RenameTemp(k, renames) => RenameKeeps(s.files, k, renames, id);
      case Act(e) =>
        ThreadFiles(s, e);
        MovedKeeps(s.writers, Try, Unlinked, id);
        RenamedKeeps(s.writers, Try, Official, id);
      case _ =>
        MovedKeeps(s.writers, Try, Unlinked, id);
        MovedKeeps(s.writers, Temporary, Unlinked, id);
        MovedKeeps(s.writers, Official, Unlinked, id);
    }
  }
}
