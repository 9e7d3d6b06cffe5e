/** Where the official credentials come from, over any run of accesses of the thread and of API calls, and exactly
    when they are what the design promises (package/tester1/app_network.c:28-97). */
module WifiSafety {
  import opened WifiConf
  import opened WifiSpec
  import opened Options

  // ---------------------------------------------------------------- where official credentials come from

  /** A failsafe call is about to write `f`. */
  predicate OffersTry(ev: Event, f: File) {
    ev.OpenTemp? && ev.forTry && f.Some? && f == Provisioned(ev.ssid, ev.password)
  }

  /** app_wifi_provision clears the official file, or is about to write `f`. */
  predicate Grants(ev: Event, f: File) {
    || (ev.ClearOfficial? && ev.unlinks && f == None)
    || (ev.OpenTemp? && !ev.forTry && f.Some? && f == Provisioned(ev.ssid, ev.password))
  }

  /** The event saw an address while wpa_supplicant ran with `f`. */
  predicate Proves(s: State, ev: Event, f: File) {
    ev.Act? && s.thread == Looping && s.place == Handling && s.station == IpSetup && ev.env.ip && s.wpa == f
  }

  /** The credentials that stood in the official file at first, or were given to app_wifi_provision. */
  predicate Granted(s: State, evs: seq<Event>, f: File)
    decreases |evs|
  {
    if evs == [] then f == s.official else Granted(s, evs[..|evs| - 1], f) || Grants(evs[|evs| - 1], f)
  }

  /** They were given to the failsafe call, or stood in the try file at first. */
  predicate GivenToFailsafe(s: State, evs: seq<Event>, f: File)
    decreases |evs|
  {
    if evs == [] then f == s.attempt else GivenToFailsafe(s, evs[..|evs| - 1], f) || OffersTry(evs[|evs| - 1], f)
  }

  predicate Seen(s: State, evs: seq<Event>, f: File)
    decreases |evs|
  {
    evs != [] && (Seen(s, evs[..|evs| - 1], f) || Proves(Run(s, evs[..|evs| - 1]), evs[|evs| - 1], f))
  }

  /** `f` is the initial official file, or was given to app_wifi_provision, or was given to the failsafe call and was
      what wpa_supplicant ran with when an address was seen. */
  predicate Justified(s: State, evs: seq<Event>, f: File) {
    Granted(s, evs, f) || (GivenToFailsafe(s, evs, f) && Seen(s, evs, f))
  }

  lemma JustifiedSnoc(s: State, evs: seq<Event>, ev: Event, f: File)
    ensures Granted(s, evs + [ev], f) == (Granted(s, evs, f) || Grants(ev, f))
    ensures GivenToFailsafe(s, evs + [ev], f) == (GivenToFailsafe(s, evs, f) || OffersTry(ev, f))
    ensures Seen(s, evs + [ev], f) == (Seen(s, evs, f) || Proves(Run(s, evs), ev, f))
  {
    assert (evs + [ev])[..|evs + [ev]| - 1] == evs;
    hide Grants, OffersTry, Proves, Run;
  }

  // ---------------------------------------------------------------- what changes the official file

  /** The access renames the try file to the official one. */
  predicate Commits(s: State, ev: Event) {
    ev.Act? && s.thread == Looping && s.place == Renaming && ev.env.renames && s.attempt.Some?
  }

  /** The access renames the temporary file to the official one. */
  predicate Installs(f: Files, ev: Event) {
    && ev.RenameTemp? && ev.id in f.writers && !f.writers[ev.id].renamed && !f.writers[ev.id].forTry && ev.renames
    && Open(f.writers, Temporary)
  }

  /** The access is the fclose of a call that has the official file open. */
  predicate Writes(f: Files, ev: Event) {
    ev.CloseTemp? && ev.id in f.writers && f.writers[ev.id].renamed && f.writers[ev.id].at == Official
  }

  /** No call has the official file open. */
  predicate AtRest(f: Files) {
    !Open(f.writers, Official)
  }

  lemma MovedOpen(ws: Writers, from: Spot, to: Spot, at: Spot)
    requires from != to
    ensures Open(Moved(ws, from, to), at) ==
              if at == from then false else if at == to then Open(ws, at) || Open(ws, from) else Open(ws, at)
  {
    var ms := Moved(ws, from, to);
    if Open(ws, at) && at != from {
      var i :| i in ws && ws[i].at == at;
      assert i in ms && ms[i].at == at;
    }
    if at == to && Open(ws, from) {
      var i :| i in ws && ws[i].at == from;
      assert i in ms && ms[i].at == at;
    }
  }

  /** After a rename, whoever had the one file open has the other. */
  lemma RenamedOpen(ws: Writers, from: Spot, to: Spot, at: Spot)
    requires from != to && from != Unlinked && to != Unlinked
    ensures Open(Renamed(ws, from, to), at) ==
              if at == from then false else if at == to then Open(ws, from)
              else if at == Unlinked then Open(ws, at) || Open(ws, to) else Open(ws, at)
  {
    hide Open, Moved;
    MovedOpen(ws, to, Unlinked, from);
    MovedOpen(ws, to, Unlinked, at);
    MovedOpen(Moved(ws, to, Unlinked), from, to, at);
    MovedOpen(ws, to, Unlinked, to);
  }

  lemma MarkedOpen(ws: Writers, id: nat, at: Spot)
    requires id in ws
    ensures Open(ws[id := ws[id].(renamed := true)], at) == Open(ws, at)
  {
    var ms := ws[id := ws[id].(renamed := true)];
    if Open(ws, at) {
      var i :| i in ws && ws[i].at == at;
      assert i in ms && ms[i].at == at;
    }
  }

  lemma AddedOpen(ws: Writers, id: nat, w: Writer, at: Spot)
    requires id !in ws
    ensures Open(ws[id := w], at) == (Open(ws, at) || w.at == at)
  {
    var ms := ws[id := w];
    assert id in ms && ms[id] == w;
    if Open(ws, at) {
      var i :| i in ws && ws[i].at == at;
      assert i in ms && ms[i].at == at;
    }
  }

  lemma RemovedOpen(ws: Writers, id: nat, at: Spot)
    requires id in ws
    ensures Open(ws, at) == (Open(ws - {id}, at) || ws[id].at == at)
  {
    if Open(ws, at) && ws[id].at != at {
      var i :| i in ws && ws[i].at == at;
      assert i in ws - {id};
    }
  }

  /** What an access can make of the official file: nothing else than a commit and a provisioning call changes it, in
      particular no failed try, and only while a call writes it is the change not complete. */
  lemma OfficialAfter(s: State, ev: Event)
    ensures var f, f' := s.files, Step(s, ev).files;
      if Commits(s, ev) then f'.official == f.attempt && (AtRest(f') <==> !Open(f.writers, Try))
      else if Writes(f, ev) then
        var w := f.writers[ev.id];
        f'.official == Overlay(f.official, Piece(w.text, ev.written))
        && (AtRest(f') <==> !Open(f.writers - {ev.id}, Official))
      else if Installs(f, ev) then f'.official == Some([]) && !AtRest(f')
      else Grants(ev, f'.official) || (f'.official == f.official && (AtRest(f') ==> AtRest(f)))
  {
    hide Open, Moved, Renamed, Opened, AfterRename, Closed, NextAccess, Overlay, Piece, Provisioned;
    match ev {
      case OpenTemp(id, ssid, password, forTry, _) => OpenOfficial(s.files, id, Provisioned(ssid, password), forTry);
      case RenameTemp(id, renames) => RenameOfficial(s.files, id, renames);
      case CloseTemp(id, n) => CloseOfficial(s.files, id, n);
      case Act(e) => ThreadOfficial(s, e); CommitOfficial(s.files);
      case ThreadStart(_) => CommitOfficial(s.files);
      case DropTry(_) => CommitOfficial(s.files);
      case DropTemp => MovedOpen(s.writers, Temporary, Unlinked, Official);
      case _ =>
    }
  }

  lemma CommitOfficial(f: Files)
    ensures AtRest(Committed(f, true)) == if f.attempt.Some? then !Open(f.writers, Try) else AtRest(f)
    ensures !Open(Moved(f.writers, Try, Unlinked), Official) == AtRest(f)
  {
    hide Open, Moved, Renamed;
    RenamedOpen(f.writers, Try, Official, Official);
    MovedOpen(f.writers, Try, Unlinked, Official);
  }

  lemma CloseOfficial(f: Files, id: nat, n: nat)
    ensures var f', ev := Closed(f, id, n), CloseTemp(id, n);
      if Writes(f, ev) then
        f'.official == Overlay(f.official, Piece(f.writers[id].text, n))
        && (AtRest(f') <==> !Open(f.writers - {id}, Official))
      else f'.official == f.official && AtRest(f') == AtRest(f)
  {
    hide Open, Overlay, Piece;
    if id in f.writers { RemovedOpen(f.writers, id, Official); }
  }

  lemma OpenOfficial(f: Files, id: nat, conf: File, forTry: bool)
    ensures var f' := Opened(f, id, conf, forTry); f'.official == f.official && AtRest(f') == AtRest(f)
  {
    hide Open;
    if conf.Some? && id !in f.writers {
      AddedOpen(f.writers, id, Writer(conf.value, forTry, false, Temporary), Official);
    }
  }

  lemma RenameOfficial(f: Files, id: nat, renames: bool)
    ensures var f' := AfterRename(f, id, renames);
      if Installs(f, RenameTemp(id, renames)) then f'.official == Some([]) && !AtRest(f')
      else f'.official == f.official && AtRest(f') == AtRest(f)
  {
    hide Open, Moved, Renamed;
    if id !in f.writers { return; }
    var ws := f.writers[id := f.writers[id].(renamed := true)];
    MarkedOpen(f.writers, id, Temporary);
    MarkedOpen(f.writers, id, Official);
    RenamedOpen(ws, Temporary, Try, Official);
    RenamedOpen(ws, Temporary, Official, Official);
  }

  /** Of the thread's accesses, only the commit changes the official file. */
  lemma ThreadOfficial(s: State, e: Env)
    ensures var f, f' := s.files, NextAccess(s, e).files;
      if Commits(s, Act(e)) then f' == Committed(f, true)
      else f'.official == f.official && (f'.writers == f.writers || f'.writers == Moved(f.writers, Try, Unlinked))
  {
    hide NextAccess, Moved, Renamed;
    ThreadFiles(s, e);
  }

  // ---------------------------------------------------------------- what the calls are writing

  /** An access keeps what a call writes, or is the one that opens the file. */
  lemma WriterBefore(s: State, ev: Event, id: nat)
    requires id in Step(s, ev).writers
    ensures var w := Step(s, ev).writers[id];
      || (id in s.writers && w.text == s.writers[id].text && w.forTry == s.writers[id].forTry)
      || (if w.forTry then OffersTry(ev, Some(w.text)) else Grants(ev, Some(w.text)))
  {
    hide Provisioned, NextAccess, AfterRename, Overlay, Piece;
    if !IsOf(ev, id) {
      OthersKeep(s, ev, id);
    } else if ev.RenameTemp? {
      RenameKeeps(s.files, ev.id, ev.renames, id);
    }
  }

  lemma {:induction false} WriterWasGiven(s: State, evs: seq<Event>, id: nat)
    requires Fresh(s) && id in Run(s, evs).writers
    ensures var w := Run(s, evs).writers[id];
      if w.forTry then GivenToFailsafe(s, evs, Some(w.text)) else Granted(s, evs, Some(w.text))
    decreases |evs|
  {
    hide Step, OffersTry, Grants;
    if evs != [] {
      var before, ev := evs[..|evs| - 1], evs[|evs| - 1];
      WriterBefore(Run(s, before), ev, id);
      if id in Run(s, before).writers { WriterWasGiven(s, before, id); }
    }
  }

  /** A try file is left, removed, replaced, or written by a call. */
  lemma AttemptAfter(s: State, ev: Event)
    requires Step(s, ev).attempt.Some? && Step(s, ev).whole
    ensures
      || (s.attempt == Step(s, ev).attempt && s.whole)
      || (ev.CloseTemp? && ev.id in s.writers && Step(s, ev).attempt == Some(s.writers[ev.id].text))
  {
    hide Accepted, Provisioned, NextAccess, Moved, Renamed, Open, Overlay, Piece;
    if ev.Act? { ThreadFiles(s, ev.env); }
    if ev.CloseTemp? && ev.id in s.writers && ev.written >= |s.writers[ev.id].text| {
      FirstWrite(s.writers[ev.id].text, ev.written);
    }
  }

  lemma {:induction false} AttemptWasGiven(s: State, evs: seq<Event>)
    requires Fresh(s)
    ensures Run(s, evs).attempt.Some? && Run(s, evs).whole ==>
              GivenToFailsafe(s, evs, Run(s, evs).attempt) || Granted(s, evs, Run(s, evs).attempt)
    decreases |evs|
  {
    hide Step, OffersTry, Grants;
    if evs != [] && Run(s, evs).attempt.Some? && Run(s, evs).whole {
      var before, ev := evs[..|evs| - 1], evs[|evs| - 1];
      AttemptAfter(Run(s, before), ev);
      AttemptWasGiven(s, before);
      if ev.CloseTemp? && ev.id in Run(s, before).writers { WriterWasGiven(s, before, ev.id); }
    }
  }

  predicate AddressSeen(s: State) {
    s.thread == Looping && (s.place == Addressed || s.place == Committing || s.place == Renaming)
  }

  lemma AddressStep(s: State, ev: Event)
    requires AddressSeen(Step(s, ev))
    ensures Proves(s, ev, Step(s, ev).wpa) || (AddressSeen(s) && Step(s, ev).wpa == s.wpa)
  {
    hide Usable, Accepted, Provisioned, TimedOut, Moved, Renamed, Open, AfterRename, Closed, Opened, Dropped, Committed;
  }

  /** On the way to a commit, an address has been seen with what wpa_supplicant runs with. */
  lemma {:induction false} CommitSawAddress(s: State, evs: seq<Event>)
    requires Fresh(s) && AddressSeen(Run(s, evs))
    ensures Seen(s, evs, Run(s, evs).wpa)
    decreases |evs|
  {
    hide Step, Proves;
    if evs != [] {
      var before, ev := evs[..|evs| - 1], evs[|evs| - 1];
      AddressStep(Run(s, before), ev);
      if AddressSeen(Run(s, before)) { CommitSawAddress(s, before); }
    }
  }

  // ---------------------------------------------------------------- the exact condition

  /** The access commits a try file that wpa_supplicant does not run with, or that is not one call's text as a whole. */
  predicate CommitsUntried(s: State, ev: Event) {
    Commits(s, ev) && !Open(s.writers, Try) && (s.wpa != s.attempt || !s.whole)
  }

  /** The last call to write the official file is a failsafe call, or not the first one to write it, or fails to
      write all of its text. */
  predicate WritesAmiss(s: State, ev: Event) {
    && Writes(s.files, ev) && !Open(s.writers - {ev.id}, Official)
    && var w := s.writers[ev.id]; w.forTry || s.official != Some([]) || ev.written < |w.text|
  }

  predicate Spoils(s: State, ev: Event) {
    CommitsUntried(s, ev) || WritesAmiss(s, ev)
  }

  /** The official credentials are justified, unless a call is still writing them. */
  predicate Sound(s: State, evs: seq<Event>) {
    AtRest(Run(s, evs).files) ==> Justified(s, evs, Run(s, evs).official)
  }

  /** The exact guard: an access keeps the official credentials justified unless it spoils them, and what it leaves
      has no other justification. */
  lemma StaysJustified(s: State, evs: seq<Event>, ev: Event)
    requires Fresh(s) && Sound(s, evs)
    ensures var s1 := Run(s, evs);
      Sound(s, evs + [ev]) <==> !Spoils(s1, ev) || Justified(s, evs, Step(s1, ev).official)
  {
    hide Step, Run, Granted, GivenToFailsafe, Seen, Open, Overlay, Piece;
    var s1 := Run(s, evs);
    var f := Step(s1, ev).official;
    RunSnoc(s, evs, ev);
    OfficialAfter(s1, ev);
    JustifiedSnoc(s, evs, ev, f);
    AttemptWasGiven(s, evs);
    if Commits(s1, ev) {
      CommitSawAddress(s, evs);
    } else if Writes(s1.files, ev) {
      WriterWasGiven(s, evs, ev.id);
      if !WritesAmiss(s1, ev) && AtRest(Step(s1, ev).files) { FirstWrite(s1.writers[ev.id].text, ev.written); }
    }
  }

  lemma FirstWrite(t: Text, n: nat)
    requires n >= |t|
    ensures Overlay(Some([]), Piece(t, n)) == Some(t)
  {
    assert t[..|t|] == t;
  }

  /** At every moment of the run the official credentials are justified, unless a call is writing them just then. */
  predicate AlwaysJustified(s: State, evs: seq<Event>)
    decreases |evs|
  {
    Sound(s, evs) && (evs != [] ==> AlwaysJustified(s, evs[..|evs| - 1]))
  }

  /** No access of the run spoils the official credentials, unless what it leaves is justified anyhow. */
  predicate NeverSpoils(s: State, evs: seq<Event>)
    decreases |evs|
  {
    evs == [] ||
    var before, ev := evs[..|evs| - 1], evs[|evs| - 1];
    NeverSpoils(s, before)
    && (Spoils(Run(s, before), ev) ==> Justified(s, before, Step(Run(s, before), ev).official))
  }

  /** Over every run of any accesses of any threads in any order: the official credentials are justified throughout
      if and only if no access commits an untried file or writes the official one amiss, leaving there what was
      neither given to app_wifi_provision nor given to the failsafe call and seen to work.  KeptAwayIsJustified is a
      condition on the calls that is enough for this. */
  lemma {:induction false} OfficialIsJustified(s: State, evs: seq<Event>)
    requires Fresh(s)
    ensures AlwaysJustified(s, evs) <==> NeverSpoils(s, evs)
    decreases |evs|
  {
    hide Step, Justified, Spoils, Fresh, AtRest;
    if evs == [] {
      JustifiedAtFirst(s);
    } else {
      var before, ev := evs[..|evs| - 1], evs[|evs| - 1];
      assert evs == before + [ev];
      OfficialIsJustified(s, before);
      if AlwaysJustified(s, before) { StaysJustified(s, before, ev); }
    }
  }

  lemma JustifiedAtFirst(s: State)
    ensures Justified(s, [], Run(s, []).official)
  {}

  /** An untried commit needs a call that has replaced the try file, or written to it, since wpa_supplicant was
      started with it, and no RESET after the call; or a try file that no single call has written. */
  lemma UntriedWasReplaced(s: State, evs: seq<Event>, ev: Event)
    requires Fresh(s) && CommitsUntried(Run(s, evs), ev)
    ensures Run(s, evs).station == IpSetup && (Run(s, evs).replaced || !Run(s, evs).whole)
  {
    RunKeepsTries(s, evs);
    hide Run, Usable, Open;
  }

  // ---------------------------------------------------------------- a condition on the calls

  /** Calls that write come one after the other, and write all of their text; and no commit falls in the time from the
      rename of a failsafe call to the next start of wpa_supplicant with what the call has written. */
  predicate KeepsAway(s: State, ev: Event) {
    && (ev.OpenTemp? ==> s.writers == map[])
    && (ev.CloseTemp? && ev.id in s.writers ==> ev.written >= |s.writers[ev.id].text|)
    && (Commits(s, ev) ==> !s.replaced && !Open(s.writers, Try))
  }

  predicate CallsKeepAway(s: State, evs: seq<Event>)
    decreases |evs|
  {
    evs == [] || (CallsKeepAway(s, evs[..|evs| - 1]) && KeepsAway(Run(s, evs[..|evs| - 1]), evs[|evs| - 1]))
  }

  /** A call that writes alone finds its own file wherever it is. */
  predicate OnItsWay(f: Files, w: Writer) {
    match w.at
    case Official => !w.forTry && f.official == Some([])
    case Try => w.forTry && f.attempt == Some([])
    case _ => true
  }

  predicate Alone(f: Files) {
    && (forall i, j :: i in f.writers && j in f.writers ==> i == j)
    && (forall i :: i in f.writers ==> OnItsWay(f, f.writers[i]))
    && (f.attempt.Some? && !f.whole ==> Open(f.writers, Try))
  }

  lemma RenameAlone(f: Files, id: nat, renames: bool)
    requires Alone(f)
    ensures Alone(AfterRename(f, id, renames))
  {
    if id in f.writers {
      var w := f.writers[id].(renamed := true);
      assert f.writers[id := w] == map[id := w];
      OneWriter(id, w, Temporary, Try);
      OneWriter(id, w, Temporary, Official);
    }
  }

  lemma OneWriter(id: nat, w: Writer, from: Spot, to: Spot)
    requires from != to && from != Unlinked && to != Unlinked
    ensures Renamed(map[id := w], from, to) ==
              map[id := w.(at := if w.at == from then to else if w.at == to then Unlinked else w.at)]
    ensures forall at :: Open(map[id := w], at) <==> w.at == at
  {
    var ws := map[id := w];
    forall at ensures Open(ws, at) <==> w.at == at {
      if w.at == at { assert id in ws; }
    }
  }

  lemma MovedAlone(f: Files, f': Files, from: Spot)
    requires Alone(f) && from != Unlinked && f'.writers == Moved(f.writers, from, Unlinked)
    requires from == Official || f'.official == f.official
    requires if from == Try then f'.attempt == None else f'.attempt == f.attempt && f'.whole == f.whole
    ensures Alone(f')
  {
    hide Open;
    MovedOpen(f.writers, from, Unlinked, Try);
  }

  lemma CommitAlone(f: Files)
    requires Alone(f) && !Open(f.writers, Try)
    ensures Alone(Committed(f, true))
  {
    hide Moved;
    var ws := Moved(f.writers, Official, Unlinked);
    MovedOpen(f.writers, Official, Unlinked, Try);
    MovedOpen(f.writers, Official, Unlinked, Official);
    NobodyMoves(ws, Try, Official);
    MovedAlone(f, f.(official := None, writers := ws), Official);
  }

  lemma NobodyMoves(ws: Writers, from: Spot, to: Spot)
    requires !Open(ws, from)
    ensures Moved(ws, from, to) == ws
  {
    assert forall i :: i in ws ==> ws[i].at != from;
  }

  lemma OpenAlone(f: Files, id: nat, conf: File, forTry: bool)
    requires Alone(f) && f.writers == map[]
    ensures Alone(Opened(f, id, conf, forTry))
  {}

  lemma CloseAlone(f: Files, id: nat, n: nat)
    requires Alone(f) && (id in f.writers ==> n >= |f.writers[id].text|)
    ensures Alone(Closed(f, id, n))
  {
    if id in f.writers {
      RemovedOpen(f.writers, id, Try);
      assert forall i :: i in f.writers ==> i == id;
    }
  }

  lemma StepAlone(s: State, ev: Event)
    requires Alone(s.files) && KeepsAway(s, ev)
    ensures Alone(Step(s, ev).files)
  {
    hide Open, Moved, Opened, AfterRename, Closed, NextAccess, Alone;
    match ev {
      case OpenTemp(id, ssid, password, forTry, _) => OpenAlone(s.files, id, Provisioned(ssid, password), forTry);
      case RenameTemp(id, renames) => RenameAlone(s.files, id, renames);
      case CloseTemp(id, n) => CloseAlone(s.files, id, n);
      case Act(e) => ThreadAlone(s, e);
      case ThreadStart(_) => DroppedAlone(s.files);
      case DropTry(_) => DroppedAlone(s.files);
      case ClearOfficial(_) => MovedAlone(s.files, Cleared(s.files, true), Official);
      case DropTemp => MovedAlone(s.files, s.files.(writers := Moved(s.writers, Temporary, Unlinked)), Temporary);
      case _ =>
    }
  }

  lemma DroppedAlone(f: Files)
    requires Alone(f)
    ensures Alone(Dropped(f, true))
  {
    hide Open, Moved, Alone;
    MovedAlone(f, Dropped(f, true), Try);
  }

  lemma StartedAlone(f: Files, fromTry: bool)
    requires Alone(f)
    ensures Alone(Started(f, fromTry))
  {
    hide Open;
  }

  lemma ThreadAlone(s: State, e: Env)
    requires Alone(s.files) && KeepsAway(s, Act(e))
    ensures Alone(NextAccess(s, e).files)
  {
    hide Open, Moved, Renamed, NextAccess, Alone, Started;
    ThreadFiles(s, e);
    DroppedAlone(s.files);
    StartedAlone(s.files, true);
    StartedAlone(s.files, false);
    if Commits(s, Act(e)) { CommitAlone(s.files); }
  }

  lemma AloneOnTime(s: State, ev: Event)
    requires Alone(s.files) && KeepsAway(s, ev)
    ensures !WritesAmiss(s, ev) && (CommitsUntried(s, ev) ==> s.whole && !s.replaced)
  {
    if Writes(s.files, ev) { assert OnItsWay(s.files, s.files.writers[ev.id]); }
  }

  lemma AloneIsSound(s: State, evs: seq<Event>, ev: Event)
    requires Fresh(s) && Alone(Run(s, evs).files) && KeepsAway(Run(s, evs), ev)
    ensures !Spoils(Run(s, evs), ev)
  {
    hide Run, Open, Alone, KeepsAway, WritesAmiss, CommitsUntried;
    AloneOnTime(Run(s, evs), ev);
    if CommitsUntried(Run(s, evs), ev) { UntriedWasReplaced(s, evs, ev); }
  }

  lemma {:induction false} RunAlone(s: State, evs: seq<Event>)
    requires Fresh(s) && CallsKeepAway(s, evs)
    ensures Alone(Run(s, evs).files)
    decreases |evs|
  {
    hide Step, KeepsAway;
    if evs != [] {
      hide Alone;
      RunAlone(s, evs[..|evs| - 1]);
      StepAlone(Run(s, evs[..|evs| - 1]), evs[|evs| - 1]);
    }
  }

  /** Under that condition the official credentials are justified at every moment. */
  lemma {:induction false} KeptAwayIsJustified(s: State, evs: seq<Event>)
    requires Fresh(s) && CallsKeepAway(s, evs)
    ensures NeverSpoils(s, evs) && AlwaysJustified(s, evs)
    decreases |evs|
  {
    hide Step, Justified, KeepsAway, Spoils, Fresh, Alone, AtRest;
    OfficialIsJustified(s, evs);
    if evs != [] {
      var before := evs[..|evs| - 1];
      KeptAwayIsJustified(s, before);
      RunAlone(s, before);
      AloneIsSound(s, before, evs[|evs| - 1]);
    }
  }

  /** A call that nothing overlaps, from fopen to fclose: its file appears empty, and ends as its text. */
  lemma CallByItself(f: Files, id: nat, t: Text, forTry: bool)
    requires f.writers == map[]
    ensures var f1 := f.(writers := map[id := Writer(t, forTry, false, Temporary)]);
      var moved := map[id := Writer(t, forTry, true, if forTry then Try else Official)];
      var f2 := if forTry then f.(attempt := Some([]), writers := moved, replaced := true, whole := false)
                else f.(official := Some([]), writers := moved);
      && Opened(f, id, Some(t), forTry) == f1 && AfterRename(f1, id, true) == f2
      && Closed(f2, id, |t|) ==
          if forTry then f.(attempt := Some(t), replaced := true, whole := true) else f.(official := Some(t))
  {
    hide Open, Renamed, Overlay, Piece, Closed;
    var w := Writer(t, forTry, true, Temporary);
    assert map[id := w.(renamed := false)][id := w] == map[id := w];
    OneWriter(id, w, Temporary, Try);
    OneWriter(id, w, Temporary, Official);
    CloseByItself(f, id, t, forTry);
  }

  lemma CloseByItself(f: Files, id: nat, t: Text, forTry: bool)
    requires f.writers == map[]
    ensures var ws := map[id := Writer(t, forTry, true, if forTry then Try else Official)];
      if forTry
      then Closed(f.(attempt := Some([]), writers := ws, replaced := true, whole := false), id, |t|) ==
             f.(attempt := Some(t), replaced := true, whole := true)
      else Closed(f.(official := Some([]), writers := ws), id, |t|) == f.(official := Some(t))
  {
    hide Overlay, Piece;
    FirstWrite(t, |t|);
    NoWriters(id, Writer(t, forTry, true, if forTry then Try else Official));
  }

  lemma NoWriters(id: nat, w: Writer)
    ensures map[id := w] - {id} == map[]
  {}
}
