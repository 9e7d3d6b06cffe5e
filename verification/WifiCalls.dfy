/** What the calls of package/tester1/app_network.h do when nothing interrupts them. */
module WifiCalls {
  import opened WifiConf
  import opened WifiSpec
  import opened WifiSafety
  import opened Wifi
  import opened Options

  lemma {:induction false} RunJoin(s: State, a: seq<Event>, b: seq<Event>)
    ensures Run(s, a + b) == Run(Run(s, a), b)
    decreases |b|
  {
    hide Step;
    if b == [] {
      assert a + b == a;
    } else {
      var n := |b| - 1;
      assert (a + b)[..|a + b| - 1] == a + b[..n];
      RunJoin(s, a, b[..n]);
    }
  }

  lemma RunOne(s: State, ev: Event)
    ensures Run(s, [ev]) == Step(s, ev) && Run(s, []) == s
  {
    hide Step;
    assert [ev][..0] == [];
    assert Run(s, [ev]) == Step(Run(s, []), ev);
  }

  lemma RunFirst(s: State, ev: Event, evs: seq<Event>)
    ensures Run(s, [ev] + evs) == Run(Step(s, ev), evs)
  {
    RunJoin(s, [ev], evs);
    RunOne(s, ev);
    hide Run, Step;
  }

  /** The first `n` characters, or all. */
  function UpTo(t: Text, n: nat): Text {
    if n < |t| then t[..n] else t
  }

  /** Writing a configuration by itself, wherever it stops: only a text that was accepted, opened and renamed
      arrives. */
  lemma WritesByItself(s: State, id: nat, ssid: Option<Text>, password: Option<Text>, forTry: bool, opens: bool,
      renames: bool, written: nat)
    requires s.writers == map[]
    ensures var conf, done := Provisioned(ssid, password), Accepted(ssid, password) && opens && renames;
      var r := Run(s, WriteAccesses(id, ssid, password, forTry, opens, renames, done, written));
      && r == s.(files := r.files) && r.writers == map[]
      && (done ==> conf.Some?)
      && r.official == (if done && !forTry then Some(UpTo(conf.value, written)) else s.official)
      && r.attempt == (if done && forTry then Some(UpTo(conf.value, written)) else s.attempt)
  {
    hide Run, Provisioned, Accepted, Moved, Renamed, Open, Closed, Flushed, NextAccess, Installed, Opened, AfterRename;
    var conf, done := Provisioned(ssid, password), Accepted(ssid, password) && opens && renames;
    GivenIfAccepted(ssid, password);
    var open := OpenTemp(id, ssid, password, forTry, opens);
    RunOne(s, open);
    if Accepted(ssid, password) && opens {
      FinishesByItself(s, id, conf.value, forTry, renames, written);
      OpenedByItself(s.files, id, conf.value, forTry);
      RunFirst(s, open, FinishAccesses(id, renames, done, written));
    } else {
      NotOpened(s.files, id, conf, forTry);
      assert [open] + [] == [open];
    }
  }

  lemma GivenIfAccepted(ssid: Option<Text>, password: Option<Text>)
    ensures Provisioned(ssid, password).Some? <==> Accepted(ssid, password)
  {
    hide Accepted, ConfFor;
  }

  lemma NotOpened(f: Files, id: nat, conf: File, forTry: bool)
    ensures conf == None ==> Opened(f, id, conf, forTry) == f
  {}

  lemma OpenedByItself(f: Files, id: nat, t: Text, forTry: bool)
    requires f.writers == map[]
    ensures Opened(f, id, Some(t), forTry) == f.(writers := map[id := Writer(t, forTry, false, Temporary)])
  {}

  lemma FinishesByItself(s: State, id: nat, t: Text, forTry: bool, renames: bool, written: nat)
    requires s.writers == map[]
    ensures var s1 := s.(files := s.files.(writers := map[id := Writer(t, forTry, false, Temporary)]));
      var r := Run(s1, FinishAccesses(id, renames, renames, written));
      && r == s.(files := r.files) && r.writers == map[]
      && r.official == (if renames && !forTry then Some(UpTo(t, written)) else s.official)
      && r.attempt == (if renames && forTry then Some(UpTo(t, written)) else s.attempt)
  {
    hide Run, Moved, Renamed, Open, Closed, Flushed, NextAccess, Installed, Opened, AfterRename;
    var f1 := s.files.(writers := map[id := Writer(t, forTry, false, Temporary)]);
    var s1 := s.(files := f1);
    var close := CloseTemp(id, written);
    if renames {
      CallByItself(s.files, id, t, forTry);
      ClosesByItself(s.files, id, t, forTry, written);
      RunFirst(s1, RenameTemp(id, true), [close]);
      assert [RenameTemp(id, true)] + [] + [close] == [RenameTemp(id, true)] + [close];
      RunOne(Step(s1, RenameTemp(id, true)), close);
    } else {
      RenameFails(s.files, id, t, forTry, written);
      assert [RenameTemp(id, false)] + [DropTemp] + [close] == [RenameTemp(id, false)] + ([DropTemp] + [close]);
      RunFirst(s1, RenameTemp(id, false), [DropTemp] + [close]);
      var s2 := Step(s1, RenameTemp(id, false));
      RunFirst(s2, DropTemp, [close]);
      RunOne(Step(s2, DropTemp), close);
    }
  }

  lemma RenameFails(f: Files, id: nat, t: Text, forTry: bool, written: nat)
    requires f.writers == map[]
    ensures var w := Writer(t, forTry, false, Temporary);
      var f1 := f.(writers := map[id := w]);
      var f2 := f.(writers := map[id := w.(renamed := true)]);
      && AfterRename(f1, id, false) == f2
      && Closed(f2.(writers := Moved(f2.writers, Temporary, Unlinked)), id, written) == f
  {
    hide Open;
    var w := Writer(t, forTry, false, Temporary);
    assert map[id := w][id := w.(renamed := true)] == map[id := w.(renamed := true)];
    var gone := w.(renamed := true, at := Unlinked);
    assert Moved(map[id := w.(renamed := true)], Temporary, Unlinked) == map[id := gone];
    NoWriters(id, gone);
  }

  lemma ClosesByItself(f: Files, id: nat, t: Text, forTry: bool, n: nat)
    requires f.writers == map[]
    ensures var ws := map[id := Writer(t, forTry, true, if forTry then Try else Official)];
      if forTry
      then
        var r := Closed(f.(attempt := Some([]), writers := ws, replaced := true, whole := false), id, n);
        r == f.(attempt := Some(UpTo(t, n)), replaced := true, whole := r.whole)
      else Closed(f.(official := Some([]), writers := ws), id, n) == f.(official := Some(UpTo(t, n)))
  {
    NoWriters(id, Writer(t, forTry, true, if forTry then Try else Official));
    assert t[..|t|] == t;
  }

  // ---------------------------------------------------------------- the calls

  /** app_wifi_provision by itself.  Without an ssid both files are removed; else the try file is, and the official one
      holds the text of the call, as far as it gets out; when it is refused or fails the official file stays.  If it
      succeeds, the thread goes to RESET. */
  lemma ProvisionByItself(s: State, id: nat, ssid: Option<Text>, password: Option<Text>, unlinksOfficial: bool,
      unlinksTry: bool, opens: bool, renames: bool, written: nat)
    requires s.writers == map[]
    ensures var clears := ssid.None? || CStr(ssid.value) == [];
      var writes := !clears && Accepted(ssid, password) && opens && renames;
      var r := Run(s, ProvisionAccesses(id, ssid, password, unlinksOfficial, unlinksTry, opens, renames,
          clears || writes, written));
      && r == s.(files := r.files, requestReset := s.requestReset || ((clears || writes) && s.running))
      && r.writers == map[] && r.attempt == (if unlinksTry then None else s.attempt)
      && (writes ==> Provisioned(ssid, password).Some?)
      && r.official ==
          if clears then if unlinksOfficial then None else s.official
          else if writes then Some(UpTo(Provisioned(ssid, password).value, written))
          else s.official
  {
    hide Run, Step, Provisioned, Accepted, WriteAccesses, CStr, UpTo;
    if ssid.None? || CStr(ssid.value) == [] {
      ClearsByItself(s, unlinksOfficial, unlinksTry);
    } else {
      ReplacesByItself(s, id, ssid, password, unlinksTry, opens, renames, written);
    }
  }

  lemma ClearsByItself(s: State, unlinksOfficial: bool, unlinksTry: bool)
    requires s.writers == map[]
    ensures var r := Run(s, [ClearOfficial(unlinksOfficial), DropTry(unlinksTry)] + [Signal]);
      && r == s.(files := r.files, requestReset := s.requestReset || s.running) && r.writers == map[]
      && r.attempt == (if unlinksTry then None else s.attempt)
      && r.official == (if unlinksOfficial then None else s.official)
  {
    hide Run, NextAccess, Opened, AfterRename, Closed, Moved;
    NothingMoves();
    var drop, clear := DropTry(unlinksTry), ClearOfficial(unlinksOfficial);
    assert [clear, drop] + [Signal] == [clear] + ([drop] + [Signal]);
    RunFirst(s, clear, [drop] + [Signal]);
    RunFirst(Step(s, clear), drop, [Signal]);
    RunOne(Step(Step(s, clear), drop), Signal);
  }

  lemma ReplacesByItself(s: State, id: nat, ssid: Option<Text>, password: Option<Text>, unlinksTry: bool, opens: bool,
      renames: bool, written: nat)
    requires s.writers == map[]
    ensures var done := Accepted(ssid, password) && opens && renames;
      var r := Run(s, [DropTry(unlinksTry)] + WriteAccesses(id, ssid, password, false, opens, renames, done, written)
          + if done then [Signal] else []);
      && r == s.(files := r.files, requestReset := s.requestReset || (done && s.running)) && r.writers == map[]
      && r.attempt == (if unlinksTry then None else s.attempt)
      && (done ==> Provisioned(ssid, password).Some?)
      && r.official == (if done then Some(UpTo(Provisioned(ssid, password).value, written)) else s.official)
  {
    hide Run, Provisioned, Accepted, NextAccess, WriteAccesses, UpTo, Opened, AfterRename, Closed, Moved;
    NothingMoves();
    var done := Accepted(ssid, password) && opens && renames;
    var drop := DropTry(unlinksTry);
    var s1, own := Step(s, drop), WriteAccesses(id, ssid, password, false, opens, renames, done, written);
    WritesByItself(s1, id, ssid, password, false, opens, renames, written);
    var tail := if done then [Signal] else [];
    assert [drop] + own + tail == [drop] + (own + tail);
    RunFirst(s, drop, own + tail);
    RunJoin(s1, own, tail);
    RunOne(Run(s1, own), Signal);
  }

  /** app_wifi_provision_fallsafe by itself: the try file holds the text of the call, and the official one stays. */
  lemma FailsafeByItself(s: State, id: nat, ssid: Option<Text>, password: Option<Text>, unlinksTry: bool, opens: bool,
      renames: bool, written: nat)
    requires s.writers == map[]
    ensures var clears := ssid.None? || CStr(ssid.value) == [];
      var writes := !clears && Accepted(ssid, password) && opens && renames;
      var r := Run(s, FailsafeAccesses(id, ssid, password, unlinksTry, opens, renames, clears || writes, written));
      && r == s.(files := r.files, requestReset := s.requestReset || ((clears || writes) && s.running))
      && r.writers == map[] && r.official == s.official
      && (writes ==> Provisioned(ssid, password).Some?)
      && r.attempt ==
          if clears then if unlinksTry then None else s.attempt
          else if writes then Some(UpTo(Provisioned(ssid, password).value, written))
          else s.attempt
  {
    hide Run, Provisioned, Accepted, NextAccess, WriteAccesses, CStr, UpTo, Opened, AfterRename, Closed, Moved;
    NothingMoves();
    if ssid.None? || CStr(ssid.value) == [] {
      RunFirst(s, DropTry(unlinksTry), [Signal]);
      RunOne(Step(s, DropTry(unlinksTry)), Signal);
    } else {
      var done := Accepted(ssid, password) && opens && renames;
      var own := WriteAccesses(id, ssid, password, true, opens, renames, done, written);
      WritesByItself(s, id, ssid, password, true, opens, renames, written);
      var tail := if done then [Signal] else [];
      RunJoin(s, own, tail);
      RunOne(Run(s, own), Signal);
    }
  }

  lemma NothingMoves()
    ensures forall from, to :: Moved(map[], from, to) == map[]
  {}

  /** app_wifi_init starts the manager, whose thread begins in INIT without a try file; when the thread cannot be
      created nothing runs.  app_wifi_deinit ends the thread. */
  lemma StartAndStop(s: State, ok: bool, unlinks: bool)
    requires Fresh(s)
    ensures var r := Run(s, [Create(ok)] + if ok then [Announce, ThreadStart(unlinks)] else []);
      if ok then
        && r.running && r.thread == Looping && r.station == Init && r.deadline == 0 && !r.requestReset
        && r.official == s.official && r.attempt == (if unlinks then None else s.attempt)
        && Step(r, Deinit) == r.(running := false, thread := Off)
      else r == s
  {
    hide Run, Moved, NextAccess;
    if ok {
      assert [Create(ok)] + [Announce, ThreadStart(unlinks)] == [Create(ok)] + ([Announce] + [ThreadStart(unlinks)]);
      RunFirst(s, Create(ok), [Announce] + [ThreadStart(unlinks)]);
      RunFirst(Step(s, Create(ok)), Announce, [ThreadStart(unlinks)]);
      RunOne(Step(Step(s, Create(ok)), Announce), ThreadStart(unlinks));
    } else {
      assert [Create(ok)] + [] == [Create(ok)];
      RunOne(s, Create(ok));
    }
  }
}
