/** Readers of wpa_supplicant configurations on their own terms: what the parser of package/tester1/app_network.c
    takes for a usable network, and what the files of its writer say to wpa_supplicant. */
module WifiText {
  import opened WifiConf
  import opened Options

  // ---------------------------------------------------------------- which files are usable

  /** A file as fgets hands it out. */
  function Chunks(s: Text): seq<Text>
    decreases |s|
  {
    if s == [] then [] else var n := ChunkLen(s, LINE_SIZE - 1); [s[..n]] + Chunks(s[n..])
  }

  /** A line without its indentation, as far as it is a C string. */
  function Bare(line: Text): Text {
    SkipSpaces(CStr(line))
  }

  predicate Opens(line: Text) {
    "network=" <= Bare(line)
  }

  predicate Closes(line: Text) {
    "}" <= Bare(line)
  }

  predicate NamesSsid(line: Text) {
    "ssid=" <= Bare(line) && HasSsid(Bare(line)[5..])
  }

  /** A closing brace. */
  predicate Closing(ls: seq<Text>) {
    exists k :: 0 <= k < |ls| && Closes(ls[k])
  }

  /** An ssid and then a closing brace, and no closing brace before. */
  predicate Inner(ls: seq<Text>) {
    exists j, k :: 0 <= j < k < |ls| && NamesSsid(ls[j]) && Closes(ls[k]) && forall m :: 0 <= m < k ==> !Closes(ls[m])
  }

  /** A line that opens a network, one that names its ssid, and one that closes it, in this order. */
  predicate HasNetwork(ls: seq<Text>) {
    exists i :: 0 <= i < |ls| && Opens(ls[i]) && Inner(ls[i + 1..])
  }

  lemma OneKind(line: Text)
    ensures Opens(line) ==> !Closes(line) && !NamesSsid(line)
    ensures NamesSsid(line) ==> !Closes(line)
  {
    var p := Bare(line);
    if Opens(line) { assert p[0] == 'n'; }
    if NamesSsid(line) { assert p[0] == 's'; }
    if Closes(line) { assert p[0] == '}'; }
  }

  lemma ScanKinds(line: Text, f: Scan)
    requires f.Scan?
    ensures ScanLine(line, f) ==
              if !f.inNetwork then if Opens(line) then Scan(true, false) else f
              else if Closes(line) then if f.hasSsid then Found else f.(inNetwork := false)
              else if NamesSsid(line) then f.(hasSsid := true) else f
  {
    OneKind(line);
    var p := Bare(line);
    if p != [] && p[0] == '}' { assert "}" <= p; }
    hide CStr, SkipSpaces, HasSsid;
  }

  lemma ClosingCons(l: Text, ls: seq<Text>)
    ensures Closing([l] + ls) <==> Closes(l) || Closing(ls)
  {
    hide Closes;
    var t := [l] + ls;
    if Closing(t) {
      var k :| 0 <= k < |t| && Closes(t[k]);
      if k > 0 { assert ls[k - 1] == t[k]; }
    }
    if Closes(l) { assert t[0] == l; }
    if Closing(ls) {
      var k :| 0 <= k < |ls| && Closes(ls[k]);
      assert t[k + 1] == ls[k];
    }
  }

  /** The first closing brace. */
  lemma {:induction false} FirstClosing(ls: seq<Text>) returns (k: nat)
    requires Closing(ls)
    ensures k < |ls| && Closes(ls[k]) && forall m :: 0 <= m < k ==> !Closes(ls[m])
  {
    hide Closes;
    k := 0;
    while k < |ls| && !Closes(ls[k])
      invariant k <= |ls| && forall m :: 0 <= m < k ==> !Closes(ls[m])
    {
      k := k + 1;
    }
  }

  lemma InnerCons(l: Text, ls: seq<Text>)
    ensures Inner([l] + ls) <==> !Closes(l) && (Inner(ls) || (NamesSsid(l) && Closing(ls)))
  {
    hide Closes, NamesSsid;
    var t := [l] + ls;
    if Inner(t) {
      var j, k :| 0 <= j < k < |t| && NamesSsid(t[j]) && Closes(t[k]) && forall m :: 0 <= m < k ==> !Closes(t[m]);
      assert !Closes(t[0]) && ls[k - 1] == t[k];
      forall m | 0 <= m < k - 1 ensures !Closes(ls[m]) { assert t[m + 1] == ls[m]; }
      if j > 0 { assert ls[j - 1] == t[j]; }
    }
    if !Closes(l) && Inner(ls) {
      var j, k :| 0 <= j < k < |ls| && NamesSsid(ls[j]) && Closes(ls[k]) && forall m :: 0 <= m < k ==> !Closes(ls[m]);
      assert t[j + 1] == ls[j] && t[k + 1] == ls[k];
      forall m | 0 <= m < k + 1 ensures !Closes(t[m]) { if m > 0 { assert t[m] == ls[m - 1]; } }
    }
    if !Closes(l) && NamesSsid(l) && Closing(ls) {
      var k := FirstClosing(ls);
      assert t[0] == l && t[k + 1] == ls[k];
      forall m | 0 <= m < k + 1 ensures !Closes(t[m]) { if m > 0 { assert t[m] == ls[m - 1]; } }
    }
  }

  lemma NetworkCons(l: Text, ls: seq<Text>)
    ensures HasNetwork([l] + ls) <==> HasNetwork(ls) || (Opens(l) && Inner(ls))
  {
    hide Inner, Opens;
    var t := [l] + ls;
    if HasNetwork(t) {
      var i :| 0 <= i < |t| && Opens(t[i]) && Inner(t[i + 1..]);
      assert t[i + 1..] == ls[i..];
      if i > 0 { assert ls[i - 1] == t[i]; }
    }
    if HasNetwork(ls) {
      var i :| 0 <= i < |ls| && Opens(ls[i]) && Inner(ls[i + 1..]);
      assert t[i + 1] == ls[i] && t[i + 2..] == ls[i + 1..];
    }
    if Opens(l) && Inner(ls) { assert t[0] == l && t[1..] == ls; }
  }

  lemma InnerCloses(ls: seq<Text>)
    ensures Inner(ls) || HasNetwork(ls) ==> Closing(ls)
  {
    hide Closes, NamesSsid, Opens;
    if HasNetwork(ls) {
      var i :| 0 <= i < |ls| && Opens(ls[i]) && Inner(ls[i + 1..]);
      var k :| 0 <= k < |ls[i + 1..]| && Closes(ls[i + 1..][k]);
      assert ls[i + 1 + k] == ls[i + 1..][k];
    }
  }

  /** What the loop finds from any state on. */
  lemma {:induction false} ScanFinds(s: Text, f: Scan)
    requires f.Scan?
    ensures var ls := Chunks(s);
      Configured(s, f) <==>
        if !f.inNetwork then HasNetwork(ls) else if f.hasSsid then Closing(ls) else Inner(ls) || HasNetwork(ls)
    decreases |s|
  {
    hide ScanLine, Opens, Closes, NamesSsid, HasNetwork, Inner, Closing;
    if s == [] {
      NothingThere();
    } else {
      var n := ChunkLen(s, LINE_SIZE - 1);
      var l, rest := s[..n], Chunks(s[n..]);
      ScanKinds(l, f);
      OneKind(l);
      ClosingCons(l, rest);
      InnerCons(l, rest);
      NetworkCons(l, rest);
      InnerCloses(rest);
      if ScanLine(l, f).Scan? { ScanFinds(s[n..], ScanLine(l, f)); }
    }
  }

  lemma NothingThere()
    ensures !HasNetwork([]) && !Inner([]) && !Closing([])
  {}

  /** A file is usable exactly if it exists and has a network with an ssid. */
  lemma UsableExactly(file: Option<Text>)
    ensures Usable(file) <==> file.Some? && HasNetwork(Chunks(file.value))
  {
    hide HasNetwork, Chunks, Configured;
    if file.Some? { ScanFinds(file.value, Scan(false, false)); }
  }

  /** The ssid begins at a place, perhaps with a quote. */
  predicate SsidAt(p: Text, n: int) {
    && 0 <= n < |p| && (forall i :: 0 <= i < n ==> IsSpace(p[i])) && !IsSpace(p[n])
    && (p[n] == '"' ==> n + 1 < |p| && p[n + 1] != '"' && p[n + 1] != '\n')
  }

  /** There is an ssid behind `ssid=` exactly if something other than spaces is there, and not just quotes. */
  lemma HasSsidExactly(p: Text)
    ensures HasSsid(p) <==> exists n :: SsidAt(p, n)
  {
    var n := SkipCount(p);
    hide SkipSpaces, IsSpace;
    NewlineIsSpace();
    forall k | SsidAt(p, k) ensures k == n {}
    if n < |p| {
      assert p[n..][0] == p[n] && p[n..][1..] == p[n + 1..];
      assert HasSsid(p) <==> SsidAt(p, n);
    }
  }

  lemma NewlineIsSpace()
    ensures IsSpace('\n')
  {}

  /** How many spaces are skipped. */
  lemma {:induction false} SkipCount(s: Text) returns (n: nat)
    ensures n <= |s| && SkipSpaces(s) == s[n..] && (forall i :: 0 <= i < n ==> IsSpace(s[i]))
    ensures n < |s| ==> !IsSpace(s[n])
  {
    hide IsSpace;
    if s != [] && IsSpace(s[0]) {
      n := SkipCount(s[1..]);
      n := n + 1;
      assert s[1..][n - 1..] == s[n..];
      forall i | 0 <= i < n ensures IsSpace(s[i]) { if i > 0 { assert s[i] == s[1..][i - 1]; } }
    } else {
      n := 0;
    }
  }

  /** fgets: up to and including a newline, the end of the file, or as much as the buffer holds. */
  lemma {:induction false} ChunkExactly(s: Text, room: nat)
    ensures var n := ChunkLen(s, room);
      && (forall i :: 0 <= i < n - 1 ==> s[i] != '\n')
      && (n < |s| && n < room ==> n > 0 && s[n - 1] == '\n')
  {
    if s != [] && room > 0 && s[0] != '\n' { ChunkExactly(s[1..], room - 1); }
  }

  /** A C string ends at the first NUL. */
  lemma {:induction false} CStrExactly(s: Text)
    ensures var n := |CStr(s)|; n <= |s| && CStr(s) == s[..n] && '\0' !in CStr(s) && (n < |s| ==> s[n] == '\0')
  {
    if s != [] && s[0] != '\0' { CStrExactly(s[1..]); }
  }

  // ---------------------------------------------------------------- what a configuration says

  /** A line `name=value`. */
  datatype Setting = Setting(name: Text, value: Text)

  /** wpa_supplicant.conf(5): global settings, and network blocks with settings of their own. */
  datatype Conf = Conf(globals: seq<Setting>, networks: seq<seq<Setting>>)

  function LinesOf(s: Text): seq<Text> {
    if s == [] then []
    else if s[0] == '\n' then [[]] + LinesOf(s[1..])
    else
      var more := LinesOf(s[1..]);
      if more == [] then [[s[0]]] else [[s[0]] + more[0]] + more[1..]
  }

  function Unindented(l: Text): Text {
    if l != [] && l[0] == ' ' then Unindented(l[1..]) else l
  }

  function SettingOf(l: Text): Option<Setting> {
    if l == [] then None
    else if l[0] == '=' then Some(Setting([], l[1..]))
    else
      match SettingOf(l[1..])
      case None => None
      case Some(t) => Some(Setting([l[0]] + t.name, t.value))
  }

  /** The lines of a configuration, from inside a network or outside; None if it is malformed. */
  function Read(ls: seq<Text>, inside: Option<seq<Setting>>, c: Conf): Option<Conf>
    decreases |ls|
  {
    if ls == [] then if inside.None? then Some(c) else None
    else
      var l := Unindented(ls[0]);
      if l == [] then Read(ls[1..], inside, c)
      else if inside.None? && l == "network={" then Read(ls[1..], Some([]), c)
      else if inside.Some? && l == "}" then Read(ls[1..], None, c.(networks := c.networks + [inside.value]))
      else
        match SettingOf(l)
        case None => None
        case Some(t) =>
          if inside.Some? then Read(ls[1..], Some(inside.value + [t]), c)
          else Read(ls[1..], None, c.(globals := c.globals + [t]))
  }

  function Parse(s: Text): Option<Conf> {
    Read(LinesOf(s), None, Conf([], []))
  }

  /** A text in double quotes, with none inside. */
  function Unquoted(v: Text): Option<Text> {
    if |v| >= 2 && v[0] == '"' && v[|v| - 1] == '"' && '"' !in v[1..|v| - 1] then Some(v[1..|v| - 1]) else None
  }

  function Lookup(net: seq<Setting>, name: Text): Option<Text> {
    if net == [] then None else if net[0].name == name then Some(net[0].value) else Lookup(net[1..], name)
  }

  function Quoted(net: seq<Setting>, name: Text): Option<Text> {
    match Lookup(net, name)
    case None => None
    case Some(v) => Unquoted(v)
  }

  /** What wpa_supplicant is told of a network: its ssid, how keys are managed, the passphrase, and whether management
      frames must be protected. */
  datatype Network = Network(ssid: Option<Text>, keyMgmt: Option<Text>, psk: Option<Text>, protect: Option<Text>)

  function NetworkOf(net: seq<Setting>): Network {
    Network(Quoted(net, "ssid"), Lookup(net, "key_mgmt"), Quoted(net, "psk"), Lookup(net, "ieee80211w"))
  }

  function NetworksOf(nets: seq<seq<Setting>>): seq<Network> {
    if nets == [] then [] else [NetworkOf(nets[0])] + NetworksOf(nets[1..])
  }

  /** The networks of a configuration. */
  function Networks(s: Text): Option<seq<Network>> {
    match Parse(s)
    case None => None
    case Some(c) => Some(NetworksOf(c.networks))
  }

  // ---------------------------------------------------------------- reading lines

  lemma {:induction false} LinesOfLine(l: Text, rest: Text)
    requires NoNewline(l)
    ensures LinesOf(Line(l) + rest) == [l] + LinesOf(rest)
  {
    var s := Line(l) + rest;
    if l == [] {
      assert s[1..] == rest;
    } else {
      assert s[1..] == Line(l[1..]) + rest;
      LinesOfLine(l[1..], rest);
      assert [l[0]] + l[1..] == l;
      assert LinesOf(s) == [[s[0]] + LinesOf(s[1..])[0]] + LinesOf(s[1..])[1..];
    }
  }

  lemma {:induction false} SettingSplits(name: Text, value: Text)
    requires '=' !in name
    ensures SettingOf(name + "=" + value) == Some(Setting(name, value))
  {
    var l := name + "=" + value;
    if name == [] {
      assert l[1..] == value;
    } else {
      assert l[1..] == name[1..] + "=" + value;
      SettingSplits(name[1..], value);
      assert [name[0]] + name[1..] == name;
    }
  }

  /** A setting line, indented or not. */
  predicate Plain(t: Setting) {
    t.name != [] && t.name[0] != ' ' && '=' !in t.name && NoNewline(t.name) && NoNewline(t.value)
  }

  function Printed(t: Setting): Text {
    t.name + "=" + t.value
  }

  lemma ReadGlobal(t: Setting, rest: seq<Text>, c: Conf)
    requires Plain(t) && t.name != "network"
    ensures Read([Printed(t)] + rest, None, c) == Read(rest, None, c.(globals := c.globals + [t]))
  {
    SettingSplits(t.name, t.value);
    var l := Printed(t);
    assert l[0] == t.name[0] && Unindented(l) == l;
    if l == "network={" { NetworkIsNoSetting(t); }
    assert ([l] + rest)[1..] == rest;
  }

  lemma NetworkIsNoSetting(t: Setting)
    requires '=' !in t.name && t.name + "=" + t.value == "network={"
    ensures t.name == "network"
  {
    SettingSplits(t.name, t.value);
    SettingSplits("network", "{");
    assert "network" + "=" + "{" == "network={";
  }

  lemma ReadSetting(t: Setting, rest: seq<Text>, net: seq<Setting>, c: Conf)
    requires Plain(t)
    ensures Read(["  " + Printed(t)] + rest, Some(net), c) == Read(rest, Some(net + [t]), c)
  {
    SettingSplits(t.name, t.value);
    var l, q := "  " + Printed(t), Printed(t);
    assert l[1..] == " " + q && (" " + q)[1..] == q && q[0] == t.name[0];
    assert Unindented(q) == q && Unindented(" " + q) == q && Unindented(l) == q;
    assert |q| >= 2;
    assert (["  " + Printed(t)] + rest)[1..] == rest;
  }

  /** The lines of a network: a blank one, the brace, the settings, the brace. */
  function Block(net: seq<Setting>): seq<Text> {
    [[], "network={"] + Indented(net) + ["}"]
  }

  function Indented(net: seq<Setting>): seq<Text> {
    if net == [] then [] else ["  " + Printed(net[0])] + Indented(net[1..])
  }

  predicate AllPlain(ts: seq<Setting>) {
    forall t :: t in ts ==> Plain(t)
  }

  lemma {:induction false} ReadIndented(ts: seq<Setting>, rest: seq<Text>, net: seq<Setting>, c: Conf)
    requires AllPlain(ts)
    ensures Read(Indented(ts) + rest, Some(net), c) == Read(rest, Some(net + ts), c)
    decreases |ts|
  {
    hide Read, Plain, Printed;
    if ts == [] {
      assert Indented(ts) + rest == rest && net + ts == net;
    } else {
      assert Indented(ts) + rest == ["  " + Printed(ts[0])] + (Indented(ts[1..]) + rest);
      assert ts[0] in ts;
      ReadSetting(ts[0], Indented(ts[1..]) + rest, net, c);
      ReadIndented(ts[1..], rest, net + [ts[0]], c);
      assert net + [ts[0]] + ts[1..] == net + ts;
    }
  }

  /** A network block is read as its settings. */
  lemma ReadBlock(net: seq<Setting>, rest: seq<Text>, c: Conf)
    requires AllPlain(net)
    ensures Read(Block(net) + rest, None, c) == Read(rest, None, c.(networks := c.networks + [net]))
  {
    hide Indented, AllPlain, SettingOf;
    var tail := Indented(net) + (["}"] + rest);
    var ls := Block(net) + rest;
    assert ls == [[]] + (["network={"] + tail);
    assert ([[]] + (["network={"] + tail))[1..] == ["network={"] + tail && (["network={"] + tail)[1..] == tail;
    assert Unindented("network={") == "network={" && Unindented("}") == "}";
    ReadIndented(net, ["}"] + rest, [], c);
    assert [] + net == net && (["}"] + rest)[1..] == rest;
  }

  // ---------------------------------------------------------------- the files of the writer

  function Joined(ls: seq<Text>): Text {
    if ls == [] then [] else Line(ls[0]) + Joined(ls[1..])
  }

  lemma {:induction false} JoinedJoin(a: seq<Text>, b: seq<Text>)
    ensures Joined(a + b) == Joined(a) + Joined(b)
  {
    if a == [] {
      assert a + b == b;
    } else {
      assert (a + b)[1..] == a[1..] + b;
      JoinedJoin(a[1..], b);
      hide Line;
      assert Line(a[0]) + (Joined(a[1..]) + Joined(b)) == (Line(a[0]) + Joined(a[1..])) + Joined(b);
    }
  }

  lemma {:induction false} LinesOfJoined(ls: seq<Text>)
    requires forall l :: l in ls ==> NoNewline(l)
    ensures LinesOf(Joined(ls)) == ls
  {
    hide NoNewline, Line;
    if ls != [] {
      LinesOfLine(ls[0], Joined(ls[1..]));
      LinesOfJoined(ls[1..]);
    }
  }

  const CONTROL: Setting := Setting("ctrl_interface", "/var/run/wpa_supplicant")
  const UPDATES: Setting := Setting("update_config", "1")

  /** The networks of a file for an ssid and a passphrase. */
  function NetworksFor(ssid: Text, password: Text): seq<seq<Setting>> {
    var scan, name, psk := Setting("scan_ssid", "1"), Setting("ssid", "\"" + ssid + "\""),
        Setting("psk", "\"" + password + "\"");
    if password == [] then [[scan, name, Setting("key_mgmt", "NONE")]]
    else
      [[scan, name, Setting("key_mgmt", "SAE"), Setting("ieee80211w", "2"), psk],
       [scan, name, Setting("key_mgmt", "WPA-PSK"), psk]]
  }

  lemma HeaderLines()
    ensures Header() == Joined([Printed(CONTROL), Printed(UPDATES), []])
  {
    hide CtrlInterface, UpdateConfig, Line, Printed;
    FirstGlobal();
    SecondGlobal();
    ThreeLines(Printed(CONTROL), Printed(UPDATES), []);
  }

  lemma FirstGlobal()
    ensures Printed(CONTROL) == CtrlInterface()
  {
    assert "ctrl_interface" + "=" == "ctrl_interface=";
  }

  lemma SecondGlobal()
    ensures Printed(UPDATES) == UpdateConfig()
  {}

  lemma ThreeLines(a: Text, b: Text, c: Text)
    ensures Joined([a, b, c]) == Line(a) + Line(b) + Line(c)
  {
    assert [a, b, c][1..] == [b, c] && [b, c][1..] == [c] && [c][1..] == [];
    hide Line;
    assert Joined([c]) == Line(c) + [] && Joined([b, c]) == Line(b) + Joined([c]);
  }

  lemma OpeningLines(ssid: Text)
    ensures Opening(ssid) ==
        Joined(["network={", "  " + Printed(Setting("scan_ssid", "1")), "  " + Printed(Setting("ssid",
            "\"" + ssid + "\""))])
  {
    var b, c := "  " + Printed(Setting("scan_ssid", "1")), "  " + Printed(Setting("ssid", "\"" + ssid + "\""));
    assert b == ScanSsid() && c == Ssid() + ssid + "\"";
    hide ScanSsid, Ssid, Line, Printed;
    ThreeLines("network={", b, c);
  }

  /** All lines of a file for an ssid and a passphrase. */
  function AllLines(ssid: Text, password: Text): seq<Text> {
    var nets := NetworksFor(ssid, password);
    [Printed(CONTROL), Printed(UPDATES)] + Block(nets[0]) + if |nets| == 2 then Block(nets[1]) else []
  }

  lemma KeyLines()
    ensures "  " + Printed(Setting("key_mgmt", "NONE")) == "  key_mgmt=NONE"
    ensures "  " + Printed(Setting("key_mgmt", "SAE")) == "  key_mgmt=SAE"
    ensures "  " + Printed(Setting("key_mgmt", "WPA-PSK")) == "  key_mgmt=WPA-PSK"
    ensures "  " + Printed(Setting("ieee80211w", "2")) == "  ieee80211w=2"
  {
    var key := "  " + "key_mgmt" + "=";
    assert key == "  key_mgmt=";
    assert key + "NONE" == "  key_mgmt=NONE" && key + "SAE" == "  key_mgmt=SAE"
        && key + "WPA-PSK" == "  key_mgmt=WPA-PSK";
  }

  lemma PskLine(password: Text)
    ensures Psk(password) == Line("  " + Printed(Setting("psk", "\"" + password + "\"")))
  {
    assert "  psk=\"" + password + "\"" == "  " + Printed(Setting("psk", "\"" + password + "\""));
    hide Line;
  }

  lemma IndentedCons(t: Setting, ts: seq<Setting>)
    ensures Indented([t] + ts) == ["  " + Printed(t)] + Indented(ts)
  {
    assert ([t] + ts)[1..] == ts;
  }

  lemma OpenFile(ssid: Text)
    ensures ConfFor(ssid, []) == Joined(AllLines(ssid, []))
  {
    hide Line, Header, Opening, Printed, Joined, Indented;
    var scan, name, key := Setting("scan_ssid", "1"), Setting("ssid", "\"" + ssid + "\""), Setting("key_mgmt", "NONE");
    KeyLines();
    HeaderLines();
    OpeningLines(ssid);
    var h := [Printed(CONTROL), Printed(UPDATES), []];
    var o := ["network={", "  " + Printed(scan), "  " + Printed(name)];
    var k := ["  " + Printed(key), "}"];
    JoinedJoin(h, o);
    JoinedJoin(h + o, k);
    TwoLines(k[0], k[1]);
    ThreeIndented(scan, name, key);
    assert AllLines(ssid, []) == h + o + k;
  }

  lemma TwoLines(a: Text, b: Text)
    ensures Joined([a, b]) == Line(a) + Line(b)
  {
    assert [a, b][1..] == [b] && [b][1..] == [];
    hide Line;
    assert Joined([b]) == Line(b) + [];
  }

  lemma ThreeIndented(a: Setting, b: Setting, c: Setting)
    ensures Indented([a, b, c]) == ["  " + Printed(a), "  " + Printed(b), "  " + Printed(c)]
  {
    hide Printed;
    IndentedCons(a, [b, c]);
    IndentedCons(b, [c]);
    IndentedCons(c, []);
    assert [a] + [b, c] == [a, b, c] && [b] + [c] == [b, c] && [c] + [] == [c];
  }

  lemma SecureFile(ssid: Text, password: Text)
    requires password != []
    ensures ConfFor(ssid, password) == Joined(AllLines(ssid, password))
  {
    hide Line, Header, Opening, Printed, Joined, Indented, Psk;
    var scan, name, psk := Setting("scan_ssid", "1"), Setting("ssid", "\"" + ssid + "\""),
        Setting("psk", "\"" + password + "\"");
    var sae, protect, wpa := Setting("key_mgmt", "SAE"), Setting("ieee80211w", "2"), Setting("key_mgmt", "WPA-PSK");
    KeyLines();
    PskLine(password);
    HeaderLines();
    OpeningLines(ssid);
    var h := [Printed(CONTROL), Printed(UPDATES), []];
    var o := ["network={", "  " + Printed(scan), "  " + Printed(name)];
    var k := ["  " + Printed(sae), "  " + Printed(protect), "  " + Printed(psk)];
    var m := ["}", []];
    var e := ["  " + Printed(wpa), "  " + Printed(psk), "}"];
    JoinedJoin(h, o);
    JoinedJoin(h + o, k);
    JoinedJoin(h + o + k, m);
    JoinedJoin(h + o + k + m, o);
    JoinedJoin(h + o + k + m + o, e);
    ThreeLines(k[0], k[1], k[2]);
    TwoLines("}", []);
    ThreeLines(e[0], e[1], "}");
    SecureLines(ssid, password, scan, name, sae, protect, psk, wpa);
    Regroup(Header(), Opening(ssid), Line(k[0]) + Line(k[1]) + Line(k[2]), Line("}"), Line([]), Line(e[0]), Line(e[1]));
  }

  lemma SecureLines(ssid: Text, password: Text, scan: Setting, name: Setting, sae: Setting, protect: Setting,
      psk: Setting, wpa: Setting)
    requires password != [] && NetworksFor(ssid, password) == [[scan, name, sae, protect, psk], [scan, name, wpa, psk]]
    ensures var h := [Printed(CONTROL), Printed(UPDATES), []];
      var o := ["network={", "  " + Printed(scan), "  " + Printed(name)];
      AllLines(ssid, password) ==
        h + o + ["  " + Printed(sae), "  " + Printed(protect), "  " + Printed(psk)] + ["}", []] + o
        + ["  " + Printed(wpa), "  " + Printed(psk), "}"]
  {
    hide Printed, Indented, NetworksFor;
    TwoBlocks(scan, name, sae, protect, psk, wpa);
  }

  lemma Regroup(h: Text, o: Text, k: Text, c: Text, b: Text, x: Text, y: Text)
    ensures h + o + k + c + (b + o + x + y + c) == h + o + k + (c + b) + o + (x + y + c)
  {}

  lemma TwoBlocks(scan: Setting, name: Setting, sae: Setting, protect: Setting, psk: Setting, wpa: Setting)
    ensures Indented([scan, name, sae, protect, psk]) ==
              ["  " + Printed(scan), "  " + Printed(name), "  " + Printed(sae), "  " + Printed(protect),
               "  " + Printed(psk)]
    ensures Indented([scan, name, wpa, psk]) ==
              ["  " + Printed(scan), "  " + Printed(name), "  " + Printed(wpa), "  " + Printed(psk)]
  {
    hide Printed;
    ThreeIndented(sae, protect, psk);
    IndentedCons(name, [sae, protect, psk]);
    IndentedCons(scan, [name, sae, protect, psk]);
    IndentedCons(psk, []);
    IndentedCons(wpa, [psk]);
    IndentedCons(name, [wpa, psk]);
    IndentedCons(scan, [name, wpa, psk]);
    assert [psk] + [] == [psk] && [wpa] + [psk] == [wpa, psk] && [name] + [wpa, psk] == [name, wpa, psk];
    assert [scan] + [name, wpa, psk] == [scan, name, wpa, psk] && [name] + [sae, protect, psk] ==
        [name, sae, protect, psk];
    assert [scan] + [name, sae, protect, psk] == [scan, name, sae, protect, psk];
  }

  // ---------------------------------------------------------------- and what they say

  /** Accepted texts have no line ends and no quotes. */
  lemma {:induction false} EscapesNothing(t: Text)
    requires !NeedsEscape(t)
    ensures '"' !in t && '\\' !in t && '\n' !in t && '\r' !in t
  {
    if t != [] { EscapesNothing(t[1..]); }
  }

  lemma KeysPlain()
    ensures Plain(Setting("scan_ssid", "1")) && Plain(Setting("ieee80211w", "2"))
    ensures Plain(Setting("key_mgmt", "NONE")) && Plain(Setting("key_mgmt", "SAE"))
        && Plain(Setting("key_mgmt", "WPA-PSK"))
  {}

  lemma ControlPlain()
    ensures Plain(CONTROL) && CONTROL.name != "network"
  {
    assert CONTROL.name[0] == 'c';
  }

  lemma UpdatesPlain()
    ensures Plain(UPDATES) && UPDATES.name != "network"
  {
    assert UPDATES.name[0] == 'u';
  }

  lemma QuotedPlain(v: Text)
    requires NoNewline(v)
    ensures Plain(Setting("ssid", "\"" + v + "\"")) && Plain(Setting("psk", "\"" + v + "\""))
  {
    var q := "\"" + v + "\"";
    assert NoNewline(q);
    assert '=' !in "ssid" && '=' !in "psk" && NoNewline("ssid") && NoNewline("psk");
  }

  lemma PlainSettings(ssid: Text, password: Text)
    requires NoNewline(ssid) && NoNewline(password)
    ensures AllPlain(NetworksFor(ssid, password)[0])
    ensures password != [] ==> AllPlain(NetworksFor(ssid, password)[1])
  {
    KeysPlain();
    QuotedPlain(ssid);
    QuotedPlain(password);
    hide Plain, NoNewline;
  }

  lemma {:induction false} LinesPlain(net: seq<Setting>)
    requires AllPlain(net)
    ensures forall l :: l in Indented(net) ==> NoNewline(l)
  {
    if net != [] {
      assert net[0] in net && Plain(net[0]);
      LinesPlain(net[1..]);
      PrintedPlain(net[0]);
      hide Plain, Printed, NoNewline;
    }
  }

  lemma PrintedPlain(t: Setting)
    requires Plain(t)
    ensures NoNewline(Printed(t)) && NoNewline("  " + Printed(t))
  {}

  lemma BlockPlain(net: seq<Setting>)
    requires AllPlain(net)
    ensures forall l :: l in Block(net) ==> NoNewline(l)
  {
    LinesPlain(net);
    assert NoNewline([]) && NoNewline("network={") && NoNewline("}");
    hide Indented, NoNewline, AllPlain;
  }

  /** The text written for accepted arguments, read back: no network other than the one asked for.  It is open without a
      passphrase; with one it is there twice, for SAE with protected management frames and for WPA-PSK. */
  lemma SaysWhatWasAsked(ssid: Text, password: Text)
    requires NoNewline(ssid) && NoNewline(password)
    ensures Parse(ConfFor(ssid, password)) == Some(Conf([CONTROL, UPDATES], NetworksFor(ssid, password)))
  {
    hide Read, LinesOf, ConfFor, Joined, Block, AllPlain, NoNewline, NetworksFor, Printed, Plain;
    if password == [] { OpenFile(ssid); } else { SecureFile(ssid, password); }
    PlainSettings(ssid, password);
    ControlPlain();
    UpdatesPlain();
    TwoNetworks(ssid, password);
    var nets := NetworksFor(ssid, password);
    AllLinesPlain(ssid, password);
    LinesOfJoined(AllLines(ssid, password));
    var last := if |nets| == 2 then Block(nets[1]) else [];
    var c0 := Conf([], []);
    var c1 := Conf([CONTROL, UPDATES], []);
    ReadGlobal(CONTROL, [Printed(UPDATES)] + (Block(nets[0]) + last), c0);
    ReadGlobal(UPDATES, Block(nets[0]) + last, Conf([CONTROL], []));
    assert [] + [CONTROL] == [CONTROL] && [CONTROL] + [UPDATES] == [CONTROL, UPDATES];
    assert AllLines(ssid, password) == [Printed(CONTROL)] + ([Printed(UPDATES)] + (Block(nets[0]) + last));
    ReadBlock(nets[0], last, c1);
    assert [] + [nets[0]] == [nets[0]];
    if |nets| == 2 {
      ReadBlock(nets[1], [], Conf([CONTROL, UPDATES], [nets[0]]));
      assert last + [] == last && [nets[0]] + [nets[1]] == nets;
    } else {
      assert [nets[0]] == nets;
    }
    ReadEnd(Conf([CONTROL, UPDATES], nets));
  }

  lemma ReadEnd(c: Conf)
    ensures Read([], None, c) == Some(c)
  {}

  lemma TwoNetworks(ssid: Text, password: Text)
    ensures |NetworksFor(ssid, password)| == if password == [] then 1 else 2
  {}

  lemma AllLinesPlain(ssid: Text, password: Text)
    requires NoNewline(ssid) && NoNewline(password)
    ensures forall l :: l in AllLines(ssid, password) ==> NoNewline(l)
  {
    hide Block, AllPlain, NoNewline, NetworksFor, Printed, Plain;
    PlainSettings(ssid, password);
    TwoNetworks(ssid, password);
    ControlPlain();
    UpdatesPlain();
    PrintedPlain(CONTROL);
    PrintedPlain(UPDATES);
    var nets := NetworksFor(ssid, password);
    BlockPlain(nets[0]);
    if |nets| == 2 { BlockPlain(nets[1]); }
  }

  lemma {:induction false} LookupCons(t: Setting, ts: seq<Setting>, name: Text)
    ensures Lookup([t] + ts, name) == if t.name == name then Some(t.value) else Lookup(ts, name)
  {
    assert ([t] + ts)[1..] == ts;
  }

  lemma Unquotes(v: Text)
    requires '"' !in v
    ensures Unquoted("\"" + v + "\"") == Some(v)
  {
    var q := "\"" + v + "\"";
    assert q[1..|q| - 1] == v;
  }

  lemma NamesDiffer()
    ensures "scan_ssid" != "ssid" && "scan_ssid" != "key_mgmt" && "scan_ssid" != "ieee80211w" && "scan_ssid" != "psk"
    ensures "ssid" != "key_mgmt" && "ssid" != "ieee80211w" && "ssid" != "psk"
    ensures "key_mgmt" != "ieee80211w" && "key_mgmt" != "psk" && "ieee80211w" != "psk"
  {
    assert |"scan_ssid"| == 9 && |"ssid"| == 4 && |"key_mgmt"| == 8 && |"ieee80211w"| == 10 && |"psk"| == 3;
  }

  /** A name is looked up behind settings of other names. */
  lemma {:induction false} LookupIn(net: seq<Setting>, k: nat)
    requires k < |net| && forall i :: 0 <= i < k ==> net[i].name != net[k].name
    ensures Lookup(net, net[k].name) == Some(net[k].value)
  {
    if k > 0 { LookupIn(net[1..], k - 1); }
  }

  lemma {:induction false} LookupNone(net: seq<Setting>, name: Text)
    requires forall t :: t in net ==> t.name != name
    ensures Lookup(net, name) == None
  {
    if net != [] { LookupNone(net[1..], name); }
  }

  lemma OpenNetwork(ssid: Text)
    requires '"' !in ssid
    ensures NetworkOf(NetworksFor(ssid, [])[0]) == Network(Some(ssid), Some("NONE"), None, None)
  {
    var net := NetworksFor(ssid, [])[0];
    NamesDiffer();
    hide Lookup, Unquoted;
    LookupIn(net, 1);
    LookupIn(net, 2);
    LookupNone(net, "psk");
    LookupNone(net, "ieee80211w");
    Unquotes(ssid);
  }

  lemma SaeNetwork(ssid: Text, password: Text)
    requires '"' !in ssid && '"' !in password && password != []
    ensures NetworkOf(NetworksFor(ssid, password)[0]) == Network(Some(ssid), Some("SAE"), Some(password), Some("2"))
  {
    var net := NetworksFor(ssid, password)[0];
    NamesDiffer();
    hide Lookup, Unquoted;
    LookupIn(net, 1);
    LookupIn(net, 2);
    LookupIn(net, 3);
    LookupIn(net, 4);
    Unquotes(ssid);
    Unquotes(password);
  }

  lemma PskNetwork(ssid: Text, password: Text)
    requires '"' !in ssid && '"' !in password && password != []
    ensures NetworkOf(NetworksFor(ssid, password)[1]) == Network(Some(ssid), Some("WPA-PSK"), Some(password), None)
  {
    var net := NetworksFor(ssid, password)[1];
    NamesDiffer();
    hide Lookup, Unquoted;
    LookupIn(net, 1);
    LookupIn(net, 2);
    LookupIn(net, 3);
    LookupNone(net, "ieee80211w");
    Unquotes(ssid);
    Unquotes(password);
  }

  /** The networks of the file written for accepted arguments: an open one without a passphrase; with one, SAE with
      protected management frames and then WPA-PSK, both with that ssid and that passphrase. */
  lemma ProvisionedSays(ssid: Option<Text>, password: Option<Text>)
    requires Accepted(ssid, password)
    ensures Provisioned(ssid, password).Some?
    ensures var s := CStr(ssid.value);
      Networks(Provisioned(ssid, password).value) == Some(
        if password.None? || CStr(password.value) == [] then [Network(Some(s), Some("NONE"), None, None)]
        else
          [Network(Some(s), Some("SAE"), Some(CStr(password.value)), Some("2")),
           Network(Some(s), Some("WPA-PSK"), Some(CStr(password.value)), None)])
  {
    var s, p := CStr(ssid.value), Password(password);
    EscapesNothing(s);
    assert p != [] ==> !NeedsEscape(p);
    if p != [] { EscapesNothing(p); }
    assert '"' !in p && '\n' !in p;
    hide Parse, ConfFor, NetworksFor, NetworkOf, NeedsEscape, CStr;
    SaysWhatWasAsked(s, p);
    TwoNetworks(s, p);
    var nets := NetworksFor(s, p);
    if p == [] {
      OpenNetwork(s);
    } else {
      SaeNetwork(s, p);
      PskNetwork(s, p);
    }
    OneOrTwo(nets);
  }

  lemma OneOrTwo(nets: seq<seq<Setting>>)
    ensures |nets| == 1 ==> NetworksOf(nets) == [NetworkOf(nets[0])]
    ensures |nets| == 2 ==> NetworksOf(nets) == [NetworkOf(nets[0]), NetworkOf(nets[1])]
  {
    hide NetworkOf;
    if |nets| == 2 { assert nets[1..][0] == nets[1] && nets[1..][1..] == []; }
  }

  /** So the files of different credentials differ. */
  lemma CredentialsDiffer(ssid1: Option<Text>, password1: Option<Text>, ssid2: Option<Text>, password2: Option<Text>)
    requires Accepted(ssid1, password1) && Accepted(ssid2, password2)
    ensures Provisioned(ssid1, password1) == Provisioned(ssid2, password2) <==>
              CStr(ssid1.value) == CStr(ssid2.value) && Password(password1) == Password(password2)
  {
    hide Networks, CStr, NeedsEscape, ConfFor;
    ProvisionedSays(ssid1, password1);
    ProvisionedSays(ssid2, password2);
    if Provisioned(ssid1, password1) == Provisioned(ssid2, password2) {
      var a, b := Networks(Provisioned(ssid1, password1).value).value,
          Networks(Provisioned(ssid2, password2).value).value;
      assert a == b && a[0] == b[0];
      assert a[0].ssid == Some(CStr(ssid1.value)) && b[0].ssid == Some(CStr(ssid2.value));
      assert a[0].psk == b[0].psk;
    }
  }

  /** Which arguments are accepted: a non-empty ssid and, unless the network is open, a passphrase of 8 to 63
      characters, none of them a quote, a backslash or a line end. */
  lemma AcceptedExactly(ssid: Option<Text>, password: Option<Text>)
    ensures Provisioned(ssid, password).Some? <==>
              && ssid.Some? && CStr(ssid.value) != [] && Harmless(CStr(ssid.value))
              && (password.None? || CStr(password.value) == []
                  || (8 <= |CStr(password.value)| <= 63 && Harmless(CStr(password.value))))
  {
    if ssid.Some? { EscapeExactly(CStr(ssid.value)); }
    if password.Some? { EscapeExactly(CStr(password.value)); }
    hide NeedsEscape, CStr, ConfFor;
  }

  predicate Harmless(t: Text) {
    forall c :: c in t ==> c != '"' && c != '\\' && c != '\n' && c != '\r'
  }

  lemma {:induction false} EscapeExactly(t: Text)
    ensures NeedsEscape(t) <==> !Harmless(t)
  {
    if t != [] {
      EscapeExactly(t[1..]);
      assert t[0] in t && forall c :: c in t <==> c == t[0] || c in t[1..];
    }
  }
}
