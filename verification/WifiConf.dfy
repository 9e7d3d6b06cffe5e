/** The wpa_supplicant configuration files of package/tester1/app_network.c: the line parser that decides
    whether one is usable, and the writer of new ones. */
module WifiConf {
  import opened Options

  type Text = string

  // ---------------------------------------------------------------- C strings and lines

  /** The C string held by a buffer: everything before the first NUL. */
  function CStr(s: Text): Text {
    if s == [] || s[0] == '\0' then [] else [s[0]] + CStr(s[1..])
  }

  /** isspace in the C locale. */
  predicate IsSpace(c: char) {
    c == ' ' || c == '\t' || c == '\n' || c == '\r' || c == '\U{000B}' || c == '\U{000C}'
  }

  function SkipSpaces(s: Text): Text {
    if s != [] && IsSpace(s[0]) then SkipSpaces(s[1..]) else s
  }

  const LINE_SIZE: nat := 256

  /** How many characters fgets takes from `s` into a buffer with room for `room` of them. */
  function ChunkLen(s: Text, room: nat): (n: nat)
    ensures n <= |s| && n <= room && (s != [] && room > 0 ==> n > 0)
  {
    if s == [] || room == 0 then 0 else if s[0] == '\n' then 1 else 1 + ChunkLen(s[1..], room - 1)
  }

  predicate StartsWith(s: Text, prefix: Text) {
    prefix <= s
  }

  // ---------------------------------------------------------------- wpasup_network_configured

  /** What the loop does with one line: the flags after it, or the end of the search. */
  datatype Scan = Scan(inNetwork: bool, hasSsid: bool) | Found

  function HasSsid(p: Text): bool {
    var q := SkipSpaces(p);
    if q != [] && q[0] == '"' then
      var r := q[1..];
      r != [] && r[0] != '"' && r[0] != '\n'
    else
      q != [] && q[0] != '\n'
  }

  function ScanLine(line: Text, f: Scan): Scan
    requires f.Scan?
  {
    var p := SkipSpaces(CStr(line));
    if p == [] || p[0] == '#' then f
    else if !f.inNetwork then
      if StartsWith(p, "network=") then Scan(true, false) else f
    else if p[0] == '}' then
      if f.hasSsid then Found else f.(inNetwork := false)
    else if StartsWith(p, "ssid=") && HasSsid(p[5..]) then f.(hasSsid := true)
    else f
  }

  /** The whole loop, from the rest of the file. */
  function Configured(s: Text, f: Scan): bool
    requires f.Scan?
  {
    if s == [] then false
    else
      var n := ChunkLen(s, LINE_SIZE - 1);
      var f' := ScanLine(s[..n], f);
      if f'.Found? then true else Configured(s[n..], f')
  }

  /** A file that exists and has a network with an ssid. */
  function Usable(file: Option<Text>): bool {
    file.Some? && Configured(file.value, Scan(false, false))
  }

  /** wpasup_network_configured; None is a file that cannot be opened. */
  method NetworkConfigured(file: Option<Text>) returns (r: bool)
    ensures r == Usable(file)
  {
    if file.None? { return false; }
    var pos := 0;
    var inNetwork, hasSsid := false, false;
    assert file.value[0..] == file.value;
    while pos < |file.value|
      invariant pos <= |file.value|
      invariant Usable(file) == Configured(file.value[pos..], Scan(inNetwork, hasSsid))
      decreases |file.value| - pos
    {
      var n := ChunkLen(file.value[pos..], LINE_SIZE - 1);
      var line := file.value[pos..pos + n];
      assert file.value[pos..][..n] == line && file.value[pos..][n..] == file.value[pos + n..];
      pos := pos + n;
      var p := SkipSpaces(CStr(line));
      if p == [] || p[0] == '#' { continue; }
      if !inNetwork {
        if StartsWith(p, "network=") { inNetwork, hasSsid := true, false; }
        continue;
      }
      if p[0] == '}' {
        if hasSsid { return true; }
        inNetwork := false;
        continue;
      }
      if StartsWith(p, "ssid=") {
        if HasSsid(p[5..]) { hasSsid := true; }
      }
    }
    return false;
  }

  // ---------------------------------------------------------------- wifi_write_provision_conf

  /** wifi_conf_needs_escape */
  predicate NeedsEscape(s: Text) {
    s != [] && (s[0] == '"' || s[0] == '\\' || s[0] == '\n' || s[0] == '\r' || NeedsEscape(s[1..]))
  }

  predicate OpenNet(password: Option<Text>) {
    password.None? || CStr(password.value) == []
  }

  /** The arguments wifi_write_provision_conf accepts. */
  predicate Accepted(ssid: Option<Text>, password: Option<Text>) {
    && ssid.Some? && CStr(ssid.value) != [] && !NeedsEscape(CStr(ssid.value))
    && (OpenNet(password) || (!NeedsEscape(CStr(password.value)) && 8 <= |CStr(password.value)| <= 63))
  }

  function Line(l: Text): Text {
    l + "\n"
  }

  function CtrlInterface(): Text { "ctrl_interface=" + "/var/run/wpa_supplicant" }

  function UpdateConfig(): Text { "update_config=1" }

  function NetworkOpen(): Text { "network={" }

  function ScanSsid(): Text { "  scan_ssid=1" }

  function Ssid(): Text { "  ssid=\"" }

  function NetworkClose(): Text { "}" }

  function Header(): Text {
    Line(CtrlInterface()) + Line(UpdateConfig()) + Line([])
  }

  function Opening(ssid: Text): Text {
    Line(NetworkOpen()) + Line(ScanSsid()) + Line(Ssid() + ssid + "\"")
  }

  function Psk(password: Text): Text {
    Line("  psk=\"" + password + "\"")
  }

  /** The file for accepted arguments. */
  function ConfFor(ssid: Text, password: Text): Text {
    if password == [] then
      Header() + Opening(ssid) + Line("  key_mgmt=NONE") + Line(NetworkClose()) + []
    else
      Header() + Opening(ssid) + (Line("  key_mgmt=SAE") + Line("  ieee80211w=2") + Psk(password))
          + Line(NetworkClose())
      + (Line([]) + Opening(ssid) + Line("  key_mgmt=WPA-PSK") + Psk(password) + Line(NetworkClose()))
  }

  function Password(password: Option<Text>): Text {
    if password.None? then [] else CStr(password.value)
  }

  /** The text written, None when the arguments are refused. */
  function Provisioned(ssid: Option<Text>, password: Option<Text>): Option<Text> {
    if Accepted(ssid, password) then Some(ConfFor(CStr(ssid.value), Password(password))) else None
  }

  // ---------------------------------------------------------------- the parser on whole lines

  predicate NoNewline(s: Text) {
    '\n' !in s
  }

  /** A C string: nothing in it is NUL. */
  predicate NoNul(s: Text) {
    '\0' !in s
  }

  lemma {:induction false} ChunkIsLine(l: Text, rest: Text, room: nat)
    requires NoNewline(l) && |l| < room
    ensures ChunkLen(Line(l) + rest, room) == |l| + 1
  {
    if l != [] {
      ChunkIsLine(l[1..], rest, room - 1);
      assert (Line(l) + rest)[1..] == Line(l[1..]) + rest;
    }
  }

  /** A short line is handed to ScanLine whole. */
  lemma ConfiguredLine(l: Text, rest: Text, f: Scan)
    requires f.Scan? && NoNewline(l) && |l| < LINE_SIZE - 1
    ensures var f' := ScanLine(Line(l), f); Configured(Line(l) + rest, f) == (f'.Found? || Configured(rest, f'))
  {
    ChunkIsLine(l, rest, LINE_SIZE - 1);
    var s := Line(l) + rest;
    assert s[..|l| + 1] == Line(l) && s[|l| + 1..] == rest;
  }

  predicate EndsLine(s: Text) {
    s != [] && s[|s| - 1] == '\n'
  }

  /** No chunk runs past a newline. */
  lemma {:induction false} ChunkStays(a: Text, b: Text, room: nat)
    requires EndsLine(a) && room > 0
    ensures 0 < ChunkLen(a + b, room) <= |a|
  {
    assert (a + b)[0] == a[0];
    if a[0] != '\n' && room > 1 {
      assert (a + b)[1..] == a[1..] + b;
      ChunkStays(a[1..], b, room - 1);
    }
  }

  lemma ScanClose()
    ensures ScanLine(Line(NetworkClose()), Scan(true, true)) == Found
  {
    var l := Line(NetworkClose());
    assert l == ['}', '\n'] && l[0] != '\0';
    assert CStr(l)[0] == '}';
  }

  /** Inside a network whose ssid has been seen, nothing before the closing brace can undo that. */
  lemma {:induction false} FoundBeforeClose(a: Text, b: Text)
    requires a == [] || EndsLine(a)
    ensures Configured(a + Line(NetworkClose()) + b, Scan(true, true))
    decreases |a|
  {
    var close := Line(NetworkClose());
    var s := a + close + b;
    if a == [] {
      assert s == close + b;
      ScanClose();
      assert NoNewline(NetworkClose());
      ConfiguredLine(NetworkClose(), b, Scan(true, true));
    } else {
      hide Line, NetworkClose;
      assert s == a + (close + b);
      ChunkStays(a, close + b, LINE_SIZE - 1);
      var n := ChunkLen(s, LINE_SIZE - 1);
      assert s[n..] == a[n..] + close + b;
      if ScanLine(s[..n], Scan(true, true)).Scan? {
        FoundBeforeClose(a[n..], b);
      }
    }
  }

  lemma {:induction false} CStrHasNoNul(s: Text)
    ensures NoNul(CStr(s))
  {
    if s != [] && s[0] != '\0' { CStrHasNoNul(s[1..]); }
  }

  /** fgets reads on until a newline or a full buffer. */
  lemma {:induction false} ChunkAtLeast(a: Text, b: Text, room: nat)
    requires NoNewline(a) && |a| <= room
    ensures ChunkLen(a + b, room) >= |a|
  {
    if a != [] {
      assert (a + b)[1..] == a[1..] + b;
      ChunkAtLeast(a[1..], b, room - 1);
    }
  }

  lemma {:induction false} CStrPrefix(a: Text, b: Text)
    requires NoNul(a)
    ensures CStr(a + b) == a + CStr(b)
  {
    if a == [] {
      assert a + b == b;
    } else {
      var s := a + b;
      assert s[0] == a[0] && s[1..] == a[1..] + b;
      CStrPrefix(a[1..], b);
      assert CStr(s) == [a[0]] + (a[1..] + CStr(b));
      hide CStr;
      assert [a[0]] + (a[1..] + CStr(b)) == a + CStr(b);
    }
  }

  lemma SkipIndent(p: Text)
    requires p != [] && !IsSpace(p[0])
    ensures SkipSpaces("  " + p) == p
  {
    assert ("  " + p)[1..] == " " + p && (" " + p)[1..] == p;
    assert SkipSpaces(" " + p) == SkipSpaces(p) == p;
  }

  /** What the scan of an ssid line sees. */
  lemma SsidPiece(z: Text)
    requires z != [] && z[0] != '"' && z[0] != '\n'
    ensures var p := SkipSpaces(Ssid() + z); p != [] && p[0] == 's' && StartsWith(p, "ssid=") && HasSsid(p[5..])
  {
    var p := "ssid=\"" + z;
    assert Ssid() + z == "  " + p;
    SkipIndent(p);
    assert p[5..] == ['"'] + z && (['"'] + z)[1..] == z;
  }

  /** The start of an ssid line is enough for the parser. */
  lemma ScanSsidLine(c: char, more: Text)
    requires c != '\0' && c != '"' && c != '\n'
    ensures ScanLine(Ssid() + ([c] + more), Scan(true, false)) == Scan(true, true)
  {
    var z := CStr([c] + more);
    assert z[0] == c;
    assert NoNul(Ssid());
    CStrPrefix(Ssid(), [c] + more);
    SsidPiece(z);
    hide CStr, SkipSpaces, Ssid, HasSsid;
  }

  lemma SsidFacts()
    ensures NoNewline(Ssid()) && |Ssid()| == 8
  {}

  /** An ssid line, however many chunks fgets needs for it, and the rest of its network. */
  lemma SsidLine(ssid: Text, k: Text, b: Text)
    requires ssid != [] && !NeedsEscape(ssid) && NoNul(ssid) && EndsLine(k)
    ensures Configured(Line(Ssid() + ssid + "\"") + k + Line(NetworkClose()) + b, Scan(true, false))
  {
    var line, close := Line(Ssid() + ssid + "\""), Line(NetworkClose());
    var c, tail := ssid[0], ssid[1..] + "\"\n";
    assert ssid[0] != '"' && ssid[0] != '\n' && ssid[0] != '\0';
    SsidFacts();
    assert line == Ssid() + ([c] + tail);
    hide Ssid, NetworkClose, NoNul, NeedsEscape, NoNewline;
    assert EndsLine(line) && EndsLine(line + k);
    hide Line;
    FirstChunk(line, c, tail, k, close + b);
    var n := ChunkLen(line + (k + (close + b)), LINE_SIZE - 1);
    var s := line + k + close + b;
    assert s == line + (k + (close + b));
    var a := line[n..] + k;
    assert s[n..] == a + close + b;
    FoundBeforeClose(a, b);
  }

  lemma FirstChunk(line: Text, c: char, tail: Text, k: Text, rest: Text)
    requires line == Ssid() + ([c] + tail) && EndsLine(line) && c != '\0' && c != '"' && c != '\n'
    requires NoNewline(Ssid() + [c]) && |Ssid()| == 8
    ensures var s := line + (k + rest); var n := ChunkLen(s, LINE_SIZE - 1);
      0 < n <= |line| && ScanLine(s[..n], Scan(true, false)) == Scan(true, true)
  {
    hide Ssid, ScanLine, NoNewline;
    var s := line + (k + rest);
    ChunkStays(line, k + rest, LINE_SIZE - 1);
    assert s == (Ssid() + [c]) + (tail + (k + rest));
    ChunkAtLeast(Ssid() + [c], tail + (k + rest), LINE_SIZE - 1);
    var n := ChunkLen(s, LINE_SIZE - 1);
    var more := s[..n][9..];
    assert s[..n] == Ssid() + ([c] + more);
    ScanSsidLine(c, more);
  }

  // ---------------------------------------------------------------- the lines before the ssid

  /** A line outside a network that does not start one. */
  lemma ScanOutside(line: Text)
    requires line != [] && !IsSpace(line[0]) && line[0] != 'n'
    ensures ScanLine(line, Scan(false, false)) == Scan(false, false)
  {}

  lemma ScanNetworkOpen()
    ensures ScanLine(Line(NetworkOpen()), Scan(false, false)) == Scan(true, false)
    ensures NoNewline(NetworkOpen()) && |NetworkOpen()| < LINE_SIZE - 1
  {
    assert NoNul("network=");
    CStrPrefix("network=", "{\n");
    assert Line(NetworkOpen()) == "network=" + "{\n";
    var p := "network=" + CStr("{\n");
    assert p[0] == 'n' && SkipSpaces(p) == p;
  }

  /** An indented line that is not an ssid line. */
  lemma ScanIndented(l: Text)
    requires |l| > 3 && l[0] == l[1] == ' ' && l[2] == 's' && l[3] == 'c'
    ensures ScanLine(l, Scan(true, false)) == Scan(true, false)
  {
    var z := CStr(l[4..]);
    assert l[1..][1..] == l[2..] && l[2..][1..] == l[3..] && l[3..][1..] == l[4..];
    assert CStr(l[3..]) == ['c'] + z;
    assert CStr(l[2..]) == ['s'] + (['c'] + z);
    assert CStr(l[1..]) == [' '] + (['s'] + (['c'] + z));
    assert CStr(l) == [' '] + ([' '] + (['s'] + (['c'] + z)));
    var p := ['s'] + (['c'] + z);
    assert "  " + p == [' '] + ([' '] + p);
    SkipIndent(p);
    assert p[0] == 's' && p[1] == 'c';
    hide CStr, SkipSpaces;
  }

  lemma ScanSsidFacts()
    ensures NoNewline(ScanSsid()) && |ScanSsid()| == 13
    ensures var l := Line(ScanSsid()); |l| > 3 && l[0] == l[1] == ' ' && l[2] == 's' && l[3] == 'c'
  {}

  lemma UpdateConfigFacts()
    ensures NoNewline(UpdateConfig()) && |UpdateConfig()| == 15 && Line(UpdateConfig())[0] == 'u'
  {}

  lemma CtrlInterfaceFacts()
    ensures NoNewline(CtrlInterface()) && |CtrlInterface()| == 38 && Line(CtrlInterface())[0] == 'c'
  {}

  lemma ScanHeader()
    ensures ScanLine(Line(ScanSsid()), Scan(true, false)) == Scan(true, false)
    ensures ScanLine(Line(UpdateConfig()), Scan(false, false)) == Scan(false, false)
    ensures ScanLine(Line(CtrlInterface()), Scan(false, false)) == Scan(false, false)
    ensures NoNewline(ScanSsid()) && |ScanSsid()| < LINE_SIZE - 1
    ensures NoNewline(UpdateConfig()) && |UpdateConfig()| < LINE_SIZE - 1
    ensures NoNewline(CtrlInterface()) && |CtrlInterface()| < LINE_SIZE - 1
  {
    ScanSsidFacts();
    UpdateConfigFacts();
    CtrlInterfaceFacts();
    hide ScanLine, NoNewline, CtrlInterface, UpdateConfig, ScanSsid;
    assert forall l: Text :: |Line(l)| > 0;
    ScanIndented(Line(ScanSsid()));
    ScanOutside(Line(UpdateConfig()));
    ScanOutside(Line(CtrlInterface()));
  }

  lemma ScanEmpty()
    ensures ScanLine(Line([]), Scan(false, false)) == Scan(false, false)
  {
    assert Line([]) == ['\n'] && CStr(['\n']) == ['\n'] && SkipSpaces(['\n']) == [];
  }

  lemma Nest(h1: Text, h2: Text, h3: Text, o1: Text, o2: Text, o3: Text, k: Text, e: Text, b: Text)
    ensures (h1 + h2 + h3) + (o1 + o2 + o3) + k + e + b == h1 + (h2 + (h3 + (o1 + (o2 + (o3 + k + e + b)))))
  {}

  lemma Prologue(ssid: Text, k: Text, b: Text)
    requires ssid != [] && !NeedsEscape(ssid) && NoNul(ssid) && EndsLine(k)
    ensures Configured(Header() + Opening(ssid) + k + Line(NetworkClose()) + b, Scan(false, false))
  {
    SsidLine(ssid, k, b);
    ScanNetworkOpen();
    ScanEmpty();
    ScanHeader();
    hide Configured, ScanLine, Line, CtrlInterface, UpdateConfig, NetworkOpen, ScanSsid, Ssid, NetworkClose, NoNewline;
    var ssidLine := Line(Ssid() + ssid + "\"");
    var r0 := ssidLine + k + Line(NetworkClose()) + b;
    ConfiguredLine(ScanSsid(), r0, Scan(true, false));
    var r1 := Line(ScanSsid()) + r0;
    ConfiguredLine(NetworkOpen(), r1, Scan(false, false));
    var r2 := Line(NetworkOpen()) + r1;
    assert NoNewline([]) by { NoNewlineEmpty(); }
    ConfiguredLine([], r2, Scan(false, false));
    var r3 := Line([]) + r2;
    ConfiguredLine(UpdateConfig(), r3, Scan(false, false));
    ConfiguredLine(CtrlInterface(), Line(UpdateConfig()) + r3, Scan(false, false));
    Nest(Line(CtrlInterface()), Line(UpdateConfig()), Line([]), Line(NetworkOpen()), Line(ScanSsid()), ssidLine, k,
        Line(NetworkClose()), b);
  }

  lemma NoNewlineEmpty()
    ensures NoNewline([])
  {}

  /** Every file the writer produces is one the state machine recognises, however long the ssid. */
  lemma ProvisionedIsUsable(ssid: Option<Text>, password: Option<Text>)
    requires Accepted(ssid, password)
    ensures Usable(Provisioned(ssid, password))
  {
    var s, p := CStr(ssid.value), Password(password);
    CStrHasNoNul(ssid.value);
    hide Header, Opening, NetworkClose;
    if p == [] {
      Prologue(s, Line("  key_mgmt=NONE"), []);
    } else {
      var k := Line("  key_mgmt=SAE") + Line("  ieee80211w=2") + Psk(p);
      Prologue(s, k, Line([]) + Opening(s) + Line("  key_mgmt=WPA-PSK") + Psk(p) + Line(NetworkClose()));
    }
  }
}
