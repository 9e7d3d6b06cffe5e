/** Splitting an H.264 byte stream into NAL units at its start codes (package/tester1/tester_v4l2rtsp2.cpp:62-94, byte
    stream format of ITU-T H.264 Annex B). */
module AnnexB {
  import opened Buffers

  // ---------------------------------------------------------------- start codes

  /** annexBStartCodeSize */
  function CodeSize(p: seq<U8>, pos: nat): (r: nat)
    ensures r == 0 || r == 3 || r == 4
    ensures r > 0 ==> pos + r <= |p|
  {
    if pos + 4 <= |p| && p[pos] == 0 && p[pos + 1] == 0 && p[pos + 2] == 0 && p[pos + 3] == 1 then 4
    else if pos + 3 <= |p| && p[pos] == 0 && p[pos + 1] == 0 && p[pos + 2] == 1 then 3
    else 0
  }

  lemma CodeSizeOfTail(p: seq<U8>, pos: nat)
    requires pos <= |p|
    ensures CodeSize(p, pos) == CodeSize(p[pos..], 0)
  {}

  /** Length of the part before the first start code. */
  function UpToCode(t: seq<U8>): (n: nat)
    ensures n <= |t| && (n < |t| ==> CodeSize(t[n..], 0) > 0)
    ensures forall j :: 0 <= j < n ==> CodeSize(t[j..], 0) == 0
  {
    if t == [] || CodeSize(t, 0) > 0 then 0
    else
      var n := UpToCode(t[1..]);
      assert forall j :: 0 < j <= n ==> t[j..] == t[1..][j - 1..];
      n + 1
  }

  /** The units of a stream: what stands between start codes, unless it is empty. */
  function Units(t: seq<U8>): seq<seq<U8>>
    decreases |t|
  {
    var i := UpToCode(t);
    if i == |t| then [] else UnitsAfter(t[i + CodeSize(t[i..], 0)..])
  }

  /** The units of what follows a start code. */
  function UnitsAfter(t: seq<U8>): seq<seq<U8>>
    decreases |t|, 1
  {
    var n := UpToCode(t);
    NonEmpty(t[..n]) + if n == |t| then [] else UnitsAfter(t[n + CodeSize(t[n..], 0)..])
  }

  function NonEmpty(u: seq<U8>): seq<seq<U8>> {
    if u == [] then [] else [u]
  }

  lemma OneMore(t: seq<U8>)
    requires t != [] && CodeSize(t, 0) == 0
    ensures UpToCode(t) == UpToCode(t[1..]) + 1
  {}

  lemma SkipByte(t: seq<U8>)
    requires t != [] && CodeSize(t, 0) == 0
    ensures Units(t) == Units(t[1..])
  {
    hide CodeSize, UpToCode, UnitsAfter;
    OneMore(t);
    var i := UpToCode(t[1..]);
    assert UpToCode(t) == i + 1 && t[i + 1..] == t[1..][i..];
    if i < |t| - 1 {
      var k := CodeSize(t[i + 1..], 0);
      assert t[i + 1 + k..] == t[1..][i + k..];
    }
  }

  lemma AtCode(t: seq<U8>)
    requires CodeSize(t, 0) > 0
    ensures Units(t) == UnitsAfter(t[CodeSize(t, 0)..])
  {
    assert UpToCode(t) == 0 && t[0..] == t;
  }

  lemma EndsAtOnce()
    ensures UpToCode([]) == 0
  {}

  /** What follows a unit starts with a start code, if anything does. */
  lemma AfterUnit(t: seq<U8>)
    ensures UnitsAfter(t) == NonEmpty(t[..UpToCode(t)]) + Units(t[UpToCode(t)..])
  {
    hide CodeSize, UpToCode;
    EndsAtOnce();
    var n := UpToCode(t);
    if n < |t| {
      AtCode(t[n..]);
      var k := CodeSize(t[n..], 0);
      assert t[n + k..] == t[n..][k..];
    } else {
      assert UpToCode(t[n..]) == 0 && NonEmpty(t[..n]) + [] == NonEmpty(t[..n]);
    }
  }

  // ---------------------------------------------------------------- the splitter

  lemma Regroup(a: seq<seq<U8>>, b: seq<seq<U8>>, c: seq<seq<U8>>)
    ensures a + (b + c) == (a + b) + c
  {}

  lemma NoUnits(nals: seq<seq<U8>>)
    ensures nals + Units([]) == nals && [] + nals == nals
  {}

  lemma Whole(s: seq<U8>)
    ensures s[0..] == s && s[|s|..] == []
  {}

  lemma NextByte(s: seq<U8>, i: nat)
    requires i < |s|
    ensures s[i..] != [] && s[i..][1..] == s[i + 1..]
  {}

  lemma NextBytes(s: seq<U8>, i: nat, n: nat)
    requires i + n <= |s|
    ensures s[i..][n..] == s[i + n..] && s[i..][..n] == s[i..i + n]
  {}

  /** The inner loop: where the unit that starts at `from` ends. */
  method UnitEnd(annexB: seq<U8>, from: nat) returns (i: nat)
    requires from <= |annexB|
    ensures from <= i <= |annexB| && i == from + UpToCode(annexB[from..])
  {
    hide CodeSize;
    i := from;
    while i < |annexB|
      invariant from <= i <= |annexB| && from + UpToCode(annexB[from..]) == i + UpToCode(annexB[i..])
    {
      CodeSizeOfTail(annexB, i);
      NextByte(annexB, i);
      if CodeSize(annexB, i) > 0 { break; }
      i := i + 1;
    }
  }

  /** splitAnnexBNals */
  method Split(annexB: seq<U8>) returns (nals: seq<seq<U8>>)
    ensures nals == Units(annexB)
  {
    hide CodeSize, Units, UnitsAfter, UpToCode;
    nals := [];
    var i := 0;
    Whole(annexB);
    NoUnits(Units(annexB));
    while i < |annexB|
      invariant i <= |annexB| && Units(annexB) == nals + Units(annexB[i..])
    {
      CodeSizeOfTail(annexB, i);
      NextByte(annexB, i);
      var sc := CodeSize(annexB, i);
      if sc == 0 {
        SkipByte(annexB[i..]);
        i := i + 1;
      } else {
        AtCode(annexB[i..]);
        NextBytes(annexB, i, sc);
        var from := i + sc;
        i := UnitEnd(annexB, from);
        AfterUnit(annexB[from..]);
        NextBytes(annexB, from, i - from);
        Regroup(nals, NonEmpty(annexB[from..i]), Units(annexB[i..]));
        if from < i { nals := nals + [annexB[from..i]]; } else { NoUnits(nals); Empty(nals); }
      }
    }
    NoUnits(nals);
  }

  lemma Empty(nals: seq<seq<U8>>)
    ensures nals + [] == nals
  {}

  // ---------------------------------------------------------------- streams of units

  /** A unit and the start code before it: four bytes if `long`, else three. */
  datatype Nal = Nal(long: bool, bytes: seq<U8>)

  function Code(long: bool): seq<U8> {
    if long then [0, 0, 0, 1] else [0, 0, 1]
  }

  function Stream(us: seq<Nal>): seq<U8> {
    if us == [] then [] else Code(us[0].long) + us[0].bytes + Stream(us[1..])
  }

  function Payloads(us: seq<Nal>): seq<seq<U8>> {
    if us == [] then [] else [us[0].bytes] + Payloads(us[1..])
  }

  /** No start code inside. */
  predicate Plain(u: seq<U8>) {
    forall j :: 0 <= j < |u| ==> CodeSize(u[j..], 0) == 0
  }

  lemma UpToCodeIs(t: seq<U8>, n: nat)
    requires n <= |t| && (forall j :: 0 <= j < n ==> CodeSize(t[j..], 0) == 0) && (n < |t| ==> CodeSize(t[n..], 0) > 0)
    ensures UpToCode(t) == n
  {
    var m := UpToCode(t);
    assert m < |t| ==> CodeSize(t[m..], 0) > 0;
    assert n < |t| ==> CodeSize(t[n..], 0) > 0;
  }

  /** A three-byte code takes a zero before it for a part of itself. */
  predicate Swallows(u: seq<U8>, rest: seq<U8>) {
    u != [] && u[|u| - 1] == 0 && CodeSize(rest, 0) == 3
  }

  lemma Across(u: seq<U8>, rest: seq<U8>, j: nat)
    requires j < |u| && CodeSize(u[j..], 0) == 0 && (rest == [] || CodeSize(rest, 0) > 0)
    ensures CodeSize((u + rest)[j..], 0) == if Swallows(u, rest) && j == |u| - 1 then 4 else 0
  {
    assert (u + rest)[j..] == u[j..] + rest;
  }

  lemma UnitThenCode(u: seq<U8>, rest: seq<U8>)
    requires Plain(u) && (rest == [] || CodeSize(rest, 0) > 0)
    ensures UpToCode(u + rest) == |u| - if Swallows(u, rest) then 1 else 0
  {
    hide CodeSize, Swallows;
    var n := |u| - if Swallows(u, rest) then 1 else 0;
    SwallowsOne(u, rest);
    assert (u + rest)[|u|..] == rest;
    forall j | 0 <= j < |u| ensures CodeSize((u + rest)[j..], 0) == if Swallows(u, rest) && j == |u| - 1 then 4 else 0 {
      Across(u, rest, j);
    }
    UpToCodeIs(u + rest, n);
  }

  lemma SwallowsOne(u: seq<U8>, rest: seq<U8>)
    ensures Swallows(u, rest) ==> u != [] && u[|u| - 1..] == [0] && CodeSize([0] + rest, 0) == 4
    ensures Swallows(u, rest) ==> CodeSize(rest, 0) == 3
  {}

  /** Whether or not the code has taken the zero before it, the same comes after it. */
  lemma RestAfter(u: seq<U8>, rest: seq<U8>)
    requires Plain(u) && (rest == [] || CodeSize(rest, 0) > 0)
    ensures Units((u + rest)[UpToCode(u + rest)..]) == Units(rest)
  {
    hide CodeSize, Swallows, Units, UnitsAfter, UpToCode;
    UnitThenCode(u, rest);
    SwallowsOne(u, rest);
    if Swallows(u, rest) {
      assert (u + rest)[|u| - 1..] == u[|u| - 1..] + rest;
      AtCode([0] + rest);
      AtCode(rest);
      assert ([0] + rest)[4..] == rest[3..];
    } else {
      assert (u + rest)[|u|..] == rest;
    }
  }

  lemma StreamStarts(us: seq<Nal>)
    requires us != []
    ensures CodeSize(Stream(us), 0) == (if us[0].long then 4 else 3)
    ensures Stream(us)[CodeSize(Stream(us), 0)..] == us[0].bytes + Stream(us[1..])
  {
    var k := Code(us[0].long);
    assert Stream(us) == k + (us[0].bytes + Stream(us[1..]));
  }

  /** What is left of the first unit. */
  function Kept(us: seq<Nal>): seq<U8>
    requires us != []
  {
    var u := us[0].bytes;
    if |us| > 1 && !us[1].long && u != [] && u[|u| - 1] == 0 then u[..|u| - 1] else u
  }

  function Expected(us: seq<Nal>): seq<seq<U8>> {
    if us == [] then [] else NonEmpty(Kept(us)) + Expected(us[1..])
  }

  predicate AllPlain(us: seq<Nal>) {
    forall i :: 0 <= i < |us| ==> Plain(us[i].bytes)
  }

  lemma StartsWithCode(us: seq<Nal>)
    ensures Stream(us) == [] || CodeSize(Stream(us), 0) > 0
    ensures CodeSize(Stream(us), 0) == 3 <==> us != [] && !us[0].long
  {
    if us != [] { StreamStarts(us); }
  }

  /** Splitting a stream gives the units back, less the last zero of each that a three-byte code follows. */
  lemma {:induction false} SplitOfStream(us: seq<Nal>)
    requires AllPlain(us)
    ensures Units(Stream(us)) == Expected(us)
    decreases |us|
  {
    hide CodeSize, Units, UnitsAfter, UpToCode, Plain, Stream;
    if us == [] {
      NoStream();
    } else {
      SplitOfStream(us[1..]);
      var u, rest := us[0].bytes, Stream(us[1..]);
      StreamStarts(us);
      StartsWithCode(us[1..]);
      AtCode(Stream(us));
      AfterUnit(u + rest);
      RestAfter(u, rest);
      UnitThenCode(u, rest);
      assert (u + rest)[..UpToCode(u + rest)] == Kept(us);
    }
  }

  lemma NoStream()
    ensures Stream([]) == [] && Units([]) == []
  {}

  /** Bytes before the first start code are ignored. */
  lemma LeadingBytes(g: seq<U8>, us: seq<Nal>)
    requires Plain(g)
    ensures Units(g + Stream(us)) == Units(Stream(us))
  {
    hide CodeSize, UnitsAfter, UpToCode, Plain, Stream, Swallows;
    StartsWithCode(us);
    RestAfter(g, Stream(us));
    SkipToCode(g + Stream(us));
  }

  lemma SkipToCode(t: seq<U8>)
    ensures Units(t) == Units(t[UpToCode(t)..])
  {
    hide CodeSize;
    var i := UpToCode(t);
    if i < |t| {
      AtCode(t[i..]);
      assert t[i + CodeSize(t[i..], 0)..] == t[i..][CodeSize(t[i..], 0)..];
    } else {
      assert t[i..] == [];
    }
  }

  // ---------------------------------------------------------------- when nothing is lost

  /** No unit is empty, holds a start code, or ends in a zero right before a three-byte code. */
  predicate Splittable(us: seq<Nal>) {
    forall i :: 0 <= i < |us| ==>
      && us[i].bytes != [] && Plain(us[i].bytes)
      && (i + 1 < |us| && !us[i + 1].long ==> us[i].bytes[|us[i].bytes| - 1] != 0)
  }

  predicate Proper(u: seq<U8>) {
    u != [] && Plain(u)
  }

  lemma PrefixIsPlain(t: seq<U8>)
    ensures Plain(t[..UpToCode(t)])
  {
    var n := UpToCode(t);
    forall j | 0 <= j < n ensures CodeSize(t[..n][j..], 0) == 0 {
      assert CodeSize(t[j..], 0) == 0 && t[..n][j..] == t[j..][..n - j];
    }
  }

  /** The splitter never delivers an empty unit or one with a start code inside. */
  lemma {:induction false} UnitsAreProper(t: seq<U8>, u: seq<U8>)
    requires u in UnitsAfter(t)
    ensures Proper(u)
    decreases |t|
  {
    hide CodeSize, Plain;
    var n := UpToCode(t);
    PrefixIsPlain(t);
    if u !in NonEmpty(t[..n]) { UnitsAreProper(t[n + CodeSize(t[n..], 0)..], u); }
  }

  lemma DeliveredIsProper(t: seq<U8>, u: seq<U8>)
    requires u in Units(t)
    ensures Proper(u)
  {
    hide CodeSize, Proper;
    UnitsAreProper(t[UpToCode(t) + CodeSize(t[UpToCode(t)..], 0)..], u);
  }

  function Total(ps: seq<seq<U8>>): nat {
    if ps == [] then 0 else |ps[0]| + Total(ps[1..])
  }

  lemma TotalOf(u: seq<U8>, ps: seq<seq<U8>>)
    ensures Total(NonEmpty(u) + ps) == |u| + Total(ps) && Total([u] + ps) == |u| + Total(ps)
  {
    assert [] + ps == ps && ([u] + ps)[1..] == ps;
  }

  predicate NothingLost(us: seq<Nal>) {
    us == [] || (Kept(us) == us[0].bytes && NothingLost(us[1..]))
  }

  lemma {:induction false} TotalTells(us: seq<Nal>)
    ensures Total(Expected(us)) <= Total(Payloads(us))
        && (Total(Expected(us)) == Total(Payloads(us)) ==> NothingLost(us))
    decreases |us|
  {
    hide Total;
    if us != [] {
      TotalTells(us[1..]);
      TotalOf(Kept(us), Expected(us[1..]));
      TotalOf(us[0].bytes, Payloads(us[1..]));
    }
  }

  lemma {:induction false} PayloadAt(us: seq<Nal>, i: nat)
    requires i < |us|
    ensures us[i].bytes in Payloads(us)
  {
    if i > 0 { PayloadAt(us[1..], i - 1); }
  }

  lemma {:induction false} KeptAt(us: seq<Nal>, i: nat)
    requires NothingLost(us) && i + 1 < |us| && !us[i + 1].long && us[i].bytes != []
    ensures us[i].bytes[|us[i].bytes| - 1] != 0
  {
    if i > 0 { KeptAt(us[1..], i - 1); }
  }

  lemma {:induction false} SplittableIsKept(us: seq<Nal>)
    requires Splittable(us)
    ensures Expected(us) == Payloads(us)
    decreases |us|
  {
    if us != [] {
      assert us[0].bytes != [];
      assert forall i :: 0 <= i < |us| - 1 ==> us[1..][i] == us[i + 1];
      SplittableIsKept(us[1..]);
    }
  }

  /** The units of a stream come back unchanged exactly if the stream is splittable. */
  lemma SplitUndoesStream(us: seq<Nal>)
    ensures Units(Stream(us)) == Payloads(us) <==> Splittable(us)
  {
    hide CodeSize, Units, UnitsAfter, Stream, Expected, Payloads, Total, Plain;
    if Splittable(us) {
      SplitOfStream(us);
      SplittableIsKept(us);
    }
    if Units(Stream(us)) == Payloads(us) {
      forall i | 0 <= i < |us| ensures Proper(us[i].bytes) {
        PayloadAt(us, i);
        DeliveredIsProper(Stream(us), us[i].bytes);
      }
      SplitOfStream(us);
      TotalTells(us);
      forall i | 0 <= i < |us| && i + 1 < |us| && !us[i + 1].long ensures us[i].bytes[|us[i].bytes| - 1] != 0 {
        KeptAt(us, i);
      }
    }
  }

  /** Units that do not end in a zero, as ITU-T H.264 section 7.4.1 has them, come back whatever their start codes. */
  lemma ConformingUnits(us: seq<Nal>)
    requires forall i :: 0 <= i < |us| ==> Proper(us[i].bytes) && us[i].bytes[|us[i].bytes| - 1] != 0
    ensures Units(Stream(us)) == Payloads(us)
  {
    hide Units, Stream, Payloads, Plain;
    SplitUndoesStream(us);
  }
}
