/** aloe_rg10_rgb8_i420_v5 and aloe_rg10_rgb8_i420_v6 (package/aloe/rg10_rgb8_i420_v4.cpp:344-538) in their SSE2 build,
    over output buffers written in place.  The I420 planes are separate arrays here. */
module Rg10 {
  import opened Buffers
  import opened Rg10Spec

  // ---------------------------------------------------------------- bytes of a few more pixels

  lemma Snoc(s: seq<Px>, p: Px)
    ensures RgbBytes(s + [p]) == RgbBytes(s) + [p.r, p.g, p.b]
    ensures LumaBytes(s + [p]) == LumaBytes(s) + [Clamp(LumaOf(p))]
  {
    hide Clamp, LumaOf;
    assert (s + [p])[..|s|] == s;
  }

  lemma ChromaSnoc(c: Plane, s: seq<Px>, p: Px)
    ensures ChromaBytes(c, s + [p]) == ChromaBytes(c, s) + if |s| % 2 == 1 then [Clamp(ChromaOf(c, p))] else []
  {
    hide Clamp, ChromaOf;
    assert (s + [p])[|s|] == p;
  }

  lemma TakeSnoc(ps: seq<Px>, i: nat)
    requires i < |ps|
    ensures ps[..i + 1] == ps[..i] + [ps[i]]
  {}

  method PutRgb(rgb: array<U8>, at: nat, ps: seq<Px>)
    requires at + 3 * |ps| <= rgb.Length
    modifies rgb
    ensures rgb[..] == Splice(old(rgb[..]), at, RgbBytes(ps))
  {
    hide RgbBytes, Splice;
    ghost var s := rgb[..];
    var i := 0;
    PutNothing(s, at);
    Take(ps);
    while i < |ps|
      invariant i <= |ps| && rgb[..] == Splice(s, at, RgbBytes(ps[..i]))
    {
      Store(rgb, at + 3 * i, [ps[i].r, ps[i].g, ps[i].b]);
      TakeSnoc(ps, i);
      Snoc(ps[..i], ps[i]);
      SpliceJoin(s, at, RgbBytes(ps[..i]), [ps[i].r, ps[i].g, ps[i].b]);
      i := i + 1;
    }
  }

  lemma Take(ps: seq<Px>)
    ensures ps[..0] == [] && ps[..|ps|] == ps
  {}

  lemma PutNothing(s: seq<U8>, at: nat)
    requires at <= |s|
    ensures RgbBytes([]) == [] && LumaBytes([]) == [] && ChromaBytes(U, []) == [] && ChromaBytes(V, []) == []
    ensures Splice(s, at, []) == s
  {}

  /** Eight luma bytes at a time in lanes, or one by one. */
  method PutLuma(luma: array<U8>, at: nat, ps: seq<Px>, lanes: bool)
    requires at + |ps| <= luma.Length
    modifies luma
    ensures luma[..] == Splice(old(luma[..]), at, LumaBytes(ps))
  {
    hide LumaLane, LumaOf, LumaBytes, Clamp, Splice;
    ghost var s := luma[..];
    var i := 0;
    PutNothing(s, at);
    Take(ps);
    while i < |ps|
      invariant i <= |ps| && luma[..] == Splice(s, at, LumaBytes(ps[..i]))
    {
      LumaLaneIsLuma(ps[i]);
      YuvRange(ps[i]);
      var y := if lanes then LumaLane(ps[i]) else LumaOf(ps[i]);
      Store(luma, at + i, [y]);
      TakeSnoc(ps, i);
      Snoc(ps[..i], ps[i]);
      SpliceJoin(s, at, LumaBytes(ps[..i]), [y]);
      i := i + 1;
    }
  }

  /** The chroma bytes of pixels `x` on: of those at odd positions.  v5 clamps them, v6 does not. */
  function ChromaPart(c: Plane, x: nat, ps: seq<Px>): (r: seq<U8>)
    ensures |r| == (x + |ps|) / 2 - x / 2
  {
    if ps == [] then []
    else
      var n := |ps| - 1;
      ChromaPart(c, x, ps[..n]) + if (x + n) % 2 == 1 then [Clamp(ChromaOf(c, ps[n]))] else []
  }

  lemma PartSnoc(c: Plane, x: nat, s: seq<Px>, p: Px)
    ensures ChromaPart(c, x, s + [p]) == ChromaPart(c, x, s) + if (x + |s|) % 2 == 1 then [Clamp(ChromaOf(c, p))]
        else []
  {
    hide Clamp, ChromaOf;
    assert (s + [p])[..|s|] == s;
  }

  lemma ChromaFits(c: Plane, p: Px)
    ensures 0 <= ChromaOf(c, p) < 256 && Clamp(ChromaOf(c, p)) == ChromaOf(c, p)
  {
    YuvRange(p);
    hide UOf, VOf;
  }

  method PutChroma(buf: array<U8>, c: Plane, at: nat, x: nat, ps: seq<Px>, clamped: bool)
    requires at + ((x + |ps|) / 2 - x / 2) <= buf.Length
    modifies buf
    ensures buf[..] == Splice(old(buf[..]), at, ChromaPart(c, x, ps))
  {
    hide ChromaPart, ChromaOf, Clamp, Splice;
    ghost var s := buf[..];
    var i := 0;
    NoPart(c, x, s, at);
    Take(ps);
    while i < |ps|
      invariant i <= |ps| && buf[..] == Splice(s, at, ChromaPart(c, x, ps[..i]))
    {
      TakeSnoc(ps, i);
      PartSnoc(c, x, ps[..i], ps[i]);
      if (x + i) % 2 == 1 {
        ChromaFits(c, ps[i]);
        var b: U8 := if clamped then Clamp(ChromaOf(c, ps[i])) else ChromaOf(c, ps[i]);
        Store(buf, at + ((x + i) / 2 - x / 2), [b]);
        SpliceJoin(s, at, ChromaPart(c, x, ps[..i]), [b]);
      } else {
        NothingAdded(ChromaPart(c, x, ps[..i]));
      }
      i := i + 1;
    }
  }

  lemma NothingAdded(b: seq<U8>)
    ensures b + [] == b
  {}

  lemma NoPart(c: Plane, x: nat, s: seq<U8>, at: nat)
    requires at <= |s|
    ensures ChromaPart(c, x, []) == [] && Splice(s, at, []) == s
  {}

  // ---------------------------------------------------------------- the four buffers together

  /** Where a row starts in each buffer, and which of them it goes to. */
  datatype Place = Place(withRgb: bool, withYuv: bool, odd: bool, rgb: nat, luma: nat, chroma: nat)

  /** There is room for `w` pixels. */
  predicate Room(s: Planes, p: Place, w: nat) {
    && (p.withRgb ==> p.rgb + 3 * w <= |s.rgb|)
    && (p.withYuv ==> p.luma + w <= |s.luma|)
    && (p.withYuv && p.odd ==> p.chroma + w / 2 <= |s.u| && p.chroma + w / 2 <= |s.v|)
  }

  /** Some pixels, from column `x` on, written to every buffer. */
  function Put(s: Planes, p: Place, x: nat, ps: seq<Px>): (r: Planes)
    requires Room(s, p, x + |ps|)
    ensures |r.rgb| == |s.rgb| && |r.luma| == |s.luma| && |r.u| == |s.u| && |r.v| == |s.v|
  {
    Planes(
      if p.withRgb then Splice(s.rgb, p.rgb + 3 * x, RgbBytes(ps)) else s.rgb,
      if p.withYuv then Splice(s.luma, p.luma + x, LumaBytes(ps)) else s.luma,
      if p.withYuv && p.odd then Splice(s.u, p.chroma + x / 2, ChromaPart(U, x, ps)) else s.u,
      if p.withYuv && p.odd then Splice(s.v, p.chroma + x / 2, ChromaPart(V, x, ps)) else s.v)
  }

  lemma {:induction false} BytesJoin(a: seq<Px>, b: seq<Px>)
    ensures RgbBytes(a + b) == RgbBytes(a) + RgbBytes(b) && LumaBytes(a + b) == LumaBytes(a) + LumaBytes(b)
    decreases |b|
  {
    hide Clamp, LumaOf, RgbBytes, LumaBytes;
    if b == [] {
      NoBytes();
      assert a + b == a;
    } else {
      var c, p := b[..|b| - 1], b[|b| - 1];
      assert b == c + [p] && a + b == (a + c) + [p];
      BytesJoin(a, c);
      Snoc(a + c, p);
      Snoc(c, p);
    }
  }

  lemma NoBytes()
    ensures RgbBytes([]) == [] && LumaBytes([]) == []
  {}

  lemma {:induction false} PartJoin(c: Plane, x: nat, a: seq<Px>, b: seq<Px>)
    ensures ChromaPart(c, x, a + b) == ChromaPart(c, x, a) + ChromaPart(c, x + |a|, b)
    decreases |b|
  {
    hide Clamp, ChromaOf, ChromaPart;
    if b == [] {
      NoPart(c, x + |a|, [], 0);
      assert a + b == a;
    } else {
      var d, p := b[..|b| - 1], b[|b| - 1];
      assert b == d + [p] && a + b == (a + d) + [p];
      PartJoin(c, x, a, d);
      PartSnoc(c, x, a + d, p);
      PartSnoc(c, x + |a|, d, p);
    }
  }

  lemma {:induction false} WholePart(c: Plane, ps: seq<Px>)
    ensures ChromaPart(c, 0, ps) == ChromaBytes(c, ps)
    decreases |ps|
  {
    hide Clamp, ChromaOf, ChromaPart, ChromaBytes;
    if ps == [] {
      NoPart(c, 0, [], 0);
      assert |ChromaBytes(c, ps)| == 0;
    } else {
      var d, p := ps[..|ps| - 1], ps[|ps| - 1];
      assert ps == d + [p];
      WholePart(c, d);
      PartSnoc(c, 0, d, p);
      ChromaSnoc(c, d, p);
    }
  }

  /** Writing on from where the last pixels ended. */
  lemma PutJoin(s: Planes, p: Place, x: nat, a: seq<Px>, b: seq<Px>)
    requires Room(s, p, x + |a| + |b|)
    ensures Put(Put(s, p, x, a), p, x + |a|, b) == Put(s, p, x, a + b)
  {
    hide Splice, RgbBytes, LumaBytes, ChromaPart;
    assert |a + b| == |a| + |b|;
    BytesJoin(a, b);
    PartJoin(U, x, a, b);
    PartJoin(V, x, a, b);
    if p.withRgb { SpliceJoin(s.rgb, p.rgb + 3 * x, RgbBytes(a), RgbBytes(b)); }
    if p.withYuv { SpliceJoin(s.luma, p.luma + x, LumaBytes(a), LumaBytes(b)); }
    if p.withYuv && p.odd {
      SpliceJoin(s.u, p.chroma + x / 2, ChromaPart(U, x, a), ChromaPart(U, x + |a|, b));
      SpliceJoin(s.v, p.chroma + x / 2, ChromaPart(V, x, a), ChromaPart(V, x + |a|, b));
    }
  }

  lemma PutNone(s: Planes, p: Place)
    requires Room(s, p, 0)
    ensures Put(s, p, 0, []) == s
  {
    hide Splice;
    if p.withRgb { SpliceNothing(s.rgb, p.rgb); }
    if p.withYuv { SpliceNothing(s.luma, p.luma); }
    if p.withYuv && p.odd {
      SpliceNothing(s.u, p.chroma);
      SpliceNothing(s.v, p.chroma);
    }
  }

  /** An even row and the odd one below it do not disturb each other. */
  lemma PutSwap(s: Planes, p: Place, x: nat, a: seq<Px>, q: Place, b: seq<Px>)
    requires Room(s, p, x + |a|) && Room(s, q, |b|) && !p.odd
    requires p.rgb + 3 * (x + |a|) <= q.rgb && p.luma + x + |a| <= q.luma
    ensures Put(Put(s, q, 0, b), p, x, a) == Put(Put(s, p, x, a), q, 0, b)
  {
    hide Splice, RgbBytes, LumaBytes, ChromaPart;
    if p.withRgb && q.withRgb { SpliceSwap(s.rgb, p.rgb + 3 * x, RgbBytes(a), q.rgb, RgbBytes(b)); }
    if p.withYuv && q.withYuv { SpliceSwap(s.luma, p.luma + x, LumaBytes(a), q.luma, LumaBytes(b)); }
  }

  /** Some pixels of a row go to every buffer there is. */
  method Emit(out: Out, p: Place, x: nat, ps: seq<Px>, lanes: bool, clamped: bool)
    requires out.Apart() && Room(out.Snap(), p, x + |ps|)
    modifies out.rgb, out.luma, out.u, out.v
    ensures out.Snap() == Put(old(out.Snap()), p, x, ps)
  {
    hide Splice, RgbBytes, LumaBytes, ChromaPart;
    if p.withRgb { PutRgb(out.rgb, p.rgb + 3 * x, ps); }
    if p.withYuv {
      PutLuma(out.luma, p.luma + x, ps, lanes);
      if p.odd {
        PutChroma(out.u, U, p.chroma + x / 2, x, ps, clamped);
        PutChroma(out.v, V, p.chroma + x / 2, x, ps, clamped);
      }
    }
  }

  // ---------------------------------------------------------------- reading pixels

  /** Eight pixels, sample by sample: the first inner loop of v5. */
  method ReadBlock(src: Rows, y: nat, w: nat, x: nat) returns (ps: seq<Px>)
    requires Fits(src, y, w) && x + 8 <= w
    ensures ps == Line(src, y, w, Unit)[x..x + 8]
  {
    hide Sample;
    ps := [];
    var i := 0;
    while i < 8
      invariant i <= 8 && ps == Line(src, y, w, Unit)[x..x + i]
    {
      var sx := 4 * (x + i);
      ps := ps + [Px(Sample(src[4 * y][sx]), Sample(src[4 * y][sx + 1]), Sample(src[4 * y + 1][sx + 1]))];
      i := i + 1;
    }
  }

  /** Eight pixels by SSE2 loads, shuffles and shifts, and then the gains. */
  method ReadLanes(src: Rows, y: nat, w: nat, x: nat, t: Gains) returns (ps: seq<Px>)
    requires Fits(src, y, w) && x + 8 <= w && Usable(t)
    ensures ps == Line(src, y, w, t)[x..x + 8]
  {
    hide Pairs, Channel, Sample;
    var row0, row1 := src[4 * y], src[4 * y + 1];
    var top0, top1 := Pairs(row0, 4 * x), Pairs(row0, 4 * x + 16);
    var bot0, bot1 := Pairs(row1, 4 * x), Pairs(row1, 4 * x + 16);
    ChannelIsSamples(row0, 4 * x);
    ChannelIsSamples(row1, 4 * x);
    var r, g, b := Channel(top0, top1, 2), Channel(top0, top1, 18), Channel(bot0, bot1, 18);
    ps := [];
    var i := 0;
    while i < 8
      invariant i <= 8 && ps == Line(src, y, w, t)[x..x + i]
    {
      var p := Px(r[i], g[i], b[i]);
      assert p == PixelAt(src, y, x + i);
      ps := ps + [Adjust(t, p)];
      i := i + 1;
    }
  }

  lemma OnePixel(src: Rows, y: nat, w: nat, x: nat, t: Gains)
    requires Fits(src, y, w) && x < w && Usable(t)
    ensures [Adjust(t, PixelAt(src, y, x))] == Line(src, y, w, t)[x..x + 1]
  {}

  lemma TakeMore(line: seq<Px>, x: nat, n: nat)
    requires x + n <= |line|
    ensures line[..x] + line[x..x + n] == line[..x + n] && line[..0] == [] && line[..|line|] == line
  {}

  // ---------------------------------------------------------------- rows

  /** The inside of v6's loop over rows. */
  method Row6(src: Rows, y: nat, w: nat, t: Gains, out: Out, p: Place)
    requires Fits(src, y, w) && Usable(t) && out.Apart() && Room(out.Snap(), p, w)
    modifies out.rgb, out.luma, out.u, out.v
    ensures out.Snap() == Put(old(out.Snap()), p, 0, Line(src, y, w, t))
  {
    hide Put, Line, PixelAt, Adjust;
    ghost var line, s := Line(src, y, w, t), out.Snap();
    var x := 0;
    PutNone(s, p);
    TakeMore(line, 0, 0);
    while x + 8 <= w
      invariant x <= w && out.Snap() == Put(s, p, 0, line[..x])
    {
      var ps := ReadLanes(src, y, w, x, t);
      TakeMore(line, x, 8);
      PutJoin(s, p, 0, line[..x], ps);
      Emit(out, p, x, ps, true, false);
      x := x + 8;
    }
    while x < w
      invariant x <= w && out.Snap() == Put(s, p, 0, line[..x])
    {
      OnePixel(src, y, w, x, t);
      TakeMore(line, x, 1);
      var ps := [Adjust(t, PixelAt(src, y, x))];
      PutJoin(s, p, 0, line[..x], ps);
      Emit(out, p, x, ps, false, false);
      x := x + 1;
    }
  }

  /** Some pixels of two rows. */
  function PutPair(s: Planes, p: Place, q: Place, x: nat, a: seq<Px>, b: seq<Px>): (r: Planes)
    requires Room(s, p, x + |a|) && Room(s, q, x + |b|)
    ensures |r.rgb| == |s.rgb| && |r.luma| == |s.luma| && |r.u| == |s.u| && |r.v| == |s.v|
  {
    Put(Put(s, p, x, a), q, x, b)
  }

  /** More of an even row and of the odd row below it. */
  lemma PairMore(s: Planes, p: Place, q: Place, a: seq<Px>, a2: seq<Px>, b: seq<Px>, b2: seq<Px>, w: nat)
    requires |a| == |b| && |a2| == |b2| && |a| + |a2| <= w && Room(s, p, w) && Room(s, q, w) && !p.odd
    requires q.rgb == p.rgb + 3 * w && q.luma == p.luma + w
    ensures PutPair(PutPair(s, p, q, 0, a, b), p, q, |a|, a2, b2) == PutPair(s, p, q, 0, a + a2, b + b2)
  {
    hide Put;
    var s1 := Put(s, p, 0, a);
    PutSwap(s1, p, |a|, a2, q, b);
    PutJoin(s, p, 0, a, a2);
    PutJoin(Put(s, p, 0, a + a2), q, 0, b, b2);
  }

  lemma PairNone(s: Planes, p: Place, q: Place)
    requires Room(s, p, 0) && Room(s, q, 0)
    ensures PutPair(s, p, q, 0, [], []) == s
  {
    hide Put;
    PutNone(s, p);
    PutNone(s, q);
  }

  /** The inside of v5's loops: some pixels of both rows. */
  method EmitPair(out: Out, p: Place, q: Place, x: nat, ps: seq<Px>, qs: seq<Px>, lanes: bool,
                  ghost s: Planes, ghost a: seq<Px>, ghost b: seq<Px>, ghost w: nat)
    requires out.Apart() && |a| == |b| == x && |ps| == |qs| && x + |ps| <= w && Room(s, p, w) && Room(s, q, w)
    requires !p.odd && q.rgb == p.rgb + 3 * w && q.luma == p.luma + w
    requires out.Snap() == PutPair(s, p, q, 0, a, b)
    modifies out.rgb, out.luma, out.u, out.v
    ensures out.Snap() == PutPair(s, p, q, 0, a + ps, b + qs)
  {
    hide Put;
    PairMore(s, p, q, a, ps, b, qs, w);
    Emit(out, p, x, ps, lanes, true);
    Emit(out, q, x, qs, lanes, true);
  }

  /** The inside of v5's loop over pairs of rows. */
  method RowPair5(src: Rows, y: nat, w: nat, out: Out, p: Place, q: Place)
    requires Fits(src, y, w) && Fits(src, y + 1, w) && out.Apart() && Room(out.Snap(), p, w) && Room(out.Snap(), q, w)
    requires !p.odd && q.rgb == p.rgb + 3 * w && q.luma == p.luma + w
    modifies out.rgb, out.luma, out.u, out.v
    ensures out.Snap() == PutPair(old(out.Snap()), p, q, 0, Line(src, y, w, Unit), Line(src, y + 1, w, Unit))
  {
    hide Put, PutPair, Line, PixelAt, Adjust;
    ghost var s, a, b := out.Snap(), Line(src, y, w, Unit), Line(src, y + 1, w, Unit);
    var x := 0;
    PairNone(s, p, q);
    TakeMore(a, 0, 0);
    TakeMore(b, 0, 0);
    while x + 8 <= w
      invariant x <= w && out.Snap() == PutPair(s, p, q, 0, a[..x], b[..x])
    {
      var ps := ReadBlock(src, y, w, x);
      var qs := ReadBlock(src, y + 1, w, x);
      TakeMore(a, x, 8);
      TakeMore(b, x, 8);
      EmitPair(out, p, q, x, ps, qs, true, s, a[..x], b[..x], w);
      x := x + 8;
    }
    while x < w
      invariant x <= w && out.Snap() == PutPair(s, p, q, 0, a[..x], b[..x])
    {
      OnePixel(src, y, w, x, Unit);
      OnePixel(src, y + 1, w, x, Unit);
      TakeMore(a, x, 1);
      TakeMore(b, x, 1);
      var ps, qs := [Adjust(Unit, PixelAt(src, y, x))], [Adjust(Unit, PixelAt(src, y + 1, x))];
      EmitPair(out, p, q, x, ps, qs, false, s, a[..x], b[..x], w);
      x := x + 1;
    }
  }

  // ---------------------------------------------------------------- frames

  /** Where output row `y` goes. */
  function PlaceOf(y: nat, w: nat, withRgb: bool, withYuv: bool): Place {
    Place(withRgb, withYuv, y % 2 == 1, 3 * w * y, w * y, w / 2 * (y / 2))
  }

  /** The buffers are as large as a frame of `w` by `h` needs. */
  predicate Sized(s: Planes, w: nat, h: nat, withRgb: bool, withYuv: bool) {
    && (withRgb ==> |s.rgb| == 3 * w * h)
    && (withYuv ==> |s.luma| == w * h && |s.u| == |s.v| == w / 2 * (h / 2))
  }

  lemma RoomForRow(s: Planes, w: nat, h: nat, y: nat, withRgb: bool, withYuv: bool)
    requires Sized(s, w, h, withRgb, withYuv) && y < h && h % 2 == 0
    ensures Room(s, PlaceOf(y, w, withRgb, withYuv), w)
  {
    Times(3 * w, y, h);
    Times(w, y, h);
    if y % 2 == 1 { Times(w / 2, y / 2, h / 2); }
  }

  /** The first `y` rows written. */
  function Written(s: Planes, src: Rows, y: nat, w: nat, h: nat, t: Gains, withRgb: bool, withYuv: bool): (r: Planes)
    requires FitsAll(src, h, w) && Usable(t) && y <= h && h % 2 == 0 && Sized(s, w, h, withRgb, withYuv)
    ensures Sized(r, w, h, withRgb, withYuv)
    ensures |r.rgb| == |s.rgb| && |r.luma| == |s.luma| && |r.u| == |s.u| && |r.v| == |s.v|
  {
    if y == 0 then s
    else
      var r := Written(s, src, y - 1, w, h, t, withRgb, withYuv);
      RoomForRow(r, w, h, y - 1, withRgb, withYuv);
      Put(r, PlaceOf(y - 1, w, withRgb, withYuv), 0, Line(src, y - 1, w, t))
  }

  lemma PutRgbPart(s: Planes, p: Place, ps: seq<Px>)
    requires Room(s, p, |ps|)
    ensures Put(s, p, 0, ps).rgb == if p.withRgb then Splice(s.rgb, p.rgb, RgbBytes(ps)) else s.rgb
  {
    hide Splice, RgbBytes, LumaBytes, ChromaPart;
  }

  lemma PutLumaPart(s: Planes, p: Place, ps: seq<Px>)
    requires Room(s, p, |ps|)
    ensures Put(s, p, 0, ps).luma == if p.withYuv then Splice(s.luma, p.luma, LumaBytes(ps)) else s.luma
  {
    hide Splice, RgbBytes, LumaBytes, ChromaPart;
  }

  lemma PutChromaPart(c: Plane, s: Planes, p: Place, ps: seq<Px>)
    requires Room(s, p, |ps|)
    ensures PlaneOf(Put(s, p, 0, ps), c) ==
              if p.withYuv && p.odd then Splice(PlaneOf(s, c), p.chroma, ChromaBytes(c, ps)) else PlaneOf(s, c)
  {
    hide Splice, RgbBytes, LumaBytes, ChromaBytes, ChromaPart;
    WholePart(c, ps);
  }

  /** Row by row, a buffer fills from the front with its plane. */
  lemma {:induction false} RgbFills(s: Planes, src: Rows, y: nat, w: nat, h: nat, t: Gains, withYuv: bool)
    requires FitsAll(src, h, w) && Usable(t) && y <= h && h % 2 == 0 && Sized(s, w, h, true, withYuv)
    ensures |RgbPlane(src, y, w, t)| == 3 * w * y <= |s.rgb|
    ensures Written(s, src, y, w, h, t, true, withYuv).rgb == RgbPlane(src, y, w, t) + s.rgb[3 * w * y..]
    decreases y
  {
    hide Put, Line, RgbBytes, Splice, PlaceOf;
    if y == 0 {
      assert s.rgb[0..] == s.rgb && [] + s.rgb == s.rgb;
    } else {
      RgbFills(s, src, y - 1, w, h, t, withYuv);
      var r, line := Written(s, src, y - 1, w, h, t, true, withYuv), Line(src, y - 1, w, t);
      RoomForRow(r, w, h, y - 1, true, withYuv);
      PutRgbPart(r, PlaceOf(y - 1, w, true, withYuv), line);
      PlaceParts(y - 1, w, true, withYuv);
      Times(3 * w, y - 1, h);
      Rebuild(s.rgb, RgbPlane(src, y - 1, w, t), RgbBytes(line));
    }
  }

  lemma PlaceParts(y: nat, w: nat, withRgb: bool, withYuv: bool)
    ensures PlaceOf(y, w, withRgb, withYuv) == Place(withRgb, withYuv, y % 2 == 1, 3 * w * y, w * y, w / 2 * (y / 2))
  {}

  lemma {:induction false} LumaFills(s: Planes, src: Rows, y: nat, w: nat, h: nat, t: Gains, withRgb: bool)
    requires FitsAll(src, h, w) && Usable(t) && y <= h && h % 2 == 0 && Sized(s, w, h, withRgb, true)
    ensures |LumaPlane(src, y, w, t)| == w * y <= |s.luma|
    ensures Written(s, src, y, w, h, t, withRgb, true).luma == LumaPlane(src, y, w, t) + s.luma[w * y..]
    decreases y
  {
    hide Put, Line, LumaBytes, Splice, PlaceOf;
    if y == 0 {
      assert s.luma[0..] == s.luma && [] + s.luma == s.luma;
    } else {
      LumaFills(s, src, y - 1, w, h, t, withRgb);
      var r, line := Written(s, src, y - 1, w, h, t, withRgb, true), Line(src, y - 1, w, t);
      RoomForRow(r, w, h, y - 1, withRgb, true);
      PutLumaPart(r, PlaceOf(y - 1, w, withRgb, true), line);
      PlaceParts(y - 1, w, withRgb, true);
      Times(w, y - 1, h);
      Rebuild(s.luma, LumaPlane(src, y - 1, w, t), LumaBytes(line));
    }
  }

  lemma {:induction false} ChromaFills(c: Plane, s: Planes, src: Rows, y: nat, w: nat, h: nat, t: Gains, withRgb: bool)
    requires FitsAll(src, h, w) && Usable(t) && y <= h && h % 2 == 0 && Sized(s, w, h, withRgb, true)
    ensures |ChromaPlane(c, src, y, w, t)| == w / 2 * (y / 2) <= |PlaneOf(s, c)|
    ensures PlaneOf(Written(s, src, y, w, h, t, withRgb, true), c) == ChromaPlane(c, src, y, w, t)
        + PlaneOf(s, c)[w / 2 * (y / 2)..]
    decreases y
  {
    hide Put, Line, ChromaBytes, Splice, PlaceOf;
    var buf := PlaneOf(s, c);
    if y == 0 {
      assert w / 2 * 0 == 0 && buf[0..] == buf && [] + buf == buf;
    } else {
      ChromaFills(c, s, src, y - 1, w, h, t, withRgb);
      var r, line := Written(s, src, y - 1, w, h, t, withRgb, true), Line(src, y - 1, w, t);
      RoomForRow(r, w, h, y - 1, withRgb, true);
      PutChromaPart(c, r, PlaceOf(y - 1, w, withRgb, true), line);
      PlaceParts(y - 1, w, withRgb, true);
      var done := ChromaPlane(c, src, y - 1, w, t);
      if y % 2 == 0 {
        assert (y - 1) / 2 == y / 2 - 1;
        Times(w / 2, y / 2 - 1, h / 2);
        Rebuild(buf, done, ChromaBytes(c, line));
      } else {
        assert (y - 1) / 2 == y / 2 && done + [] == done;
      }
    }
  }

  /** A frame with all its rows written is the four planes, whatever the buffers held before. */
  lemma WholeFrame(s: Planes, src: Rows, w: nat, h: nat, t: Gains, withRgb: bool, withYuv: bool)
    requires FitsAll(src, h, w) && Usable(t) && h % 2 == 0 && Sized(s, w, h, withRgb, withYuv)
    ensures Written(s, src, h, w, h, t, withRgb, withYuv) ==
              Planes(if withRgb then RgbPlane(src, h, w, t) else s.rgb,
                     if withYuv then LumaPlane(src, h, w, t) else s.luma,
                     if withYuv then ChromaPlane(U, src, h, w, t) else s.u,
                     if withYuv then ChromaPlane(V, src, h, w, t) else s.v)
  {
    hide Written, RgbPlane, LumaPlane, ChromaPlane;
    if withRgb {
      RgbFills(s, src, h, w, h, t, withYuv);
      assert RgbPlane(src, h, w, t) + [] == RgbPlane(src, h, w, t);
    } else {
      NotWritten(s, src, h, w, h, t, withYuv);
    }
    if withYuv {
      LumaFills(s, src, h, w, h, t, withRgb);
      ChromaFills(U, s, src, h, w, h, t, withRgb);
      ChromaFills(V, s, src, h, w, h, t, withRgb);
      assert LumaPlane(src, h, w, t) + [] == LumaPlane(src, h, w, t);
      assert ChromaPlane(U, src, h, w, t) + [] == ChromaPlane(U, src, h, w, t);
      assert ChromaPlane(V, src, h, w, t) + [] == ChromaPlane(V, src, h, w, t);
    } else {
      YuvNotWritten(s, src, h, w, h, t, withRgb);
    }
  }

  lemma {:induction false} NotWritten(s: Planes, src: Rows, y: nat, w: nat, h: nat, t: Gains, withYuv: bool)
    requires FitsAll(src, h, w) && Usable(t) && y <= h && h % 2 == 0 && Sized(s, w, h, false, withYuv)
    ensures Written(s, src, y, w, h, t, false, withYuv).rgb == s.rgb
    decreases y
  {
    hide Line, Splice, RgbBytes, LumaBytes, ChromaPart;
    if y > 0 {
      NotWritten(s, src, y - 1, w, h, t, withYuv);
      RoomForRow(Written(s, src, y - 1, w, h, t, false, withYuv), w, h, y - 1, false, withYuv);
    }
  }

  lemma {:induction false} YuvNotWritten(s: Planes, src: Rows, y: nat, w: nat, h: nat, t: Gains, withRgb: bool)
    requires FitsAll(src, h, w) && Usable(t) && y <= h && h % 2 == 0 && Sized(s, w, h, withRgb, false)
    ensures var r := Written(s, src, y, w, h, t, withRgb, false); r.luma == s.luma && r.u == s.u && r.v == s.v
    decreases y
  {
    hide Line, Splice, RgbBytes, LumaBytes, ChromaPart;
    if y > 0 {
      YuvNotWritten(s, src, y - 1, w, h, t, withRgb);
      RoomForRow(Written(s, src, y - 1, w, h, t, withRgb, false), w, h, y - 1, withRgb, false);
    }
  }

  // ---------------------------------------------------------------- the two converters

  /** What both do with a frame; a size they refuse leaves the buffers alone. */
  function Converted(s: Planes, src: Rows, width: nat, height: nat, t: Gains, withRgb: bool, withYuv: bool): Planes
    requires Framed(src, width, height) && Usable(t)
    requires Accepts(width, height) ==> Sized(s, width / 4, height / 4, withRgb, withYuv)
  {
    if !Accepts(width, height) then s
    else
      Squares(src, width, height);
      Planes(if withRgb then RgbPlane(src, height / 4, width / 4, t) else s.rgb,
             if withYuv then LumaPlane(src, height / 4, width / 4, t) else s.luma,
             if withYuv then ChromaPlane(U, src, height / 4, width / 4, t) else s.u,
             if withYuv then ChromaPlane(V, src, height / 4, width / 4, t) else s.v)
  }

  predicate Accepts(width: nat, height: nat) {
    width >= 8 && height >= 8 && width % 8 == 0 && height % 8 == 0
  }

  lemma Squares(src: Rows, width: nat, height: nat)
    requires Framed(src, width, height) && Accepts(width, height)
    ensures FitsAll(src, height / 4, width / 4) && height / 4 % 2 == 0 && width / 4 % 2 == 0
  {
    forall y | 0 <= y < height / 4 ensures Fits(src, y, width / 4) {
      assert 4 * y + 1 < height;
      assert |src[4 * y]| >= width && |src[4 * y + 1]| >= width;
    }
  }

  lemma OneRow(s: Planes, src: Rows, y: nat, w: nat, h: nat, t: Gains, withRgb: bool, withYuv: bool)
    requires FitsAll(src, h, w) && Usable(t) && y < h && h % 2 == 0 && Sized(s, w, h, withRgb, withYuv)
    ensures var r := Written(s, src, y, w, h, t, withRgb, withYuv); var p := PlaceOf(y, w, withRgb, withYuv);
      && Room(r, p, w)
      && Written(s, src, y + 1, w, h, t, withRgb, withYuv) == Put(r, p, 0, Line(src, y, w, t))
  {
    hide Put, Line, PlaceOf, Room;
    RoomForRow(Written(s, src, y, w, h, t, withRgb, withYuv), w, h, y, withRgb, withYuv);
  }

  /** aloe_rg10_rgb8_i420_v6; `t` stands for the gains, already checked. */
  method V6(src: Rows, width: nat, height: nat, out: Out, t: Gains, withRgb: bool, withYuv: bool)
    requires Framed(src, width, height) && Usable(t) && out.Apart()
    requires Accepts(width, height) ==> Sized(out.Snap(), width / 4, height / 4, withRgb, withYuv)
    modifies out.rgb, out.luma, out.u, out.v
    ensures out.Snap() == Converted(old(out.Snap()), src, width, height, t, withRgb, withYuv)
  {
    hide Put, Line, PlaceOf, Room, Written, RgbPlane, LumaPlane, ChromaPlane, Sized;
    if width < 8 || height < 8 || width % 8 != 0 || height % 8 != 0 { return; }
    ghost var s := out.Snap();
    if !withRgb && !withYuv { return; }
    var w, h := width / 4, height / 4;
    Squares(src, width, height);
    WholeFrame(s, src, w, h, t, withRgb, withYuv);
    NoRows(s, src, w, h, t, withRgb, withYuv);
    var y := 0;
    while y < h
      invariant y <= h && out.Snap() == Written(s, src, y, w, h, t, withRgb, withYuv)
    {
      OneRow(s, src, y, w, h, t, withRgb, withYuv);
      Row6(src, y, w, t, out, PlaceOf(y, w, withRgb, withYuv));
      y := y + 1;
    }
  }

  lemma NoRows(s: Planes, src: Rows, w: nat, h: nat, t: Gains, withRgb: bool, withYuv: bool)
    requires FitsAll(src, h, w) && Usable(t) && h % 2 == 0 && Sized(s, w, h, withRgb, withYuv)
    ensures Written(s, src, 0, w, h, t, withRgb, withYuv) == s
  {}

  lemma PairOfPlaces(y: nat, w: nat, withRgb: bool, withYuv: bool)
    requires y % 2 == 0
    ensures var p, q := PlaceOf(y, w, withRgb, withYuv), PlaceOf(y + 1, w, withRgb, withYuv);
      !p.odd && q.rgb == p.rgb + 3 * w && q.luma == p.luma + w
  {
    Times(3 * w, y, y + 1);
    Times(w, y, y + 1);
  }

  /** aloe_rg10_rgb8_i420_v5 */
  method V5(src: Rows, width: nat, height: nat, out: Out, withRgb: bool, withYuv: bool)
    requires Framed(src, width, height) && out.Apart()
    requires Accepts(width, height) ==> Sized(out.Snap(), width / 4, height / 4, withRgb, withYuv)
    modifies out.rgb, out.luma, out.u, out.v
    ensures out.Snap() == Converted(old(out.Snap()), src, width, height, Unit, withRgb, withYuv)
  {
    hide Put, Line, PlaceOf, Room, Written, RgbPlane, LumaPlane, ChromaPlane, Sized;
    if width < 8 || height < 8 || width % 8 != 0 || height % 8 != 0 { return; }
    ghost var s := out.Snap();
    var w, h := width / 4, height / 4;
    Squares(src, width, height);
    WholeFrame(s, src, w, h, Unit, withRgb, withYuv);
    NoRows(s, src, w, h, Unit, withRgb, withYuv);
    var y := 0;
    while y < h
      invariant y <= h && y % 2 == 0 && out.Snap() == Written(s, src, y, w, h, Unit, withRgb, withYuv)
    {
      OneRow(s, src, y, w, h, Unit, withRgb, withYuv);
      OneRow(s, src, y + 1, w, h, Unit, withRgb, withYuv);
      PairOfPlaces(y, w, withRgb, withYuv);
      RoomStays(Written(s, src, y, w, h, Unit, withRgb, withYuv), PlaceOf(y, w, withRgb, withYuv),
          Line(src, y, w, Unit),
                PlaceOf(y + 1, w, withRgb, withYuv), w);
      RowPair5(src, y, w, out, PlaceOf(y, w, withRgb, withYuv), PlaceOf(y + 1, w, withRgb, withYuv));
      y := y + 2;
    }
  }

  lemma RoomStays(s: Planes, p: Place, line: seq<Px>, q: Place, w: nat)
    requires |line| == w && Room(s, p, w)
    ensures Room(Put(s, p, 0, line), q, w) ==> Room(s, q, w)
  {
    hide Put;
  }
}
