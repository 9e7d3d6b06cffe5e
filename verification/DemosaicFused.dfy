/** aloe_rggb10_to_rgb888_i420_v2 (package/aloe/rggb10_rgb888_i420.cpp): one loop over 2 x 2 blocks that writes two rows
    at once and never narrows its eight-bit channels. */
module DemosaicFused {
  import opened Buffers
  import opened DemosaicSpec
  import opened Demosaic

  /** The four pixels of the block at (x, y), from four rows and four columns. */
  function BlockSites(m: Bayer, x: nat, y: nat): (Site, Site, Site, Site)
    requires Whole(m) && x < m.width && y < m.height
  {
    var y1 := if y + 1 < m.height then y + 1 else y;
    var rowM1, row0, row1 := if y > 0 then m.rows[y - 1] else m.rows[y], m.rows[y], m.rows[y1];
    var rowP2 := if y + 2 < m.height then m.rows[y + 2] else row1;
    var xm1, xp1 := if x > 0 then x - 1 else x, if x + 1 < m.width then x + 1 else x;
    var xp2 := if x + 2 < m.width then x + 2 else xp1;
    (Site(row0[x], Mean4(row0[xm1], row0[xp1], rowM1[x], row1[x]), Mean4(rowM1[xm1], rowM1[xp1], row1[xm1], row1[xp1])),
     Site(Mean2(row0[x], row0[xp2]), row0[xp1], Mean2(rowM1[xp1], row1[xp1])),
     Site(Mean2(row0[x], rowP2[x]), row1[x], Mean2(row1[xm1], row1[xp1])),
     Site(Mean4(row0[x], row0[xp2], rowP2[x], rowP2[xp2]), Mean4(row1[x], row1[xp2], row0[xp1], rowP2[xp1]), row1[xp1]))
  }

  /** They are the pixels the reference interpolates one by one. */
  lemma BlockIsPixels(m: Bayer, x: nat, y: nat)
    requires Whole(m) && x % 2 == 0 && y % 2 == 0 && x + 1 < m.width && y + 1 < m.height
    ensures BlockSites(m, x, y) == (DemosaicPixel(m, x, y), DemosaicPixel(m, x + 1, y),
                                    DemosaicPixel(m, x, y + 1), DemosaicPixel(m, x + 1, y + 1))
  {
    hide Mean2, Mean4;
  }

  // ---------------------------------------------------------------- two rows at once

  /** A buffer filled from the front, with the piece `e` further on. */
  predicate InTwoRows(buf: seq<U8>, s: seq<U8>, d: seq<U8>, q: nat, e: seq<U8>) {
    |d| <= q && q + |e| <= |s| && buf == Splice(Filled(s, d), q, e)
  }

  lemma TwoRowsMore(s: seq<U8>, d: seq<U8>, a: seq<U8>, q: nat, e: seq<U8>, b: seq<U8>)
    requires |d| + |a| <= q && q + |e| + |b| <= |s|
    ensures Splice(Splice(Splice(Filled(s, d), q, e), |d|, a), q + |e|, b) == Splice(Filled(s, d + a), q, e + b)
  {
    hide Splice, Filled;
    var f := Filled(s, d);
    SpliceSwap(f, |d|, a, q, e);
    FilledMore(s, d, a);
    SpliceJoin(Filled(s, d + a), q, e, b);
  }

  method AppendTwo(buf: array<U8>, at: nat, a: seq<U8>, to: nat, b: seq<U8>, ghost s: seq<U8>, ghost d: seq<U8>,
                   ghost q: nat, ghost e: seq<U8>)
    requires InTwoRows(buf[..], s, d, q, e) && at == |d| && to == q + |e|
    requires |d| + |a| <= q && q + |e| + |b| <= |s|
    modifies buf
    ensures InTwoRows(buf[..], s, d + a, q, e + b)
  {
    hide Splice, Filled;
    TwoRowsMore(s, d, a, q, e, b);
    Store(buf, at, a);
    Store(buf, to, b);
  }

  lemma TwoRowsStart(s: seq<U8>, d: seq<U8>, q: nat)
    requires |d| <= q <= |s|
    ensures InTwoRows(Filled(s, d), s, d, q, [])
  {
    hide Splice;
    SpliceNothing(Filled(s, d), q);
  }

  lemma TwoRowsEnd(buf: seq<U8>, s: seq<U8>, d: seq<U8>, e: seq<U8>)
    requires InTwoRows(buf, s, d, |d|, e)
    ensures buf == Filled(s, d + e)
  {
    hide Splice, Filled;
    FilledMore(s, d, e);
  }

  // ---------------------------------------------------------------- a pair of rows in progress

  /** Where row `y` starts in a plane. */
  function RowAt(m: Bayer, y: nat): nat {
    NotNegative(m.width, y);
    m.width * y
  }

  /** The first `2 * z` pixels of rows `2 * k` and `2 * k + 1` are written, with their chroma. */
  ghost predicate InPair(p: Planes, s: Planes, m: Bayer, k: nat, z: nat, withRgb: bool, withYuv: bool)
    requires Whole(m) && 2 * k + 1 < m.height && 2 * z <= m.width
  {
    var y, x := 2 * k, 2 * z;
    var below := Line(m, y + 1, false)[..x];
    && (if withRgb then InTwoRows(p.rgb, s.rgb, RgbPart(m, y, x, false), 3 * RowAt(m, y + 1), RgbBytes(below))
        else p.rgb == s.rgb)
    && (if withYuv then
          && InTwoRows(p.luma, s.luma, LumaPart(m, y, x, false), RowAt(m, y + 1), LumaBytes(below))
          && p.u == Filled(s.u, ChromaPart(U, m, k, z, false))
          && p.v == Filled(s.v, ChromaPart(V, m, k, z, false))
        else p.luma == s.luma && p.u == s.u && p.v == s.v)
  }

  lemma PairRoom(m: Bayer, y: nat, x: nat)
    requires Whole(m) && y + 1 < m.height && x <= m.width
    ensures |RgbPart(m, y, x, false)| == (y * m.width + x) * 3 <= 3 * RowAt(m, y + 1)
    ensures |LumaPart(m, y, x, false)| == y * m.width + x <= RowAt(m, y + 1)
    ensures |RgbBytes(Line(m, y + 1, false)[..x])| == 3 * x && |LumaBytes(Line(m, y + 1, false)[..x])| == x
    ensures RowAt(m, y + 1) == y * m.width + m.width && RowAt(m, y + 1) + m.width <= m.width * m.height
  {
    hide RgbPart, LumaPart, RgbBytes, LumaBytes, Line;
    PixelRoom(m, y, x, false);
    Times(m.width, y, m.height);
    Times(m.width, y + 1, m.height);
  }

  lemma TwoPixelsAdded(m: Bayer, y: nat, x: nat)
    requires Whole(m) && y + 1 < m.height && x + 2 <= m.width
    ensures var a, b := Line(m, y, false), Line(m, y + 1, false);
      && RgbPart(m, y, x + 2, false) == RgbPart(m, y, x, false) + (Rgb(a[x]) + Rgb(a[x + 1]))
      && LumaPart(m, y, x + 2, false) == LumaPart(m, y, x, false) + [LumaOf(a[x]), LumaOf(a[x + 1])]
      && RgbBytes(b[..x + 2]) == RgbBytes(b[..x]) + (Rgb(b[x]) + Rgb(b[x + 1]))
      && LumaBytes(b[..x + 2]) == LumaBytes(b[..x]) + [LumaOf(b[x]), LumaOf(b[x + 1])]
  {
    hide RgbPart, LumaPart, RgbBytes, LumaBytes, Line, Rgb, LumaOf;
    var a, b := Line(m, y, false), Line(m, y + 1, false);
    PixelAdded(m, y, x, false);
    PixelAdded(m, y, x + 1, false);
    BytesSnoc(b, x);
    BytesSnoc(b, x + 1);
    Regroup(RgbPart(m, y, x, false), Rgb(a[x]), Rgb(a[x + 1]));
    Regroup(LumaPart(m, y, x, false), [LumaOf(a[x])], [LumaOf(a[x + 1])]);
    Regroup(RgbBytes(b[..x]), Rgb(b[x]), Rgb(b[x + 1]));
    Regroup(LumaBytes(b[..x]), [LumaOf(b[x])], [LumaOf(b[x + 1])]);
  }

  predicate BlockAt(m: Bayer, k: nat, z: nat, p: Tri, q: Tri, t: Tri, u: Tri)
    requires Whole(m) && 2 * k + 1 < m.height && 2 * z + 2 <= m.width
  {
    && p == Line(m, 2 * k, false)[2 * z] && q == Line(m, 2 * k, false)[2 * z + 1]
    && t == Line(m, 2 * k + 1, false)[2 * z] && u == Line(m, 2 * k + 1, false)[2 * z + 1]
  }

  /** A block's bytes go to the buffers there are. */
  method PutBlock(m: Bayer, k: nat, z: nat, p: Tri, q: Tri, t: Tri, u: Tri, out: Out, withRgb: bool, withYuv: bool,
      ghost s: Planes)
    requires Whole(m) && 2 * k + 1 < m.height && 2 * z + 2 <= m.width && BlockAt(m, k, z, p, q, t, u)
    requires out.Apart() && Sized(s, m, withRgb, withYuv) && InPair(out.Snap(), s, m, k, z, withRgb, withYuv)
    modifies out.rgb, out.luma, out.u, out.v
    ensures InPair(out.Snap(), s, m, k, z + 1, withRgb, withYuv)
  {
    hide RowAt, InTwoRows, Filled, RgbPart, LumaPart, ChromaPart, RgbBytes, LumaBytes, Line, Rgb, LumaOf, ChromaOf,
        Average;
    var w, x, y := m.width, 2 * z, 2 * k;
    PairRoom(m, y, x);
    TwoPixelsAdded(m, y, x);
    ghost var below := Line(m, y + 1, false)[..x];
    if withRgb {
      AppendTwo(out.rgb, (y * w + x) * 3, Rgb(p) + Rgb(q), (y * w + w + x) * 3, Rgb(t) + Rgb(u),
                s.rgb, RgbPart(m, y, x, false), 3 * RowAt(m, y + 1), RgbBytes(below));
    }
    if withYuv {
      AppendTwo(out.luma, y * w + x, [LumaOf(p), LumaOf(q)], y * w + w + x, [LumaOf(t), LumaOf(u)],
                s.luma, LumaPart(m, y, x, false), RowAt(m, y + 1), LumaBytes(below));
      ChromaRoom(U, m, k, z, false);
      ChromaRoom(V, m, k, z, false);
      ChromaAdded(U, m, k, z, false);
      ChromaAdded(V, m, k, z, false);
      var mean := Average(p, q, t, u);
      Append(out.u, k * (w / 2) + z, [ChromaOf(U, mean)], s.u, ChromaPart(U, m, k, z, false));
      Append(out.v, k * (w / 2) + z, [ChromaOf(V, mean)], s.v, ChromaPart(V, m, k, z, false));
    }
  }

  lemma PairStart(s: Planes, m: Bayer, k: nat, withRgb: bool, withYuv: bool)
    requires Whole(m) && 2 * k + 1 < m.height && Sized(s, m, withRgb, withYuv)
    ensures InPair(Fill(s, Part(m, 2 * k, 0, k, 0, false), withRgb, withYuv), s, m, k, 0, withRgb, withYuv)
  {
    hide RowAt, InTwoRows, Filled, RgbPart, LumaPart, ChromaPart, RgbBytes, LumaBytes, Line;
    var y := 2 * k;
    PairRoom(m, y, 0);
    TakeAll(Line(m, y + 1, false));
    NoBytes();
    if withRgb { TwoRowsStart(s.rgb, RgbPart(m, y, 0, false), 3 * RowAt(m, y + 1)); }
    if withYuv { TwoRowsStart(s.luma, LumaPart(m, y, 0, false), RowAt(m, y + 1)); }
  }

  lemma RowsJoin(m: Bayer, y: nat)
    requires Whole(m) && y + 1 < m.height
    ensures RgbPart(m, y, m.width, false) + RgbBytes(Line(m, y + 1, false)) == RgbPart(m, y + 2, 0, false)
    ensures LumaPart(m, y, m.width, false) + LumaBytes(Line(m, y + 1, false)) == LumaPart(m, y + 2, 0, false)
  {
    hide RgbPart, LumaPart, RgbBytes, LumaBytes, Line;
    RgbEnd(m, y, false);
    RgbStart(m, y + 2, false);
  }

  lemma PairEnd(p: Planes, s: Planes, m: Bayer, k: nat, withRgb: bool, withYuv: bool)
    requires Whole(m) && 2 * k + 1 < m.height && InPair(p, s, m, k, m.width / 2, withRgb, withYuv)
    ensures p == Fill(s, Part(m, 2 * k + 2, 0, k + 1, 0, false), withRgb, withYuv)
  {
    hide RowAt, InTwoRows, Filled, RgbPart, LumaPart, ChromaPart, RgbBytes, LumaBytes, Line, ChromaPlane;
    var y := 2 * k;
    assert 2 * (m.width / 2) == m.width;
    PairRoom(m, y, m.width);
    TakeAll(Line(m, y + 1, false));
    RowsJoin(m, y);
    if withRgb { TwoRowsEnd(p.rgb, s.rgb, RgbPart(m, y, m.width, false), RgbBytes(Line(m, y + 1, false))); }
    if withYuv {
      TwoRowsEnd(p.luma, s.luma, LumaPart(m, y, m.width, false), LumaBytes(Line(m, y + 1, false)));
      ChromaEnd(U, m, k, false);
      ChromaEnd(V, m, k, false);
      ChromaStart(U, m, k + 1, false);
      ChromaStart(V, m, k + 1, false);
    }
  }

  /** The loop over the blocks of rows `y` and `y + 1`. */
  method BlockRow(m: Bayer, y: nat, out: Out, withRgb: bool, withYuv: bool, ghost s: Planes)
    requires Whole(m) && y % 2 == 0 && y + 1 < m.height && out.Apart() && Sized(s, m, withRgb, withYuv)
    requires out.Snap() == Fill(s, Part(m, y, 0, y / 2, 0, false), withRgb, withYuv)
    modifies out.rgb, out.luma, out.u, out.v
    ensures out.Snap() == Fill(s, Part(m, y + 2, 0, y / 2 + 1, 0, false), withRgb, withYuv)
  {
    hide InPair, Fill, Part, Line, BlockSites, DemosaicPixel, Scale, Sized;
    PairStart(s, m, y / 2, withRgb, withYuv);
    var x := 0;
    while x < m.width
      invariant x <= m.width && x % 2 == 0 && InPair(out.Snap(), s, m, y / 2, x / 2, withRgb, withYuv)
    {
      BlockIsPixels(m, x, y);
      LineAt(m, x, y, false);
      LineAt(m, x + 1, y, false);
      LineAt(m, x, y + 1, false);
      LineAt(m, x + 1, y + 1, false);
      var sites := BlockSites(m, x, y);
      PutBlock(m, y / 2, x / 2, Scale(sites.0, false), Scale(sites.1, false), Scale(sites.2, false),
          Scale(sites.3, false),
               out, withRgb, withYuv, s);
      x := x + 2;
    }
    PairEnd(out.Snap(), s, m, y / 2, withRgb, withYuv);
  }

  /** aloe_rggb10_to_rgb888_i420_v2: the reference's frame, exactly if there is no I420 part or no sample above 1021. */
  method Fused(rows: Rows, width: int, height: int, out: Out, withRgb: bool, withYuv: bool)
    requires out.Apart()
    requires Accepts(width, height) ==>
               Whole(Bayer(rows, width, height)) && Sized(out.Snap(), Bayer(rows, width, height), withRgb, withYuv)
    modifies out.rgb, out.luma, out.u, out.v
    ensures out.Snap() == Converted(old(out.Snap()), rows, width, height, false, withRgb, withYuv)
    ensures Accepts(width, height) ==>
              (out.Snap() == Converted(old(out.Snap()), rows, width, height, true, withRgb, withYuv) <==>
               !withYuv || AtMost(Bayer(rows, width, height), 1021))
  {
    hide Part, Done, Fill, Sized, Frame, Whole, AtMost;
    if width <= 0 || height <= 0 || width % 2 != 0 || height % 2 != 0 { return; }
    var m := Bayer(rows, width, height);
    ghost var s := out.Snap();
    Started(s, m, false, withRgb, withYuv);
    PartIsDone(m, 0, 0, false);
    var y := 0;
    while y < m.height
      invariant y <= m.height && y % 2 == 0 && out.Snap() == Fill(s, Part(m, y, 0, y / 2, 0, false), withRgb, withYuv)
    {
      BlockRow(m, y, out, withRgb, withYuv, s);
      y := y + 2;
    }
    PartIsDone(m, m.height, m.height / 2, false);
    Finished(s, m, false, withRgb, withYuv);
    FusedAgrees(s, m, withRgb, withYuv);
  }
}
