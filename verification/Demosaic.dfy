/** The demosaicing converters over output buffers written in place: the two-pass reference
    (package/aloe/simd/rggb10_rgb888_i420_simd.cpp), the one that keeps two rows of RGB
    (package/aloe/simd/rggb10_rgb888_i420_simd_v2.cpp) and the fused loop over 2 x 2 blocks
    (package/aloe/rggb10_rgb888_i420.cpp).  The I420 planes are separate arrays here. */
module Demosaic {
  import opened Buffers
  import opened DemosaicSpec

  // ---------------------------------------------------------------- filling a buffer from the front

  lemma FilledMore(s: seq<U8>, d: seq<U8>, b: seq<U8>)
    requires |d| + |b| <= |s|
    ensures Splice(Filled(s, d), |d|, b) == Filled(s, d + b)
  {
    Rebuild(s, d, b);
  }

  method Append(buf: array<U8>, at: nat, b: seq<U8>, ghost s: seq<U8>, ghost d: seq<U8>)
    requires buf[..] == Filled(s, d) && at == |d| && |d| + |b| <= |s|
    modifies buf
    ensures buf[..] == Filled(s, d + b)
  {
    FilledMore(s, d, b);
    Store(buf, at, b);
  }

  /** The planes when `x` pixels of row `n` and `z` chroma bytes of row pair `k` have been added to the full ones. */
  function RgbPart(m: Bayer, n: nat, x: nat, cut: bool): seq<U8>
    requires Whole(m) && n <= m.height && x <= m.width
  {
    RgbPlane(m, n, cut) + if n < m.height then RgbBytes(Line(m, n, cut)[..x]) else []
  }

  function LumaPart(m: Bayer, n: nat, x: nat, cut: bool): seq<U8>
    requires Whole(m) && n <= m.height && x <= m.width
  {
    LumaPlane(m, n, cut) + if n < m.height then LumaBytes(Line(m, n, cut)[..x]) else []
  }

  function ChromaPart(c: Plane, m: Bayer, k: nat, z: nat, cut: bool): seq<U8>
    requires Whole(m) && k <= m.height / 2 && 2 * z <= m.width
  {
    ChromaPlane(c, m, k, cut) +
    if k < m.height / 2 then ChromaBytes(c, Line(m, 2 * k, cut)[..2 * z], Line(m, 2 * k + 1, cut)[..2 * z]) else []
  }

  function Part(m: Bayer, n: nat, x: nat, k: nat, z: nat, cut: bool): Planes
    requires Whole(m) && n <= m.height && x <= m.width && k <= m.height / 2 && 2 * z <= m.width
  {
    Planes(RgbPart(m, n, x, cut), LumaPart(m, n, x, cut), ChromaPart(U, m, k, z, cut), ChromaPart(V, m, k, z, cut))
  }

  lemma TakeAll(ps: seq<Tri>)
    ensures ps[..0] == [] && ps[..|ps|] == ps
  {}

  lemma NothingAdded(b: seq<U8>)
    ensures b + [] == b
  {}

  lemma NoBytes()
    ensures RgbBytes([]) == [] && LumaBytes([]) == []
  {}

  lemma NoChroma(c: Plane, a: seq<Tri>, b: seq<Tri>)
    requires |a| == |b| == 0
    ensures ChromaBytes(c, a, b) == []
  {}

  lemma Regroup(a: seq<U8>, b: seq<U8>, c: seq<U8>)
    ensures (a + b) + c == a + (b + c)
  {}

  lemma RgbStart(m: Bayer, n: nat, cut: bool)
    requires Whole(m) && n <= m.height
    ensures RgbPart(m, n, 0, cut) == RgbPlane(m, n, cut) && LumaPart(m, n, 0, cut) == LumaPlane(m, n, cut)
  {
    hide RgbPlane, LumaPlane, RgbBytes, LumaBytes, Line;
    NoBytes();
    NothingAdded(RgbPlane(m, n, cut));
    NothingAdded(LumaPlane(m, n, cut));
    if n < m.height { TakeAll(Line(m, n, cut)); }
  }

  lemma RgbEnd(m: Bayer, n: nat, cut: bool)
    requires Whole(m) && n < m.height
    ensures RgbPart(m, n, m.width, cut) == RgbPlane(m, n + 1, cut)
        && LumaPart(m, n, m.width, cut) == LumaPlane(m, n + 1, cut)
  {
    hide RgbBytes, LumaBytes, Line;
    TakeAll(Line(m, n, cut));
  }

  lemma BytesSnoc(ps: seq<Tri>, x: nat)
    requires x < |ps|
    ensures RgbBytes(ps[..x + 1]) == RgbBytes(ps[..x]) + Rgb(ps[x])
        && LumaBytes(ps[..x + 1]) == LumaBytes(ps[..x]) + [LumaOf(ps[x])]
  {
    hide Rgb, LumaOf;
    assert ps[..x + 1][..x] == ps[..x];
  }

  lemma PixelAdded(m: Bayer, n: nat, x: nat, cut: bool)
    requires Whole(m) && n < m.height && x < m.width
    ensures RgbPart(m, n, x + 1, cut) == RgbPart(m, n, x, cut) + Rgb(Line(m, n, cut)[x])
    ensures LumaPart(m, n, x + 1, cut) == LumaPart(m, n, x, cut) + [LumaOf(Line(m, n, cut)[x])]
  {
    hide RgbPlane, LumaPlane, RgbBytes, LumaBytes, Line, Rgb, LumaOf;
    var line := Line(m, n, cut);
    BytesSnoc(line, x);
    Regroup(RgbPlane(m, n, cut), RgbBytes(line[..x]), Rgb(line[x]));
    Regroup(LumaPlane(m, n, cut), LumaBytes(line[..x]), [LumaOf(line[x])]);
  }

  /** Where the next pixel goes, and that there is room for it. */
  lemma PixelRoom(m: Bayer, n: nat, x: nat, cut: bool)
    requires Whole(m) && n < m.height && x <= m.width
    ensures |RgbPart(m, n, x, cut)| == (n * m.width + x) * 3 && |LumaPart(m, n, x, cut)| == n * m.width + x
    ensures n * m.width + m.width <= m.width * m.height
  {
    hide RgbPlane, LumaPlane, RgbBytes, LumaBytes, Line;
    Times(m.width, n, m.height);
  }

  lemma ChromaStart(c: Plane, m: Bayer, k: nat, cut: bool)
    requires Whole(m) && k <= m.height / 2
    ensures ChromaPart(c, m, k, 0, cut) == ChromaPlane(c, m, k, cut)
  {
    hide ChromaPlane, ChromaBytes, Line;
    NothingAdded(ChromaPlane(c, m, k, cut));
    if k < m.height / 2 { NoChroma(c, Line(m, 2 * k, cut)[..0], Line(m, 2 * k + 1, cut)[..0]); }
  }

  lemma ChromaEnd(c: Plane, m: Bayer, k: nat, cut: bool)
    requires Whole(m) && k < m.height / 2
    ensures ChromaPart(c, m, k, m.width / 2, cut) == ChromaPlane(c, m, k + 1, cut)
  {
    hide ChromaBytes, Line;
    assert 2 * (m.width / 2) == m.width;
    TakeAll(Line(m, 2 * k, cut));
    TakeAll(Line(m, 2 * k + 1, cut));
  }

  lemma ChromaSnoc(c: Plane, a: seq<Tri>, b: seq<Tri>, z: nat)
    requires |a| == |b| && 2 * z + 2 <= |a|
    ensures ChromaBytes(c, a[..2 * z + 2], b[..2 * z + 2]) ==
              ChromaBytes(c, a[..2 * z], b[..2 * z])
                  + [ChromaOf(c, Average(a[2 * z], a[2 * z + 1], b[2 * z], b[2 * z + 1]))]
  {
    hide ChromaOf, Average;
    assert a[..2 * z + 2][..2 * z] == a[..2 * z] && b[..2 * z + 2][..2 * z] == b[..2 * z];
  }

  /** The mean colour of a block, from its four pixels. */
  function Block(m: Bayer, k: nat, z: nat, cut: bool): Tri
    requires Whole(m) && k < m.height / 2 && 2 * z + 2 <= m.width
  {
    var a, b := Line(m, 2 * k, cut), Line(m, 2 * k + 1, cut);
    Average(a[2 * z], a[2 * z + 1], b[2 * z], b[2 * z + 1])
  }

  lemma ChromaAdded(c: Plane, m: Bayer, k: nat, z: nat, cut: bool)
    requires Whole(m) && k < m.height / 2 && 2 * z + 2 <= m.width
    ensures ChromaPart(c, m, k, z + 1, cut) == ChromaPart(c, m, k, z, cut) + [ChromaOf(c, Block(m, k, z, cut))]
  {
    hide ChromaPlane, ChromaBytes, ChromaOf, Line, Average;
    var a, b := Line(m, 2 * k, cut), Line(m, 2 * k + 1, cut);
    ChromaSnoc(c, a, b, z);
    Regroup(ChromaPlane(c, m, k, cut), ChromaBytes(c, a[..2 * z], b[..2 * z]), [ChromaOf(c, Block(m, k, z, cut))]);
  }

  lemma ChromaRoom(c: Plane, m: Bayer, k: nat, z: nat, cut: bool)
    requires Whole(m) && k < m.height / 2 && 2 * z <= m.width
    ensures |ChromaPart(c, m, k, z, cut)| == k * (m.width / 2) + z
    ensures k * (m.width / 2) + m.width / 2 <= m.width / 2 * (m.height / 2)
  {
    hide ChromaPlane, ChromaBytes, Line;
    Times(m.width / 2, k, m.height / 2);
  }

  // ---------------------------------------------------------------- one pixel, one chroma block

  /** A pixel's RGB and luma go to the buffers there are. */
  method PutPixel(m: Bayer, x: nat, y: nat, p: Tri, out: Out, withRgb: bool, withYuv: bool, ghost s: Planes,
      ghost k: nat)
    requires Whole(m) && y < m.height && x < m.width && k <= m.height / 2 && p == Line(m, y, true)[x]
    requires out.Apart() && Sized(s, m, withRgb, withYuv)
    requires out.Snap() == Fill(s, Part(m, y, x, k, 0, true), withRgb, withYuv)
    modifies out.rgb, out.luma
    ensures out.Snap() == Fill(s, Part(m, y, x + 1, k, 0, true), withRgb, withYuv)
  {
    hide Filled, RgbPart, LumaPart, ChromaPart, Line, LumaOf, Rgb;
    PixelRoom(m, y, x, true);
    PixelAdded(m, y, x, true);
    if withRgb { Append(out.rgb, (y * m.width + x) * 3, Rgb(p), s.rgb, RgbPart(m, y, x, true)); }
    if withYuv { Append(out.luma, y * m.width + x, [LumaOf(p)], s.luma, LumaPart(m, y, x, true)); }
  }

  /** A block's mean colour goes to the chroma planes. */
  method PutChroma(m: Bayer, k: nat, z: nat, p: Tri, out: Out, withRgb: bool, ghost s: Planes, ghost n: nat)
    requires Whole(m) && k < m.height / 2 && 2 * z + 2 <= m.width && n <= m.height && p == Block(m, k, z, true)
    requires out.Apart() && Sized(s, m, withRgb, true)
    requires out.Snap() == Fill(s, Part(m, n, 0, k, z, true), withRgb, true)
    modifies out.u, out.v
    ensures out.Snap() == Fill(s, Part(m, n, 0, k, z + 1, true), withRgb, true)
  {
    hide Filled, RgbPart, LumaPart, ChromaPart, Block, ChromaOf;
    ChromaRoom(U, m, k, z, true);
    ChromaRoom(V, m, k, z, true);
    ChromaAdded(U, m, k, z, true);
    ChromaAdded(V, m, k, z, true);
    Append(out.u, k * (m.width / 2) + z, [ChromaOf(U, p)], s.u, ChromaPart(U, m, k, z, true));
    Append(out.v, k * (m.width / 2) + z, [ChromaOf(V, p)], s.v, ChromaPart(V, m, k, z, true));
  }

  lemma PartIsDone(m: Bayer, n: nat, k: nat, cut: bool)
    requires Whole(m) && n <= m.height && k <= m.height / 2
    ensures Part(m, n, 0, k, 0, cut) == Done(m, n, k, cut)
  {
    hide RgbPart, LumaPart, ChromaPart, RgbPlane, LumaPlane, ChromaPlane;
    RgbStart(m, n, cut);
    ChromaStart(U, m, k, cut);
    ChromaStart(V, m, k, cut);
  }

  lemma RowIsDone(m: Bayer, n: nat, k: nat, cut: bool)
    requires Whole(m) && n < m.height && k <= m.height / 2
    ensures Part(m, n, m.width, k, 0, cut) == Part(m, n + 1, 0, k, 0, cut)
  {
    hide RgbPart, LumaPart, ChromaPart, RgbPlane, LumaPlane;
    RgbEnd(m, n, cut);
    RgbStart(m, n + 1, cut);
  }

  lemma PairIsDone(m: Bayer, n: nat, k: nat, cut: bool)
    requires Whole(m) && n <= m.height && k < m.height / 2
    ensures Part(m, n, 0, k, m.width / 2, cut) == Part(m, n, 0, k + 1, 0, cut)
  {
    hide RgbPart, LumaPart, ChromaPart, ChromaPlane;
    ChromaEnd(U, m, k, cut);
    ChromaEnd(V, m, k, cut);
    ChromaStart(U, m, k + 1, cut);
    ChromaStart(V, m, k + 1, cut);
  }

  // ---------------------------------------------------------------- the two-pass reference

  function Plus(p: Tri, q: Tri): Tri {
    Tri(p.r + q.r, p.g + q.g, p.b + q.b)
  }

  /** The sum of the first `i` pixels of a block, row by row. */
  function BlockSum(m: Bayer, x: nat, y: nat, i: nat): Tri
    requires Whole(m) && x + 1 < m.width && y + 1 < m.height && i <= 4
  {
    if i == 0 then Tri(0, 0, 0)
    else Plus(BlockSum(m, x, y, i - 1), Scale(DemosaicPixel(m, x + (i - 1) % 2, y + (i - 1) / 2), true))
  }

  lemma SumOfFour(m: Bayer, x: nat, y: nat)
    requires Whole(m) && x + 1 < m.width && y + 1 < m.height
    ensures BlockSum(m, x, y, 4) ==
              Plus(Plus(Plus(Plus(Tri(0, 0, 0), Scale(DemosaicPixel(m, x, y), true)),
                  Scale(DemosaicPixel(m, x + 1, y), true)),
                        Scale(DemosaicPixel(m, x, y + 1), true)), Scale(DemosaicPixel(m, x + 1, y + 1), true))
  {
    hide Scale, DemosaicPixel, Plus;
    assert BlockSum(m, x, y, 1) == Plus(Tri(0, 0, 0), Scale(DemosaicPixel(m, x, y), true));
    assert BlockSum(m, x, y, 2) == Plus(BlockSum(m, x, y, 1), Scale(DemosaicPixel(m, x + 1, y), true));
    assert BlockSum(m, x, y, 3) == Plus(BlockSum(m, x, y, 2), Scale(DemosaicPixel(m, x, y + 1), true));
  }

  lemma SumIsBlock(m: Bayer, k: nat, z: nat)
    requires Whole(m) && k < m.height / 2 && 2 * z + 2 <= m.width
    ensures var t := BlockSum(m, 2 * z, 2 * k, 4); Block(m, k, z, true) == Tri(t.r / 4, t.g / 4, t.b / 4)
  {
    hide Scale, DemosaicPixel, BlockSum;
    SumOfFour(m, 2 * z, 2 * k);
  }

  /** The mean colour of a block, each of its pixels interpolated anew. */
  method AverageBlock(m: Bayer, x: nat, y: nat) returns (p: Tri)
    requires Whole(m) && x % 2 == 0 && y % 2 == 0 && x < m.width && y < m.height
    ensures p == Block(m, y / 2, x / 2, true)
  {
    hide Block, Scale, DemosaicPixel;
    var sum, dy := Tri(0, 0, 0), 0;
    while dy < 2
      invariant dy <= 2 && sum == BlockSum(m, x, y, 2 * dy)
    {
      var dx := 0;
      while dx < 2
        invariant dx <= 2 && sum == BlockSum(m, x, y, 2 * dy + dx)
      {
        sum := Plus(sum, Scale(DemosaicPixel(m, x + dx, y + dy), true));
        dx := dx + 1;
      }
      dy := dy + 1;
    }
    SumIsBlock(m, y / 2, x / 2);
    p := Tri(sum.r / 4, sum.g / 4, sum.b / 4);
  }

  lemma LineAt(m: Bayer, x: nat, y: nat, cut: bool)
    requires Whole(m) && y < m.height && x < m.width
    ensures Line(m, y, cut)[x] == Scale(DemosaicPixel(m, x, y), cut)
  {}

  /** The first pass: RGB and luma of every pixel. */
  method EveryPixel(m: Bayer, out: Out, withRgb: bool, withYuv: bool, ghost s: Planes)
    requires Whole(m) && out.Apart() && Sized(s, m, withRgb, withYuv) && out.Snap() == s
    modifies out.rgb, out.luma
    ensures out.Snap() == Fill(s, Part(m, m.height, 0, 0, 0, true), withRgb, withYuv)
  {
    hide Part, Done, Fill, Line, Scale, DemosaicPixel, Sized;
    Started(s, m, true, withRgb, withYuv);
    PartIsDone(m, 0, 0, true);
    var y := 0;
    while y < m.height
      invariant y <= m.height && out.Snap() == Fill(s, Part(m, y, 0, 0, 0, true), withRgb, withYuv)
    {
      var x := 0;
      while x < m.width
        invariant x <= m.width && out.Snap() == Fill(s, Part(m, y, x, 0, 0, true), withRgb, withYuv)
      {
        LineAt(m, x, y, true);
        var p := Scale(DemosaicPixel(m, x, y), true);
        PutPixel(m, x, y, p, out, withRgb, withYuv, s, 0);
        x := x + 1;
      }
      RowIsDone(m, y, 0, true);
      y := y + 1;
    }
  }

  /** The second pass: chroma of every block. */
  method EveryBlock(m: Bayer, out: Out, withRgb: bool, ghost s: Planes)
    requires Whole(m) && out.Apart() && Sized(s, m, withRgb, true)
    requires out.Snap() == Fill(s, Part(m, m.height, 0, 0, 0, true), withRgb, true)
    modifies out.u, out.v
    ensures out.Snap() == Fill(s, Part(m, m.height, 0, m.height / 2, 0, true), withRgb, true)
  {
    hide Part, Fill, Block, Sized;
    var y := 0;
    while y < m.height
      invariant y <= m.height && y % 2 == 0
          && out.Snap() == Fill(s, Part(m, m.height, 0, y / 2, 0, true), withRgb, true)
    {
      var x := 0;
      while x < m.width
        invariant x <= m.width && x % 2 == 0
            && out.Snap() == Fill(s, Part(m, m.height, 0, y / 2, x / 2, true), withRgb, true)
      {
        var p := AverageBlock(m, x, y);
        PutChroma(m, y / 2, x / 2, p, out, withRgb, s, m.height);
        x := x + 2;
      }
      PairIsDone(m, m.height, y / 2, true);
      y := y + 2;
    }
  }

  /** What the converters do; a size they refuse leaves the buffers alone. */
  function Converted(s: Planes, rows: Rows, width: int, height: int, cut: bool, withRgb: bool, withYuv: bool): Planes
    requires Accepts(width, height) ==> Whole(Bayer(rows, width, height))
  {
    if Accepts(width, height) then Frame(s, Bayer(rows, width, height), cut, withRgb, withYuv) else s
  }

  predicate Accepts(width: int, height: int) {
    width > 0 && height > 0 && width % 2 == 0 && height % 2 == 0
  }

  lemma NoChromaWanted(s: Planes, m: Bayer, withRgb: bool)
    requires Whole(m)
    ensures Fill(s, Part(m, m.height, 0, 0, 0, true), withRgb, false) ==
              Fill(s, Part(m, m.height, 0, m.height / 2, 0, true), withRgb, false)
  {
    hide RgbPart, LumaPart, ChromaPart, Filled;
  }

  /** aloe_rggb10_to_rgb888_i420_simd in its plain build. */
  method Reference(rows: Rows, width: int, height: int, out: Out, withRgb: bool, withYuv: bool)
    requires out.Apart()
    requires Accepts(width, height) ==>
               Whole(Bayer(rows, width, height)) && Sized(out.Snap(), Bayer(rows, width, height), withRgb, withYuv)
    modifies out.rgb, out.luma, out.u, out.v
    ensures out.Snap() == Converted(old(out.Snap()), rows, width, height, true, withRgb, withYuv)
  {
    hide Part, Done, Fill, Sized, Frame, Whole;
    if width <= 0 || height <= 0 || width % 2 != 0 || height % 2 != 0 { return; }
    var m := Bayer(rows, width, height);
    ghost var s := out.Snap();
    EveryPixel(m, out, withRgb, withYuv, s);
    if withYuv { EveryBlock(m, out, withRgb, s); } else { NoChromaWanted(s, m, withRgb); }
    PartIsDone(m, m.height, m.height / 2, true);
    Finished(s, m, true, withRgb, withYuv);
  }
}
