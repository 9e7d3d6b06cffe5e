/** convert_scalar (package/aloe/simd/rggb10_rgb888_i420_simd_v2.cpp): chroma from two rows of RGB kept in a cache,
    instead of interpolating every pixel a second time. */
module DemosaicCache {
  import opened Buffers
  import opened DemosaicSpec
  import opened Demosaic

  /** demosaic_rggb10: a neighbour outside the frame is the place itself. */
  function DemosaicAt(m: Bayer, x: nat, y: nat): Site
    requires Whole(m) && x < m.width && y < m.height
  {
    var l, r := if x > 0 then x - 1 else x, if x + 1 < m.width then x + 1 else x;
    var u, d := if y > 0 then y - 1 else y, if y + 1 < m.height then y + 1 else y;
    Interpolated(m.rows[u], m.rows[y], m.rows[d], y % 2 == 0, l, x, r)
  }

  lemma SameSite(m: Bayer, x: nat, y: nat)
    requires Whole(m) && x < m.width && y < m.height
    ensures DemosaicAt(m, x, y) == DemosaicPixel(m, x, y)
  {
    hide Interpolated;
  }

  /** What the cache has got: row `y` if the second row is being added, and `x` pixels of the row at hand. */
  function CachePart(m: Bayer, y: nat, dy: nat, x: nat): seq<U8>
    requires Whole(m) && y + dy < m.height && dy < 2 && x <= m.width
  {
    (if dy == 1 then RgbBytes(Line(m, y, true)) else []) + RgbBytes(Line(m, y + dy, true)[..x])
  }

  lemma CacheRoom(m: Bayer, y: nat, dy: nat, x: nat)
    requires Whole(m) && y + dy < m.height && dy < 2 && x <= m.width
    ensures |CachePart(m, y, dy, x)| == (dy * m.width + x) * 3
  {
    hide RgbBytes, Line;
    assert dy == 0 || dy == 1;
  }

  lemma CacheAdded(m: Bayer, y: nat, dy: nat, x: nat)
    requires Whole(m) && y + dy < m.height && dy < 2 && x < m.width
    ensures CachePart(m, y, dy, x + 1) == CachePart(m, y, dy, x) + Rgb(Line(m, y + dy, true)[x])
  {
    hide RgbBytes, Line, Rgb;
    BytesSnoc(Line(m, y + dy, true), x);
    Regroup(if dy == 1 then RgbBytes(Line(m, y, true))
        else [], RgbBytes(Line(m, y + dy, true)[..x]), Rgb(Line(m, y + dy, true)[x]));
  }

  lemma CacheStart(m: Bayer, y: nat, c: seq<U8>)
    requires Whole(m) && y < m.height
    ensures Filled(c, CachePart(m, y, 0, 0)) == c
  {
    hide Line, Filled;
    NothingFilled(c);
    TakeAll(Line(m, y, true));
  }

  lemma CacheNext(m: Bayer, y: nat)
    requires Whole(m) && y + 1 < m.height
    ensures CachePart(m, y, 0, m.width) == CachePart(m, y, 1, 0)
  {
    hide Line;
    TakeAll(Line(m, y, true));
    TakeAll(Line(m, y + 1, true));
    NothingAdded(RgbBytes(Line(m, y, true)));
    NothingBefore(RgbBytes(Line(m, y, true)));
  }

  lemma NothingBefore(b: seq<U8>)
    ensures [] + b == b
  {}

  lemma CacheEnd(m: Bayer, y: nat, c: seq<U8>)
    requires Whole(m) && y + 1 < m.height && |c| == m.width * 2 * 3
    ensures Filled(c, CachePart(m, y, 1, m.width)) == RgbBytes(Line(m, y, true)) + RgbBytes(Line(m, y + 1, true))
  {
    hide Line, Filled, RgbBytes;
    CacheRoom(m, y, 1, m.width);
    FullBuffer(c, CachePart(m, y, 1, m.width));
    TakeAll(Line(m, y + 1, true));
  }

  /** One row is interpolated; it goes to the cache and to the buffers there are. */
  method CacheRow(m: Bayer, y: nat, dy: nat, cache: array<U8>, out: Out, withRgb: bool, withYuv: bool,
                  ghost s: Planes, ghost c: seq<U8>, ghost k: nat)
    requires Whole(m) && y + dy < m.height && dy < 2 && k <= m.height / 2
    requires out.Apart() && Sized(s, m, withRgb, withYuv)
    requires cache != out.rgb && cache != out.luma && cache != out.u && cache != out.v
    requires cache.Length == |c| == m.width * 2 * 3 && cache[..] == Filled(c, CachePart(m, y, dy, 0))
    requires out.Snap() == Fill(s, Part(m, y + dy, 0, k, 0, true), withRgb, withYuv)
    modifies cache, out.rgb, out.luma
    ensures cache[..] == Filled(c, CachePart(m, y, dy, m.width))
    ensures out.Snap() == Fill(s, Part(m, y + dy + 1, 0, k, 0, true), withRgb, withYuv)
  {
    hide Filled, Fill, Part, CachePart, Line, Scale, DemosaicAt, DemosaicPixel, Sized;
    var x := 0;
    while x < m.width
      invariant x <= m.width && cache[..] == Filled(c, CachePart(m, y, dy, x))
      invariant out.Snap() == Fill(s, Part(m, y + dy, x, k, 0, true), withRgb, withYuv)
    {
      SameSite(m, x, y + dy);
      LineAt(m, x, y + dy, true);
      CacheRoom(m, y, dy, x);
      CacheAdded(m, y, dy, x);
      var p := Scale(DemosaicAt(m, x, y + dy), true);
      Append(cache, (dy * m.width + x) * 3, Rgb(p), c, CachePart(m, y, dy, x));
      PutPixel(m, x, y + dy, p, out, withRgb, withYuv, s, k);
      x := x + 1;
    }
    RowIsDone(m, y + dy, k, true);
  }

  predicate Byte(p: Tri) {
    p.r < 256 && p.g < 256 && p.b < 256
  }

  lemma LineIsBytes(m: Bayer, x: nat, y: nat)
    requires Whole(m) && y < m.height && x < m.width
    ensures Byte(Line(m, y, true)[x])
  {
    hide DemosaicPixel;
  }

  /** A pixel's channels, read from the cache. */
  lemma Cached(a: seq<Tri>, b: seq<Tri>, x: nat, row: nat)
    requires |a| == |b| && x < |a| && row < 2 && Byte(a[x]) && Byte(b[x])
    ensures var c, i := RgbBytes(a) + RgbBytes(b), row * (|a| * 3) + 3 * x; var p := if row == 0 then a[x] else b[x];
      i + 2 < |c| && c[i] == p.r && c[i + 1] == p.g && c[i + 2] == p.b
  {
    hide RgbBytes;
    RgbAt(a, x);
    RgbAt(b, x);
    assert row == 0 || row == 1;
  }

  function Sum4(a: U8, b: U8, c: U8, d: U8): nat {
    a as int + b + c + d
  }

  /** The mean colour of a block, read from the cache. */
  function CachedAverage(c: seq<U8>, w: nat, x: nat): Tri
    requires |c| == w * 2 * 3 && x + 1 < w
  {
    var row1 := w * 3;
    Tri(Sum4(c[x * 3], c[x * 3 + 3], c[row1 + x * 3], c[row1 + x * 3 + 3]) / 4,
        Sum4(c[x * 3 + 1], c[x * 3 + 4], c[row1 + x * 3 + 1], c[row1 + x * 3 + 4]) / 4,
        Sum4(c[x * 3 + 2], c[x * 3 + 5], c[row1 + x * 3 + 2], c[row1 + x * 3 + 5]) / 4)
  }

  lemma CachedIsBlock(m: Bayer, k: nat, z: nat, c: seq<U8>)
    requires Whole(m) && 2 * k + 1 < m.height && 2 * z + 1 < m.width && |c| == m.width * 2 * 3
    requires c == RgbBytes(Line(m, 2 * k, true)) + RgbBytes(Line(m, 2 * k + 1, true))
    ensures CachedAverage(c, m.width, 2 * z) == Block(m, k, z, true)
  {
    hide RgbBytes, Line, Byte;
    var x, y := 2 * z, 2 * k;
    LineIsBytes(m, x, y);
    LineIsBytes(m, x + 1, y);
    LineIsBytes(m, x, y + 1);
    LineIsBytes(m, x + 1, y + 1);
    var a, b := Line(m, y, true), Line(m, y + 1, true);
    Cached(a, b, x, 0);
    Cached(a, b, x + 1, 0);
    Cached(a, b, x, 1);
    Cached(a, b, x + 1, 1);
  }

  /** Chroma of a pair of rows. */
  method ChromaFromCache(m: Bayer, y: nat, cache: array<U8>, out: Out, withRgb: bool, ghost s: Planes)
    requires Whole(m) && y % 2 == 0 && y + 1 < m.height && out.Apart() && Sized(s, m, withRgb, true)
    requires cache != out.u && cache != out.v && cache.Length == m.width * 2 * 3
    requires cache[..] == RgbBytes(Line(m, y, true)) + RgbBytes(Line(m, y + 1, true))
    requires out.Snap() == Fill(s, Part(m, y + 2, 0, y / 2, 0, true), withRgb, true)
    modifies out.u, out.v
    ensures out.Snap() == Fill(s, Part(m, y + 2, 0, y / 2 + 1, 0, true), withRgb, true)
  {
    hide Fill, Part, Line, RgbBytes, Block, Sized, Sum4;
    var x := 0;
    while x < m.width
      invariant x <= m.width && x % 2 == 0
      invariant out.Snap() == Fill(s, Part(m, y + 2, 0, y / 2, x / 2, true), withRgb, true)
    {
      CachedIsBlock(m, y / 2, x / 2, cache[..]);
      var row1 := m.width * 3;
      var rSum := Sum4(cache[x * 3], cache[x * 3 + 3], cache[row1 + x * 3], cache[row1 + x * 3 + 3]);
      var gSum := Sum4(cache[x * 3 + 1], cache[x * 3 + 4], cache[row1 + x * 3 + 1], cache[row1 + x * 3 + 4]);
      var bSum := Sum4(cache[x * 3 + 2], cache[x * 3 + 5], cache[row1 + x * 3 + 2], cache[row1 + x * 3 + 5]);
      PutChroma(m, y / 2, x / 2, Tri(rSum / 4, gSum / 4, bSum / 4), out, withRgb, s, y + 2);
      x := x + 2;
    }
    PairIsDone(m, y + 2, y / 2, true);
  }

  lemma NoChromaPlanes(s: Planes, m: Bayer, n: nat, k: nat, withRgb: bool)
    requires Whole(m) && n <= m.height && k < m.height / 2
    ensures Fill(s, Part(m, n, 0, k, 0, true), withRgb, false) == Fill(s, Part(m, n, 0, k + 1, 0, true), withRgb, false)
  {
    hide RgbPart, LumaPart, ChromaPart, Filled;
  }

  /** Two rows, and their chroma if it is wanted. */
  method RowPair(m: Bayer, y: nat, cache: array<U8>, out: Out, withRgb: bool, withYuv: bool, ghost s: Planes)
    requires Whole(m) && y % 2 == 0 && y + 1 < m.height && out.Apart() && Sized(s, m, withRgb, withYuv)
    requires cache != out.rgb && cache != out.luma && cache != out.u && cache != out.v
        && cache.Length == m.width * 2 * 3
    requires out.Snap() == Fill(s, Part(m, y, 0, y / 2, 0, true), withRgb, withYuv)
    modifies cache, out.rgb, out.luma, out.u, out.v
    ensures out.Snap() == Fill(s, Part(m, y + 2, 0, y / 2 + 1, 0, true), withRgb, withYuv)
  {
    hide Filled, Fill, Part, CachePart, Line, RgbBytes, Sized;
    ghost var c := cache[..];
    CacheStart(m, y, c);
    CacheRow(m, y, 0, cache, out, withRgb, withYuv, s, c, y / 2);
    CacheNext(m, y);
    CacheRow(m, y, 1, cache, out, withRgb, withYuv, s, c, y / 2);
    CacheEnd(m, y, c);
    if withYuv { ChromaFromCache(m, y, cache, out, withRgb, s); } else { NoChromaPlanes(s, m, y + 2, y / 2, withRgb); }
  }

  /** aloe_rggb10_to_rgb888_i420_simd_v2 in its plain build: the same as the reference, for every size and every
      sample. */
  method ConvertScalar(rows: Rows, width: int, height: int, out: Out, withRgb: bool, withYuv: bool)
    requires out.Apart()
    requires Accepts(width, height) ==>
               Whole(Bayer(rows, width, height)) && Sized(out.Snap(), Bayer(rows, width, height), withRgb, withYuv)
    modifies out.rgb, out.luma, out.u, out.v
    ensures out.Snap() == Converted(old(out.Snap()), rows, width, height, true, withRgb, withYuv)
  {
    hide Part, Done, Fill, Sized, Frame, Whole;
    if width <= 0 || height <= 0 || width % 2 != 0 || height % 2 != 0 { return; }
    var m := Bayer(rows, width, height);
    ghost var s := out.Snap();
    var cache := new U8[m.width * 2 * 3];
    Started(s, m, true, withRgb, withYuv);
    PartIsDone(m, 0, 0, true);
    var y := 0;
    while y < m.height
      invariant y <= m.height && y % 2 == 0 && out.Snap() == Fill(s, Part(m, y, 0, y / 2, 0, true), withRgb, withYuv)
    {
      RowPair(m, y, cache, out, withRgb, withYuv, s);
      y := y + 2;
    }
    PartIsDone(m, m.height, m.height / 2, true);
    Finished(s, m, true, withRgb, withYuv);
  }
}
