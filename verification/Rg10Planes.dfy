/** What stands where in the frames of Rg10: every byte of the four planes in terms of the samples it is made of. */
module Rg10Planes {
  import opened Buffers
  import opened Rg10Spec
  import opened Rg10
  import opened Bt601

  /** The integer formulas follow BT.601; cutting towards zero costs chroma up to another code. */
  lemma FollowsBt601(p: Px)
    ensures IsLuma(Clamp(LumaOf(p)), p.r, p.g, p.b)
    ensures IsChroma(Clamp(ChromaOf(U, p)), Clamp(ChromaOf(V, p)), p.r, p.g, p.b, 2)
  {
    YuvRange(p);
    hide Clamp;
    InRange(LumaOf(p));
    InRange(UOf(p));
    InRange(VOf(p));
  }

  lemma InRange(v: int)
    requires 0 <= v < 256
    ensures Clamp(v) == v
  {}

  predicate HasPixel(src: Rows, y: nat, x: nat) {
    4 * y + 1 < |src| && 4 * x + 1 < |src[4 * y]| && 4 * x + 1 < |src[4 * y + 1]|
  }

  /** Red, green and blue of the output pixel in column `x` of row `y`. */
  function Colours(src: Rows, t: Gains, y: nat, x: nat): (int, int, int)
    requires Usable(t) && HasPixel(src, y, x)
  {
    var r, g, b := src[4 * y][4 * x] / 4 % 256, src[4 * y][4 * x + 1] / 4 % 256, src[4 * y + 1][4 * x + 1] / 4 % 256;
    if t.Unit? then (r, g, b) else (t.r[r], t.g[g], t.b[b])
  }

  // ---------------------------------------------------------------- rows

  lemma {:induction false} RgbAt(ps: seq<Px>, i: nat)
    requires i < |ps|
    ensures var b := RgbBytes(ps);
      b[3 * i] == ps[i].r && b[3 * i + 1] == ps[i].g && b[3 * i + 2] == ps[i].b
  {
    if i < |ps| - 1 { RgbAt(ps[..|ps| - 1], i); }
  }

  lemma {:induction false} LumaAt(ps: seq<Px>, i: nat)
    requires i < |ps|
    ensures LumaBytes(ps)[i] == Clamp(LumaOf(ps[i]))
  {
    hide LumaOf, Clamp;
    if i < |ps| - 1 { LumaAt(ps[..|ps| - 1], i); }
  }

  lemma PixelShows(src: Rows, y: nat, w: nat, t: Gains, x: nat)
    requires Fits(src, y, w) && Usable(t) && x < w
    ensures HasPixel(src, y, x)
    ensures var p := Line(src, y, w, t)[x]; Colours(src, t, y, x) == (p.r, p.g, p.b)
  {}

  // ---------------------------------------------------------------- planes

  lemma {:induction false} RgbSize(src: Rows, h: nat, w: nat, t: Gains)
    requires FitsAll(src, h, w) && Usable(t)
    ensures |RgbPlane(src, h, w, t)| == 3 * w * h
    decreases h
  {
    hide Line, RgbBytes;
    if h > 0 {
      RgbSize(src, h - 1, w, t);
      Distribute(3 * w, h - 1, 1);
    }
  }

  lemma {:induction false} LumaSize(src: Rows, h: nat, w: nat, t: Gains)
    requires FitsAll(src, h, w) && Usable(t)
    ensures |LumaPlane(src, h, w, t)| == w * h
    decreases h
  {
    hide Line, LumaBytes;
    if h > 0 {
      LumaSize(src, h - 1, w, t);
      Distribute(w, h - 1, 1);
    }
  }

  lemma {:induction false} ChromaSize(c: Plane, src: Rows, h: nat, w: nat, t: Gains)
    requires FitsAll(src, h, w) && Usable(t)
    ensures |ChromaPlane(c, src, h, w, t)| == w / 2 * (h / 2)
    decreases h
  {
    hide Line, ChromaBytes;
    if h > 0 {
      ChromaSize(c, src, h - 1, w, t);
      Halves(h);
      if h % 2 == 0 { Distribute(w / 2, (h - 1) / 2, 1); }
    }
  }

  lemma Halves(h: nat)
    requires h > 0
    ensures h / 2 == (h - 1) / 2 + if h % 2 == 0 then 1 else 0
  {}

  lemma {:induction false} RgbRow(src: Rows, h: nat, w: nat, t: Gains, y: nat, i: nat)
    requires FitsAll(src, h, w) && Usable(t) && y < h && i < 3 * w
    ensures ByteAt(RgbPlane(src, h, w, t), 3 * w * y + i,
        RgbBytes(Line(src, y, w, t))[i])
    decreases h
  {
    hide Line, RgbBytes;
    RgbSize(src, h - 1, w, t);
    if y == h - 1 {
      InLastRow(RgbPlane(src, h - 1, w, t), RgbBytes(Line(src, h - 1, w, t)), 3 * w, y, i);
    } else {
      RgbRow(src, h - 1, w, t, y, i);
      InEarlierRow(RgbPlane(src, h - 1, w, t), RgbBytes(Line(src, h - 1, w, t)), 3 * w * y + i,
        RgbBytes(Line(src, y, w, t))[i]);
    }
  }

  lemma {:induction false} LumaRow(src: Rows, h: nat, w: nat, t: Gains, y: nat, i: nat)
    requires FitsAll(src, h, w) && Usable(t) && y < h && i < w
    ensures ByteAt(LumaPlane(src, h, w, t), w * y + i,
        LumaBytes(Line(src, y, w, t))[i])
    decreases h
  {
    hide Line, LumaBytes;
    LumaSize(src, h - 1, w, t);
    if y == h - 1 {
      InLastRow(LumaPlane(src, h - 1, w, t), LumaBytes(Line(src, h - 1, w, t)), w, y, i);
    } else {
      LumaRow(src, h - 1, w, t, y, i);
      InEarlierRow(LumaPlane(src, h - 1, w, t), LumaBytes(Line(src, h - 1, w, t)), w * y + i,
        LumaBytes(Line(src, y, w, t))[i]);
    }
  }

  lemma {:induction false} ChromaRow(c: Plane, src: Rows, h: nat, w: nat, t: Gains, y: nat, i: nat)
    requires FitsAll(src, h, w) && Usable(t) && 2 * y + 1 < h && i < w / 2
    ensures ByteAt(ChromaPlane(c, src, h, w, t), w / 2 * y + i,
        ChromaBytes(c, Line(src, 2 * y + 1, w, t))[i])
    decreases h
  {
    hide Line, ChromaBytes;
    ChromaSize(c, src, h - 1, w, t);
    Halves(h);
    if 2 * y + 1 == h - 1 {
      InLastRow(ChromaPlane(c, src, h - 1, w, t), ChromaBytes(c, Line(src, h - 1, w, t)), w / 2, y, i);
    } else {
      ChromaRow(c, src, h - 1, w, t, y, i);
    }
  }

  // ---------------------------------------------------------------- frames

  /** The bytes of the output pixel in column `x` of row `y`. */
  lemma RgbShows(src: Rows, h: nat, w: nat, t: Gains, y: nat, x: nat)
    requires FitsAll(src, h, w) && Usable(t) && y < h && x < w
    ensures HasPixel(src, y, x) && RgbIs(RgbPlane(src, h, w, t), 3 * w * y + 3 * x, Colours(src, t, y, x))
  {
    hide Line, RgbBytes, RgbPlane, Colours, HasPixel;
    RgbRow(src, h, w, t, y, 3 * x);
    RgbRow(src, h, w, t, y, 3 * x + 1);
    RgbRow(src, h, w, t, y, 3 * x + 2);
    RgbAt(Line(src, y, w, t), x);
    PixelShows(src, y, w, t, x);
    NotNegative(3 * w, y);
  }

  lemma LumaShows(src: Rows, h: nat, w: nat, t: Gains, y: nat, x: nat)
    requires FitsAll(src, h, w) && Usable(t) && y < h && x < w
    ensures HasPixel(src, y, x) && LumaIs(LumaPlane(src, h, w, t), w * y + x, Colours(src, t, y, x))
  {
    hide Line, LumaBytes, LumaPlane, Colours, HasPixel, LumaOf, Clamp, IsLuma, IsChroma;
    LumaRow(src, h, w, t, y, x);
    LumaAt(Line(src, y, w, t), x);
    PixelShows(src, y, w, t, x);
    FollowsBt601(Line(src, y, w, t)[x]);
    NotNegative(w, y);
  }

  lemma ChromaAt(c: Plane, ps: seq<Px>, i: nat)
    requires i < |ps| / 2
    ensures 2 * i + 1 < |ps| && ChromaBytes(c, ps)[i] == Clamp(ChromaOf(c, ps[2 * i + 1]))
  {}

  /** Chroma is that of the lower right pixel of every two by two. */
  lemma ChromaShows(src: Rows, h: nat, w: nat, t: Gains, y: nat, x: nat)
    requires FitsAll(src, h, w) && Usable(t) && 2 * y + 1 < h && x < w / 2
    ensures HasPixel(src, 2 * y + 1, 2 * x + 1)
    ensures ChromaIs(ChromaPlane(U, src, h, w, t), ChromaPlane(V, src, h, w, t), w / 2 * y + x,
        Colours(src, t, 2 * y + 1, 2 * x + 1), 2)
  {
    hide Line, ChromaPlane, ChromaBytes, Colours, HasPixel, ChromaOf, Clamp, IsLuma, IsChroma;
    var line := Line(src, 2 * y + 1, w, t);
    ChromaRow(U, src, h, w, t, y, x);
    ChromaRow(V, src, h, w, t, y, x);
    ChromaAt(U, line, x);
    ChromaAt(V, line, x);
    PixelShows(src, 2 * y + 1, w, t, 2 * x + 1);
    FollowsBt601(line[2 * x + 1]);
    NotNegative(w / 2, y);
  }

  /** Where every pixel of a converted frame ends up: its red, green and blue as three bytes in this order, its luma,
      and for every two by two pixels the blue difference in the U plane and the red one in the V plane.  Buffers that
      are not wanted stay as they are. */
  lemma FrameShows(s: Planes, src: Rows, width: nat, height: nat, t: Gains, withRgb: bool, withYuv: bool, y: nat,
      x: nat)
    requires Framed(src, width, height) && Usable(t) && width % 8 == 0 && height % 8 == 0
    requires Sized(s, width / 4, height / 4, withRgb, withYuv) && y < height / 4 && x < width / 4
    ensures HasPixel(src, y, x)
    ensures var d, w, c := Converted(s, src, width, height, t, withRgb, withYuv), width / 4, Colours(src, t, y, x);
      && (if withRgb then RgbIs(d.rgb, 3 * w * y + 3 * x, c) else d.rgb == s.rgb)
      && (if withYuv then LumaIs(d.luma, w * y + x, c) else d.luma == s.luma && d.u == s.u && d.v == s.v)
      && (withYuv && y % 2 == 1 && x % 2 == 1 ==> ChromaIs(d.u, d.v, w / 2 * (y / 2) + x / 2, c, 2))
  {
    hide RgbPlane, LumaPlane, ChromaPlane, Colours, RgbIs, LumaIs, ChromaIs, Sized, HasPixel;
    Squares(src, width, height);
    var h, w := height / 4, width / 4;
    RgbShows(src, h, w, t, y, x);
    LumaShows(src, h, w, t, y, x);
    if y % 2 == 1 && x % 2 == 1 {
      assert 2 * (y / 2) + 1 == y && 2 * (x / 2) + 1 == x;
      ChromaShows(src, h, w, t, y / 2, x / 2);
    }
  }
}
