/** Demosaicing of 10-bit RGGB frames to RGB888 and I420 (package/aloe/simd and package/aloe/rggb10_rgb888_i420.cpp):
    the colour of a pixel, its bytes, and the planes of a frame. */
module DemosaicSpec {
  import opened Buffers

  datatype Bayer = Bayer(rows: Rows, width: nat, height: nat)

  predicate Whole(m: Bayer) {
    && m.width % 2 == 0 && m.height % 2 == 0 && |m.rows| == m.height
    && forall y :: 0 <= y < m.height ==> |m.rows[y]| == m.width
  }

  // ---------------------------------------------------------------- colour of a pixel

  /** Three 10-bit channels, in words. */
  datatype Site = Site(r: Word, g: Word, b: Word)

  function Mean2(a: Word, b: Word): Word {
    (a + b) / 2
  }

  function Mean4(a: Word, b: Word, c: Word, d: Word): Word {
    (a + b + c + d) / 4
  }

  /** Interpolation at column `x` with neighbours `l` and `r`, and rows `up` and `down` around `row`. */
  function Interpolated(up: seq<Word>, row: seq<Word>, down: seq<Word>, evenRow: bool, l: nat, x: nat, r: nat): Site
    requires l < |row| && x < |row| && r < |row| && |up| == |row| == |down|
  {
    if evenRow && x % 2 == 0 then
      Site(row[x], Mean4(row[l], row[r], up[x], down[x]), Mean4(up[l], up[r], down[l], down[r]))
    else if evenRow then
      Site(Mean2(row[l], row[r]), row[x], Mean2(up[x], down[x]))
    else if x % 2 == 0 then
      Site(Mean2(up[x], down[x]), row[x], Mean2(row[l], row[r]))
    else
      Site(Mean4(up[l], up[r], down[l], down[r]), Mean4(row[l], row[r], up[x], down[x]), row[x])
  }

  /** demosaic_rggb10_pixel: the frame's edge is repeated outside it. */
  function DemosaicPixel(m: Bayer, x: nat, y: nat): Site
    requires Whole(m) && x < m.width && y < m.height
  {
    var l, r := if x > 0 then x - 1 else 0, if x + 1 < m.width then x + 1 else m.width - 1;
    var u, d := if y > 0 then y - 1 else 0, if y + 1 < m.height then y + 1 else m.height - 1;
    Interpolated(m.rows[u], m.rows[y], m.rows[d], y % 2 == 0, l, x, r)
  }

  datatype Colour = Red | Green | Blue

  /** Which colour the sensor samples at a place. */
  function ColourAt(x: nat, y: nat): Colour {
    if x % 2 == 0 && y % 2 == 0 then Red else if x % 2 == 1 && y % 2 == 1 then Blue else Green
  }

  function Channel(p: Site, c: Colour): Word {
    match c case Red => p.r case Green => p.g case Blue => p.b
  }

  /** What the sample at (x, y) adds to the sum and the number of samples of colour `c`; nothing outside the frame. */
  function Share(m: Bayer, c: Colour, x: int, y: int): (nat, nat)
    requires Whole(m)
  {
    if 0 <= x < m.width && 0 <= y < m.height && ColourAt(x, y) == c then (m.rows[y][x], 1) else (0, 0)
  }

  function Sum3(a: (nat, nat), b: (nat, nat), c: (nat, nat)): (nat, nat) {
    (a.0 + b.0 + c.0, a.1 + b.1 + c.1)
  }

  /** Sum and number of the samples of colour `c` in the part of the 3 x 3 window around (x, y) that lies in the
      frame. */
  function Window(m: Bayer, c: Colour, x: nat, y: nat): (nat, nat)
    requires Whole(m)
  {
    Sum3(Sum3(Share(m, c, x - 1, y - 1), Share(m, c, x, y - 1), Share(m, c, x + 1, y - 1)),
         Sum3(Share(m, c, x - 1, y), Share(m, c, x, y), Share(m, c, x + 1, y)),
         Sum3(Share(m, c, x - 1, y + 1), Share(m, c, x, y + 1), Share(m, c, x + 1, y + 1)))
  }

  /** Where a channel is made of samples of its own colour: at a place of that colour, and where the frame's edge
      does not cut off the neighbours it needs, which are those beside the place, those above and below it, or both. */
  predicate KeepsColour(width: nat, height: nat, c: Colour, x: nat, y: nat) {
    var beside, above := ColourAt(x + 1, y) == c, ColourAt(x, y + 1) == c;
    || ColourAt(x, y) == c
    || (((above && !beside) || 0 < x < width - 1) && ((beside && !above) || 0 < y < height - 1))
  }

  /** A row of the window: its middle sample counts if `mid`, those beside it in the frame if `sides`. */
  function RowShare(row: seq<Word>, x: nat, mid: bool, sides: bool): (nat, nat)
    requires x < |row|
  {
    ((if mid then row[x] as int else 0) + (if sides && x > 0 then row[x - 1] as int else 0)
       + (if sides && x < |row| - 1 then row[x + 1] as int else 0),
     (if mid then 1 else 0) + (if sides && x > 0 then 1 else 0) + (if sides && x < |row| - 1 then 1 else 0))
  }

  lemma RowOfWindow(m: Bayer, c: Colour, x: nat, y: nat)
    requires Whole(m) && x < m.width && y < m.height
    ensures Sum3(Share(m, c, x - 1, y), Share(m, c, x, y), Share(m, c, x + 1, y)) ==
              RowShare(m.rows[y], x, ColourAt(x, y) == c, ColourAt(x + 1, y) == c)
  {
    if x > 0 { assert ColourAt(x - 1, y) == ColourAt(x + 1, y); }
  }

  lemma RowOutside(m: Bayer, c: Colour, x: nat, y: int)
    requires Whole(m) && !(0 <= y < m.height)
    ensures Sum3(Share(m, c, x - 1, y), Share(m, c, x, y), Share(m, c, x + 1, y)) == (0, 0)
  {}

  lemma Neighbours(x: nat, n: nat)
    requires x < n && n % 2 == 0
    ensures x % 2 == 0 ==> x + 1 < n && (x + 1) % 2 == 1 && (x > 0 ==> (x - 1) % 2 == 1)
    ensures x % 2 == 1 ==> x > 0 && (x - 1) % 2 == 0 && (x + 1) % 2 == 0
  {}

  /** The row above or below, if there is one. */
  function RowShareOf(m: Bayer, c: Colour, x: nat, y: int, like: nat): (nat, nat)
    requires Whole(m) && x < m.width
  {
    if 0 <= y < m.height then RowShare(m.rows[y], x, ColourAt(x, like) == c, ColourAt(x + 1, like) == c) else (0, 0)
  }

  lemma WindowRows(m: Bayer, c: Colour, x: nat, y: nat)
    requires Whole(m) && x < m.width && y < m.height
    ensures Window(m, c, x, y) == Sum3(RowShareOf(m, c, x, y - 1, y + 1), RowShareOf(m, c, x, y, y),
        RowShareOf(m, c, x, y + 1, y + 1))
  {
    hide Share, Sum3, RowShare, ColourAt;
    RowOfWindow(m, c, x, y);
    if y > 0 {
      SameColours(x, y);
      RowOfWindow(m, c, x, y - 1);
    } else {
      RowOutside(m, c, x, y - 1);
    }
    if y + 1 < m.height { RowOfWindow(m, c, x, y + 1); } else { RowOutside(m, c, x, y + 1); }
  }

  lemma SameColours(x: nat, y: nat)
    requires y > 0
    ensures ColourAt(x, y - 1) == ColourAt(x, y + 1) && ColourAt(x + 1, y - 1) == ColourAt(x + 1, y + 1)
  {}

  lemma ColoursAround(x: nat, y: nat)
    ensures x % 2 == y % 2 ==>
              && ColourAt(x + 1, y) == ColourAt(x, y + 1) == Green
              && ColourAt(x, y) == (if x % 2 == 0 then Red else Blue)
              && ColourAt(x + 1, y + 1) == (if x % 2 == 0 then Blue else Red)
    ensures x % 2 != y % 2 ==>
              && ColourAt(x, y) == ColourAt(x + 1, y + 1) == Green
              && ColourAt(x + 1, y) == (if x % 2 == 1 then Red else Blue)
              && ColourAt(x, y + 1) == (if x % 2 == 1 then Blue else Red)
  {}

  /** The sample at a place of the colour, and else the mean of the samples of the colour around it. */
  predicate IsMean(m: Bayer, c: Colour, x: nat, y: nat)
    requires Whole(m) && x < m.width && y < m.height
  {
    var w := Window(m, c, x, y);
    w.1 > 0 && Channel(DemosaicPixel(m, x, y), c) == if ColourAt(x, y) == c then m.rows[y][x] else w.0 / w.1
  }

  lemma MeanAtRed(m: Bayer, c: Colour, x: nat, y: nat)
    requires Whole(m) && x < m.width && y < m.height && KeepsColour(m.width, m.height, c, x, y) && x % 2 == 0
        && y % 2 == 0
    ensures IsMean(m, c, x, y)
  {
    hide Share, Window, ColourAt;
    WindowRows(m, c, x, y);
    Neighbours(x, m.width);
    Neighbours(y, m.height);
    ColoursAround(x, y);
  }

  lemma MeanAtBlue(m: Bayer, c: Colour, x: nat, y: nat)
    requires Whole(m) && x < m.width && y < m.height && KeepsColour(m.width, m.height, c, x, y) && x % 2 == 1
        && y % 2 == 1
    ensures IsMean(m, c, x, y)
  {
    hide Share, Window, ColourAt;
    WindowRows(m, c, x, y);
    Neighbours(x, m.width);
    Neighbours(y, m.height);
    ColoursAround(x, y);
  }

  lemma MeanBesideRed(m: Bayer, c: Colour, x: nat, y: nat)
    requires Whole(m) && x < m.width && y < m.height && KeepsColour(m.width, m.height, c, x, y) && x % 2 == 1
        && y % 2 == 0
    ensures IsMean(m, c, x, y)
  {
    hide Share, Window, ColourAt;
    WindowRows(m, c, x, y);
    Neighbours(x, m.width);
    Neighbours(y, m.height);
    ColoursAround(x, y);
  }

  lemma MeanBelowRed(m: Bayer, c: Colour, x: nat, y: nat)
    requires Whole(m) && x < m.width && y < m.height && KeepsColour(m.width, m.height, c, x, y) && x % 2 == 0
        && y % 2 == 1
    ensures IsMean(m, c, x, y)
  {
    hide Share, Window, ColourAt;
    WindowRows(m, c, x, y);
    Neighbours(x, m.width);
    Neighbours(y, m.height);
    ColoursAround(x, y);
  }

  /** Wherever a channel keeps its colour, it is that mean. */
  lemma MeanOfColour(m: Bayer, c: Colour, x: nat, y: nat)
    requires Whole(m) && x < m.width && y < m.height && KeepsColour(m.width, m.height, c, x, y)
    ensures IsMean(m, c, x, y)
  {
    hide KeepsColour, IsMean;
    if x % 2 == 0 {
      if y % 2 == 0 { MeanAtRed(m, c, x, y); } else { MeanBelowRed(m, c, x, y); }
    } else {
      if y % 2 == 0 { MeanBesideRed(m, c, x, y); } else { MeanAtBlue(m, c, x, y); }
    }
  }

  /** A frame that is dark in one colour and lit in the others. */
  function Lit(c: Colour, width: nat, height: nat): Bayer {
    Bayer(seq(height, y requires 0 <= y => seq(width, x requires 0 <= x => if ColourAt(x, y) == c then 0 else 400)),
        width, height)
  }

  lemma LitFrame(c: Colour, width: nat, height: nat)
    requires width % 2 == 0 && height % 2 == 0
    ensures var m := Lit(c, width, height);
      Whole(m) && forall x, y :: 0 <= x < width && 0 <= y < height ==>
          m.rows[y][x] == if ColourAt(x, y) == c then 0 else 400
  {
    hide ColourAt;
  }

  predicate ShinesThrough(m: Bayer, c: Colour, x: nat, y: nat)
    requires Whole(m) && x < m.width && y < m.height
  {
    Channel(DemosaicPixel(m, x, y), c) != 0
  }

  predicate IsLit(m: Bayer, c: Colour) {
    Whole(m) && forall x, y :: 0 <= x < m.width && 0 <= y < m.height ==>
        m.rows[y][x] == if ColourAt(x, y) == c then 0 else 400
  }

  lemma ShinesAtRed(m: Bayer, c: Colour, x: nat, y: nat)
    requires IsLit(m, c) && x < m.width && y < m.height && x % 2 == 0 && y % 2 == 0
    ensures ShinesThrough(m, c, x, y) <==> !KeepsColour(m.width, m.height, c, x, y)
  {
    Neighbours(x, m.width);
    Neighbours(y, m.height);
  }

  lemma ShinesAtBlue(m: Bayer, c: Colour, x: nat, y: nat)
    requires IsLit(m, c) && x < m.width && y < m.height && x % 2 == 1 && y % 2 == 1
    ensures ShinesThrough(m, c, x, y) <==> !KeepsColour(m.width, m.height, c, x, y)
  {
    Neighbours(x, m.width);
    Neighbours(y, m.height);
  }

  lemma ShinesAtGreen(m: Bayer, c: Colour, x: nat, y: nat)
    requires IsLit(m, c) && x < m.width && y < m.height && x % 2 != y % 2
    ensures ShinesThrough(m, c, x, y) <==> !KeepsColour(m.width, m.height, c, x, y)
  {
    Neighbours(x, m.width);
    Neighbours(y, m.height);
  }

  /** That is exactly where: elsewhere the other colours of such a frame shine through. */
  lemma ColourShinesThrough(c: Colour, width: nat, height: nat, x: nat, y: nat)
    requires width % 2 == 0 && height % 2 == 0 && x < width && y < height
    ensures Whole(Lit(c, width, height))
    ensures ShinesThrough(Lit(c, width, height), c, x, y) <==> !KeepsColour(width, height, c, x, y)
  {
    hide KeepsColour, ShinesThrough, ColourAt;
    LitFrame(c, width, height);
    var m := Lit(c, width, height);
    if x % 2 != y % 2 { ShinesAtGreen(m, c, x, y); } else if x % 2 == 0 { ShinesAtRed(m, c, x, y); } else {
        ShinesAtBlue(m, c, x, y); }
  }

  // ---------------------------------------------------------------- eight bits, luma, chroma

  datatype Tri = Tri(r: nat, g: nat, b: nat)

  /** Rounding to eight bits, without narrowing to a byte. */
  function Up(v: Word): nat {
    (v + 2) / 4
  }

  /** raw10_to_u8 narrows to a byte (`cut`), the fused converter does not. */
  function Scale(p: Site, cut: bool): Tri {
    if cut then Tri(Up(p.r) % 256, Up(p.g) % 256, Up(p.b) % 256) else Tri(Up(p.r), Up(p.g), Up(p.b))
  }

  /** rgb_to_y; shifts right round down. */
  function LumaOf(p: Tri): U8 {
    Clamp((66 * p.r + 129 * p.g + 25 * p.b + 128) / 256 + 16)
  }

  /** rgb_to_u and rgb_to_v */
  function ChromaOf(c: Plane, p: Tri): U8 {
    if c == U then Clamp((-38 * p.r - 74 * p.g + 112 * p.b + 128) / 256 + 128)
    else Clamp((112 * p.r - 94 * p.g - 18 * p.b + 128) / 256 + 128)
  }

  /** Grey has no chroma, and its luma runs from 16 to 235. */
  lemma GreyIsNeutral(v: U8)
    ensures var p := Tri(v, v, v);
      ChromaOf(U, p) == ChromaOf(V, p) == 128 && 16 <= LumaOf(p) == 16 + (220 * v + 128) / 256 <= 235
  {}

  function Average(p: Tri, q: Tri, s: Tri, t: Tri): Tri {
    Tri((p.r + q.r + s.r + t.r) / 4, (p.g + q.g + s.g + t.g) / 4, (p.b + q.b + s.b + t.b) / 4)
  }

  // ---------------------------------------------------------------- lines and planes

  function Line(m: Bayer, y: nat, cut: bool): (r: seq<Tri>)
    requires Whole(m) && y < m.height
    ensures |r| == m.width
  {
    seq(m.width, x requires 0 <= x < m.width && y < m.height && Whole(m) => Scale(DemosaicPixel(m, x, y), cut))
  }

  function Rgb(p: Tri): (r: seq<U8>)
    ensures |r| == 3
  {
    [p.r % 256, p.g % 256, p.b % 256]
  }

  function RgbBytes(ps: seq<Tri>): (r: seq<U8>)
    ensures |r| == 3 * |ps|
  {
    if ps == [] then [] else RgbBytes(ps[..|ps| - 1]) + Rgb(ps[|ps| - 1])
  }

  function LumaBytes(ps: seq<Tri>): (r: seq<U8>)
    ensures |r| == |ps|
  {
    if ps == [] then [] else LumaBytes(ps[..|ps| - 1]) + [LumaOf(ps[|ps| - 1])]
  }

  /** One chroma byte for the mean of every block of two columns and two rows. */
  function ChromaBytes(c: Plane, a: seq<Tri>, b: seq<Tri>): (r: seq<U8>)
    requires |a| == |b|
    ensures |r| == |a| / 2
  {
    if |a| < 2 then []
    else
      var n := |a| - 2;
      ChromaBytes(c, a[..n], b[..n]) + [ChromaOf(c, Average(a[n], a[n + 1], b[n], b[n + 1]))]
  }

  /** The planes of the first `n` rows, or of the first `n` pairs of rows. */
  function RgbPlane(m: Bayer, n: nat, cut: bool): (r: seq<U8>)
    requires Whole(m) && n <= m.height
    ensures |r| == 3 * (m.width * n)
  {
    if n == 0 then [] else
      Distribute(m.width, n - 1, 1);
      RgbPlane(m, n - 1, cut) + RgbBytes(Line(m, n - 1, cut))
  }

  function LumaPlane(m: Bayer, n: nat, cut: bool): (r: seq<U8>)
    requires Whole(m) && n <= m.height
    ensures |r| == m.width * n
  {
    if n == 0 then [] else
      Distribute(m.width, n - 1, 1);
      LumaPlane(m, n - 1, cut) + LumaBytes(Line(m, n - 1, cut))
  }

  function ChromaPlane(c: Plane, m: Bayer, n: nat, cut: bool): (r: seq<U8>)
    requires Whole(m) && n <= m.height / 2
    ensures |r| == m.width / 2 * n
  {
    if n == 0 then [] else
      Distribute(m.width / 2, n - 1, 1);
      ChromaPlane(c, m, n - 1, cut) + ChromaBytes(c, Line(m, 2 * n - 2, cut), Line(m, 2 * n - 1, cut))
  }

  // ---------------------------------------------------------------- when narrowing matters

  predicate AtMost(m: Bayer, top: Word)
    requires Whole(m)
  {
    forall y, x :: 0 <= y < m.height && 0 <= x < m.width ==> m.rows[y][x] <= top
  }

  predicate SiteAtMost(p: Site, top: Word) {
    p.r <= top && p.g <= top && p.b <= top
  }

  lemma MeansAtMost(up: seq<Word>, row: seq<Word>, down: seq<Word>, evenRow: bool, l: nat, x: nat, r: nat, top: Word)
    requires l < |row| && x < |row| && r < |row| && |up| == |row| == |down|
    requires up[l] <= top && up[x] <= top && up[r] <= top && row[l] <= top && row[x] <= top && row[r] <= top
    requires down[l] <= top && down[x] <= top && down[r] <= top
    ensures SiteAtMost(Interpolated(up, row, down, evenRow, l, x, r), top)
  {}

  lemma PixelAtMost(m: Bayer, x: nat, y: nat, top: Word)
    requires Whole(m) && x < m.width && y < m.height && AtMost(m, top)
    ensures SiteAtMost(DemosaicPixel(m, x, y), top)
  {
    hide Interpolated, SiteAtMost;
    var l, r := if x > 0 then x - 1 else 0, if x + 1 < m.width then x + 1 else m.width - 1;
    var u, d := if y > 0 then y - 1 else 0, if y + 1 < m.height then y + 1 else m.height - 1;
    MeansAtMost(m.rows[u], m.rows[y], m.rows[d], y % 2 == 0, l, x, r, top);
  }

  lemma PixelHasSample(m: Bayer, x: nat, y: nat, top: Word)
    requires Whole(m) && x < m.width && y < m.height && SiteAtMost(DemosaicPixel(m, x, y), top)
    ensures m.rows[y][x] <= top
  {
    hide Mean2, Mean4;
  }

  lemma UpFits(v: Word)
    ensures Up(v) < 256 <==> v <= 1021
  {}

  /** Narrowing changes the luma of every pixel it changes. */
  lemma LumaTells(p: Tri, q: Tri)
    requires q.r == p.r % 256 && q.g == p.g % 256 && q.b == p.b % 256
    ensures LumaOf(q) == LumaOf(p) <==> p == q
  {
    var i, j, k := p.r / 256, p.g / 256, p.b / 256;
    assert p.r == 256 * i + q.r && p.g == 256 * j + q.g && p.b == 256 * k + q.b;
    LumaApart(q, i, j, k, p);
  }

  lemma LumaApart(q: Tri, i: nat, j: nat, k: nat, p: Tri)
    requires q.r < 256 && q.g < 256 && q.b < 256
    requires p == Tri(256 * i + q.r, 256 * j + q.g, 256 * k + q.b)
    ensures LumaOf(q) == LumaOf(p) <==> i == j == k == 0
  {
    var s := 66 * q.r + 129 * q.g + 25 * q.b + 128;
    assert 66 * p.r + 129 * p.g + 25 * p.b + 128 == s + 256 * (66 * i + 129 * j + 25 * k);
    assert s / 256 <= 220;
  }

  lemma PixelTells(p: Site)
    ensures Rgb(Scale(p, true)) == Rgb(Scale(p, false))
    ensures LumaOf(Scale(p, true)) == LumaOf(Scale(p, false)) <==> SiteAtMost(p, 1021)
    ensures Scale(p, true) == Scale(p, false) <==> SiteAtMost(p, 1021)
  {
    hide LumaOf;
    UpFits(p.r);
    UpFits(p.g);
    UpFits(p.b);
    LumaTells(Scale(p, false), Scale(p, true));
  }

  lemma {:induction false} SameRgbBytes(a: seq<Tri>, b: seq<Tri>)
    requires |a| == |b| && forall i :: 0 <= i < |a| ==> Rgb(a[i]) == Rgb(b[i])
    ensures RgbBytes(a) == RgbBytes(b)
  {
    hide Rgb;
    if a != [] { SameRgbBytes(a[..|a| - 1], b[..|a| - 1]); }
  }

  lemma {:induction false} LumaAt(ps: seq<Tri>, i: nat)
    requires i < |ps|
    ensures LumaBytes(ps)[i] == LumaOf(ps[i])
  {
    hide LumaOf;
    if i < |ps| - 1 { LumaAt(ps[..|ps| - 1], i); }
  }

  lemma {:induction false} RgbAt(ps: seq<Tri>, i: nat)
    requires i < |ps|
    ensures var b := RgbBytes(ps);
      b[3 * i] == ps[i].r % 256 && b[3 * i + 1] == ps[i].g % 256 && b[3 * i + 2] == ps[i].b % 256
  {
    if i < |ps| - 1 { RgbAt(ps[..|ps| - 1], i); }
  }

  /** RGB is the same with and without narrowing. */
  lemma {:induction false} RgbNeverDiffers(m: Bayer, n: nat)
    requires Whole(m) && n <= m.height
    ensures RgbPlane(m, n, true) == RgbPlane(m, n, false)
    decreases n
  {
    hide Rgb, Scale, DemosaicPixel;
    if n > 0 {
      RgbNeverDiffers(m, n - 1);
      var a, b := Line(m, n - 1, true), Line(m, n - 1, false);
      forall x | 0 <= x < m.width ensures Rgb(a[x]) == Rgb(b[x]) {
        PixelTells(DemosaicPixel(m, x, n - 1));
      }
      SameRgbBytes(a, b);
    }
  }

  lemma SameLine(m: Bayer, y: nat)
    requires Whole(m) && AtMost(m, 1021) && y < m.height
    ensures Line(m, y, true) == Line(m, y, false)
  {
    hide Scale, DemosaicPixel, AtMost;
    forall x | 0 <= x < m.width ensures Scale(DemosaicPixel(m, x, y), true) == Scale(DemosaicPixel(m, x, y), false) {
      PixelAtMost(m, x, y, 1021);
      PixelTells(DemosaicPixel(m, x, y));
    }
  }

  lemma {:induction false} SameLuma(m: Bayer, n: nat)
    requires Whole(m) && AtMost(m, 1021) && n <= m.height
    ensures LumaPlane(m, n, true) == LumaPlane(m, n, false)
    decreases n
  {
    hide Line, LumaBytes, AtMost;
    if n > 0 {
      SameLuma(m, n - 1);
      SameLine(m, n - 1);
    }
  }

  lemma {:induction false} SameChroma(c: Plane, m: Bayer, n: nat)
    requires Whole(m) && AtMost(m, 1021) && n <= m.height / 2
    ensures ChromaPlane(c, m, n, true) == ChromaPlane(c, m, n, false)
    decreases n
  {
    hide Line, ChromaBytes, AtMost;
    if n > 0 {
      SameChroma(c, m, n - 1);
      SameLine(m, 2 * n - 2);
      SameLine(m, 2 * n - 1);
    }
  }

  lemma LineTells(m: Bayer, y: nat, x: nat)
    requires Whole(m) && y < m.height && x < m.width
    requires LumaBytes(Line(m, y, true)) == LumaBytes(Line(m, y, false))
    ensures m.rows[y][x] <= 1021
  {
    hide Scale, DemosaicPixel, LumaBytes, LumaOf, SiteAtMost;
    LumaAt(Line(m, y, true), x);
    LumaAt(Line(m, y, false), x);
    PixelTells(DemosaicPixel(m, x, y));
    PixelHasSample(m, x, y, 1021);
  }

  lemma {:induction false} PlaneTells(m: Bayer, n: nat, y: nat, x: nat)
    requires Whole(m) && y < n <= m.height && x < m.width
    requires LumaPlane(m, n, true) == LumaPlane(m, n, false)
    ensures m.rows[y][x] <= 1021
    decreases n
  {
    hide Line, LumaBytes;
    SameTails(LumaPlane(m, n - 1, true), LumaBytes(Line(m, n - 1, true)),
              LumaPlane(m, n - 1, false), LumaBytes(Line(m, n - 1, false)));
    if y < n - 1 { PlaneTells(m, n - 1, y, x); } else { LineTells(m, y, x); }
  }

  lemma SameTails(a: seq<U8>, b: seq<U8>, c: seq<U8>, d: seq<U8>)
    requires |a| == |c| && a + b == c + d
    ensures a == c && b == d
  {
    assert a == (a + b)[..|a|] && b == (a + b)[|a|..];
    assert c == (c + d)[..|a|] && d == (c + d)[|a|..];
  }

  /** The luma plane shows whether any sample of the frame is above 1021. */
  lemma LumaDiffersAbove1021(m: Bayer)
    requires Whole(m)
    ensures LumaPlane(m, m.height, true) == LumaPlane(m, m.height, false) <==> AtMost(m, 1021)
  {
    hide Line, LumaBytes, LumaPlane;
    if LumaPlane(m, m.height, true) == LumaPlane(m, m.height, false) {
      forall y, x | 0 <= y < m.height && 0 <= x < m.width ensures m.rows[y][x] <= 1021 {
        PlaneTells(m, m.height, y, x);
      }
    }
    if AtMost(m, 1021) { SameLuma(m, m.height); }
  }

  // ---------------------------------------------------------------- buffers

  /** A buffer filled from the front. */
  function Filled(s: seq<U8>, d: seq<U8>): (r: seq<U8>)
    ensures |d| <= |s| ==> |r| == |s|
  {
    if |d| <= |s| then d + s[|d|..] else d
  }

  /** The buffers that are wanted, each filled from the front. */
  function Fill(s: Planes, d: Planes, withRgb: bool, withYuv: bool): Planes {
    Planes(if withRgb then Filled(s.rgb, d.rgb) else s.rgb,
           if withYuv then Filled(s.luma, d.luma) else s.luma,
           if withYuv then Filled(s.u, d.u) else s.u,
           if withYuv then Filled(s.v, d.v) else s.v)
  }

  /** The first `n` rows, and chroma for the first `k` pairs of rows. */
  function Done(m: Bayer, n: nat, k: nat, cut: bool): Planes
    requires Whole(m) && n <= m.height && k <= m.height / 2
  {
    Planes(RgbPlane(m, n, cut), LumaPlane(m, n, cut), ChromaPlane(U, m, k, cut), ChromaPlane(V, m, k, cut))
  }

  predicate Sized(s: Planes, m: Bayer, withRgb: bool, withYuv: bool) {
    && (withRgb ==> |s.rgb| == 3 * (m.width * m.height))
    && (withYuv ==> |s.luma| == m.width * m.height && |s.u| == |s.v| == m.width / 2 * (m.height / 2))
  }

  /** The planes of the whole frame in the buffers that are wanted. */
  function Frame(s: Planes, m: Bayer, cut: bool, withRgb: bool, withYuv: bool): Planes
    requires Whole(m)
  {
    Planes(if withRgb then RgbPlane(m, m.height, cut) else s.rgb,
           if withYuv then LumaPlane(m, m.height, cut) else s.luma,
           if withYuv then ChromaPlane(U, m, m.height / 2, cut) else s.u,
           if withYuv then ChromaPlane(V, m, m.height / 2, cut) else s.v)
  }

  lemma FullBuffer(s: seq<U8>, d: seq<U8>)
    requires |d| == |s|
    ensures Filled(s, d) == d
  {}

  lemma NothingFilled(s: seq<U8>)
    ensures Filled(s, []) == s
  {}

  lemma Finished(s: Planes, m: Bayer, cut: bool, withRgb: bool, withYuv: bool)
    requires Whole(m) && Sized(s, m, withRgb, withYuv)
    ensures Fill(s, Done(m, m.height, m.height / 2, cut), withRgb, withYuv) == Frame(s, m, cut, withRgb, withYuv)
  {
    hide Filled, RgbPlane, LumaPlane, ChromaPlane;
    if withRgb { FullBuffer(s.rgb, RgbPlane(m, m.height, cut)); }
    if withYuv {
      FullBuffer(s.luma, LumaPlane(m, m.height, cut));
      FullBuffer(s.u, ChromaPlane(U, m, m.height / 2, cut));
      FullBuffer(s.v, ChromaPlane(V, m, m.height / 2, cut));
    }
  }

  lemma Started(s: Planes, m: Bayer, cut: bool, withRgb: bool, withYuv: bool)
    requires Whole(m)
    ensures Fill(s, Done(m, 0, 0, cut), withRgb, withYuv) == s
  {
    hide Filled;
    NothingFilled(s.rgb);
    NothingFilled(s.luma);
    NothingFilled(s.u);
    NothingFilled(s.v);
  }

  /** The fused converter's frame is the reference's exactly if it has no I420 part or no sample is above 1021. */
  lemma FusedAgrees(s: Planes, m: Bayer, withRgb: bool, withYuv: bool)
    requires Whole(m)
    ensures Frame(s, m, false, withRgb, withYuv) == Frame(s, m, true, withRgb, withYuv) <==> !withYuv || AtMost(m, 1021)
    ensures Frame(s, m, false, withRgb, withYuv).rgb == Frame(s, m, true, withRgb, withYuv).rgb
  {
    hide RgbPlane, LumaPlane, ChromaPlane, AtMost;
    RgbNeverDiffers(m, m.height);
    LumaDiffersAbove1021(m);
    if AtMost(m, 1021) {
      SameChroma(U, m, m.height / 2);
      SameChroma(V, m, m.height / 2);
    }
  }
}
