/** What stands where in a demosaiced frame: every byte of the four planes in terms of the samples around it. */
module DemosaicPlanes {
  import opened Buffers
  import opened DemosaicSpec
  import opened Bt601
  import opened Demosaic

  // ---------------------------------------------------------------- the edge

  /** The nearest place inside. */
  function Into(x: int, n: nat): nat
    requires n > 0
    ensures Into(x, n) < n
  {
    if x < 0 then 0 else if x < n then x else n - 1
  }

  /** The frame with its edge repeated twice all around. */
  function Bordered(m: Bayer): Bayer
    requires Whole(m) && m.width > 0 && m.height > 0
    ensures Whole(Bordered(m)) && Bordered(m).width == m.width + 4 && Bordered(m).height == m.height + 4
  {
    Bayer(seq(m.height + 4, y requires 0 <= y && Whole(m) && m.width > 0 && m.height > 0 =>
        seq(m.width + 4, x requires 0 <= x && Whole(m) && m.width > 0 && m.height > 0 =>
          m.rows[Into(y - 2, m.height)][Into(x - 2, m.width)])), m.width + 4, m.height + 4)
  }

  lemma BorderedRows(m: Bayer, x: nat, y: nat)
    requires Whole(m) && m.width > 0 && m.height > 0 && x < m.width + 4 && y < m.height + 4
    ensures Bordered(m).rows[y][x] == m.rows[Into(y - 2, m.height)][Into(x - 2, m.width)]
  {
    hide Into;
  }

  /** Channel `c` at (x, y): the sample, or the mean of the samples of that colour in the 3 x 3 window, were the frame's
      edge repeated outside it. */
  function Mixed(m: Bayer, c: Colour, x: nat, y: nat): nat
    requires Whole(m) && x < m.width && y < m.height
  {
    if ColourAt(x, y) == c then m.rows[y][x] else Mean(Window(Bordered(m), c, x + 2, y + 2))
  }

  /** Of a sum and a number. */
  function Mean(w: (nat, nat)): nat {
    if w.1 == 0 then 0 else w.0 / w.1
  }

  lemma SamePixel(m: Bayer, b: Bayer, x: nat, y: nat)
    requires Whole(m) && Whole(b) && x < m.width && y < m.height && b.width == m.width + 4 && b.height == m.height + 4
    requires forall i, j :: 0 <= i < b.height && 0 <= j < b.width ==>
               b.rows[i][j] == m.rows[Into(i - 2, m.height)][Into(j - 2, m.width)]
    ensures DemosaicPixel(m, x, y) == DemosaicPixel(b, x + 2, y + 2)
  {
    var l, r := if x > 0 then x - 1 else 0, if x + 1 < m.width then x + 1 else m.width - 1;
    var u, d := if y > 0 then y - 1 else 0, if y + 1 < m.height then y + 1 else m.height - 1;
    assert Into(x - 1, m.width) == l && Into(x, m.width) == x && Into(x + 1, m.width) == r;
    assert Into(y - 1, m.height) == u && Into(y, m.height) == y && Into(y + 1, m.height) == d;
    hide Into;
    SameMix(m.rows[u], m.rows[y], m.rows[d], b.rows[y + 1], b.rows[y + 2], b.rows[y + 3], y % 2 == 0, l, x, r);
    assert (y + 2) % 2 == y % 2;
  }

  lemma SameMix(up: seq<Word>, row: seq<Word>, down: seq<Word>, up': seq<Word>, row': seq<Word>, down': seq<Word>,
                evenRow: bool, l: nat, x: nat, r: nat)
    requires l < |row| && x < |row| && r < |row| && |up| == |row| == |down|
    requires x + 3 < |row'| && |up'| == |row'| == |down'|
    requires up[l] == up'[x + 1] && up[x] == up'[x + 2] && up[r] == up'[x + 3]
    requires row[l] == row'[x + 1] && row[x] == row'[x + 2] && row[r] == row'[x + 3]
    requires down[l] == down'[x + 1] && down[x] == down'[x + 2] && down[r] == down'[x + 3]
    ensures Interpolated(up, row, down, evenRow, l, x, r) ==
              Interpolated(up', row', down', evenRow, x + 1, x + 2, x + 3)
  {
    hide Mean2, Mean4;
  }

  /** So the mean of a channel's colour in the window is what a pixel is everywhere, with the edge repeated. */
  lemma PixelIsMixed(m: Bayer, c: Colour, x: nat, y: nat)
    requires Whole(m) && x < m.width && y < m.height
    ensures Channel(DemosaicPixel(m, x, y), c) == Mixed(m, c, x, y)
  {
    hide DemosaicPixel, Window, Channel, ColourAt, Bordered, Into;
    var b := Bordered(m);
    forall i, j | 0 <= i < b.height && 0 <= j < b.width
      ensures b.rows[i][j] == m.rows[Into(i - 2, m.height)][Into(j - 2, m.width)]
    {
      BorderedRows(m, j, i);
    }
    SamePixel(m, b, x, y);
    Inside(m, c, x, y);
    MeanOfColour(b, c, x + 2, y + 2);
    BorderedRows(m, x + 2, y + 2);
  }

  lemma Inside(m: Bayer, c: Colour, x: nat, y: nat)
    requires x < m.width && y < m.height
    ensures KeepsColour(m.width + 4, m.height + 4, c, x + 2, y + 2) && ColourAt(x + 2, y + 2) == ColourAt(x, y)
    ensures Into(x, m.width) == x && Into(y, m.height) == y
  {}

  // ---------------------------------------------------------------- levels

  /** A mean in eight bits; the fused converter does not narrow it (`cut`). */
  function Level(v: nat, cut: bool): nat {
    if cut then (v + 2) / 4 % 256 else (v + 2) / 4
  }

  /** Red, green and blue at (x, y). */
  function Levels(m: Bayer, x: nat, y: nat, cut: bool): (nat, nat, nat)
    requires Whole(m) && x < m.width && y < m.height
  {
    (Level(Mixed(m, Red, x, y), cut), Level(Mixed(m, Green, x, y), cut), Level(Mixed(m, Blue, x, y), cut))
  }

  lemma LineShows(m: Bayer, x: nat, y: nat, cut: bool)
    requires Whole(m) && x < m.width && y < m.height
    ensures var p := Line(m, y, cut)[x]; (p.r, p.g, p.b) == Levels(m, x, y, cut)
  {
    hide Mixed, DemosaicPixel;
    PixelIsMixed(m, Red, x, y);
    PixelIsMixed(m, Green, x, y);
    PixelIsMixed(m, Blue, x, y);
  }

  /** Levels of ten-bit samples. */
  predicate TenBit(l: (nat, nat, nat)) {
    l.0 <= 256 && l.1 <= 256 && l.2 <= 256
  }

  /** The integer formulas follow BT.601 for all ten-bit samples. */
  lemma FollowsBt601(p: Tri)
    requires p.r <= 256 && p.g <= 256 && p.b <= 256
    ensures IsLuma(LumaOf(p), p.r, p.g, p.b) && IsChroma(ChromaOf(U, p), ChromaOf(V, p), p.r, p.g, p.b, 1)
  {
    hide *;
    LumaFollows(p);
    BlueFollows(p);
    RedFollows(p);
    Chroma(ChromaOf(U, p), ChromaOf(V, p), p);
  }

  lemma Chroma(u: int, v: int, p: Tri)
    requires Within(255000 * (u - 128) - (-37797 * p.r - 74203 * p.g + 112000 * p.b), 1)
    requires Within(255000 * (v - 128) - (112000 * p.r - 93786 * p.g - 18214 * p.b), 1)
    ensures IsChroma(u, v, p.r, p.g, p.b, 1)
  {}

  lemma LumaFollows(p: Tri)
    requires p.r <= 256 && p.g <= 256 && p.b <= 256
    ensures IsLuma(LumaOf(p), p.r, p.g, p.b)
  {
    Unclamped(66 * p.r + 129 * p.g + 25 * p.b + 128, 16);
  }

  lemma BlueFollows(p: Tri)
    requires p.r <= 256 && p.g <= 256 && p.b <= 256
    ensures Within(255000 * (ChromaOf(U, p) - 128) - (-37797 * p.r - 74203 * p.g + 112000 * p.b), 1)
  {
    Unclamped(-38 * p.r - 74 * p.g + 112 * p.b + 128, 128);
    hide Clamp;
  }

  lemma RedFollows(p: Tri)
    requires p.r <= 256 && p.g <= 256 && p.b <= 256
    ensures Within(255000 * (ChromaOf(V, p) - 128) - (112000 * p.r - 93786 * p.g - 18214 * p.b), 1)
  {
    Unclamped(112 * p.r - 94 * p.g - 18 * p.b + 128, 128);
    hide Clamp;
  }

  lemma Unclamped(a: int, bias: nat)
    requires bias <= 128 && -256 * bias <= a < 256 * (256 - bias)
    ensures Clamp(a / 256 + bias) == a / 256 + bias && 256 * (a / 256) <= a < 256 * (a / 256) + 256
  {}

  // ---------------------------------------------------------------- planes

  lemma {:induction false} RgbRow(m: Bayer, n: nat, cut: bool, y: nat, i: nat)
    requires Whole(m) && y < n <= m.height && i < 3 * m.width
    ensures ByteAt(RgbPlane(m, n, cut), 3 * m.width * y + i,
        RgbBytes(Line(m, y, cut))[i])
    decreases n
  {
    hide Line, RgbBytes;
    var a, b := RgbPlane(m, n - 1, cut), RgbBytes(Line(m, n - 1, cut));
    Thrice(m.width, n - 1);
    if y == n - 1 {
      InLastRow(a, b, 3 * m.width, y, i);
    } else {
      RgbRow(m, n - 1, cut, y, i);
      InEarlierRow(a, b, 3 * m.width * y + i, RgbBytes(Line(m, y, cut))[i]);
    }
  }

  lemma Thrice(w: nat, n: nat)
    ensures 3 * w * n == 3 * (w * n)
  {}

  lemma {:induction false} LumaRow(m: Bayer, n: nat, cut: bool, y: nat, i: nat)
    requires Whole(m) && y < n <= m.height && i < m.width
    ensures ByteAt(LumaPlane(m, n, cut), m.width * y + i,
        LumaBytes(Line(m, y, cut))[i])
    decreases n
  {
    hide Line, LumaBytes;
    var a, b := LumaPlane(m, n - 1, cut), LumaBytes(Line(m, n - 1, cut));
    if y == n - 1 {
      InLastRow(a, b, m.width, y, i);
    } else {
      LumaRow(m, n - 1, cut, y, i);
      InEarlierRow(a, b, m.width * y + i, LumaBytes(Line(m, y, cut))[i]);
    }
  }

  lemma {:induction false} ChromaRow(c: Plane, m: Bayer, n: nat, cut: bool, y: nat, i: nat)
    requires Whole(m) && y < n <= m.height / 2 && i < m.width / 2
    ensures ByteAt(ChromaPlane(c, m, n, cut), m.width / 2 * y + i,
        ChromaBytes(c, Line(m, 2 * y, cut), Line(m, 2 * y + 1, cut))[i])
    decreases n
  {
    hide Line, ChromaBytes;
    var a, b := ChromaPlane(c, m, n - 1, cut), ChromaBytes(c, Line(m, 2 * n - 2, cut), Line(m, 2 * n - 1, cut));
    if y == n - 1 {
      InLastRow(a, b, m.width / 2, y, i);
    } else {
      ChromaRow(c, m, n - 1, cut, y, i);
      InEarlierRow(a, b, m.width / 2 * y + i, ChromaBytes(c, Line(m, 2 * y, cut), Line(m, 2 * y + 1, cut))[i]);
    }
  }

  lemma {:induction false} ChromaAt(c: Plane, a: seq<Tri>, b: seq<Tri>, i: nat)
    requires |a| == |b| && |a| % 2 == 0 && i < |a| / 2
    ensures ChromaBytes(c, a, b)[i] == ChromaOf(c, Average(a[2 * i], a[2 * i + 1], b[2 * i], b[2 * i + 1]))
  {
    hide ChromaOf, Average;
    var n := |a| - 2;
    if i < n / 2 { ChromaAt(c, a[..n], b[..n], i); }
  }

  // ---------------------------------------------------------------- frames

  lemma RgbShows(m: Bayer, cut: bool, x: nat, y: nat)
    requires Whole(m) && x < m.width && y < m.height
    ensures var l := Levels(m, x, y, cut);
      RgbIs(RgbPlane(m, m.height, cut), 3 * m.width * y + 3 * x, (l.0 % 256, l.1 % 256, l.2 % 256))
  {
    hide Line, RgbBytes, RgbPlane, Levels;
    RgbRow(m, m.height, cut, y, 3 * x);
    RgbRow(m, m.height, cut, y, 3 * x + 1);
    RgbRow(m, m.height, cut, y, 3 * x + 2);
    RgbAt(Line(m, y, cut), x);
    LineShows(m, x, y, cut);
  }

  lemma LumaShows(m: Bayer, cut: bool, x: nat, y: nat)
    requires Whole(m) && x < m.width && y < m.height && TenBit(Levels(m, x, y, cut))
    ensures LumaIs(LumaPlane(m, m.height, cut), m.width * y + x, Levels(m, x, y, cut))
  {
    hide Line, LumaBytes, LumaPlane, Levels, LumaOf, IsLuma, IsChroma;
    LumaRow(m, m.height, cut, y, x);
    LumaAt(Line(m, y, cut), x);
    LineShows(m, x, y, cut);
    FollowsBt601(Line(m, y, cut)[x]);
  }

  /** The mean of four levels, cut. */
  function MeanOf(a: (nat, nat, nat), b: (nat, nat, nat), c: (nat, nat, nat), d: (nat, nat, nat)): (nat, nat, nat) {
    ((a.0 + b.0 + c.0 + d.0) / 4, (a.1 + b.1 + c.1 + d.1) / 4, (a.2 + b.2 + c.2 + d.2) / 4)
  }

  /** The mean of the two by two pixels at (2 x, 2 y). */
  function BlockLevels(m: Bayer, x: nat, y: nat, cut: bool): (nat, nat, nat)
    requires Whole(m) && 2 * x + 1 < m.width && 2 * y + 1 < m.height
  {
    MeanOf(Levels(m, 2 * x, 2 * y, cut), Levels(m, 2 * x + 1, 2 * y, cut),
        Levels(m, 2 * x, 2 * y + 1, cut), Levels(m, 2 * x + 1, 2 * y + 1, cut))
  }

  lemma BlockShows(m: Bayer, cut: bool, x: nat, y: nat)
    requires Whole(m) && 2 * x + 1 < m.width && 2 * y + 1 < m.height
    ensures var a, b := Line(m, 2 * y, cut), Line(m, 2 * y + 1, cut);
      var p := Average(a[2 * x], a[2 * x + 1], b[2 * x], b[2 * x + 1]);
      (p.r, p.g, p.b) == BlockLevels(m, x, y, cut)
  {
    hide Line, Levels;
    LineShows(m, 2 * x, 2 * y, cut);
    LineShows(m, 2 * x + 1, 2 * y, cut);
    LineShows(m, 2 * x, 2 * y + 1, cut);
    LineShows(m, 2 * x + 1, 2 * y + 1, cut);
  }

  lemma ChromaShows(m: Bayer, cut: bool, x: nat, y: nat)
    requires Whole(m) && 2 * x + 1 < m.width && 2 * y + 1 < m.height && TenBit(BlockLevels(m, x, y, cut))
    ensures ChromaIs(ChromaPlane(U, m, m.height / 2, cut), ChromaPlane(V, m, m.height / 2, cut), m.width / 2 * y + x,
        BlockLevels(m, x, y, cut), 1)
  {
    hide Line, ChromaBytes, ChromaPlane, BlockLevels, ChromaOf, IsLuma, IsChroma, Average;
    var a, b := Line(m, 2 * y, cut), Line(m, 2 * y + 1, cut);
    ChromaRow(U, m, m.height / 2, cut, y, x);
    ChromaRow(V, m, m.height / 2, cut, y, x);
    ChromaAt(U, a, b, x);
    ChromaAt(V, a, b, x);
    BlockShows(m, cut, x, y);
    FollowsBt601(Average(a[2 * x], a[2 * x + 1], b[2 * x], b[2 * x + 1]));
  }

  /** Where every pixel of a demosaiced frame ends up: its red, green and blue as three bytes in this order, its luma,
      and for every two by two pixels the blue difference of their mean in the U plane and the red one in the V plane.
      Buffers that are not wanted stay as they are. */
  lemma FrameShows(s: Planes, m: Bayer, cut: bool, withRgb: bool, withYuv: bool, x: nat, y: nat)
    requires Whole(m) && x < m.width && y < m.height
    ensures 2 * (x / 2) + 1 < m.width && 2 * (y / 2) + 1 < m.height
    ensures var d, l := Converted(s, m.rows, m.width, m.height, cut, withRgb, withYuv), Levels(m, x, y, cut);
      var b := BlockLevels(m, x / 2, y / 2, cut);
      && (if withRgb then RgbIs(d.rgb, 3 * m.width * y + 3 * x, (l.0 % 256, l.1 % 256, l.2 % 256)) else d.rgb == s.rgb)
      && (withYuv && TenBit(l) ==> LumaIs(d.luma, m.width * y + x, l))
      && (withYuv && TenBit(b) ==> ChromaIs(d.u, d.v, m.width / 2 * (y / 2) + x / 2, b, 1))
      && (withYuv || d == s.(rgb := d.rgb))
  {
    hide RgbPlane, LumaPlane, ChromaPlane, Levels, BlockLevels, RgbIs, LumaIs, ChromaIs, TenBit;
    Neighbours(x, m.width);
    Neighbours(y, m.height);
    RgbShows(m, cut, x, y);
    if TenBit(Levels(m, x, y, cut)) { LumaShows(m, cut, x, y); }
    if TenBit(BlockLevels(m, x / 2, y / 2, cut)) { ChromaShows(m, cut, x / 2, y / 2); }
  }

  /** Red is the first byte and stands at even rows and columns, blue is the third and stands at odd ones, green is
      between them and stands elsewhere: there a pixel shows its own sample. */
  lemma SampleShows(s: Planes, m: Bayer, cut: bool, withYuv: bool, x: nat, y: nat)
    requires Whole(m) && x < m.width && y < m.height
    ensures ByteAt(Converted(s, m.rows, m.width, m.height, cut, true, withYuv).rgb,
        3 * m.width * y + 3 * x + if x % 2 == y % 2 then if x % 2 == 0 then 0 else 2 else 1,
        Level(m.rows[y][x], true))
  {
    hide Levels, Level, RgbPlane;
    Neighbours(x, m.width);
    Neighbours(y, m.height);
    RgbShows(m, cut, x, y);
    OwnSample(m, cut, x, y);
  }

  lemma OwnSample(m: Bayer, cut: bool, x: nat, y: nat)
    requires Whole(m) && x < m.width && y < m.height
    ensures var l, v := Levels(m, x, y, cut), Level(m.rows[y][x], true);
      && (x % 2 == 0 && y % 2 == 0 ==> l.0 % 256 == v)
      && (x % 2 == 1 && y % 2 == 1 ==> l.2 % 256 == v)
      && (x % 2 != y % 2 ==> l.1 % 256 == v)
  {
    hide Window, Mean, Bordered;
  }
}
