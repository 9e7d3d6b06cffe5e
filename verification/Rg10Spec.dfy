/** Quarter-size conversion of 10-bit Bayer frames (package/aloe/rg10_rgb8_i420_v4.cpp): which samples make an
    output pixel, its luma and chroma, and the SSE2 lane arithmetic that computes the same. */
module Rg10Spec {
  import opened Buffers

  /** rg10_u8 */
  function Sample(v: Word): U8 {
    v / 4 % 256
  }

  /** Division as C does it: the quotient is cut towards zero. */
  function Quot(a: int, b: int): int
    requires b > 0
  {
    if a >= 0 then a / b else -(-a / b)
  }

  datatype Px = Px(r: U8, g: U8, b: U8)

  function LumaOf(p: Px): int {
    Quot(66 * p.r + 129 * p.g + 25 * p.b + 128, 256) + 16
  }

  function UOf(p: Px): int {
    Quot(-38 * p.r - 74 * p.g + 112 * p.b + 128, 256) + 128
  }

  function VOf(p: Px): int {
    Quot(112 * p.r - 94 * p.g - 18 * p.b + 128, 256) + 128
  }

  /** The clamps of v5 never act, and the results of v6 fit a byte without them. */
  lemma YuvRange(p: Px)
    ensures 16 <= LumaOf(p) <= 235 && 17 <= UOf(p) <= 240 && 17 <= VOf(p) <= 240
  {
    Bounds(66 * p.r + 129 * p.g + 25 * p.b + 128, 0, 219);
    Bounds(-38 * p.r - 74 * p.g + 112 * p.b + 128, -111, 112);
    Bounds(112 * p.r - 94 * p.g - 18 * p.b + 128, -111, 112);
  }

  lemma Bounds(a: int, lo: int, hi: int)
    requires lo <= 0 <= hi && 256 * lo - 255 <= a <= 256 * hi + 255
    ensures lo <= Quot(a, 256) <= hi
  {}

  // ---------------------------------------------------------------- pixels of a frame

  /** Every row has at least `width` samples. */
  predicate Framed(src: Rows, width: nat, height: nat) {
    |src| == height && forall i :: 0 <= i < height ==> |src[i]| >= width
  }

  /** The output pixel at (x, y): R and G from the first row of its 4 x 4 square, B from the second. */
  function PixelAt(src: Rows, y: nat, x: nat): Px
    requires 4 * y + 1 < |src| && 4 * x + 1 < |src[4 * y]| && 4 * x + 1 < |src[4 * y + 1]|
  {
    Px(Sample(src[4 * y][4 * x]), Sample(src[4 * y][4 * x + 1]), Sample(src[4 * y + 1][4 * x + 1]))
  }

  predicate Fits(src: Rows, y: nat, n: nat) {
    4 * y + 1 < |src| && 4 * n <= |src[4 * y]| && 4 * n <= |src[4 * y + 1]|
  }

  // ---------------------------------------------------------------- bytes of pixels

  function RgbBytes(ps: seq<Px>): (r: seq<U8>)
    ensures |r| == 3 * |ps|
  {
    if ps == [] then [] else RgbBytes(ps[..|ps| - 1]) + [ps[|ps| - 1].r, ps[|ps| - 1].g, ps[|ps| - 1].b]
  }

  function LumaBytes(ps: seq<Px>): (r: seq<U8>)
    ensures |r| == |ps|
  {
    if ps == [] then [] else LumaBytes(ps[..|ps| - 1]) + [Clamp(LumaOf(ps[|ps| - 1]))]
  }

  function ChromaOf(c: Plane, p: Px): int {
    if c == U then UOf(p) else VOf(p)
  }

  /** Chroma of every second pixel. */
  function ChromaBytes(c: Plane, ps: seq<Px>): (r: seq<U8>)
    ensures |r| == |ps| / 2
  {
    seq(|ps| / 2, i requires 0 <= i < |ps| / 2 => Clamp(ChromaOf(c, ps[2 * i + 1])))
  }

  // ---------------------------------------------------------------- whole planes

  /** Gains as lookup tables; the unit gains leave everything as it is. */
  datatype Gains = Unit | Tables(r: seq<U8>, g: seq<U8>, b: seq<U8>)

  predicate Usable(t: Gains) {
    t.Tables? ==> |t.r| == |t.g| == |t.b| == 256
  }

  function Adjust(t: Gains, p: Px): Px
    requires Usable(t)
  {
    if t.Unit? then p else Px(t.r[p.r], t.g[p.g], t.b[p.b])
  }

  predicate FitsAll(src: Rows, h: nat, w: nat) {
    forall y :: 0 <= y < h ==> Fits(src, y, w)
  }

  /** An output row after the gains. */
  function Line(src: Rows, y: nat, w: nat, t: Gains): (r: seq<Px>)
    requires Fits(src, y, w) && Usable(t)
    ensures |r| == w
  {
    seq(w, x requires 0 <= x < w && Fits(src, y, w) && Usable(t) => Adjust(t, PixelAt(src, y, x)))
  }

  /** The first `h` rows of each buffer; chroma comes from the odd rows. */
  function RgbPlane(src: Rows, h: nat, w: nat, t: Gains): seq<U8>
    requires FitsAll(src, h, w) && Usable(t)
  {
    if h == 0 then [] else RgbPlane(src, h - 1, w, t) + RgbBytes(Line(src, h - 1, w, t))
  }

  function LumaPlane(src: Rows, h: nat, w: nat, t: Gains): seq<U8>
    requires FitsAll(src, h, w) && Usable(t)
  {
    if h == 0 then [] else LumaPlane(src, h - 1, w, t) + LumaBytes(Line(src, h - 1, w, t))
  }

  function ChromaPlane(c: Plane, src: Rows, h: nat, w: nat, t: Gains): seq<U8>
    requires FitsAll(src, h, w) && Usable(t)
  {
    if h == 0 then [] else ChromaPlane(c, src, h - 1, w, t) + if h % 2 == 0
        then ChromaBytes(c, Line(src, h - 1, w, t)) else []
  }

  // ---------------------------------------------------------------- SSE2 lanes

  /** Two 16-bit words in a 32-bit lane. */
  function Pack(lo: Word, hi: Word): nat {
    var l: nat := lo;
    l + 65536 * hi
  }

  /** _mm_loadu_si128 as four 32-bit lanes, the lower word first. */
  function Load(s: seq<Word>, i: nat): (v: seq<nat>)
    requires i + 8 <= |s|
    ensures |v| == 4
  {
    [Pack(s[i], s[i + 1]), Pack(s[i + 2], s[i + 3]), Pack(s[i + 4], s[i + 5]), Pack(s[i + 6], s[i + 7])]
  }

  /** _mm_shuffle_epi32 with _MM_SHUFFLE(2, 0, 2, 0). */
  function Shuffle2020(v: seq<nat>): (r: seq<nat>)
    requires |v| == 4
    ensures |r| == 4
  {
    [v[0], v[2], v[0], v[2]]
  }

  /** _mm_unpacklo_epi64 */
  function UnpackLow64(a: seq<nat>, b: seq<nat>): (r: seq<nat>)
    requires |a| == |b| == 4
    ensures |r| == 4
  {
    [a[0], a[1], b[0], b[1]]
  }

  /** rg10_v6_pairs */
  function Pairs(s: seq<Word>, i: nat): (r: seq<nat>)
    requires i + 16 <= |s|
    ensures |r| == 4
  {
    UnpackLow64(Shuffle2020(Load(s, i)), Shuffle2020(Load(s, i + 8)))
  }

  /** One lane of a 32-bit shift and mask. */
  function ShiftMask(w: nat, shift: nat): nat
    requires shift == 2 || shift == 18
  {
    (if shift == 2 then w / 4 else w / 262144) % 256
  }

  /** _mm_packs_epi32 and _mm_packus_epi16 on one lane: saturation to 16 and to 8 bits. */
  function Saturated(w: nat): U8 {
    var h := if w > 32767 then 32767 else w;
    if h > 255 then 255 else h
  }

  /** rg10_v6_channel */
  function Channel(a: seq<nat>, b: seq<nat>, shift: nat): (r: seq<U8>)
    requires |a| == |b| == 4 && (shift == 2 || shift == 18)
    ensures |r| == 8
  {
    [Saturated(ShiftMask(a[0], shift)), Saturated(ShiftMask(a[1], shift)), Saturated(ShiftMask(a[2], shift)),
     Saturated(ShiftMask(a[3], shift)), Saturated(ShiftMask(b[0], shift)), Saturated(ShiftMask(b[1], shift)),
     Saturated(ShiftMask(b[2], shift)), Saturated(ShiftMask(b[3], shift))]
  }

  lemma LanePair(lo: Word, hi: Word)
    ensures Saturated(ShiftMask(Pack(lo, hi), 2)) == Sample(lo)
    ensures Saturated(ShiftMask(Pack(lo, hi), 18)) == Sample(hi)
  {
    LowLane(lo, hi);
    HighLane(lo, hi);
  }

  lemma Remainder(n: nat, q: nat, r: nat)
    requires n == 256 * q + r && r < 256
    ensures n % 256 == r
  {}

  lemma Quotient4(n: nat, q: nat, r: nat)
    requires n == 4 * q + r && r < 4
    ensures n / 4 == q
  {}

  lemma LowLane(lo: Word, hi: Word)
    ensures Pack(lo, hi) / 4 % 256 == lo / 4 % 256
  {
    var q, r := lo / 4, lo % 4;
    Quotient4(Pack(lo, hi), q + 16384 * hi, r);
    Remainder(q + 16384 * hi, q / 256 + 64 * hi, q % 256);
  }

  lemma HighLane(lo: Word, hi: Word)
    ensures Pack(lo, hi) / 262144 % 256 == hi / 4 % 256
  {
    var q, r := hi / 4, hi % 4;
    assert hi == 4 * q + r;
    assert lo + 65536 * hi == 262144 * q + (65536 * r + lo) && 65536 * r + lo < 262144;
    assert (lo + 65536 * hi) / 262144 == q;
  }

  /** The eight lanes of a channel are the samples four apart: the first of each square for shift 2, the second
      for shift 18. */
  lemma ChannelIsSamples(s: seq<Word>, i: nat)
    requires i + 32 <= |s|
    ensures var a, b := Pairs(s, i), Pairs(s, i + 16);
      forall k :: 0 <= k < 8 ==>
        Channel(a, b, 2)[k] == Sample(s[i + 4 * k]) && Channel(a, b, 18)[k] == Sample(s[i + 4 * k + 1])
  {
    hide Saturated, ShiftMask, Sample, Pack;
    LanePair(s[i], s[i + 1]);
    LanePair(s[i + 4], s[i + 5]);
    LanePair(s[i + 8], s[i + 9]);
    LanePair(s[i + 12], s[i + 13]);
    LanePair(s[i + 16], s[i + 17]);
    LanePair(s[i + 20], s[i + 21]);
    LanePair(s[i + 24], s[i + 25]);
    LanePair(s[i + 28], s[i + 29]);
  }

  /** rgb_y_sse2_8 on one lane, in arithmetic modulo 65536 with saturation at the end. */
  function LumaLane(p: Px): U8 {
    var sum := (p.r * 66 % 65536 + p.g * 129 % 65536) % 65536;
    var sum2 := (sum + p.b * 25 % 65536) % 65536;
    var sum3 := (sum2 + 128) % 65536;
    var h := (sum3 / 256 + 16) % 65536;
    if h > 32767 then 0 else if h > 255 then 255 else h
  }

  /** The 16-bit arithmetic never wraps. */
  lemma LumaLaneIsLuma(p: Px)
    ensures LumaLane(p) == LumaOf(p) == Clamp(LumaOf(p))
  {
    hide LumaOf, LumaLane;
    YuvRange(p);
    LumaSum(p);
    LaneSum(p, p.r * 66, p.g * 129, p.b * 25);
  }

  lemma LaneSum(p: Px, a: nat, b: nat, c: nat)
    requires a == p.r * 66 && b == p.g * 129 && c == p.b * 25
    ensures LumaLane(p) == (a + b + c + 128) / 256 + 16
  {
    NoWrap(a);
    NoWrap(b);
    NoWrap(c);
    NoWrap(a + b);
    NoWrap(a + b + c);
    NoWrap(a + b + c + 128);
    NoWrap((a + b + c + 128) / 256 + 16);
  }

  lemma LumaSum(p: Px)
    ensures LumaOf(p) == (p.r * 66 + p.g * 129 + p.b * 25 + 128) / 256 + 16
  {}

  lemma NoWrap(n: nat)
    requires n < 65536
    ensures n % 65536 == n
  {}
}
