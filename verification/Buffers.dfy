/** Output buffers of the image converters of package/aloe: bytes written in place, and what that makes of their
    contents. */
module Buffers {

  type U8 = x: int | 0 <= x < 256

  /** Samples are 16-bit words, of which the upper bits may hold anything. */
  type Word = x: int | 0 <= x < 65536

  type Rows = seq<seq<Word>>

  function Clamp(v: int): U8 {
    if v > 255 then 255 else if v < 0 then 0 else v
  }

  /** The two chroma planes. */
  datatype Plane = U | V

  /** `s` with `b` written at `at`. */
  function Splice(s: seq<U8>, at: nat, b: seq<U8>): (r: seq<U8>)
    requires at + |b| <= |s|
    ensures |r| == |s|
  {
    s[..at] + b + s[at + |b|..]
  }

  lemma SpliceJoin(s: seq<U8>, at: nat, a: seq<U8>, b: seq<U8>)
    requires at + |a| + |b| <= |s|
    ensures Splice(Splice(s, at, a), at + |a|, b) == Splice(s, at, a + b)
  {}

  lemma SpliceSwap(s: seq<U8>, p: nat, a: seq<U8>, q: nat, b: seq<U8>)
    requires p + |a| <= q && q + |b| <= |s|
    ensures Splice(Splice(s, p, a), q, b) == Splice(Splice(s, q, b), p, a)
  {}

  lemma SpliceNothing(s: seq<U8>, at: nat)
    requires at <= |s|
    ensures Splice(s, at, []) == s
  {}

  method Store(buf: array<U8>, at: nat, b: seq<U8>)
    requires at + |b| <= buf.Length
    modifies buf
    ensures buf[..] == Splice(old(buf[..]), at, b)
  {
    forall j | 0 <= j < |b| {
      buf[at + j] := b[j];
    }
  }

  /** What the buffers hold. */
  datatype Planes = Planes(rgb: seq<U8>, luma: seq<U8>, u: seq<U8>, v: seq<U8>)

  class Out {
    const rgb: array<U8>
    const luma: array<U8>
    const u: array<U8>
    const v: array<U8>

    constructor (rgb: array<U8>, luma: array<U8>, u: array<U8>, v: array<U8>)
      requires rgb != luma && rgb != u && rgb != v && luma != u && luma != v && u != v
      ensures this.rgb == rgb && this.luma == luma && this.u == u && this.v == v && Apart()
    {
      this.rgb, this.luma, this.u, this.v := rgb, luma, u, v;
    }

    /** The buffers do not overlap. */
    predicate Apart() {
      rgb != luma && rgb != u && rgb != v && luma != u && luma != v && u != v
    }

    ghost function Snap(): Planes
      reads rgb, luma, u, v
    {
      Planes(rgb[..], luma[..], u[..], v[..])
    }
  }

  function PlaneOf(s: Planes, c: Plane): seq<U8> {
    if c == U then s.u else s.v
  }

  /** A buffer that has been filled from the front, and the next piece. */
  lemma Rebuild(buf: seq<U8>, done: seq<U8>, b: seq<U8>)
    requires |done| + |b| <= |buf|
    ensures Splice(done + buf[|done|..], |done|, b) == (done + b) + buf[|done + b|..]
  {
    var rest := buf[|done|..];
    assert rest[|b|..] == buf[|done| + |b|..];
    assert Splice(done + rest, |done|, b) == done + b + rest[|b|..];
  }

  lemma Distribute(a: int, b: int, c: int)
    ensures a * (b + c) == a * b + a * c
  {}

  lemma NotNegative(a: nat, b: nat)
    ensures a * b >= 0
  {}

  lemma Times(a: nat, y: nat, h: nat)
    requires y < h
    ensures a * y + a <= a * h && a * (y + 1) == a * y + a
  {
    Distribute(a, y + 1, h - y - 1);
    Distribute(a, y, 1);
    NotNegative(a, h - y - 1);
    assert a * 1 == a;
  }

  /** The byte at `i` of a plane. */
  predicate ByteAt(d: seq<U8>, i: int, v: int) {
    0 <= i < |d| && d[i] == v
  }

  /** A plane whose rows are `n` bytes long: the byte at `i` of the last row, and of one before it. */
  lemma InLastRow(a: seq<U8>, b: seq<U8>, n: nat, y: nat, i: nat)
    requires |a| == n * y && |b| == n && i < n
    ensures |a + b| == n * (y + 1) && ByteAt(a + b, n * y + i, b[i])
  {
    NotNegative(n, y);
    Distribute(n, y, 1);
  }

  lemma InEarlierRow(a: seq<U8>, b: seq<U8>, i: int, v: int)
    requires ByteAt(a, i, v)
    ensures ByteAt(a + b, i, v)
  {}
}
