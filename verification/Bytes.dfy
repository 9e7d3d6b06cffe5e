/** Bytes and the numbers stored in them. */
module Bytes {

  type Byte = bv8

  const TWO32: nat := 0x1_0000_0000

  /** The low byte of a number. */
  function Low(n: nat): Byte {
    (n % 256) as bv8
  }

  /** Little-endian fields of two and four bytes; what does not fit is cut off. */
  function Le16(n: nat): seq<Byte> {
    [Low(n), Low(n / 256)]
  }

  function Le32(n: nat): seq<Byte> {
    Le16(n) + Le16(n / 65536)
  }

  /** A big-endian field of four bytes. */
  function Be32(n: nat): seq<Byte> {
    [Low(n / 65536 / 256), Low(n / 65536), Low(n / 256), Low(n)]
  }

  function Num8(b: Byte): nat {
    b as nat
  }

  function Num16(a: Byte, b: Byte): nat {
    Num8(a) + 256 * Num8(b)
  }

  function Num32(b: seq<Byte>): nat
    requires |b| == 4
  {
    Num16(b[0], b[1]) + 65536 * Num16(b[2], b[3])
  }

  lemma Increment(x: bv8)
    requires x != 255
    ensures (x + 1) as nat == x as nat + 1
  {}

  lemma Largest(x: bv8)
    ensures x as nat == 255 <==> x == 255
  {}

  lemma {:induction false} ByteExists(m: nat) returns (b: bv8)
    requires m < 256
    ensures b as nat == m
  {
    if m == 0 {
      b := 0;
    } else {
      var c := ByteExists(m - 1);
      Largest(c);
      Increment(c);
      b := c + 1;
    }
  }

  lemma NumberRoundTrip(b: bv8)
    ensures b as nat < 256 && (b as nat) as bv8 == b
  {}

  lemma ByteRoundTrip(m: nat)
    requires m < 256
    ensures (m as bv8) as nat == m
  {
    var b := ByteExists(m);
    NumberRoundTrip(b);
  }

  lemma LowIsByte(n: nat)
    ensures Num8(Low(n)) == n % 256
  {
    ByteRoundTrip(n % 256);
  }

  lemma LowOfByte(b: Byte)
    ensures Low(Num8(b)) == b && Num8(b) < 256
  {
    NumberRoundTrip(b);
  }

  /** Which byte of a field has which weight: 1, 256, 65536 and 16777216, from the front or from the back. */
  lemma Weights(n: nat)
    ensures |Le16(n)| == 2 && |Le32(n)| == |Be32(n)| == 4
    ensures Num8(Le16(n)[0]) == n % 256 && Num8(Le16(n)[1]) == n / 256 % 256
    ensures forall k :: 0 <= k < 4 ==>
        Num8(Le32(n)[k]) == Num8(Be32(n)[3 - k]) == n / [1, 256, 65536, 16777216][k] % 256
  {
    LowIsByte(n);
    LowIsByte(n / 256);
    LowIsByte(n / 65536);
    LowIsByte(n / 65536 / 256);
    hide Low, Num8;
    Shifts(n);
    var le, be, w := Le32(n), Be32(n), [1, 256, 65536, 16777216];
    forall k | 0 <= k < 4 ensures Num8(le[k]) == Num8(be[3 - k]) == n / w[k] % 256 {
      if k < 2 { assert k == 0 || k == 1; } else { assert k == 2 || k == 3; }
    }
  }

  lemma Shifts(n: nat)
    ensures n / 65536 / 256 == n / 16777216 && n / 1 == n
  {}

  lemma Quotient(n: nat, q: nat, r: nat)
    requires n == 65536 * q + r && r < 65536
    ensures n / 65536 == q && n % 65536 == r
  {}

  lemma Digits(n: nat)
    ensures n % 256 + 256 * (n / 256 % 256) == n % 65536
  {
    var a := n / 256;
    var r, q, d := n % 256, a / 256, a % 256;
    assert n == 256 * a + r && a == 256 * q + d;
    Quotient(n, q, r + 256 * d);
  }

  lemma Num16Le16(n: nat)
    ensures |Le16(n)| == 2 && Num16(Le16(n)[0], Le16(n)[1]) == n % 65536
  {
    LowIsByte(n);
    LowIsByte(n / 256);
    Digits(n);
    hide Low;
    assert Num16(Le16(n)[0], Le16(n)[1]) == n % 256 + 256 * (n / 256 % 256);
  }

  lemma HighDigit(n: nat)
    requires n < TWO32
    ensures n / 65536 < 65536 && n == n % 65536 + 65536 * (n / 65536)
  {}

  lemma SmallRemainder(m: nat)
    requires m < 65536
    ensures m % 65536 == m
  {}

  lemma Num32Le32(n: nat)
    requires n < TWO32
    ensures |Le32(n)| == 4 && Num32(Le32(n)) == n
  {
    Num16Le16(n);
    Num16Le16(n / 65536);
    HighDigit(n);
    SmallRemainder(n / 65536);
    var b, lo, hi := Le32(n), Le16(n), Le16(n / 65536);
    assert b[0] == lo[0] && b[1] == lo[1] && b[2] == hi[0] && b[3] == hi[1];
    hide Num16, Le16;
  }

  lemma Num16Bound(a: Byte, b: Byte)
    ensures Num16(a, b) < 65536
  {
    LowOfByte(a);
    LowOfByte(b);
  }

  lemma Le16Num16(a: Byte, b: Byte)
    ensures Le16(Num16(a, b)) == [a, b] && Num16(a, b) < 65536
  {
    hide Num8, Low;
    LowOfByte(a);
    LowOfByte(b);
    TwoDigits(Num8(a), Num8(b));
    LowOf(Num16(a, b), Num8(a));
  }

  lemma TwoDigits(x: nat, y: nat)
    requires x < 256 && y < 256
    ensures (x + 256 * y) % 256 == x && (x + 256 * y) / 256 == y && x + 256 * y < 65536
  {}

  lemma LowOf(n: nat, x: nat)
    requires n % 256 == x
    ensures Low(n) == Low(x)
  {}
}
