/** CRC-32 as package/aloe/util.cpp:435-450 and package/cc1352-flash/cc1352-flash.c:165-174 compute it. */
module Crc {
  import opened Bytes

  const POLY: bv32 := 0xEDB88320

  function Not(c: bv32): bv32 {
    c ^ 0xFFFF_FFFF
  }

  /** One bit of the register. */
  function StepBit(c: bv32): bv32 {
    if c & 1 == 1 then (c >> 1) ^ POLY else c >> 1
  }

  function Bits(c: bv32, n: nat): bv32
    decreases n
  {
    if n == 0 then c else Bits(StepBit(c), n - 1)
  }

  function Mix(c: bv32, b: Byte): bv32 {
    c ^ (b as bv32)
  }

  function ByteStep(c: bv32, b: Byte): bv32 {
    Bits(Mix(c, b), 8)
  }

  /** The register after some bytes. */
  function Update(c: bv32, data: seq<Byte>): bv32
    decreases |data|
  {
    if data == [] then c else Update(ByteStep(c, data[0]), data[1..])
  }

  /** What aloe_crc32 returns. */
  function Crc32(data: seq<Byte>, seed: bv32): bv32 {
    Not(Update(Not(seed), data))
  }

  // ---------------------------------------------------------------- the two loops

  /** aloe_crc32 */
  method AloeCrc32(data: seq<Byte>, seed: bv32) returns (cksum: bv32)
    ensures cksum == Crc32(data, seed)
  {
    hide StepBit, Mix, Not;
    cksum := Not(seed);
    var p := 0;
    assert data[0..] == data;
    while p < |data|
      invariant p <= |data| && Update(cksum, data[p..]) == Update(Not(seed), data)
    {
      ghost var c0 := cksum;
      cksum := Mix(cksum, data[p]);
      ghost var c1 := cksum;
      var i := 0;
      while i < 8
        invariant i <= 8 && Bits(cksum, 8 - i) == Bits(c1, 8)
      {
        cksum := BranchStep(cksum);
        i := i + 1;
      }
      assert data[p..][0] == data[p] && data[p..][1..] == data[p + 1..];
      p := p + 1;
    }
    cksum := Not(cksum);
  }

  /** The branch of aloe_crc32's inner loop. */
  method BranchStep(c: bv32) returns (r: bv32)
    ensures r == StepBit(c)
  {
    if c & 1 != 0 {
      r := (c >> 1) ^ 0xEDB88320;
    } else {
      LowBit(c);
      r := c >> 1;
    }
  }

  lemma LowBit(c: bv32)
    ensures c & 1 == 0 || c & 1 == 1
  {}

  /** The flasher's step without a branch. */
  function Branchless(c: bv32): bv32 {
    (c >> 1) ^ (0xEDB88320 & (0 - (c & 1)))
  }

  lemma BranchlessStep(c: bv32)
    ensures Branchless(c) == StepBit(c)
  {
    LowBit(c);
    if c & 1 == 1 {
      assert (0 as bv32) - 1 == 0xFFFF_FFFF;
    }
  }

  /** The flasher's crc32 is aloe_crc32 with seed 0. */
  method FlasherCrc32(data: seq<Byte>) returns (crc: bv32)
    ensures crc == Crc32(data, 0)
  {
    crc := 0xFFFF_FFFF;
    assert Not(0) == 0xFFFF_FFFF;
    hide StepBit, Branchless, Mix;
    var p := 0;
    assert data[0..] == data;
    while p < |data|
      invariant p <= |data| && Update(crc, data[p..]) == Update(Not(0), data)
    {
      crc := Mix(crc, data[p]);
      ghost var c1 := crc;
      var i := 0;
      while i < 8
        invariant i <= 8 && Bits(crc, 8 - i) == Bits(c1, 8)
      {
        BranchlessStep(crc);
        crc := Branchless(crc);
        i := i + 1;
      }
      assert data[p..][0] == data[p] && data[p..][1..] == data[p + 1..];
      p := p + 1;
    }
    crc := Not(crc);
  }

  // ---------------------------------------------------------------- chaining

  lemma NotNot(c: bv32)
    ensures Not(Not(c)) == c
  {}

  lemma {:induction false} UpdateChains(c: bv32, a: seq<Byte>, b: seq<Byte>)
    ensures Update(c, a + b) == Update(Update(c, a), b)
    decreases |a|
  {
    hide ByteStep;
    if a == [] {
      assert a + b == b;
    } else {
      assert (a + b)[1..] == a[1..] + b;
      UpdateChains(ByteStep(c, a[0]), a[1..], b);
    }
  }

  /** Checksumming two pieces one after the other is checksumming them together. */
  lemma Chaining(a: seq<Byte>, b: seq<Byte>, seed: bv32)
    ensures Crc32(b, Crc32(a, seed)) == Crc32(a + b, seed)
  {
    hide Not, Update;
    NotNot(Update(Not(seed), a));
    UpdateChains(Not(seed), a, b);
  }

  // ---------------------------------------------------------------- every step is a bijection

  function UnstepBit(c: bv32): bv32 {
    if c & 0x8000_0000 != 0 then ((c ^ POLY) << 1) | 1 else c << 1
  }

  lemma HalfUp(c: bv32)
    ensures (c & 0x8000_0000 == 0) ==> (c << 1) >> 1 == c
    ensures (c << 1) & 1 == 0
    ensures ((c << 1) | 1) & 1 == 1
  {}

  lemma HalfUpOdd(c: bv32)
    ensures (c & 0x8000_0000 == 0) ==> ((c << 1) | 1) >> 1 == c
  {}

  lemma HalfDown(c: bv32)
    ensures (c >> 1) & 0x8000_0000 == 0
    ensures c & 1 == 0 ==> (c >> 1) << 1 == c
    ensures c & 1 == 1 ==> ((c >> 1) << 1) | 1 == c
  {}

  lemma TopBit(c: bv32)
    ensures c & 0x8000_0000 == 0 <==> (c ^ POLY) & 0x8000_0000 != 0
    ensures (c ^ POLY) ^ POLY == c
  {}

  lemma StepBitBijective(c: bv32)
    ensures UnstepBit(StepBit(c)) == c && StepBit(UnstepBit(c)) == c
  {
    LowBit(c);
    HalfDown(c);
    TopBit(c >> 1);
    TopBit(c);
    HalfUp(c);
    HalfUp(c ^ POLY);
    HalfUpOdd(c ^ POLY);
  }

  lemma {:induction false} BitsInjective(a: bv32, b: bv32, n: nat)
    requires Bits(a, n) == Bits(b, n)
    ensures a == b
    decreases n
  {
    if n > 0 {
      BitsInjective(StepBit(a), StepBit(b), n - 1);
      StepBitBijective(a);
      StepBitBijective(b);
      hide StepBit, UnstepBit;
    }
  }

  lemma MixInjective(a: bv32, b: bv32, x: Byte)
    requires Mix(a, x) == Mix(b, x)
    ensures a == b
  {
    var y := x as bv32;
    assert (a ^ y) ^ y == a && (b ^ y) ^ y == b;
  }

  lemma MixInjectiveInByte(c: bv32, x: Byte, y: Byte)
    requires Mix(c, x) == Mix(c, y)
    ensures x == y
  {
    assert Mix(c, x) ^ c == x as bv32 && Mix(c, y) ^ c == y as bv32;
  }

  lemma ByteStepInjective(c: bv32, d: bv32, x: Byte, y: Byte)
    requires ByteStep(c, x) == ByteStep(d, y)
    ensures x == y ==> c == d
    ensures c == d ==> x == y
  {
    hide Bits, Mix;
    BitsInjective(Mix(c, x), Mix(d, y), 8);
    if x == y { MixInjective(c, d, x); }
    if c == d { MixInjectiveInByte(c, x, y); }
  }

  /** Different registers stay different over the same bytes. */
  lemma {:induction false} UpdateInjective(c: bv32, d: bv32, data: seq<Byte>)
    requires Update(c, data) == Update(d, data)
    ensures c == d
    decreases |data|
  {
    if data != [] {
      UpdateInjective(ByteStep(c, data[0]), ByteStep(d, data[0]), data[1..]);
      ByteStepInjective(c, d, data[0], data[0]);
    }
  }

  /** Two inputs of the same length that differ in exactly one byte never share a CRC. */
  lemma OneByteDiffers(a: seq<Byte>, i: nat, x: Byte, seed: bv32)
    requires i < |a| && a[i] != x
    ensures Crc32(a[i := x], seed) != Crc32(a, seed)
  {
    var b := a[i := x];
    var c := Update(Not(seed), a[..i]);
    assert a == a[..i] + a[i..] && b == a[..i] + b[i..];
    assert a[i..] == [a[i]] + a[i + 1..] && b[i..] == [x] + a[i + 1..];
    UpdateChains(Not(seed), a[..i], a[i..]);
    UpdateChains(Not(seed), a[..i], b[i..]);
    assert Update(Not(seed), a) == Update(ByteStep(c, a[i]), a[i + 1..]);
    assert Update(Not(seed), b) == Update(ByteStep(c, x), a[i + 1..]);
    hide ByteStep, Update;
    if Crc32(b, seed) == Crc32(a, seed) {
      NotNot(Update(Not(seed), a));
      NotNot(Update(Not(seed), b));
      hide Not;
      UpdateInjective(ByteStep(c, a[i]), ByteStep(c, x), a[i + 1..]);
      ByteStepInjective(c, c, a[i], x);
    }
  }

  // ---------------------------------------------------------------- the check value

  lemma EightSteps(c: bv32)
    ensures Bits(c, 8) == StepBit(StepBit(StepBit(StepBit(StepBit(StepBit(StepBit(StepBit(c))))))))
  {
    hide StepBit;
    var d := StepBit(StepBit(StepBit(StepBit(c))));
    assert Bits(c, 8) == Bits(StepBit(c), 7) == Bits(StepBit(StepBit(c)), 6) == Bits(StepBit(StepBit(StepBit(c))), 5);
    assert Bits(d, 4) == Bits(StepBit(d), 3) == Bits(StepBit(StepBit(d)), 2) == Bits(StepBit(StepBit(StepBit(d))), 1);
  }

  lemma NextByte(data: seq<Byte>, k: nat, c: bv32, r: bv32)
    requires k < |data| && StepBit(StepBit(StepBit(StepBit(StepBit(StepBit(StepBit(StepBit(Mix(c, data[k]))))))))) == r
    ensures Update(c, data[k..]) == Update(r, data[k + 1..])
  {
    EightSteps(Mix(c, data[k]));
    hide StepBit, Mix, Bits;
    assert data[k..][1..] == data[k + 1..];
  }

  /** It is the CRC-32 that catalogues call ISO-HDLC: the checksum of the digits 1 to 9 is the published one. */
  lemma CheckValue()
    ensures Crc32([0x31, 0x32, 0x33, 0x34, 0x35, 0x36, 0x37, 0x38, 0x39], 0) == 0xCBF43926
  {
    hide Update;
    var d := [0x31, 0x32, 0x33, 0x34, 0x35, 0x36, 0x37, 0x38, 0x39];
    NextByte(d, 0, 0xFFFFFFFF, 0x7C231048);
    NextByte(d, 1, 0x7C231048, 0xB0ACBB32);
    NextByte(d, 2, 0xB0ACBB32, 0x77B79C2D);
    NextByte(d, 3, 0x77B79C2D, 0x641C1F5C);
    NextByte(d, 4, 0x641C1F5C, 0x340AC5E3);
    NextByte(d, 5, 0x340AC5E3, 0xF68D2C9E);
    NextByte(d, 6, 0xF68D2C9E, 0xAFFC9660);
    NextByte(d, 7, 0xAFFC9660, 0x651F2550);
    NextByte(d, 8, 0x651F2550, 0x340BC6D9);
    NoMoreBytes(0x340BC6D9, d[9..]);
    assert d[0..] == d && Not(0) == 0xFFFFFFFF;
  }

  lemma NoMoreBytes(c: bv32, data: seq<Byte>)
    requires data == []
    ensures Update(c, data) == c
  {}
}
