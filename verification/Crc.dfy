/** adapters/generic-modbus/protocol.py: the CRC-16 of section 6.2.2 of MODBUS over Serial Line
    Specification and Implementation Guide V1.02, and the errors that it always detects. */
module Crc {

  type Byte = bv8

  function Half(c: bv16): bv16 {
    c >> 1
  }

  predicate Low(c: bv16) {
    c & 1 == 1
  }

  // Addition of polynomials over the two-element field.
  function Mix(a: bv16, b: bv16): bv16 {
    a ^ b
  }

  // One shift of the register; the polynomial is added exactly when the low bit is set.
  function Shift(c: bv16): bv16 {
    (c >> 1) ^ ((0 - (c & 1)) & 0xA001)
  }

  lemma ShiftCases(c: bv16)
    ensures Shift(c) == if Low(c) then (c >> 1) ^ 0xA001 else c >> 1
  {
    if Low(c) {
    } else {
    }
  }

  function Shifts(c: bv16, n: nat): bv16
    decreases n
  {
    if n == 0 then c else Shifts(Shift(c), n - 1)
  }

  // The register after one more byte.
  function Feed(c: bv16, b: Byte): bv16 {
    Shifts(Mix(c, b as bv16), 8)
  }

  function FeedAll(c: bv16, data: seq<Byte>): bv16
    decreases |data|
  {
    if data == [] then c else FeedAll(Feed(c, data[0]), data[1..])
  }

  function CrcOf(data: seq<Byte>): bv16 {
    FeedAll(0xFFFF, data)
  }

  method Crc16(data: seq<Byte>) returns (crc: bv16)
    ensures crc == CrcOf(data)
  {
    crc := 0xFFFF;
    for i := 0 to |data|
      invariant FeedAll(crc, data[i..]) == CrcOf(data)
    {
      ghost var before := crc;
      crc := crc ^ (data[i] as bv16);
      for k := 0 to 8
        invariant Shifts(crc, 8 - k) == Feed(before, data[i])
      {
        ShiftCases(crc);
        if crc & 1 == 1 {
          crc := (crc >> 1) ^ 0xA001;
        } else {
          crc := crc >> 1;
        }
      }
      assert data[i..][1..] == data[i + 1..];
    }
  }

  // ---- bit by bit -------------------------------------------------------------

  // The low `n` bits, lowest first: the order in which a serial line sends them.
  function BitsOf(c: bv16, n: nat): (bits: seq<bool>)
    ensures |bits| == n
    decreases n
  {
    if n == 0 then [] else [Low(c)] + BitsOf(Half(c), n - 1)
  }

  // `n` bits of each byte, in order.
  function BitsOfEach(data: seq<Byte>, n: nat): (bits: seq<bool>)
    ensures |bits| == n * |data|
    decreases |data|
  {
    if data == [] then []
    else
      assert n * |data| == n + n * |data[1..]|;
      BitsOf(data[0] as bv16, n) + BitsOfEach(data[1..], n)
  }

  function FrameBits(data: seq<Byte>): (bits: seq<bool>)
    ensures |bits| == 8 * |data|
  {
    BitsOfEach(data, 8)
  }

  // The register after one bit.
  function FeedBit(c: bv16, bit: bool): bv16 {
    if bit then Shift(Mix(c, 1)) else Shift(c)
  }

  function FeedBits(c: bv16, bits: seq<bool>): bv16
    decreases |bits|
  {
    if bits == [] then c else FeedBits(FeedBit(c, bits[0]), bits[1..])
  }

  function Halves(c: bv16, n: nat): bv16
    decreases n
  {
    if n == 0 then c else Halves(Half(c), n - 1)
  }

  lemma ShiftSplits(c: bv16, x: bv16)
    ensures Shift(Mix(c, x)) == Mix(FeedBit(c, Low(x)), Half(x))
  {
    if Low(x) {
    } else {
    }
  }

  lemma ShiftsStep(c: bv16, n: nat)
    requires n > 0
    ensures Shifts(c, n) == Shifts(Shift(c), n - 1)
  {
  }

  lemma SerialStep(c: bv16, x: bv16, n: nat)
    requires n > 0
    ensures FeedBits(c, BitsOf(x, n)) == FeedBits(FeedBit(c, Low(x)), BitsOf(Half(x), n - 1))
    ensures Halves(x, n) == Halves(Half(x), n - 1)
  {
    assert BitsOf(x, n)[1..] == BitsOf(Half(x), n - 1);
  }

  lemma {:induction false} ShiftsAreSerial(c: bv16, x: bv16, n: nat)
    ensures Shifts(Mix(c, x), n) == Mix(FeedBits(c, BitsOf(x, n)), Halves(x, n))
    decreases n
  {
    if n > 0 {
      var fed, rest := FeedBit(c, Low(x)), Half(x);
      ShiftsAreSerial(fed, rest, n - 1);
      assert Shifts(Mix(c, x), n) == Shifts(Mix(fed, rest), n - 1) by {
        ShiftsStep(Mix(c, x), n);
        ShiftSplits(c, x);
      }
      SerialStep(c, x, n);
    }
  }

  lemma HalvesThrice(x: bv16, n: nat)
    requires n >= 3
    ensures Halves(x, n) == Halves(x >> 3, n - 3)
  {
    assert Halves(x, n) == Halves(Half(x), n - 1);
    assert Halves(Half(x), n - 1) == Halves(Half(Half(x)), n - 2);
    assert Half(Half(Half(x))) == x >> 3;
  }

  lemma HalvesAway(x: bv16)
    ensures Halves(x, 15) == x >> 15
  {
    HalvesThrice(x, 15);
    HalvesThrice(x >> 3, 12);
    HalvesThrice(x >> 6, 9);
    HalvesThrice(x >> 9, 6);
    HalvesThrice(x >> 12, 3);
  }

  lemma {:induction false} HalvesAdd(x: bv16, m: nat, n: nat)
    ensures Halves(x, m + n) == Halves(Halves(x, m), n)
    decreases m
  {
    if m > 0 {
      HalvesAdd(Half(x), m - 1, n);
    }
  }

  lemma WordHalvesAway(x: bv16)
    ensures Halves(x, 16) == 0
  {
    HalvesAdd(x, 15, 1);
    HalvesAway(x);
    assert Halves(x >> 15, 1) == x >> 16;
  }

  lemma ByteHalvesAway(b: Byte)
    ensures Halves(b as bv16, 8) == 0
  {
    var x := b as bv16;
    HalvesThrice(x, 8);
    HalvesThrice(x >> 3, 5);
    assert Halves(x >> 6, 2) == x >> 8;
  }

  lemma MixZero(c: bv16)
    ensures Mix(c, 0) == c
  {
  }

  // The byte-wise register is the bit-serial one.
  lemma FeedIsSerial(c: bv16, b: Byte)
    ensures Feed(c, b) == FeedBits(c, BitsOf(b as bv16, 8))
  {
    ShiftsAreSerial(c, b as bv16, 8);
    ByteHalvesAway(b);
    MixZero(FeedBits(c, BitsOf(b as bv16, 8)));
  }

  lemma {:induction false} FeedBitsConcat(c: bv16, u: seq<bool>, v: seq<bool>)
    ensures FeedBits(c, u + v) == FeedBits(FeedBits(c, u), v)
    decreases |u|
  {
    if u == [] {
      assert u + v == v;
    } else {
      assert (u + v)[1..] == u[1..] + v;
      FeedBitsConcat(FeedBit(c, u[0]), u[1..], v);
    }
  }

  lemma {:induction false} FeedAllIsSerial(c: bv16, data: seq<Byte>)
    ensures FeedAll(c, data) == FeedBits(c, FrameBits(data))
    decreases |data|
  {
    if data != [] {
      var head, tail := BitsOf(data[0] as bv16, 8), FrameBits(data[1..]);
      FeedIsSerial(c, data[0]);
      FeedBitsConcat(c, head, tail);
      FeedAllIsSerial(Feed(c, data[0]), data[1..]);
    }
  }
}
