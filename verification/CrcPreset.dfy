/** What the preset 0xFFFF of the register is for: bytes of zero before a frame that passes do not go
    unnoticed, as they would with a cleared register. */
module CrcPreset {
  import opened Crc
  import opened CrcErrors
  import opened CrcOrder

  // ---- the value itself ----------------------------------------------------------------

  lemma EightSteps(c: bv16, c1: bv16, c2: bv16, c3: bv16, c4: bv16, c5: bv16, c6: bv16, c7: bv16, d: bv16)
    requires Shift(c) == c1 && Shift(c1) == c2 && Shift(c2) == c3 && Shift(c3) == c4
    requires Shift(c4) == c5 && Shift(c5) == c6 && Shift(c6) == c7 && Shift(c7) == d
    ensures Shifts(c, 8) == d
  {
    ShiftsStep(c, 8);
    ShiftsStep(c1, 7);
    ShiftsStep(c2, 6);
    ShiftsStep(c3, 5);
    ShiftsStep(c4, 4);
    ShiftsStep(c5, 3);
    ShiftsStep(c6, 2);
    ShiftsStep(c7, 1);
  }

  // The example of appendix B of the guide: the check of 02 07 is 1241.
  lemma CheckOfExample()
    ensures CrcOf([0x02, 0x07]) == 0x1241
  {
    EightSteps(0xFFFD, 0xDFFF, 0xCFFE, 0x67FF, 0x93FE, 0x49FF, 0x84FE, 0x427F, 0x813E);
    EightSteps(0x8139, 0xE09D, 0xD04F, 0xC826, 0x6413, 0x9208, 0x4904, 0x2482, 0x1241);
    assert [0x02, 0x07 as Byte][1..] == [0x07] && [0x07 as Byte][1..] == [];
    assert Feed(0xFFFF, 0x02) == 0x813E && Feed(0x813E, 0x07) == 0x1241;
  }

  lemma FeedFirst(c: bv16, b: Byte, rest: seq<Byte>, d: bv16)
    requires Shifts(Mix(c, b as bv16), 8) == d
    ensures FeedAll(c, [b] + rest) == FeedAll(d, rest)
  {
    assert ([b] + rest)[1..] == rest;
  }

  // One register holding 10, from unit 1.
  lemma CheckOfResponse()
    ensures CrcOf([0x01, 0x03, 0x02, 0x00, 0x0A]) == 0x4338
  {
    EightSteps(0xFFFE, 0x7FFF, 0x9FFE, 0x4FFF, 0x87FE, 0x43FF, 0x81FE, 0x40FF, 0x807E);
    EightSteps(0x807D, 0xE03F, 0xD01E, 0x680F, 0x9406, 0x4A03, 0x8500, 0x4280, 0x2140);
    EightSteps(0x2142, 0x10A1, 0xA851, 0xF429, 0xDA15, 0xCD0B, 0xC684, 0x6342, 0x31A1);
    EightSteps(0x31A1, 0xB8D1, 0xFC69, 0xDE35, 0xCF1B, 0xC78C, 0x63C6, 0x31E3, 0xB8F0);
    EightSteps(0xB8FA, 0x5C7D, 0x8E3F, 0xE71E, 0x738F, 0x99C6, 0x4CE3, 0x8670, 0x4338);
    FeedFirst(0xFFFF, 0x01, [0x03, 0x02, 0x00, 0x0A], 0x807E);
    FeedFirst(0x807E, 0x03, [0x02, 0x00, 0x0A], 0x2140);
    FeedFirst(0x2140, 0x02, [0x00, 0x0A], 0x31A1);
    FeedFirst(0x31A1, 0x00, [0x0A], 0xB8F0);
    FeedFirst(0xB8F0, 0x0A, [], 0x4338);
  }

  // Ten registers from the first on, of unit 1.
  lemma CheckOfRequest()
    ensures CrcOf([0x01, 0x03, 0x00, 0x00, 0x00, 0x0A]) == 0xCDC5
  {
    EightSteps(0xFFFE, 0x7FFF, 0x9FFE, 0x4FFF, 0x87FE, 0x43FF, 0x81FE, 0x40FF, 0x807E);
    EightSteps(0x807D, 0xE03F, 0xD01E, 0x680F, 0x9406, 0x4A03, 0x8500, 0x4280, 0x2140);
    EightSteps(0x2140, 0x10A0, 0x0850, 0x0428, 0x0214, 0x010A, 0x0085, 0xA043, 0xF020);
    EightSteps(0xF020, 0x7810, 0x3C08, 0x1E04, 0x0F02, 0x0781, 0xA3C1, 0xF1E1, 0xD8F1);
    EightSteps(0xD8F1, 0xCC79, 0xC63D, 0xC31F, 0xC18E, 0x60C7, 0x9062, 0x4831, 0x8419);
    EightSteps(0x8413, 0xE208, 0x7104, 0x3882, 0x1C41, 0xAE21, 0xF711, 0xDB89, 0xCDC5);
    FeedFirst(0xFFFF, 0x01, [0x03, 0x00, 0x00, 0x00, 0x0A], 0x807E);
    FeedFirst(0x807E, 0x03, [0x00, 0x00, 0x00, 0x0A], 0x2140);
    FeedFirst(0x2140, 0x00, [0x00, 0x00, 0x0A], 0xF020);
    FeedFirst(0xF020, 0x00, [0x00, 0x0A], 0xD8F1);
    FeedFirst(0xD8F1, 0x00, [0x0A], 0x8419);
    FeedFirst(0x8419, 0x0A, [], 0xCDC5);
  }

  // ---- the preset is a change of the first two bytes -----------------------------------------

  lemma PresetMixes(lo: Byte, hi: Byte)
    ensures Mix(0xFFFF, WordOf(lo, hi)) == Mix(0, WordOf(lo ^ 0xFF, hi ^ 0xFF))
  {
  }

  // The check is what a cleared register makes of the data with its first sixteen bits complemented.
  lemma PresetComplements(data: seq<Byte>)
    requires |data| >= 2
    ensures CrcOf(data) == FeedAll(0, [data[0] ^ 0xFF, data[1] ^ 0xFF] + data[2..])
  {
    var lo, hi := data[0], data[1];
    PresetMixes(lo, hi);
    TwoBytes(0xFFFF, lo, hi);
    TwoBytes(0, lo ^ 0xFF, hi ^ 0xFF);
    FeedAllConcat(0xFFFF, [lo, hi], data[2..]);
    FeedAllConcat(0, [lo ^ 0xFF, hi ^ 0xFF], data[2..]);
    assert data == [lo, hi] + data[2..];
  }

  // ---- registers that come back after k shifts ----------------------------------------------

  predicate Fixed(c: bv16, k: nat) {
    Shifts(c, k) == c
  }

  lemma FixedShift(c: bv16, k: nat)
    requires Fixed(c, k)
    ensures Fixed(Shift(c), k)
  {
    ShiftsAdd(c, 1, k);
    ShiftsAdd(c, k, 1);
    ShiftsStep(c, 1);
  }

  lemma FixedMix(a: bv16, b: bv16, k: nat)
    requires Fixed(a, k) && Fixed(b, k)
    ensures Fixed(Mix(a, b), k)
  {
    ShiftsLinear(a, b, k);
  }

  // One step of evaluating a polynomial at the register `c`.
  lemma FixedStep(acc: bv16, c: bv16, d: bv16, k: nat)
    requires Fixed(acc, k) && Fixed(c, k) && (d == Mix(Shift(acc), c) || d == Shift(acc))
    ensures Fixed(d, k)
  {
    FixedShift(acc, k);
    FixedMix(Shift(acc), c, k);
  }

  // The preset is (x+1)^15; some multiple of it is x+1 modulo the polynomial.
  lemma PresetToBinomial(p: bv16, k: nat)
    requires p == 0xFFFF && Fixed(p, k)
    ensures Fixed(0xC000, k)
  {
    FixedStep(p, p, 0x2001, k);
    FixedStep(0x2001, p, 0xB001, k);
    FixedStep(0xB001, p, 0x07FE, k);
    FixedStep(0x07FE, p, 0xFC00, k);
    FixedStep(0xFC00, p, 0x7E00, k);
    FixedStep(0x7E00, p, 0xC0FF, k);
    FixedStep(0xC0FF, p, 0x3F81, k);
    FixedStep(0x3F81, p, 0xBFC1, k);
    FixedStep(0xBFC1, p, 0x001E, k);
    FixedStep(0x001E, p, 0xFFF0, k);
    FixedStep(0xFFF0, p, 0x7FF8, k);
    FixedStep(0x7FF8, p, 0xC003, k);
    FixedStep(0xC003, p, 0xC000, k);
  }

  lemma OneToPreset(one: bv16, k: nat)
    requires one == 0x8000 && Fixed(one, k)
    ensures Fixed(0xFFFF, k)
  {
    FixedStep(one, one, 0xC000, k);
    FixedStep(0xC000, one, 0xE000, k);
    FixedStep(0xE000, one, 0xF000, k);
    FixedStep(0xF000, one, 0xF800, k);
    FixedStep(0xF800, one, 0xFC00, k);
    FixedStep(0xFC00, one, 0xFE00, k);
    FixedStep(0xFE00, one, 0xFF00, k);
    FixedStep(0xFF00, one, 0xFF80, k);
    FixedStep(0xFF80, one, 0xFFC0, k);
    FixedStep(0xFFC0, one, 0xFFE0, k);
    FixedStep(0xFFE0, one, 0xFFF0, k);
    FixedStep(0xFFF0, one, 0xFFF8, k);
    FixedStep(0xFFF8, one, 0xFFFC, k);
    FixedStep(0xFFFC, one, 0xFFFE, k);
    FixedStep(0xFFFE, one, 0xFFFF, k);
  }

  lemma FixedPoints(y: bv16)
    requires Shift(y) == y
    ensures y == 0 || y == 0xC001
  {
  }

  lemma MixSwap(a: bv16, b: bv16, c: bv16, d: bv16)
    requires Mix(a, b) == Mix(c, d)
    ensures Mix(a, c) == Mix(b, d)
  {
    MixOver(a, b, c);
    MixOver(d, c, b);
  }

  lemma MixOver(a: bv16, b: bv16, c: bv16)
    ensures Mix(Mix(a, b), Mix(b, c)) == Mix(a, c)
    ensures Mix(Mix(b, a), Mix(c, b)) == Mix(a, c)
    ensures Mix(b, c) == Mix(c, b)
  {
  }

  lemma {:induction false} ShiftsKeepParity(c: bv16, m: nat, n: nat)
    requires n >= 16
    ensures OddWord(Shifts(c, m), n) == OddWord(c, n)
    decreases m
  {
    if m > 0 {
      ShiftKeepsParity(c, n);
      ShiftsKeepParity(Shift(c), m - 1, n);
    }
  }

  lemma OddOnes(n: nat)
    requires n >= 16
    ensures OddWord(0x8000, n) && OddWord(0xC001, n)
  {
    ShiftsThrice(0x8000, 15);
    ShiftsThrice(0x1000, 12);
    ShiftsThrice(0x0200, 9);
    ShiftsThrice(0x0040, 6);
    ShiftsThrice(0x0008, 3);
    ShiftsKeepParity(0x8000, 15, n);
    OneIsOdd(n);
    assert Shift(0x8000) == 0x4000;
    ShiftKeepsParity(0x8000, n);
    OddWordMix(0x8000, 0x4000, n);
    OddWordMix(0xC000, 1, n);
    assert Mix(0x8000, 0x4000) == 0xC000 && Mix(0xC000, 1) == 0xC001;
  }

  // A register in which x+1 comes back is one in which 1 does: powers of x have odd parity.
  lemma BinomialToOne(k: nat)
    requires Fixed(0xC000, k)
    ensures Period(k)
  {
    var one, p := 0x8000, Power(k);
    ShiftsLinear(one, Shift(one), k);
    ShiftsAdd(one, 1, k);
    ShiftsAdd(one, k, 1);
    ShiftsStep(one, 1);
    ShiftsStep(p, 1);
    assert Shift(one) == 0x4000 && Mix(one, Shift(one)) == 0xC000;
    assert Mix(p, Shift(p)) == Mix(one, Shift(one));
    MixSwap(p, Shift(p), one, Shift(one));
    var y := Mix(p, one);
    ShiftLinear(p, one);
    FixedPoints(y);
    OddOnes(16);
    ShiftsKeepParity(one, k, 16);
    OddWordMix(p, one, 16);
    MixEqual(p, one);
  }

  // The preset comes back after k shifts exactly when every power of x does.
  lemma PresetFixedIff(k: nat)
    ensures Fixed(0xFFFF, k) <==> Period(k)
  {
    if Fixed(0xFFFF, k) {
      PresetToBinomial(0xFFFF, k);
      BinomialToOne(k);
    }
    if Period(k) {
      OneToPreset(0x8000, k);
    }
  }

  // ---- bytes of zero before a frame ----------------------------------------------------------

  function Zeros(n: nat): (data: seq<Byte>)
    ensures |data| == n
  {
    if n == 0 then [] else [0] + Zeros(n - 1)
  }

  lemma {:induction false} ZerosShift(c: bv16, n: nat)
    ensures FeedAll(c, Zeros(n)) == Shifts(c, 8 * n)
    decreases n
  {
    if n > 0 {
      assert Zeros(n)[1..] == Zeros(n - 1);
      assert Mix(c, 0 as bv16) == c;
      ZerosShift(Feed(c, 0), n - 1);
      ShiftsAdd(c, 8, 8 * (n - 1));
    }
  }

  lemma EightTimes(n: nat)
    ensures (8 * n) % 32767 == 0 <==> n % 32767 == 0
  {
    var q, r := n / 32767, n % 32767;
    assert n == 32767 * q + r;
    if (8 * n) % 32767 == 0 {
      var m := 8 * n / 32767;
      assert n == 32767 * (4096 * m - n);
    }
  }

  // In front of a frame that passes, bytes of zero make one that passes exactly when their number is
  // a multiple of 32767; with a cleared register every such frame would.
  lemma LeadingZerosPassIff(f: seq<Byte>, n: nat)
    requires CrcOf(f) == 0
    ensures CrcOf(Zeros(n) + f) == 0 <==> n % 32767 == 0
  {
    var c := Shifts(0xFFFF, 8 * n);
    FeedAllConcat(0xFFFF, Zeros(n), f);
    ZerosShift(0xFFFF, n);
    FeedAllIsSerial(0xFFFF, f);
    FeedAllIsSerial(c, f);
    if CrcOf(Zeros(n) + f) == 0 {
      FeedBitsInjective(c, 0xFFFF, FrameBits(f));
    }
    PresetFixedIff(8 * n);
    EightTimes(n);
    if n > 0 {
      PeriodIff(8 * n);
    }
  }

  // A frame that passes does not pass with a byte of zero before it.
  lemma LeadingZeroIsDetected(f: seq<Byte>)
    requires CrcOf(f) == 0
    ensures CrcOf([0] + f) != 0
  {
    LeadingZerosPassIff(f, 1);
    assert Zeros(1) == [0];
  }
}
