/** What the cyclic redundancy check detects: every burst of up to 16 bits, every odd number of
    flipped bits, and exactly the errors that do not leave the register at zero. */
module CrcErrors {
  import opened Crc

  // ---- a shift loses nothing ---------------------------------------------------

  function Unshift(c: bv16): bv16 {
    ((c ^ ((0 - (c >> 15)) & 0xA001)) << 1) | (c >> 15)
  }

  lemma ShiftIsABijection(c: bv16)
    ensures Unshift(Shift(c)) == c
    ensures Shift(Unshift(c)) == c
  {
  }

  lemma {:induction false} ShiftsInjective(a: bv16, b: bv16, n: nat)
    requires Shifts(a, n) == Shifts(b, n)
    ensures a == b
    decreases n
  {
    if n > 0 {
      ShiftsInjective(Shift(a), Shift(b), n - 1);
      ShiftIsABijection(a);
      ShiftIsABijection(b);
    }
  }

  lemma MixCancels(c: bv16, a: bv16, b: bv16)
    requires Mix(c, a) == Mix(c, b)
    ensures a == b
  {
  }

  lemma MixUndone(a: bv16, c: bv16)
    ensures Mix(Mix(a, c), c) == a
  {
  }

  lemma MixEqual(a: bv16, b: bv16)
    ensures Mix(a, b) == 0 <==> a == b
  {
    MixSelf(a);
    if Mix(a, b) == 0 {
      MixCancels(a, b, a);
    }
  }

  lemma MixSelf(a: bv16)
    ensures Mix(a, a) == 0
  {
  }

  lemma ShiftLinear(a: bv16, b: bv16)
    ensures Shift(Mix(a, b)) == Mix(Shift(a), Shift(b))
  {
  }

  lemma {:induction false} ShiftsLinear(a: bv16, b: bv16, n: nat)
    ensures Shifts(Mix(a, b), n) == Mix(Shifts(a, n), Shifts(b, n))
    decreases n
  {
    if n > 0 {
      ShiftLinear(a, b);
      ShiftsLinear(Shift(a), Shift(b), n - 1);
    }
  }

  lemma {:induction false} ShiftsAdd(c: bv16, m: nat, n: nat)
    ensures Shifts(c, m + n) == Shifts(Shifts(c, m), n)
    decreases m
  {
    if m > 0 {
      ShiftsAdd(Shift(c), m - 1, n);
    }
  }

  lemma {:induction false} ShiftsOfZero(n: nat)
    ensures Shifts(0, n) == 0
    decreases n
  {
    if n > 0 {
      assert Shift(0) == 0;
      ShiftsOfZero(n - 1);
    }
  }

  lemma FeedBitInjective(a: bv16, b: bv16, bit: bool)
    requires FeedBit(a, bit) == FeedBit(b, bit)
    ensures a == b
  {
    if bit {
      ShiftIsABijection(Mix(a, 1));
      ShiftIsABijection(Mix(b, 1));
      MixUndone(a, 1);
      MixUndone(b, 1);
    } else {
      ShiftIsABijection(a);
      ShiftIsABijection(b);
    }
  }

  lemma {:induction false} FeedBitsInjective(a: bv16, b: bv16, bits: seq<bool>)
    requires FeedBits(a, bits) == FeedBits(b, bits)
    ensures a == b
    decreases |bits|
  {
    if bits != [] {
      FeedBitsInjective(FeedBit(a, bits[0]), FeedBit(b, bits[0]), bits[1..]);
      FeedBitInjective(a, b, bits[0]);
    }
  }

  // ---- the check as one division ---------------------------------------------------

  // The check value as it follows the body, low byte first.
  function WordOf(lo: Byte, hi: Byte): bv16 {
    (lo as bv16) | ((hi as bv16) << 8)
  }

  function CheckBytes(c: bv16): seq<Byte> {
    [(c & 0xFF) as Byte, (c >> 8) as Byte]
  }

  lemma WordRoundTrip(c: bv16, lo: Byte, hi: Byte)
    ensures WordOf((c & 0xFF) as Byte, (c >> 8) as Byte) == c
    ensures (WordOf(lo, hi) & 0xFF) as Byte == lo && (WordOf(lo, hi) >> 8) as Byte == hi
  {
  }

  lemma {:induction false} FeedAllConcat(c: bv16, a: seq<Byte>, b: seq<Byte>)
    ensures FeedAll(c, a + b) == FeedAll(FeedAll(c, a), b)
    decreases |a|
  {
    if a == [] {
      assert a + b == b;
    } else {
      assert (a + b)[1..] == a[1..] + b;
      FeedAllConcat(Feed(c, a[0]), a[1..], b);
    }
  }

  lemma ShiftOfEven(c: bv16)
    requires !Low(c)
    ensures Shift(c) == Half(c)
  {
  }

  lemma HighByteComesDown(y: Byte)
    ensures Shifts((y as bv16) << 8, 8) == y as bv16
  {
    var x := (y as bv16) << 8;
    ShiftsThrice(x, 8);
    ShiftsThrice(x >> 3, 5);
    ShiftOfEven(x >> 6);
    ShiftOfEven(x >> 7);
    assert Shifts(x >> 6, 2) == Shifts(Shift(x >> 6), 1);
  }

  lemma ThreeClearBits(x: bv16)
    requires x & 7 == 0
    ensures !Low(x) && !Low(x >> 1) && !Low(x >> 2)
    ensures Half(x) == x >> 1 && Half(x >> 1) == x >> 2 && Half(x >> 2) == x >> 3
  {
  }

  lemma ShiftsThrice(x: bv16, n: nat)
    requires n >= 3 && x & 7 == 0
    ensures Shifts(x, n) == Shifts(x >> 3, n - 3)
  {
    ThreeClearBits(x);
    ShiftOfEven(x);
    ShiftOfEven(x >> 1);
    ShiftOfEven(x >> 2);
    ShiftsStep(x, n);
    ShiftsStep(x >> 1, n - 1);
    ShiftsStep(x >> 2, n - 2);
  }

  lemma MixBytes(c: bv16, lo: Byte, hi: Byte)
    ensures Mix(c, WordOf(lo, hi)) == Mix(Mix(c, lo as bv16), (hi as bv16) << 8)
  {
  }

  // Feeding two bytes is feeding their word at once.
  lemma TwoBytes(c: bv16, lo: Byte, hi: Byte)
    ensures FeedAll(c, [lo, hi]) == Shifts(Mix(c, WordOf(lo, hi)), 16)
  {
    var first, high := Mix(c, lo as bv16), (hi as bv16) << 8;
    MixBytes(c, lo, hi);
    ShiftsAdd(Mix(first, high), 8, 8);
    ShiftsLinear(first, high, 8);
    HighByteComesDown(hi);
    assert [lo, hi][1..] == [hi] && [hi][1..] == [];
    assert FeedAll(c, [lo, hi]) == FeedAll(Feed(c, lo), [hi]);
    assert FeedAll(Feed(c, lo), [hi]) == FeedAll(Feed(Feed(c, lo), hi), []);
  }

  // The comparison that a receiver makes is that the whole frame leaves the register at zero.
  lemma CheckedIffZero(body: seq<Byte>, lo: Byte, hi: Byte)
    ensures CrcOf(body + [lo, hi]) == 0 <==> CrcOf(body) == WordOf(lo, hi)
  {
    var c := CrcOf(body);
    FeedAllConcat(0xFFFF, body, [lo, hi]);
    TwoBytes(c, lo, hi);
    ShiftsOfZero(16);
    MixEqual(c, WordOf(lo, hi));
    if CrcOf(body + [lo, hi]) == 0 {
      ShiftsInjective(Mix(c, WordOf(lo, hi)), 0, 16);
    }
  }

  // ---- bursts ------------------------------------------------------------------------

  function Doubled(p: bv16, bit: bool): bv16 {
    if bit then (p << 1) | 1 else p << 1
  }

  function Pack(bits: seq<bool>): bv16
    decreases |bits|
  {
    if bits == [] then 0 else Doubled(Pack(bits[1..]), bits[0])
  }

  lemma {:induction false} HalvesOfZero(n: nat)
    ensures Halves(0, n) == 0
    decreases n
  {
    if n > 0 {
      HalvesOfZero(n - 1);
    }
  }

  lemma DoubledParts(p: bv16, bit: bool)
    requires p >> 15 == 0
    ensures Half(Doubled(p, bit)) == p && Low(Doubled(p, bit)) == bit
  {
    if bit {
    } else {
    }
  }

  lemma {:induction false} PackRoundTrip(bits: seq<bool>)
    requires |bits| <= 16
    ensures BitsOf(Pack(bits), |bits|) == bits
    ensures Halves(Pack(bits), |bits|) == 0
    decreases |bits|
  {
    if bits != [] {
      var p, n := Pack(bits[1..]), |bits| - 1;
      PackRoundTrip(bits[1..]);
      HalvesAdd(p, n, 15 - n);
      HalvesOfZero(15 - n);
      HalvesAway(p);
      DoubledParts(p, bits[0]);
    }
  }

  lemma FeedPacked(c: bv16, bits: seq<bool>)
    requires |bits| <= 16
    ensures FeedBits(c, bits) == Shifts(Mix(c, Pack(bits)), |bits|)
  {
    PackRoundTrip(bits);
    ShiftsAreSerial(c, Pack(bits), |bits|);
    MixZero(FeedBits(c, bits));
  }

  // Up to 16 bits determine the register that they leave.
  lemma ShortBitsDistinct(c: bv16, u: seq<bool>, v: seq<bool>)
    requires |u| == |v| <= 16 && FeedBits(c, u) == FeedBits(c, v)
    ensures u == v
  {
    FeedPacked(c, u);
    FeedPacked(c, v);
    ShiftsInjective(Mix(c, Pack(u)), Mix(c, Pack(v)), |u|);
    MixCancels(c, Pack(u), Pack(v));
    PackRoundTrip(u);
    PackRoundTrip(v);
  }

  lemma ByteBitsInjective(x: Byte, y: Byte)
    requires BitsOf(x as bv16, 8) == BitsOf(y as bv16, 8)
    ensures x == y
  {
    FeedIsSerial(0, x);
    FeedIsSerial(0, y);
    ShiftsInjective(Mix(0, x as bv16), Mix(0, y as bv16), 8);
    MixCancels(0, x as bv16, y as bv16);
    WidenInjective(x, y);
  }

  lemma WidenInjective(x: Byte, y: Byte)
    requires x as bv16 == y as bv16
    ensures x == y
  {
  }

  lemma {:induction false} FrameBitsInjective(f: seq<Byte>, g: seq<Byte>)
    requires FrameBits(f) == FrameBits(g)
    ensures f == g
    decreases |f|
  {
    if f != [] && g != [] {
      var u, v := BitsOf(f[0] as bv16, 8), BitsOf(g[0] as bv16, 8);
      assert u == FrameBits(f)[..8] && v == FrameBits(g)[..8];
      assert FrameBits(f[1..]) == FrameBits(f)[8..] && FrameBits(g[1..]) == FrameBits(g)[8..];
      ByteBitsInjective(f[0], g[0]);
      FrameBitsInjective(f[1..], g[1..]);
    }
  }

  lemma {:induction false} BitsOfEachConcat(a: seq<Byte>, b: seq<Byte>, n: nat)
    ensures BitsOfEach(a + b, n) == BitsOfEach(a, n) + BitsOfEach(b, n)
    decreases |a|
  {
    if a == [] {
      assert a + b == b;
    } else {
      assert (a + b)[1..] == a[1..] + b;
      BitsOfEachConcat(a[1..], b, n);
    }
  }

  // A frame altered inside 16 consecutive bits never passes in place of one that does.
  lemma BurstsAreDetected(f: seq<Byte>, g: seq<Byte>, before: seq<bool>, u: seq<bool>, v: seq<bool>, after: seq<bool>)
    requires FrameBits(f) == before + u + after && FrameBits(g) == before + v + after
    requires |u| == |v| <= 16
    requires f != g && CrcOf(f) == 0
    ensures CrcOf(g) != 0
  {
    FeedAllIsSerial(0xFFFF, f);
    FeedAllIsSerial(0xFFFF, g);
    if CrcOf(g) == 0 {
      var c := FeedBits(0xFFFF, before);
      FeedBitsConcat(0xFFFF, before + u, after);
      FeedBitsConcat(0xFFFF, before + v, after);
      FeedBitsConcat(0xFFFF, before, u);
      FeedBitsConcat(0xFFFF, before, v);
      FeedBitsInjective(FeedBits(c, u), FeedBits(c, v), after);
      ShortBitsDistinct(c, u, v);
      FrameBitsInjective(f, g);
      assert false;
    }
  }

  lemma AdjacentBytesAreDetected(before: seq<Byte>, u: seq<Byte>, v: seq<Byte>, after: seq<Byte>)
    requires |u| == |v| <= 2 && u != v
    requires CrcOf(before + u + after) == 0
    ensures CrcOf(before + v + after) != 0
  {
    BitsOfEachConcat(before + u, after, 8);
    BitsOfEachConcat(before, u, 8);
    BitsOfEachConcat(before + v, after, 8);
    BitsOfEachConcat(before, v, 8);
    var f, g := before + u + after, before + v + after;
    assert f[|before|..|before| + |u|] == u && g[|before|..|before| + |u|] == v;
    BurstsAreDetected(f, g, FrameBits(before), FrameBits(u), FrameBits(v), FrameBits(after));
  }

  // ---- the exact errors that pass -----------------------------------------------------

  function Flips(u: seq<bool>, v: seq<bool>): (w: seq<bool>)
    requires |u| == |v|
    ensures |w| == |u|
    decreases |u|
  {
    if u == [] then [] else [u[0] != v[0]] + Flips(u[1..], v[1..])
  }

  lemma MixBoth(a: bv16, b: bv16, c: bv16)
    ensures Mix(Mix(a, c), Mix(b, c)) == Mix(a, b)
  {
    var x, y := a ^ c, b ^ c;
    assert x ^ y == a ^ b;
    assert Mix(Mix(a, c), Mix(b, c)) == Mix(x, y);
  }

  lemma MixLeft(a: bv16, b: bv16, c: bv16)
    ensures Mix(Mix(a, c), b) == Mix(Mix(a, b), c)
  {
    var x, z := a ^ c, a ^ b;
    assert x ^ b == z ^ c;
    assert Mix(Mix(a, c), b) == Mix(x, b) && Mix(Mix(a, b), c) == Mix(z, c);
  }

  lemma MixRight(a: bv16, b: bv16, c: bv16)
    ensures Mix(a, Mix(b, c)) == Mix(Mix(a, b), c)
  {
    var y, z := b ^ c, a ^ b;
    assert a ^ y == z ^ c;
    assert Mix(a, Mix(b, c)) == Mix(a, y) && Mix(Mix(a, b), c) == Mix(z, c);
  }

  lemma FeedBitLinear(a: bv16, b: bv16, x: bool, y: bool)
    ensures FeedBit(Mix(a, b), x != y) == Mix(FeedBit(a, x), FeedBit(b, y))
  {
    MixBoth(a, b, 1);
    MixLeft(a, b, 1);
    MixRight(a, b, 1);
    ShiftLinear(a, b);
    ShiftLinear(Mix(a, 1), b);
    ShiftLinear(a, Mix(b, 1));
    ShiftLinear(Mix(a, 1), Mix(b, 1));
  }

  lemma {:induction false} FeedBitsLinear(a: bv16, b: bv16, u: seq<bool>, v: seq<bool>)
    requires |u| == |v|
    ensures FeedBits(Mix(a, b), Flips(u, v)) == Mix(FeedBits(a, u), FeedBits(b, v))
    decreases |u|
  {
    if u != [] {
      assert Flips(u, v)[0] == (u[0] != v[0]) && Flips(u, v)[1..] == Flips(u[1..], v[1..]);
      FeedBitLinear(a, b, u[0], v[0]);
      FeedBitsLinear(FeedBit(a, u[0]), FeedBit(b, v[0]), u[1..], v[1..]);
    }
  }

  // In place of a frame that passes, another of its length passes exactly when the flipped bits
  // leave a cleared register at zero: the error is a multiple of the polynomial.
  lemma PassesIffErrorIsMultiple(f: seq<Byte>, g: seq<Byte>)
    requires |f| == |g| && CrcOf(f) == 0
    ensures CrcOf(g) == 0 <==> FeedBits(0, Flips(FrameBits(f), FrameBits(g))) == 0
  {
    var u, v := FrameBits(f), FrameBits(g);
    FeedAllIsSerial(0xFFFF, f);
    FeedAllIsSerial(0xFFFF, g);
    FeedBitsLinear(0xFFFF, 0xFFFF, u, v);
    MixEqual(0xFFFF, 0xFFFF);
    MixEqual(CrcOf(f), CrcOf(g));
  }

  // ---- parity -----------------------------------------------------------------------

  predicate OddWord(c: bv16, n: nat)
    decreases n
  {
    n > 0 && Low(c) != OddWord(Half(c), n - 1)
  }

  predicate OddBits(bits: seq<bool>)
    decreases |bits|
  {
    bits != [] && bits[0] != OddBits(bits[1..])
  }

  lemma OddWordStep(c: bv16, n: nat)
    requires n > 0
    ensures OddWord(c, n) == (Low(c) != OddWord(Half(c), n - 1))
  {
  }

  lemma OddWordCombine(a: bv16, b: bv16, c: bv16, n: nat)
    requires n > 0 && Low(c) == (Low(a) != Low(b))
    requires OddWord(Half(c), n - 1) == (OddWord(Half(a), n - 1) != OddWord(Half(b), n - 1))
    ensures OddWord(c, n) == (OddWord(a, n) != OddWord(b, n))
  {
    OddWordStep(a, n);
    OddWordStep(b, n);
    OddWordStep(c, n);
  }

  lemma {:induction false} OddWordMix(a: bv16, b: bv16, n: nat)
    ensures OddWord(Mix(a, b), n) == (OddWord(a, n) != OddWord(b, n))
    decreases n
  {
    if n > 0 {
      MixParts(a, b);
      OddWordMix(Half(a), Half(b), n - 1);
      OddWordCombine(a, b, Mix(a, b), n);
    }
  }

  lemma MixParts(a: bv16, b: bv16)
    ensures Low(Mix(a, b)) == (Low(a) != Low(b))
    ensures Half(Mix(a, b)) == Mix(Half(a), Half(b))
  {
  }

  lemma {:induction false} OddWordOfZero(n: nat)
    ensures !OddWord(0, n)
    decreases n
  {
    if n > 0 {
      OddWordOfZero(n - 1);
    }
  }

  lemma {:induction false} OddWordSplit(c: bv16, m: nat, n: nat)
    ensures OddWord(c, m + n) == (OddWord(c, m) != OddWord(Halves(c, m), n))
    decreases m
  {
    if m > 0 {
      OddWordSplit(Half(c), m - 1, n);
    }
  }

  lemma {:induction false} OddWordOfClear(c: bv16, n: nat)
    requires BitsOf(c, n) == seq(n, i => false)
    ensures !OddWord(c, n)
    decreases n
  {
    if n > 0 {
      assert BitsOf(c, n)[0] == Low(c) && BitsOf(c, n)[1..] == BitsOf(Half(c), n - 1);
      OddWordOfClear(Half(c), n - 1);
    }
  }

  lemma PolynomialIsOdd(n: nat)
    requires n >= 16
    ensures OddWord(0xA001, n)
  {
    OddWordStep(0xA001, n);
    OddWordSplit(0x5000, 12, n - 13);
    OddWordOfClear(0x5000, 12);
    HalvesThrice(0x5000, 12);
    HalvesThrice(0x0A00, 9);
    HalvesThrice(0x0140, 6);
    HalvesThrice(0x0028, 3);
    OddWordStep(5, n - 13);
    OddWordStep(2, n - 14);
    OddWordStep(1, n - 15);
    OddWordOfZero(n - 16);
  }

  lemma OddHalf(c: bv16, n: nat)
    requires n >= 16
    ensures OddWord(Half(c), n) == OddWord(Half(c), n - 1)
  {
    OddWordSplit(Half(c), n - 1, 1);
    HalvesAdd(c, 1, n - 1);
    HalvesAdd(c, 16, n - 16);
    WordHalvesAway(c);
    HalvesOfZero(n - 16);
    OddWordOfZero(1);
  }

  // A shift keeps the parity of the register.
  lemma ShiftKeepsParity(c: bv16, n: nat)
    requires n >= 16
    ensures OddWord(Shift(c), n) == OddWord(c, n)
  {
    OddWordStep(c, n);
    OddHalf(c, n);
    PolynomialIsOdd(n);
    OddWordMix(Half(c), 0xA001, n);
    ShiftByCases(c);
  }

  lemma ShiftByCases(c: bv16)
    ensures Low(c) ==> Shift(c) == Mix(Half(c), 0xA001)
    ensures !Low(c) ==> Shift(c) == Half(c)
  {
    if Low(c) {
    } else {
    }
  }

  lemma OneIsOdd(n: nat)
    requires n > 0
    ensures OddWord(1, n)
  {
    OddWordStep(1, n);
    OddWordOfZero(n - 1);
  }

  lemma FeedBitParity(c: bv16, bit: bool, n: nat)
    requires n >= 16
    ensures OddWord(FeedBit(c, bit), n) == (OddWord(c, n) != bit)
  {
    OneIsOdd(n);
    OddWordMix(c, 1, n);
    ShiftKeepsParity(Mix(c, 1), n);
    ShiftKeepsParity(c, n);
  }

  lemma {:induction false} FeedBitsParity(c: bv16, bits: seq<bool>, n: nat)
    requires n >= 16
    ensures OddWord(FeedBits(c, bits), n) == (OddWord(c, n) != OddBits(bits))
    decreases |bits|
  {
    if bits != [] {
      FeedBitParity(c, bits[0], n);
      FeedBitsParity(FeedBit(c, bits[0]), bits[1..], n);
    }
  }

  // A frame with an odd number of flipped bits never passes in place of one that does.
  lemma OddErrorsAreDetected(f: seq<Byte>, g: seq<Byte>)
    requires |f| == |g| && CrcOf(f) == 0
    requires OddBits(Flips(FrameBits(f), FrameBits(g)))
    ensures CrcOf(g) != 0
  {
    var w := Flips(FrameBits(f), FrameBits(g));
    PassesIffErrorIsMultiple(f, g);
    var n := 16;
    FeedBitsParity(0, w, n);
    OddWordOfZero(n);
  }
}
