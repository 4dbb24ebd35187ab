/** How far apart two flipped bits must be to go unnoticed: the powers of x modulo the polynomial
    repeat with period 32767, so up to three flipped bits in a frame of up to 4095 bytes never pass. */
module CrcOrder {
  import opened Crc
  import opened CrcErrors

  // x to the n-th power modulo the polynomial; the register holds the coefficient of 1 at the top.
  function Power(n: nat): bv16 {
    Shifts(0x8000, n)
  }

  // The square of the register as a polynomial: x^i becomes x^(2i).
  function Square(c: bv16): bv16 {
    ((0 - ((c >> 15) & 1)) & 0x8000) ^ ((0 - ((c >> 14) & 1)) & 0x2000) ^
    ((0 - ((c >> 13) & 1)) & 0x0800) ^ ((0 - ((c >> 12) & 1)) & 0x0200) ^
    ((0 - ((c >> 11) & 1)) & 0x0080) ^ ((0 - ((c >> 10) & 1)) & 0x0020) ^
    ((0 - ((c >> 9) & 1)) & 0x0008) ^ ((0 - ((c >> 8) & 1)) & 0x0002) ^
    ((0 - ((c >> 7) & 1)) & 0xA001) ^ ((0 - ((c >> 6) & 1)) & 0xD801) ^
    ((0 - ((c >> 5) & 1)) & 0xC601) ^ ((0 - ((c >> 4) & 1)) & 0xC181) ^
    ((0 - ((c >> 3) & 1)) & 0xC061) ^ ((0 - ((c >> 2) & 1)) & 0xC019) ^
    ((0 - ((c >> 1) & 1)) & 0xC007) ^ ((0 - ((c >> 0) & 1)) & 0x6001)
  }

  lemma SquareOfShift(c: bv16)
    ensures Square(Shift(c)) == Shift(Shift(Square(c)))
  {
  }

  lemma PowerNext(n: nat)
    ensures Power(n + 1) == Shift(Power(n))
  {
    ShiftsAdd(0x8000, n, 1);
    ShiftsStep(Power(n), 1);
  }

  lemma SquareOfOne()
    ensures Square(0x8000) == 0x8000
  {
  }

  lemma {:induction false} SquareOfPower(n: nat)
    ensures Square(Power(n)) == Power(2 * n)
  {
    if n == 0 {
      SquareOfOne();
    } else {
      SquareOfPower(n - 1);
      SquareOfShift(Power(n - 1));
      PowerNext(n - 1);
      PowerNext(2 * n - 2);
      PowerNext(2 * n - 1);
    }
  }

  // One digit of square and multiply.
  lemma PowerStep(n: nat, odd: bool, c: bv16, d: bv16) returns (m: nat)
    requires Power(n) == c
    requires d == if odd then Shift(Square(c)) else Square(c)
    ensures m == 2 * n + (if odd then 1 else 0) && Power(m) == d
  {
    m := 2 * n + (if odd then 1 else 0);
    SquareOfPower(n);
    PowerNext(2 * n);
  }

  lemma PowerOne() returns (n: nat)
    ensures n == 1 && Power(n) == 0x4000
  {
    n := 1;
    PowerNext(0);
  }

  lemma Power217() returns (n: nat)
    ensures n == 217 && Power(n) == 0x3E55
  {
    n := PowerOne();
    n := PowerStep(n, true, 0x4000, 0x1000);
    n := PowerStep(n, false, 0x1000, 0x0200);
    n := PowerStep(n, true, 0x0200, 0x0004);
    n := PowerStep(n, true, 0x0004, 0xC00D);
    n := PowerStep(n, false, 0xC00D, 0xC079);
    n := PowerStep(n, false, 0xC079, 0xDFE1);
    n := PowerStep(n, true, 0xDFE1, 0x3E55);
  }

  lemma Power1057() returns (n: nat)
    ensures n == 1057 && Power(n) == 0xCE41
  {
    n := PowerOne();
    n := PowerStep(n, false, 0x4000, 0x2000);
    n := PowerStep(n, false, 0x2000, 0x0800);
    n := PowerStep(n, false, 0x0800, 0x0080);
    n := PowerStep(n, false, 0x0080, 0xA001);
    n := PowerStep(n, true, 0xA001, 0xD401);
    n := PowerStep(n, false, 0xD401, 0xC221);
    n := PowerStep(n, false, 0xC221, 0x0608);
    n := PowerStep(n, false, 0x0608, 0xC049);
    n := PowerStep(n, false, 0xC049, 0xD861);
    n := PowerStep(n, true, 0xD861, 0xCE41);
  }

  lemma Power4681() returns (n: nat)
    ensures n == 4681 && Power(n) == 0x8C69
  {
    n := PowerOne();
    n := PowerStep(n, false, 0x4000, 0x2000);
    n := PowerStep(n, false, 0x2000, 0x0800);
    n := PowerStep(n, true, 0x0800, 0x0040);
    n := PowerStep(n, false, 0x0040, 0xD801);
    n := PowerStep(n, false, 0xD801, 0xC281);
    n := PowerStep(n, true, 0xC281, 0x3004);
    n := PowerStep(n, false, 0x3004, 0xCA19);
    n := PowerStep(n, false, 0xCA19, 0xC169);
    n := PowerStep(n, true, 0xC169, 0x0F31);
    n := PowerStep(n, false, 0x0F31, 0x672B);
    n := PowerStep(n, false, 0x672B, 0x8E4C);
    n := PowerStep(n, true, 0x8E4C, 0x8C69);
  }

  lemma Power32768() returns (n: nat)
    ensures n == 32768 && Power(n) == 0x4000
  {
    n := PowerOne();
    n := PowerStep(n, false, 0x4000, 0x2000);
    n := PowerStep(n, false, 0x2000, 0x0800);
    n := PowerStep(n, false, 0x0800, 0x0080);
    n := PowerStep(n, false, 0x0080, 0xA001);
    n := PowerStep(n, false, 0xA001, 0xE801);
    n := PowerStep(n, false, 0xE801, 0xC881);
    n := PowerStep(n, false, 0xC881, 0x6080);
    n := PowerStep(n, false, 0x6080, 0x8801);
    n := PowerStep(n, false, 0x8801, 0xE081);
    n := PowerStep(n, false, 0xE081, 0x6800);
    n := PowerStep(n, false, 0x6800, 0x2880);
    n := PowerStep(n, false, 0x2880, 0xA881);
    n := PowerStep(n, false, 0xA881, 0x4880);
    n := PowerStep(n, false, 0x4880, 0x8081);
    n := PowerStep(n, false, 0x8081, 0x4000);
  }

  // ---- the period --------------------------------------------------------------

  predicate Period(n: nat) {
    Power(n) == 0x8000
  }

  lemma PeriodsSubtract(a: nat, b: nat)
    requires a <= b && Period(a) && Period(b)
    ensures Period(b - a)
  {
    ShiftsAdd(0x8000, b - a, a);
    ShiftsInjective(Power(b - a), 0x8000, a);
  }

  lemma {:induction false} PeriodsMultiply(n: nat, k: nat)
    requires Period(n)
    ensures Period(n * k)
    decreases k
  {
    if k > 0 {
      PeriodsMultiply(n, k - 1);
      assert n * k == n + n * (k - 1);
      ShiftsAdd(0x8000, n, n * (k - 1));
    }
  }

  // Two periods have a common divisor that is a period.
  lemma {:induction false} CommonPeriod(a: nat, b: nat) returns (g: nat, p: nat, q: nat)
    requires 0 < a && 0 < b && Period(a) && Period(b)
    ensures Period(g) && a == g * p && b == g * q
    decreases a + b
  {
    if a == b {
      g, p, q := a, 1, 1;
    } else if a < b {
      PeriodsSubtract(a, b);
      g, p, q := CommonPeriod(a, b - a);
      assert g * (p + q) == g * p + g * q;
      q := p + q;
    } else {
      PeriodsSubtract(b, a);
      g, p, q := CommonPeriod(a - b, b);
      assert g * (p + q) == g * p + g * q;
      p := p + q;
    }
  }

  lemma NoFactor(p: nat, a: nat, b: nat)
    requires p == 7 || p == 31 || p == 151
    requires a * b == p
    ensures a == 1 || b == 1
  {
    if a < 13 {
      SmallFactor(p, a, b);
    } else if b < 13 {
      SmallFactor(p, b, a);
    } else {
      ProductAtLeast(a, b);
    }
  }

  lemma ProductAtLeast(a: nat, b: nat)
    requires a >= 13 && b >= 13
    ensures a * b >= 169
  {
    assert (a - 13) * (b - 13) >= 0;
  }

  lemma SmallFactor(p: nat, a: nat, b: nat)
    requires p == 7 || p == 31 || p == 151
    requires a * b == p && a < 13
    ensures a == 1 || b == 1
  {
  }

  // A prime that divides a product divides one of the factors.
  lemma {:induction false} PrimeDivides(p: nat, a: nat, b: nat, c: int) returns (inFirst: bool, k: nat)
    requires p == 7 || p == 31
    requires a * b == p * c
    ensures if inFirst then a == p * k else b == p * k
    decreases b
  {
    if b == 0 {
      inFirst, k := false, 0;
    } else if b == 1 {
      inFirst, k := true, c;
    } else if b >= p {
      TakeAway(p, a, b, c, 1);
      inFirst, k := PrimeDivides(p, a, b - p, c - a);
      if !inFirst {
        k := k + 1;
      }
    } else {
      var s, t := p / b, p % b;
      Remainder(p, a, b, c);
      inFirst, k := PrimeDivides(p, a, t, a - c * s);
      if !inFirst {
        SmallMultiple(p, t, k);
        NoFactor(p, b, s);
        assert false;
      }
    }
  }

  lemma TakeAway(p: nat, a: nat, b: nat, c: int, s: nat)
    requires a * b == p * c
    ensures a * (b - s * p) == p * (c - s * a)
  {
  }

  lemma Remainder(p: nat, a: nat, b: nat, c: int)
    requires b > 0 && a * b == p * c
    ensures a * (p % b) == p * (a - c * (p / b))
  {
    var s, t := p / b, p % b;
    assert p == b * s + t;
    assert a * t == a * p - a * (b * s);
    assert a * (b * s) == (a * b) * s;
    assert (p * c) * s == p * (c * s);
  }

  lemma SmallMultiple(p: nat, t: nat, k: nat)
    requires t == p * k && t < p
    ensures t == 0
  {
    assert k >= 1 ==> p * k >= p;
  }

  lemma WholePeriod()
    ensures Period(32767)
  {
    var n := Power32768();
    var m := PowerOne();
    PowerNext(n - 1);
    PowerNext(0);
    ShiftsInjective(Power(n - 1), 0x8000, 1);
  }

  // A divisor of 7 * 31 * 151 other than the whole divides one of three cofactors.
  lemma ProperDivisor(g: nat, q: nat) returns (n: nat, k: nat)
    requires g * q == 32767 && q > 1
    ensures g * k == n && (n == 217 || n == 1057 || n == 4681)
  {
    var first, r := PrimeDivides(7, g, q, 4681);
    if !first {
      assert 7 * (g * r) == g * q;
      return 4681, r;
    }
    assert 7 * (r * q) == g * q;
    var second, t := PrimeDivides(31, r, q, 151);
    if !second {
      assert 31 * (r * t) == r * q;
      assert g * t == 7 * (r * t);
      return 1057, t;
    }
    assert 31 * (t * q) == r * q;
    NoFactor(151, t, q);
    return 217, 1;
  }

  // The powers of x repeat after 32767 steps and not before.
  lemma PeriodIff(n: nat)
    requires n > 0
    ensures Period(n) <==> n % 32767 == 0
  {
    WholePeriod();
    if n % 32767 == 0 {
      PeriodsMultiply(32767, n / 32767);
    }
    if Period(n) {
      var g, p, q := CommonPeriod(n, 32767);
      if q > 1 {
        var m, k := ProperDivisor(g, q);
        PeriodsMultiply(g, k);
        var a := Power217();
        var b := Power1057();
        var c := Power4681();
        assert false;
      }
      assert q == 1;
    }
  }

  // ---- a few flipped bits -----------------------------------------------------------

  function Count(bits: seq<bool>): nat
    decreases |bits|
  {
    if bits == [] then 0 else (if bits[0] then 1 else 0) + Count(bits[1..])
  }

  lemma {:induction false} OddIffCountOdd(bits: seq<bool>)
    ensures OddBits(bits) <==> Count(bits) % 2 == 1
    decreases |bits|
  {
    if bits != [] {
      OddIffCountOdd(bits[1..]);
    }
  }

  lemma {:induction false} NoFlips(c: bv16, bits: seq<bool>)
    requires Count(bits) == 0
    ensures FeedBits(c, bits) == Shifts(c, |bits|)
    decreases |bits|
  {
    if bits != [] {
      NoFlips(Shift(c), bits[1..]);
    }
  }

  lemma ZeroStaysApart(c: bv16, n: nat)
    requires c != 0
    ensures Shifts(c, n) != 0
  {
    ShiftsOfZero(n);
    if Shifts(c, n) == 0 {
      ShiftsInjective(c, 0, n);
    }
  }

  lemma ShiftNonZero(c: bv16)
    requires c != 0
    ensures Shift(c) != 0
  {
  }

  lemma PowerFifteen()
    ensures Power(15) == 1
  {
    ShiftsThrice(0x8000, 15);
    ShiftsThrice(0x1000, 12);
    ShiftsThrice(0x0200, 9);
    ShiftsThrice(0x0040, 6);
    ShiftsThrice(0x0008, 3);
  }

  lemma {:induction false} OneMoreFlip(n: nat, bits: seq<bool>)
    requires 1 <= n && n + |bits| <= 32767 && Count(bits) == 1
    ensures FeedBits(Power(15 + n), bits) != 0
    decreases |bits|
  {
    if bits[0] {
      PowerFifteen();
      PeriodIff(n);
      ShiftsAdd(0x8000, n, 15);
      if Power(15 + n) == 1 {
        ShiftsInjective(Power(n), 0x8000, 15);
      }
      MixEqual(Power(15 + n), 1);
      ShiftNonZero(Mix(Power(15 + n), 1));
      NoFlips(FeedBit(Power(15 + n), true), bits[1..]);
      ZeroStaysApart(FeedBit(Power(15 + n), true), |bits| - 1);
    } else {
      PowerNext(15 + n);
      OneMoreFlip(n + 1, bits[1..]);
    }
  }

  lemma {:induction false} TwoFlips(bits: seq<bool>)
    requires |bits| <= 32767 && Count(bits) == 2
    ensures FeedBits(0, bits) != 0
    decreases |bits|
  {
    if bits[0] {
      PowerFifteen();
      PowerNext(15);
      OneMoreFlip(1, bits[1..]);
    } else {
      TwoFlips(bits[1..]);
    }
  }

  // In a frame of up to 4095 bytes, one, two or three flipped bits are always detected.
  lemma FewErrorsAreDetected(f: seq<Byte>, g: seq<Byte>)
    requires |f| == |g| <= 4095 && CrcOf(f) == 0
    requires 1 <= Count(Flips(FrameBits(f), FrameBits(g))) <= 3
    ensures CrcOf(g) != 0
  {
    var w := Flips(FrameBits(f), FrameBits(g));
    OddIffCountOdd(w);
    if Count(w) == 2 {
      TwoFlips(w);
      PassesIffErrorIsMultiple(f, g);
    } else {
      OddErrorsAreDetected(f, g);
    }
  }
}
