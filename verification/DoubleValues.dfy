/** Doubles and rounding as IEEE 754 defines them: 53 significant bits, the nearest double, halves to
    the even one; and the shape of the texts that Python writes. */
module DoubleValues {
  import opened Text
  import opened Doubles
  import opened NumberTexts

  // ---- which whole numbers are doubles --------------------------------------------------------

  // 53 significant bits, times a power of two.
  ghost predicate HasMantissa(n: nat, m: nat, e: nat) {
    m < 9007199254740992 && n == m * Pow2(e)
  }

  lemma {:induction false} UlpIsPower(n: nat) returns (k: nat)
    ensures Ulp(n) == Pow2(k)
  {
    k := 0;
    if n >= PRECISE {
      k := UlpIsPower(n / 2);
      k := k + 1;
    }
  }

  lemma {:induction false} PowersApart(i: nat, j: nat) returns (c: nat)
    requires Pow2(i) < 2 * Pow2(j)
    ensures Pow2(j) == c * Pow2(i)
    decreases i + j
  {
    if i == 0 {
      c := Pow2(j);
    } else if j == 0 {
      assert false;
    } else {
      c := PowersApart(i - 1, j - 1);
      assert 2 * (c * Pow2(i - 1)) == c * (2 * Pow2(i - 1));
    }
  }

  lemma ExactlyMultiple(q: nat, r: nat, u: nat)
    requires r < u
    ensures RoundAt(q, r, u) == q * u + r <==> r == 0
  {
  }

  // A double is a multiple of the distance between its neighbours.
  lemma DoubleIff(n: nat)
    ensures IsDouble(n) <==> n % Ulp(n) == 0
  {
    DoubleAt(n, Ulp(n));
  }

  lemma DoubleAt(n: nat, u: nat)
    requires u > 0
    ensures RoundTo(n, u) == n <==> n % u == 0
  {
    RoundToParts(n, u, n / u, n % u);
  }

  lemma RoundToParts(n: nat, u: nat, q: nat, r: nat)
    requires u > 0 && q == n / u && r == n % u
    ensures n == q * u + r && r < u && RoundTo(n, u) == RoundAt(q, r, u)
    ensures RoundTo(n, u) == n <==> r == 0
  {
    Parts(n, u);
    ExactlyMultiple(q, r, u);
  }

  lemma Quotients(n: nat, u: nat, q: nat)
    requires u > 0 && n == q * u && n < 9007199254740992 * u
    ensures q < 9007199254740992
  {
    assert q >= 9007199254740992 ==> (q - 9007199254740992) * u >= 0;
  }

  // Where the mantissa fits, the distance between neighbours is no more than twice the power.
  lemma UlpIsSmall(n: nat, m: nat, e: nat)
    requires HasMantissa(n, m, e)
    ensures n >= PRECISE ==> Ulp(n) < 2 * Pow2(e)
  {
    UlpRange(n);
    NoRoom(Ulp(n), Pow2(e), m);
  }

  lemma NoRoom(u: nat, p: nat, m: nat)
    requires m < PRECISE && p >= 1
    ensures u >= 2 * p ==> PRECISE * u > 2 * (m * p)
  {
    assert (PRECISE - m) * p > 0;
    assert u >= 2 * p ==> PRECISE * (u - 2 * p) >= 0;
  }

  lemma MultipleOfMultiple(m: nat, c: nat, u: nat)
    requires u > 0
    ensures (m * (c * u)) % u == 0
  {
    assert m * (c * u) == (m * c) * u;
    WholeMultiple(m * c, u);
  }

  // The whole doubles are exactly the numbers of 53 significant bits.
  lemma IsDoubleIff(n: nat)
    ensures IsDouble(n) <==> exists m, e :: HasMantissa(n, m, e)
  {
    var k := UlpIsPower(n);
    DoubleIff(n);
    UlpRange(n);
    if IsDouble(n) {
      var u := Ulp(n);
      Parts(n, u);
      Quotients(n, u, n / u);
      assert HasMantissa(n, n / u, k);
    }
    if m, e :| HasMantissa(n, m, e) {
      if n >= PRECISE {
        UlpIsSmall(n, m, e);
        var c := PowersApart(k, e);
        MultipleOfMultiple(m, c, Ulp(n));
      }
    }
  }

  // ---- rounding -----------------------------------------------------------------------------

  lemma NearestMultiple(q: nat, r: nat, u: nat, p: nat)
    requires r < u
    ensures Distance(RoundAt(q, r, u), q * u + r) <= Distance(p * u, q * u + r)
  {
    if p < q {
      MultiplesApart(p, q, u);
    } else if p > q {
      MultiplesApart(q, p, u);
    }
  }

  lemma NoFartherThanRest(q: nat, r: nat, u: nat)
    requires r < u
    ensures Distance(RoundAt(q, r, u), q * u + r) <= r
  {
  }

  // No double is nearer to a number than the one that it is rounded to.
  lemma RoundIsNearest(n: nat, d: nat)
    requires IsDouble(d)
    ensures Distance(Round(n), n) <= Distance(d, n)
  {
    DoubleIff(d);
    if d >= n {
      DividesUp(n, d);
      AmongMultiples(n, Ulp(n), d);
    } else if Ulp(d) == Ulp(n) {
      AmongMultiples(n, Ulp(n), d);
    } else {
      UlpGrows(d, n);
      UlpRange(d);
      UlpRange(n);
      BelowBinade(d, n);
      FromBelow(n, Ulp(n), d);
    }
  }

  lemma AmongMultiples(n: nat, u: nat, d: nat)
    requires u > 0 && d % u == 0
    ensures Distance(RoundTo(n, u), n) <= Distance(d, n)
  {
    RoundToParts(n, u, n / u, n % u);
    RoundToParts(d, u, d / u, d % u);
    NearestMultiple(n / u, n % u, u, d / u);
  }

  lemma FromBelow(n: nat, u: nat, d: nat)
    requires u > 0 && d <= n / u * u
    ensures Distance(RoundTo(n, u), n) <= Distance(d, n)
  {
    RoundToParts(n, u, n / u, n % u);
    NoFartherThanRest(n / u, n % u, u);
  }

  lemma DividesUp(n: nat, d: nat)
    requires n <= d && d % Ulp(d) == 0
    ensures d % Ulp(n) == 0
  {
    var i := UlpIsPower(n);
    var j := UlpIsPower(d);
    UlpGrows(n, d);
    var c := PowersApart(i, j);
    Parts(d, Ulp(d));
    MultipleOfMultiple(d / Ulp(d), c, Ulp(n));
  }

  // A double of a lower binade is at most the largest multiple below.
  lemma BelowBinade(d: nat, n: nat)
    requires d < n && d < PRECISE * Ulp(d) && 2 * Ulp(d) <= Ulp(n) && PRECISE * Ulp(n) <= 2 * n
    ensures d <= n / Ulp(n) * Ulp(n)
  {
    var u, half := Ulp(n), PRECISE / 2;
    Parts(n, u);
    assert PRECISE == 2 * half;
    assert half * u <= n;
    if n / u < half {
      MultiplesApart(n / u, half, u);
    } else if n / u > half {
      MultiplesApart(half, n / u, u);
    }
    assert PRECISE * Ulp(d) <= half * u;
  }

  // Halfway between two doubles, the one with the even mantissa is taken.
  lemma HalvesGoToEven(q: nat, u: nat)
    requires u > 0 && u % 2 == 0
    ensures RoundTo(q * u + u / 2, u) == (if q % 2 == 0 then q else q + 1) * u
  {
    var n := q * u + u / 2;
    Parts(n, u);
    QuotientGrows(n / u, n % u, q, u / 2, u);
    QuotientGrows(q, u / 2, n / u, n % u, u);
  }

  // ---- Python's texts ------------------------------------------------------------------------

  // The digits without the zeros at the end.
  ghost predicate Significant(s: string, digits: string) {
    s != "" && s[|s| - 1] != '0' && s <= digits && forall i | |s| <= i < |digits| :: digits[i] == '0'
  }

  // A whole double is written in full with a fraction of zero up to 16 digits, and beyond that as a
  // mantissa without zeros at the end and an exponent.
  lemma PythonTextShape(x: nat)
    ensures var digits, text := NatText(Shortest(x)), FloatText(x, Python);
            if |digits| <= 16 then text == digits + ".0"
            else exists s :: Significant(s, digits)
                             && text == [s[0]] + (if |s| == 1 then "" else "." + s[1..]) + "e+" + NatText(|digits| - 1)
  {
    var v := Shortest(x);
    var digits := NatText(v);
    E16IsPower();
    DigitsBelow(v, 16);
    if |digits| > 16 {
      var s := Stripped(digits);
      NatTextRoundTrip(v);
      StrippedIs(digits);
      NotAllStripped(s, v, Pow10(|digits| - |s|));
      StrippedExactly(digits);
      assert digits[|s|..] == Zeros(|digits| - |s|);
      assert Significant(s, digits);
      MantissaIs(s);
    }
  }

  lemma MantissaIs(s: string)
    requires s != ""
    ensures Mantissa(s) == [s[0]] + if |s| == 1 then "" else "." + s[1..]
  {
  }

  // 1.0 and the whole number -1.
  lemma TextsOfOne()
    ensures WholeFloatText(1, Python) == "1.0" && WholeFloatText(-1, Python) == "-1.0"
    ensures IntegerText(-1, Python) == "-1" && WholeFloatText(1, Ecma) == "1"
  {
    PreciseIsOwnShortest(1);
    EcmaTextIs(1);
  }
}
