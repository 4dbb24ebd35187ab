/** The texts of numbers: Python's repr() as json.dumps uses it, and ECMAScript's Number::toString
    (section 3.2.2.3 of RFC 8785); and how a text is read back. */
module NumberTexts {
  import opened Text
  import opened Doubles

  datatype Style = Python | Ecma

  // From here on repr() writes an exponent.
  const E16: nat := 10_000_000_000_000_000

  // Without the zeros at the end.
  function Stripped(digits: string): (s: string)
    ensures |s| <= |digits|
  {
    if digits != "" && digits[|digits| - 1] == '0' then Stripped(digits[..|digits| - 1]) else digits
  }

  function Mantissa(digits: string): string {
    if |digits| <= 1 then digits else [digits[0]] + "." + digits[1..]
  }

  // d.ddde+nn
  function Scientific(v: nat): string {
    Mantissa(Stripped(NatText(v))) + "e+" + NatText(|NatText(v)| - 1)
  }

  function Zeros(n: nat): (zeros: string)
    ensures |zeros| == n && forall i | 0 <= i < n :: zeros[i] == '0'
  {
    if n == 0 then "" else Zeros(n - 1) + "0"
  }

  // Number::toString of ECMA-262 for a whole number of n digits, the first k of them significant:
  // up to 21 digits in full, otherwise with an exponent.
  function EcmaText(digits: string): string {
    var s := Stripped(digits);
    if |digits| <= 21 then s + Zeros(|digits| - |s|) else WithExponent(s, NatText(|digits| - 1))
  }

  function WithExponent(s: string, e: string): string {
    if |s| <= 1 then s + "e+" + e else s[..1] + "." + s[1..] + "e+" + e
  }

  // A whole double, given by its magnitude.
  function FloatText(x: nat, style: Style): string {
    var v := Shortest(x);
    match style
    case Python => if v < E16 then NatText(v) + ".0" else Scientific(v)
    case Ecma => EcmaText(NatText(v))
  }

  function Signed(negative: bool, text: string): string {
    if negative then "-" + text else text
  }

  function Magnitude(n: int): nat {
    if n < 0 then -n else n
  }

  // Python writes an integer in full; ECMAScript has only doubles.
  function IntegerText(n: int, style: Style): string {
    match style
    case Python => IntText(n)
    case Ecma => Signed(n < 0, FloatText(Round(Magnitude(n)), Ecma))
  }

  function WholeFloatText(n: int, style: Style): string {
    Signed(n < 0, FloatText(Magnitude(n), style))
  }

  // ---- reading ---------------------------------------------------------------------------

  function DigitsOf(s: string): nat {
    if AllDigits(s) then NatOf(s) else 0
  }

  // Digits before and after the point, times a power of ten, if that is whole.
  function Scaled(whole: string, fraction: string, e: nat): nat {
    if e < |fraction| then 0 else DigitsOf(whole + fraction) * Pow10(e - |fraction|)
  }

  // The number that digits with an optional fraction and exponent stand for, if it is whole.
  function ReadDecimal(s: string): nat {
    var (mantissa, exponent) := SplitFirst(s, 'e');
    var (whole, fraction) := SplitFirst(mantissa, '.');
    if exponent == "" then DigitsOf(whole) else Scaled(whole, fraction, DigitsOf(exponent[1..]))
  }

  lemma {:induction false} NatOfJoined(a: string, b: string)
    requires AllDigits(a) && AllDigits(b)
    ensures AllDigits(a + b) && NatOf(a + b) == NatOf(a) * Pow10(|b|) + NatOf(b)
  {
    if b == "" {
      assert a + b == a;
    } else {
      var n := |b| - 1;
      assert (a + b)[..|a + b| - 1] == a + b[..n];
      NatOfJoined(a, b[..n]);
      assert 10 * (NatOf(a) * Pow10(n)) == NatOf(a) * Pow10(|b|);
    }
  }

  lemma {:induction false} StrippedIs(digits: string)
    requires AllDigits(digits)
    ensures |Stripped(digits)| <= |digits| && AllDigits(Stripped(digits))
    ensures NatOf(digits) == NatOf(Stripped(digits)) * Pow10(|digits| - |Stripped(digits)|)
  {
    if digits != "" && digits[|digits| - 1] == '0' {
      var n := |digits| - 1;
      StrippedIs(digits[..n]);
      var s := Stripped(digits[..n]);
      assert 10 * (NatOf(s) * Pow10(n - |s|)) == NatOf(s) * Pow10(n + 1 - |s|);
    }
  }

  // What is stripped is exactly the zeros at the end.
  lemma {:induction false} StrippedExactly(digits: string)
    ensures var s := Stripped(digits);
      digits == s + Zeros(|digits| - |s|) && (s != "" ==> s[|s| - 1] != '0')
  {
    if digits != "" && digits[|digits| - 1] == '0' {
      StrippedExactly(digits[..|digits| - 1]);
      assert digits == digits[..|digits| - 1] + "0";
    }
  }

  lemma E16IsPower()
    ensures Pow10(16) == E16
  {
    assert Pow10(8) == 100_000_000;
  }

  // The numbers below a power of ten are those with as few digits.
  lemma DigitsBelow(n: nat, j: nat)
    requires j > 0
    ensures n < Pow10(j) <==> |NatText(n)| <= j
  {
    if n == 0 {
      assert Pow10(j) >= 1;
    } else {
      DigitCount(n);
      if |NatText(n)| <= j {
        Pow10Grows(|NatText(n)|, j);
      } else {
        Pow10Grows(j, |NatText(n)| - 1);
      }
    }
  }

  lemma EcmaTextIs(v: nat)
    ensures EcmaText(NatText(v)) == if v < E21 then NatText(v) else Scientific(v)
  {
    EcmaTextParts(NatText(v));
    E21IsPower();
    DigitsBelow(v, 21);
  }

  lemma EcmaTextParts(digits: string)
    ensures EcmaText(digits) == if |digits| <= 21 then digits
                                else Mantissa(Stripped(digits)) + "e+" + NatText(|digits| - 1)
  {
    StrippedExactly(digits);
    if |digits| > 21 {
      WithExponentIs(Stripped(digits), NatText(|digits| - 1));
    }
  }

  lemma WithExponentIs(s: string, e: string)
    ensures WithExponent(s, e) == Mantissa(s) + "e+" + e
  {
    if |s| > 1 {
      assert s[..1] == [s[0]];
    }
  }

  lemma DigitsOnly(s: string)
    requires AllDigits(s)
    ensures '.' !in s && 'e' !in s && '-' !in s
  {
  }

  lemma PlainReads(v: nat)
    ensures ReadDecimal(NatText(v) + ".0") == v
  {
    var d := NatText(v);
    NatTextRoundTrip(v);
    DigitsOnly(d);
    SplitNone(d + ".0", 'e');
    assert d + ".0" == d + ['.'] + "0";
    SplitFirstOfJoin(d, '.', "0");
  }

  lemma MantissaSplits(d: string)
    requires AllDigits(d) && d != ""
    ensures SplitFirst(Mantissa(d), '.') == ([d[0]], d[1..]) && 'e' !in Mantissa(d)
  {
    DigitsOnly(d);
    if |d| == 1 {
      SplitNone(d, '.');
      assert d == [d[0]] && d[1..] == "";
    } else {
      DigitsOnly([d[0]]);
      SplitFirstOfJoin([d[0]], '.', d[1..]);
      assert [d[0]] + "." + d[1..] == [d[0]] + ['.'] + d[1..];
    }
  }

  lemma ExponentReads(d: string, e: string)
    requires AllDigits(d) && d != "" && AllDigits(e)
    ensures ReadDecimal(Mantissa(d) + "e+" + e) == Scaled([d[0]], d[1..], NatOf(e))
  {
    MantissaSplits(d);
    ExponentSplits(Mantissa(d), e);
    assert ("+" + e)[1..] == e;
  }

  lemma ScaledIs(d: string, e: nat)
    requires AllDigits(d) && d != "" && e >= |d| - 1
    ensures Scaled([d[0]], d[1..], e) == NatOf(d) * Pow10(e + 1 - |d|)
  {
    assert [d[0]] + d[1..] == d;
  }

  lemma ExponentSplits(m: string, e: string)
    requires 'e' !in m
    ensures SplitFirst(m + "e+" + e, 'e') == (m, "+" + e)
  {
    assert m + "e+" + e == m + ['e'] + ("+" + e);
    SplitFirstOfJoin(m, 'e', "+" + e);
  }

  lemma ScientificReads(v: nat)
    requires v > 0
    ensures ReadDecimal(Scientific(v)) == v
  {
    var text := NatText(v);
    var d, e := Stripped(text), NatText(|text| - 1);
    NatTextRoundTrip(v);
    NatTextRoundTrip(|text| - 1);
    StrippedIs(text);
    NotAllStripped(d, v, Pow10(|text| - |d|));
    ExponentReads(d, e);
    ScaledIs(d, |text| - 1);
  }

  lemma NotAllStripped(d: string, v: nat, p: nat)
    requires AllDigits(d) && v > 0 && v == NatOf(d) * p
    ensures d != ""
  {
    assert NatOf("") == 0;
  }

  // Python's text of a double reads as that double.
  lemma FloatReads(x: nat)
    requires IsDouble(x)
    ensures Round(ReadDecimal(FloatText(x, Python))) == x
  {
    ShortestReads(x);
    if Shortest(x) < E16 {
      PlainReads(Shortest(x));
    } else {
      ScientificReads(Shortest(x));
    }
  }
}
