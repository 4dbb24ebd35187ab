/** Orders of object keys: by code point, as Python sorts str, and by UTF-16 code unit, as section
    3.2.3 of RFC 8785 prescribes. */
module KeyOrders {
  import opened Text
  import opened NumberTexts

  // A character beyond the basic plane is a pair of surrogates.
  function CodeUnits(c: char): seq<int> {
    var n := c as int;
    if n < 0x1_0000 then [n] else [0xD800 + (n - 0x1_0000) / 0x400, 0xDC00 + (n - 0x1_0000) % 0x400]
  }

  function Utf16(s: string): seq<int> {
    if s == "" then [] else CodeUnits(s[0]) + Utf16(s[1..])
  }

  predicate LessUnits(a: seq<int>, b: seq<int>) {
    b != [] && (a == [] || a[0] < b[0] || (a[0] == b[0] && LessUnits(a[1..], b[1..])))
  }

  predicate Before(a: string, b: string, style: Style) {
    match style
    case Python => Less(a, b)
    case Ecma => LessUnits(Utf16(a), Utf16(b))
  }

  ghost predicate UnitsDifferAt(a: seq<int>, b: seq<int>, i: int) {
    0 <= i <= |a| && i < |b| && a[..i] == b[..i] && (i < |a| ==> a[i] < b[i])
  }

  lemma {:induction false} LessUnitsIff(a: seq<int>, b: seq<int>)
    ensures LessUnits(a, b) <==> exists i :: UnitsDifferAt(a, b, i)
  {
    if b != [] && (a == [] || a[0] < b[0]) {
      assert UnitsDifferAt(a, b, 0);
    } else if b != [] && a[0] == b[0] {
      LessUnitsIff(a[1..], b[1..]);
      if i :| UnitsDifferAt(a[1..], b[1..], i) {
        assert a[..i + 1] == [a[0]] + a[1..][..i] && b[..i + 1] == [b[0]] + b[1..][..i];
        assert UnitsDifferAt(a, b, i + 1);
      }
      if i :| UnitsDifferAt(a, b, i) {
        assert a[1..][..i - 1] == a[..i][1..] && b[1..][..i - 1] == b[..i][1..];
        assert UnitsDifferAt(a[1..], b[1..], i - 1);
      }
    } else {
      forall i | 0 < i <= |a| && i < |b| ensures !UnitsDifferAt(a, b, i) {
        assert a[..i][0] == a[0] && b[..i][0] == b[0];
      }
    }
  }

  // ---- UTF-16 orders all strings --------------------------------------------------------

  lemma {:induction false} LessUnitsTransitive(a: seq<int>, b: seq<int>, c: seq<int>)
    requires LessUnits(a, b) && LessUnits(b, c)
    ensures LessUnits(a, c)
  {
    if a != [] && a[0] == b[0] && b[0] == c[0] {
      LessUnitsTransitive(a[1..], b[1..], c[1..]);
    }
  }

  lemma {:induction false} LessUnitsTotal(a: seq<int>, b: seq<int>)
    ensures a == b || LessUnits(a, b) || LessUnits(b, a)
  {
    if a != [] && b != [] && a[0] == b[0] {
      LessUnitsTotal(a[1..], b[1..]);
      assert a == [a[0]] + a[1..] && b == [b[0]] + b[1..];
    }
  }

  lemma {:induction false} LessUnitsIrreflexive(a: seq<int>)
    ensures !LessUnits(a, a)
  {
    if a != [] {
      LessUnitsIrreflexive(a[1..]);
    }
  }

  lemma CodeUnitsDistinct(c: char, d: char, s: seq<int>, t: seq<int>)
    requires CodeUnits(c) + s == CodeUnits(d) + t
    ensures c == d && s == t
  {
    var u, v := CodeUnits(c), CodeUnits(d);
    assert (u + s)[0] == u[0] && (v + t)[0] == v[0];
    assert |u| == |v|;
    assert |u| == 2 ==> (u + s)[1] == u[1] && (v + t)[1] == v[1];
    assert s == (u + s)[|u|..] && t == (v + t)[|v|..];
  }

  lemma {:induction false} Utf16Injective(a: string, b: string)
    requires Utf16(a) == Utf16(b)
    ensures a == b
  {
    if a != "" && b != "" {
      CodeUnitsDistinct(a[0], b[0], Utf16(a[1..]), Utf16(b[1..]));
      Utf16Injective(a[1..], b[1..]);
      assert a == [a[0]] + a[1..] && b == [b[0]] + b[1..];
    }
  }

  // ---- either order -----------------------------------------------------------------------

  lemma BeforeTransitive(a: string, b: string, c: string, style: Style)
    requires Before(a, b, style) && Before(b, c, style)
    ensures Before(a, c, style)
  {
    match style {
      case Python => LessTransitive(a, b, c);
      case Ecma => LessUnitsTransitive(Utf16(a), Utf16(b), Utf16(c));
    }
  }

  lemma BeforeTotal(a: string, b: string, style: Style)
    ensures a == b || Before(a, b, style) || Before(b, a, style)
  {
    match style {
      case Python => LessTotal(a, b);
      case Ecma =>
        LessUnitsTotal(Utf16(a), Utf16(b));
        if Utf16(a) == Utf16(b) {
          Utf16Injective(a, b);
        }
    }
  }

  lemma BeforeIrreflexive(a: string, style: Style)
    ensures !Before(a, a, style)
  {
    match style {
      case Python => LessIrreflexive(a);
      case Ecma => LessUnitsIrreflexive(Utf16(a));
    }
  }

  // ---- where the two agree -------------------------------------------------------------------

  predicate BasicPlane(s: string) {
    forall i | 0 <= i < |s| :: s[i] as int < 0x1_0000
  }

  // Without characters beyond the basic plane the two orders are one.
  lemma {:induction false} BasicPlaneOrder(a: string, b: string)
    requires BasicPlane(a) && BasicPlane(b)
    ensures Before(a, b, Ecma) <==> Before(a, b, Python)
  {
    if a != "" && b != "" {
      assert Utf16(a)[1..] == Utf16(a[1..]) && Utf16(b)[1..] == Utf16(b[1..]);
      BasicPlaneOrder(a[1..], b[1..]);
    }
  }

  // A character beyond the basic plane is a high and a low surrogate that hold its number, and every
  // other is itself.
  lemma SurrogatesIs(c: char)
    ensures c as int < 0x1_0000 ==> CodeUnits(c) == [c as int]
    ensures c as int >= 0x1_0000 ==>
              && |CodeUnits(c)| == 2 && 0xD800 <= CodeUnits(c)[0] < 0xDC00 <= CodeUnits(c)[1] < 0xE000
              && c as int == 0x1_0000 + (CodeUnits(c)[0] - 0xD800) * 0x400 + (CodeUnits(c)[1] - 0xDC00)
  {
  }
}
