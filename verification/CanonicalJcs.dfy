/** The canonical text against RFC 8785: exactly for which bodies it is the prescribed text. */
module CanonicalJcs {
  import opened Wrappers
  import opened Text
  import opened Doubles
  import opened NumberTexts
  import opened KeyOrders
  import opened JsonModel
  import opened Canonical
  import opened CanonicalForm
  import opened CanonicalStrings

  // ---- numbers ----------------------------------------------------------------------

  // An integer below 10^21 that is the shortest decimal of its double.
  predicate PlainInteger(n: int) {
    Magnitude(n) < E21 && Shortest(Round(Magnitude(n))) == Magnitude(n)
  }

  lemma PlainOrScientific(v: nat, w: nat)
    requires v > 0
    ensures NatText(w) != Scientific(v) && NatText(w) + ".0" != Scientific(v)
  {
    PlainIsWord(w);
    ScientificIsWord(v);
    NatTextRoundTrip(w);
    DigitsOnly(NatText(w));
    assert 'e' !in NatText(w) + ".0";
  }

  lemma SignsApart(negative: bool, a: string, b: string)
    ensures Signed(negative, a) == Signed(negative, b) <==> a == b
  {
    if negative {
      assert ("-" + a)[1..] == a && ("-" + b)[1..] == b;
    }
  }

  // An integer's full numeral is what ECMAScript writes exactly for the plain integers.
  lemma IntegerAgreesIff(n: int)
    ensures IntegerText(n, Python) == IntegerText(n, Ecma) <==> PlainInteger(n)
  {
    var m := Magnitude(n);
    var v := Shortest(Round(m));
    EcmaTextIs(v);
    assert IntText(n) == Signed(n < 0, NatText(m));
    SignsApart(n < 0, NatText(m), FloatText(Round(m), Ecma));
    if v >= E21 {
      PlainOrScientific(v, m);
    } else {
      NatTextRoundTrip(m);
      NatTextRoundTrip(v);
    }
  }

  // Python and ECMAScript write a whole double alike exactly from 10^21 on.
  lemma WholeFloatAgreesIff(n: int)
    requires IsDouble(Magnitude(n))
    ensures WholeFloatText(n, Python) == WholeFloatText(n, Ecma) <==> Magnitude(n) >= E21
  {
    var x := Magnitude(n);
    var v := Shortest(x);
    ReachesE21(x);
    EcmaTextIs(v);
    SignsApart(n < 0, FloatText(x, Python), FloatText(x, Ecma));
    if v < E16 {
      PlainIsWord(v);
      DigitsOnlyText(v);
    } else if v < E21 {
      PlainOrScientific(v, v);
    }
  }

  lemma DigitsOnlyText(v: nat)
    ensures NatText(v) + ".0" != NatText(v)
  {
  }

  // Every number is written alike, at every depth.
  ghost predicate NumbersAgree(j: Json) {
    match j
    case Int(n) => PlainInteger(n)
    case Float(r) => Magnitude(r.Floor) >= E21
    case Arr(items) => forall i | 0 <= i < |items| :: NumbersAgree(items[i])
    case Obj(fields) => forall i | 0 <= i < |fields| :: NumbersAgree(fields[i].value)
    case _ => true
  }

  // ---- keys ---------------------------------------------------------------------------

  ghost predicate SameOrder(a: string, b: string) {
    Before(a, b, Python) <==> Before(a, b, Ecma)
  }

  ghost predicate FieldsAgree(fields: seq<Field>) {
    forall i, k | 0 <= i < |fields| && 0 <= k < |fields| :: SameOrder(fields[i].key, fields[k].key)
  }

  // No two keys of one object, at any depth, come in another order by code unit.
  ghost predicate KeysAgree(j: Json) {
    match j
    case Arr(items) => forall i | 0 <= i < |items| :: KeysAgree(items[i])
    case Obj(fields) => FieldsAgree(fields) && forall i | 0 <= i < |fields| :: KeysAgree(fields[i].value)
    case _ => true
  }

  // ---- the two token trees --------------------------------------------------------------

  ghost predicate Agree(j: Json) {
    Canon(j, Python) == Canon(j, Ecma)
  }

  function MemberOf(f: Field, style: Style): Member {
    Member(f.key, Canon(f.value, style))
  }

  // The members of a sorted object are those of its fields, in key order.
  ghost predicate FromField(x: Member, fields: seq<Field>, style: Style) {
    exists i | 0 <= i < |fields| :: x == MemberOf(fields[i], style)
  }

  function MembersOf(fields: seq<Field>, style: Style): (members: seq<Member>)
    ensures Canon(Obj(fields), style) == Dict(members)
  {
    Tokens(Obj(SortFields(fields, style)), style).members
  }

  ghost predicate MembersInOrder(members: seq<Member>, style: Style) {
    forall i, k | 0 <= i < k < |members| :: Before(members[i].key, members[k].key, style)
  }

  lemma MembersMeaning(fields: seq<Field>, style: Style)
    ensures forall x :: x in MembersOf(fields, style) <==> FromField(x, fields, style)
    ensures DistinctKeys(fields) ==> MembersInOrder(MembersOf(fields, style), style)
  {
    var sorted, members := SortFields(fields, style), MembersOf(fields, style);
    SortFieldsMeaning(fields, style);
    assert |members| == |sorted|;
    assert forall k | 0 <= k < |sorted| :: members[k] == Member(sorted[k].key, Tokens(sorted[k].value, style));
    forall x ensures x in members <==> FromField(x, fields, style) {
      if x in members {
        var k :| 0 <= k < |members| && members[k] == x;
        assert sorted[k] in sorted && FromEntry(sorted[k], fields, style);
        var i :| 0 <= i < |fields| && sorted[k] == Sorted(fields[i], style);
        assert x == MemberOf(fields[i], style);
      }
      if FromField(x, fields, style) {
        var i :| 0 <= i < |fields| && x == MemberOf(fields[i], style);
        assert FromEntry(Sorted(fields[i], style), fields, style);
        var k :| 0 <= k < |sorted| && sorted[k] == Sorted(fields[i], style);
        assert members[k] == x;
      }
    }
  }

  // Member lists in one order are determined by their members.
  lemma {:induction false} MembersUnique(s: seq<Member>, t: seq<Member>, style: Style)
    requires MembersInOrder(s, style) && MembersInOrder(t, style) && forall x :: x in s <==> x in t
    ensures s == t
  {
    assert t != [] ==> t[0] in t;
    if s != [] {
      assert s[0] in t;
      var i :| 0 <= i < |t| && t[i] == s[0];
      assert t[0] in s;
      var k :| 0 <= k < |s| && s[k] == t[0];
      BeforeIrreflexive(s[0].key, style);
      if i > 0 && k > 0 {
        BeforeTransitive(s[0].key, t[0].key, s[0].key, style);
      }
      assert s == [s[0]] + s[1..] && t == [s[0]] + t[1..];
      assert s[0] !in s[1..] && s[0] !in t[1..];
      assert forall x :: (x in s <==> x == s[0] || x in s[1..]) && (x in t <==> x == s[0] || x in t[1..]);
      MembersUnique(s[1..], t[1..], style);
    }
  }

  // With values that agree and keys in one order, the objects agree ...
  lemma FieldsAgreeSuffices(fields: seq<Field>)
    requires DistinctKeys(fields) && FieldsAgree(fields)
    requires forall i | 0 <= i < |fields| :: Agree(fields[i].value)
    ensures MembersOf(fields, Python) == MembersOf(fields, Ecma)
  {
    var s, t := MembersOf(fields, Python), MembersOf(fields, Ecma);
    MembersMeaning(fields, Python);
    MembersMeaning(fields, Ecma);
    forall x ensures FromField(x, fields, Python) <==> FromField(x, fields, Ecma) {
      assert forall i | 0 <= i < |fields| :: MemberOf(fields[i], Python) == MemberOf(fields[i], Ecma);
    }
    forall i, k | 0 <= i < k < |t| ensures Before(t[i].key, t[k].key, Python) {
      assert FromField(t[i], fields, Ecma) && FromField(t[k], fields, Ecma);
      var a :| 0 <= a < |fields| && t[i] == MemberOf(fields[a], Ecma);
      var b :| 0 <= b < |fields| && t[k] == MemberOf(fields[b], Ecma);
      assert SameOrder(fields[a].key, fields[b].key);
    }
    MembersUnique(s, t, Python);
  }

  // ... and only then.
  lemma FieldsAgreeNeeded(fields: seq<Field>)
    requires DistinctKeys(fields) && MembersOf(fields, Python) == MembersOf(fields, Ecma)
    ensures FieldsAgree(fields)
    ensures forall i | 0 <= i < |fields| :: Agree(fields[i].value)
  {
    var s := MembersOf(fields, Python);
    MembersMeaning(fields, Python);
    MembersMeaning(fields, Ecma);
    forall i | 0 <= i < |fields| ensures Agree(fields[i].value) {
      assert FromField(MemberOf(fields[i], Python), fields, Python);
      assert FromField(MemberOf(fields[i], Python), fields, Ecma);
      var k :| 0 <= k < |fields| && MemberOf(fields[i], Python) == MemberOf(fields[k], Ecma);
      assert fields[i].key == fields[k].key;
    }
    forall i, k | 0 <= i < |fields| && 0 <= k < |fields| ensures SameOrder(fields[i].key, fields[k].key) {
      assert FromField(MemberOf(fields[i], Python), fields, Python);
      assert FromField(MemberOf(fields[k], Python), fields, Python);
      var a :| 0 <= a < |s| && s[a] == MemberOf(fields[i], Python);
      var b :| 0 <= b < |s| && s[b] == MemberOf(fields[k], Python);
      OrderByPlace(s, a, b, Python);
      OrderByPlace(s, a, b, Ecma);
    }
  }

  lemma OrderByPlace(s: seq<Member>, a: nat, b: nat, style: Style)
    requires MembersInOrder(s, style) && a < |s| && b < |s|
    ensures Before(s[a].key, s[b].key, style) <==> a < b
  {
    BeforeIrreflexive(s[a].key, style);
    if b < a && Before(s[a].key, s[b].key, style) {
      BeforeTransitive(s[a].key, s[b].key, s[a].key, style);
    }
  }

  lemma {:induction false} AgreeIff(j: Json)
    requires WellFormed(j) && WholeNumbers(j)
    ensures Agree(j) <==> NumbersAgree(j) && KeysAgree(j)
    decreases j
  {
    match j {
      case Int(n) => IntegerAgreesIff(n);
      case Float(r) => WholeFloatAgreesIff(r.Floor);
      case Arr(items) =>
        forall i | 0 <= i < |items| ensures Agree(items[i]) <==> NumbersAgree(items[i]) && KeysAgree(items[i]) {
          AgreeIff(items[i]);
        }
        ArrayAgreesIff(items);
      case Obj(fields) =>
        forall i | 0 <= i < |fields|
          ensures Agree(fields[i].value) <==> NumbersAgree(fields[i].value) && KeysAgree(fields[i].value)
        {
          assert fields[i] in fields;
          AgreeIff(fields[i].value);
        }
        ObjectAgreesIff(fields);
      case _ =>
    }
  }

  lemma ArrayAgreesIff(items: seq<Json>)
    ensures Agree(Arr(items)) <==> forall i | 0 <= i < |items| :: Agree(items[i])
  {
    var s, t := Canon(Arr(items), Python), Canon(Arr(items), Ecma);
    assert |s.items| == |t.items| == |items|;
    assert forall i | 0 <= i < |items| :: s.items[i] == Canon(items[i], Python) && t.items[i] == Canon(items[i], Ecma);
  }

  lemma ObjectAgreesIff(fields: seq<Field>)
    requires DistinctKeys(fields)
    ensures Agree(Obj(fields)) <==> FieldsAgree(fields) && forall i | 0 <= i < |fields| :: Agree(fields[i].value)
  {
    if Agree(Obj(fields)) {
      FieldsAgreeNeeded(fields);
    }
    if FieldsAgree(fields) && forall i | 0 <= i < |fields| :: Agree(fields[i].value) {
      FieldsAgreeSuffices(fields);
    }
  }

  // ---- main results ----------------------------------------------------------------------

  // The canonical text is that of RFC 8785 exactly when every integer is below 10^21 and the
  // shortest decimal of its double, every float is 10^21 or more in magnitude, and no two keys of
  // one object come in another order by UTF-16 code unit.
  lemma CanonicalIsJcsIff(j: Json)
    requires WellFormed(j) && CheckNumbers(j) == None
    ensures Canonicalize(j) == Ok(JcsText(j)) <==> NumbersAgree(j) && KeysAgree(j)
  {
    CanonicalizesIff(j);
    AgreeIff(j);
    PrintIsJcs(Canon(j, Ecma));
    SortKeepsForm(j, Python);
    SortKeepsForm(j, Ecma);
    TokensAreWellWritten(SortKeys(j, Python), Python);
    TokensAreWellWritten(SortKeys(j, Ecma), Ecma);
    if Canonicalize(j) == Ok(JcsText(j)) {
      PrintIsInjective(Canon(j, Python), Canon(j, Ecma));
    }
  }

  // Bodies as profiles ask for them: no float, integers up to 2^53, keys in the basic plane.
  ghost predicate Ordinary(j: Json) {
    match j
    case Int(n) => Magnitude(n) <= PRECISE
    case Float(_) => false
    case NonFinite(_) => false
    case Arr(items) => forall i | 0 <= i < |items| :: Ordinary(items[i])
    case Obj(fields) => forall f | f in fields :: BasicPlane(f.key) && Ordinary(f.value)
    case _ => true
  }

  lemma {:induction false} OrdinaryAgrees(j: Json)
    requires Ordinary(j)
    ensures NumbersAgree(j) && KeysAgree(j) && CheckNumbers(j) == None
    decreases j
  {
    match j {
      case Int(n) => PreciseIsOwnShortest(Magnitude(n));
      case Arr(items) =>
        CheckItemsMeaning(items);
        forall i | 0 <= i < |items|
          ensures NumbersAgree(items[i]) && KeysAgree(items[i]) && CheckNumbers(items[i]) == None
        {
          OrdinaryAgrees(items[i]);
        }
      case Obj(fields) =>
        CheckFieldsMeaning(fields);
        forall f | f in fields ensures NumbersAgree(f.value) && KeysAgree(f.value) && CheckNumbers(f.value) == None {
          OrdinaryAgrees(f.value);
        }
        forall i, k | 0 <= i < |fields| && 0 <= k < |fields| ensures SameOrder(fields[i].key, fields[k].key) {
          assert fields[i] in fields && fields[k] in fields;
          BasicPlaneOrder(fields[i].key, fields[k].key);
        }
      case _ =>
    }
  }

  // For such bodies the text is that of RFC 8785.
  lemma OrdinaryIsJcs(j: Json)
    requires WellFormed(j) && Ordinary(j)
    ensures Canonicalize(j) == Ok(JcsText(j))
  {
    OrdinaryAgrees(j);
    CanonicalIsJcsIff(j);
  }

  // ---- bodies on which the two differ ----------------------------------------------------

  function OneField(value: Json): Json {
    Obj([Field("a", value)])
  }

  lemma OneFieldDiffers(value: Json)
    requires WellFormed(value) && CheckNumbers(value) == None && !NumbersAgree(value)
    ensures Canonicalize(OneField(value)).Ok? && Canonicalize(OneField(value)) != Ok(JcsText(OneField(value)))
  {
    var fields := [Field("a", value)];
    CheckFieldsMeaning(fields);
    assert fields[0].value == value;
    CanonicalIsJcsIff(Obj(fields));
  }

  // {"a": 1.0}: Python keeps the fraction.
  lemma IntegralFloatDiffersFromJcs()
    ensures var body := OneField(Float(1.0));
            Canonicalize(body).Ok? && Canonicalize(body) != Ok(JcsText(body))
  {
    SmallIsDouble(1);
    OneFieldDiffers(Float(1.0));
  }

  // {"a": 10**21}: ECMAScript writes 1e+21. The reading 1e21 of a serial line becomes this integer.
  lemma LargeIntegerDiffersFromJcs()
    ensures var body := OneField(Int(E21));
            Canonicalize(body).Ok? && Canonicalize(body) != Ok(JcsText(body))
  {
    OneFieldDiffers(Int(E21));
  }

  // {"a": 2**53 + 1}: ECMAScript reads and writes 2**53.
  lemma ImpreciseIntegerDiffersFromJcs(n: nat)
    requires n == PRECISE + 1
    ensures Canonicalize(OneField(Int(n))).Ok? && Canonicalize(OneField(Int(n))) != Ok(JcsText(OneField(Int(n))))
  {
    assert Ulp(n / 2) == 1 && Ulp(n) == 2 && Round(n) == PRECISE;
    PreciseIsOwnShortest(PRECISE);
    OneFieldDiffers(Int(n));
  }

  // Two keys, one of them beyond the basic plane: its surrogates come before U+FB33.
  lemma KeyOrderDiffersFromJcs()
    ensures var body := Obj([Field("\U{FB33}", Null), Field("\U{1F600}", Null)]);
            Canonicalize(body).Ok? && Canonicalize(body) != Ok(JcsText(body))
  {
    var fields := [Field("\U{FB33}", Null), Field("\U{1F600}", Null)];
    var body := Obj(fields);
    CheckFieldsMeaning(fields);
    assert fields[0].key[0] != fields[1].key[0];
    assert Before(fields[0].key, fields[1].key, Python);
    assert Utf16(fields[0].key)[0] == 0xFB33 && Utf16(fields[1].key)[0] == 0xD83D;
    assert !SameOrder(fields[0].key, fields[1].key);
    CanonicalIsJcsIff(body);
  }
}
