/** What the canonical text is worth: reading it gives the body back, and two bodies have the same
    text exactly when they are the same JSON value. */
module CanonicalForm {
  import opened Wrappers
  import opened Text
  import opened Doubles
  import opened NumberTexts
  import opened KeyOrders
  import opened JsonModel
  import opened Canonical
  import opened CanonicalParser

  // ---- the parser undoes the printer ---------------------------------------

  // What may follow a value inside a text.
  predicate Delimited(rest: string) {
    rest == "" || rest[0] == ',' || rest[0] == ']' || rest[0] == '}'
  }

  lemma {:induction false} UnescapeEscape(c: char, rest: string)
    ensures EscapeChar(c) != "" && EscapeChar(c)[0] != '\"'
    ensures UnescapeChar(EscapeChar(c) + rest) == Some((c, rest))
  {
    var s := EscapeChar(c) + rest;
    if c < ' ' && |EscapeChar(c)| == 6 {
      var hi, lo := c as int / 16, c as int % 16;
      assert HexValue(HexDigit(hi)) == Some(hi) && HexValue(HexDigit(lo)) == Some(lo);
      assert s[4] == HexDigit(hi) && s[5] == HexDigit(lo) && s[6..] == rest;
      assert HexEscape(s) == Some(c as int);
    } else if |EscapeChar(c)| == 2 {
      assert s[2..] == rest;
    } else {
      assert s[1..] == rest;
    }
  }

  lemma ParseOneChar(c: char, tail: string, text: string, rest: string)
    requires ParseChars(tail) == Some((text, rest))
    ensures ParseChars(EscapeChar(c) + tail) == Some(([c] + text, rest))
  {
    UnescapeEscape(c, tail);
    assert (EscapeChar(c) + tail)[0] == EscapeChar(c)[0];
  }

  lemma {:induction false} ParseCharsOfEscape(text: string, rest: string)
    ensures ParseChars(EscapeAll(text) + "\"" + rest) == Some((text, rest))
  {
    var s := EscapeAll(text) + "\"" + rest;
    if text == "" {
      assert s == ['\"'] + rest;
    } else {
      var tail := EscapeAll(text[1..]) + "\"" + rest;
      assert s == EscapeChar(text[0]) + tail;
      ParseCharsOfEscape(text[1..], rest);
      ParseOneChar(text[0], tail, text[1..], rest);
      assert [text[0]] + text[1..] == text;
    }
  }

  predicate IsWord(text: string) {
    text != "" && forall i | 0 <= i < |text| :: IsWordChar(text[i])
  }

  lemma {:induction false} WordPrefixStops(word: string, rest: string)
    requires forall i | 0 <= i < |word| :: IsWordChar(word[i])
    requires rest == "" || !IsWordChar(rest[0])
    ensures WordPrefix(word + rest) == |word|
  {
    if word != "" {
      assert (word + rest)[1..] == word[1..] + rest;
      WordPrefixStops(word[1..], rest);
    } else {
      assert word + rest == rest;
    }
  }

  // Names and numbers are written with such characters.
  ghost predicate WellWritten(t: Token) {
    match t
    case Word(text) => IsWord(text)
    case Quoted(_) => true
    case List(items) => forall i | 0 <= i < |items| :: WellWritten(items[i])
    case Dict(members) => forall i | 0 <= i < |members| :: WellWritten(members[i].value)
  }

  // One step of the parser on each kind of compound text.
  lemma ParseArrayStep(s: string, items: seq<Token>, rest: string)
    requires s != "" && s[0] == '['
    requires if items == [] then s == "[]" + rest
             else |s| > 1 && s[1] != ']' && ParseItems(s[1..]) == Some((items, rest))
    ensures ParseToken(s) == Some((List(items), rest))
  {
    assert items == [] ==> "[]" <= s && s[2..] == rest;
  }

  lemma ParseObjectStep(s: string, members: seq<Member>, rest: string)
    requires s != "" && s[0] == '{'
    requires if members == [] then s == "{}" + rest
             else |s| > 1 && s[1] != '}' && ParseMembers(s[1..]) == Some((members, rest))
    ensures ParseToken(s) == Some((Dict(members), rest))
  {
    assert members == [] ==> "{}" <= s && s[2..] == rest;
  }

  lemma ParseItemsStep(s: string, items: seq<Token>, tail: string, rest: string)
    requires items != [] && ParseToken(s) == Some((items[0], tail))
    requires if |items| == 1 then tail == "]" + rest
             else tail != "" && tail[0] == ',' && ParseItems(tail[1..]) == Some((items[1..], rest))
    ensures ParseItems(s) == Some((items, rest))
  {
    assert items == [items[0]] + items[1..];
    if |items| == 1 {
      assert items == [items[0]] && tail[1..] == rest;
    }
  }

  lemma ParseMembersStep(s: string, members: seq<Member>, value: string, tail: string, rest: string)
    requires members != [] && s != "" && s[0] == '\"'
    requires ParseChars(s[1..]) == Some((members[0].key, ":" + value))
    requires ParseToken(value) == Some((members[0].value, tail))
    requires if |members| == 1 then tail == "}" + rest
             else tail != "" && tail[0] == ',' && ParseMembers(tail[1..]) == Some((members[1..], rest))
    ensures ParseMembers(s) == Some((members, rest))
  {
    assert (":" + value)[1..] == value;
    var first := Member(members[0].key, members[0].value);
    assert members == [first] + members[1..];
    if |members| == 1 {
      assert members == [first] && tail[1..] == rest;
    }
  }

  // The text of a value is not empty and does not begin with a closing bracket.
  lemma PrintedStart(t: Token)
    requires WellWritten(t)
    ensures Print(t) != "" && Print(t)[0] != ']'
  {
    if t.Word? {
      assert IsWordChar(t.text[0]);
    }
  }

  lemma ArrayText(items: seq<Token>, rest: string)
    requires WellWritten(List(items))
    ensures var s := Print(List(items)) + rest;
            s != "" && s[0] == '[' &&
            if items == [] then s == "[]" + rest
            else |s| > 1 && s[1] != ']' && s[1..] == PrintItems(items) + rest
  {
    if items != [] {
      var text := PrintItems(items);
      PrintedStart(items[0]);
      assert text[0] == Print(items[0])[0];
      ThreeParts("[", text, rest);
      assert ("[" + (text + rest))[1..] == text + rest;
    }
  }

  lemma ObjectText(members: seq<Member>, rest: string)
    ensures var s := Print(Dict(members)) + rest;
            s != "" && s[0] == '{' &&
            if members == [] then s == "{}" + rest
            else |s| > 1 && s[1] != '}' && s[1..] == PrintMembers(members) + rest
  {
    if members != [] {
      PrintMembersText(members, rest);
      var text := PrintMembers(members) + rest;
      assert Print(Dict(members)) + rest == "{" + text && text[0] == '\"';
    }
  }

  lemma ParseStringStep(text: string, rest: string)
    ensures ParseToken(Quote(text) + rest) == Some((Quoted(text), rest))
  {
    var s := Quote(text) + rest;
    assert s[1..] == EscapeAll(text) + "\"" + rest;
    ParseCharsOfEscape(text, rest);
  }

  lemma ParseWord(word: string, rest: string)
    requires IsWord(word) && Delimited(rest)
    ensures ParseToken(word + rest) == Some((Word(word), rest))
  {
    var s := word + rest;
    WordPrefixStops(word, rest);
    assert s[0] == word[0] && IsWordChar(word[0]);
    assert s[..|word|] == word && s[|word|..] == rest;
  }

  // Reading back the text of tokens gives those tokens and leaves what follows them.
  lemma {:induction false} ParsePrint(t: Token, rest: string)
    requires WellWritten(t) && Delimited(rest)
    ensures ParseToken(Print(t) + rest) == Some((t, rest))
    decreases t, 1
  {
    var s := Print(t) + rest;
    match t {
      case List(items) =>
        if items != [] {
          ParsePrintItems(items, rest);
        }
        ArrayText(items, rest);
        ParseArrayStep(s, items, rest);
      case Dict(members) =>
        if members != [] {
          ParsePrintMembers(members, rest);
        }
        ObjectText(members, rest);
        ParseObjectStep(s, members, rest);
      case Quoted(text) => ParseStringStep(text, rest);
      case Word(text) => ParseWord(text, rest);
    }
  }

  lemma {:induction false} ParsePrintItems(items: seq<Token>, rest: string)
    requires items != [] && WellWritten(List(items))
    ensures ParseItems(PrintItems(items) + rest) == Some((items, rest))
    decreases items, 0
  {
    var tail := AfterItem(items, rest);
    ItemsCut(items, rest);
    AfterItemStart(items, rest);
    ParsePrint(items[0], tail);
    if |items| > 1 {
      assert tail[1..] == PrintItems(items[1..]) + rest;
      ParsePrintItems(items[1..], rest);
    }
    ParseItemsStep(Print(items[0]) + tail, items, tail, rest);
  }

  // What follows the first item of an array's text.
  function AfterItem(items: seq<Token>, rest: string): string
    requires items != []
  {
    (if |items| == 1 then "]" else "," + PrintItems(items[1..])) + rest
  }

  lemma AfterItemStart(items: seq<Token>, rest: string)
    requires items != []
    ensures Delimited(AfterItem(items, rest))
    ensures |items| == 1 ==> AfterItem(items, rest) == "]" + rest
    ensures |items| > 1 ==> AfterItem(items, rest) == "," + (PrintItems(items[1..]) + rest)
  {}

  lemma ItemsCut(items: seq<Token>, rest: string)
    requires items != []
    ensures PrintItems(items) + rest == Print(items[0]) + AfterItem(items, rest)
  {
    var after := if |items| == 1 then "]" else "," + PrintItems(items[1..]);
    ThreeParts(Print(items[0]), after, rest);
  }

  lemma ThreeParts(a: string, b: string, c: string)
    ensures a + b + c == a + (b + c)
  {
  }

  // What follows the first entry of an object's text.
  function AfterFirst(members: seq<Member>, rest: string): string
    requires members != []
  {
    (if |members| == 1 then "}" else "," + PrintMembers(members[1..])) + rest
  }

  lemma AfterFirstStart(members: seq<Member>, rest: string)
    requires members != []
    ensures Delimited(AfterFirst(members, rest))
    ensures |members| == 1 ==> AfterFirst(members, rest) == "}" + rest
    ensures |members| > 1 ==> AfterFirst(members, rest) == "," + (PrintMembers(members[1..]) + rest)
  {}

  // The text of an object's entries, cut at the first key and the first value.
  lemma PrintMembersText(members: seq<Member>, rest: string)
    requires members != []
    ensures PrintMembers(members) + rest ==
            "\"" + (EscapeAll(members[0].key) + "\"" + (":" + (Print(members[0].value) + AfterFirst(members, rest))))
  {
    var after := if |members| == 1 then "}" else "," + PrintMembers(members[1..]);
    Regroup(EscapeAll(members[0].key), Print(members[0].value), after, rest);
  }

  lemma Regroup(key: string, text: string, after: string, rest: string)
    ensures "\"" + key + "\"" + ":" + text + after + rest
            == "\"" + (key + "\"" + (":" + (text + (after + rest))))
  {}

  lemma {:induction false} ParsePrintMembers(members: seq<Member>, rest: string)
    requires members != [] && WellWritten(Dict(members))
    ensures ParseMembers(PrintMembers(members) + rest) == Some((members, rest))
    decreases members, 0
  {
    var tail := AfterFirst(members, rest);
    var value := Print(members[0].value) + tail;
    var s := "\"" + (EscapeAll(members[0].key) + "\"" + (":" + value));
    PrintMembersText(members, rest);
    AfterFirstStart(members, rest);
    ParseCharsOfEscape(members[0].key, ":" + value);
    ParsePrint(members[0].value, tail);
    if |members| > 1 {
      ParsePrintMembers(members[1..], rest);
      assert tail[1..] == PrintMembers(members[1..]) + rest;
    }
    assert s[1..] == EscapeAll(members[0].key) + "\"" + (":" + value);
    ParseMembersStep(s, members, value, tail, rest);
  }
  // ---- sorting the keys -----------------------------------------------------

  ghost predicate InKeyOrder(fields: seq<Field>, style: Style) {
    forall i, k | 0 <= i < k < |fields| :: Before(fields[i].key, fields[k].key, style)
  }

  lemma {:induction false} InsertKeeps(f: Field, sorted: seq<Field>, style: Style)
    ensures forall x :: x in InsertField(f, sorted, style) <==> x == f || x in sorted
  {
    if sorted != [] && Before(sorted[0].key, f.key, style) {
      InsertKeeps(f, sorted[1..], style);
      assert sorted == [sorted[0]] + sorted[1..];
    }
  }

  lemma {:induction false} InsertOrders(f: Field, sorted: seq<Field>, style: Style)
    requires InKeyOrder(sorted, style) && forall x | x in sorted :: x.key != f.key
    ensures InKeyOrder(InsertField(f, sorted, style), style)
  {
    if sorted != [] {
      var tail := sorted[1..];
      assert forall i | 0 <= i < |tail| :: tail[i] == sorted[i + 1] && tail[i] in sorted;
      if Before(sorted[0].key, f.key, style) {
        InsertOrders(f, tail, style);
        InsertKeeps(f, tail, style);
        forall x | x in InsertField(f, tail, style) ensures Before(sorted[0].key, x.key, style) {}
        assert InsertField(f, sorted, style) == [sorted[0]] + InsertField(f, tail, style);
      } else {
        assert sorted[0] in sorted;
        BeforeTotal(sorted[0].key, f.key, style);
        forall k | 0 < k < |sorted| ensures Before(f.key, sorted[k].key, style) {
          BeforeTransitive(f.key, sorted[0].key, sorted[k].key, style);
        }
      }
    }
  }

  function Sorted(f: Field, style: Style): Field {
    Field(f.key, SortKeys(f.value, style))
  }

  ghost predicate FromEntry(x: Field, fields: seq<Field>, style: Style) {
    exists i | 0 <= i < |fields| :: x == Sorted(fields[i], style)
  }

  // Sorting keeps the entries, their values sorted in turn, and orders them by key.
  lemma {:induction false} SortFieldsMeaning(fields: seq<Field>, style: Style)
    ensures forall x :: x in SortFields(fields, style) <==> FromEntry(x, fields, style)
    ensures DistinctKeys(fields) ==> InKeyOrder(SortFields(fields, style), style)
  {
    if fields != [] {
      var first, tail := Sorted(fields[0], style), fields[1..];
      SortFieldsMeaning(tail, style);
      InsertKeeps(first, SortFields(tail, style), style);
      forall x ensures FromEntry(x, fields, style) <==> x == first || FromEntry(x, tail, style) {
        if i :| 0 <= i < |tail| && x == Sorted(tail[i], style) {
          assert tail[i] == fields[i + 1];
        }
        if i :| 0 <= i < |fields| && x == Sorted(fields[i], style) && x != first {
          assert fields[i] == tail[i - 1];
        }
      }
      if DistinctKeys(fields) {
        assert forall i | 0 <= i < |tail| :: tail[i] == fields[i + 1];
        InsertOrders(first, SortFields(tail, style), style);
      }
    }
  }

  // A list in strict key order is determined by its entries.
  lemma {:induction false} KeyOrderUnique(s: seq<Field>, t: seq<Field>, style: Style)
    requires InKeyOrder(s, style) && InKeyOrder(t, style) && forall x :: x in s <==> x in t
    ensures s == t
  {
    assert t != [] ==> t[0] in t;
    if s != [] {
      assert s[0] in t;
      var i :| 0 <= i < |t| && t[i] == s[0];
      assert t[0] in s;
      var k :| 0 <= k < |s| && s[k] == t[0];
      BeforeIrreflexive(s[0].key, style);
      if i > 0 && k > 0 {
        BeforeTransitive(s[0].key, t[0].key, s[0].key, style);
      }
      assert s == [s[0]] + s[1..] && t == [s[0]] + t[1..];
      assert s[0] !in s[1..] && s[0] !in t[1..];
      assert forall x :: (x in s <==> x == s[0] || x in s[1..]) && (x in t <==> x == s[0] || x in t[1..]);
      KeyOrderUnique(s[1..], t[1..], style);
    }
  }

  // Values whose sorted forms agree are the same value ...
  lemma {:induction false} SortedEqualOnlyIfSame(a: Json, b: Json)
    requires SortKeys(a, Python) == SortKeys(b, Python)
    ensures SameJson(a, b)
    decreases a, 1
  {
    if a.Arr? {
      assert b.Arr?;
      forall i | 0 <= i < |a.items| ensures SameJson(a.items[i], b.items[i]) {
        assert SortKeys(a, Python).items[i] == SortKeys(b, Python).items[i];
        SortedEqualOnlyIfSame(a.items[i], b.items[i]);
      }
    } else if a.Obj? {
      SortedFieldsEqualOnlyIfSame(a.fields, b.fields);
    }
  }

  lemma {:induction false} SortedFieldsEqualOnlyIfSame(fs: seq<Field>, gs: seq<Field>)
    requires SortFields(fs, Python) == SortFields(gs, Python)
    ensures SameJson(Obj(fs), Obj(gs))
    decreases fs, 0
  {
    SortFieldsMeaning(fs, Python);
    SortFieldsMeaning(gs, Python);
    forall i | 0 <= i < |fs| ensures MatchedIn(fs[i], gs) {
      assert FromEntry(Sorted(fs[i], Python), gs, Python);
      var k :| 0 <= k < |gs| && Sorted(fs[i], Python) == Sorted(gs[k], Python);
      SortedEqualOnlyIfSame(fs[i].value, gs[k].value);
    }
    forall k | 0 <= k < |gs| ensures HasKey(fs, gs[k].key) {
      assert FromEntry(Sorted(gs[k], Python), fs, Python);
    }
  }

  // ... and the same value sorts to the same form.
  lemma {:induction false} SameSortsEqual(a: Json, b: Json)
    requires WellFormed(a) && WellFormed(b) && SameJson(a, b)
    ensures SortKeys(a, Python) == SortKeys(b, Python)
    decreases a, 1
  {
    if a.Arr? {
      forall i | 0 <= i < |a.items| ensures SortKeys(a.items[i], Python) == SortKeys(b.items[i], Python) {
        SameSortsEqual(a.items[i], b.items[i]);
      }
    } else if a.Obj? {
      SameFieldsSortEqual(a.fields, b.fields);
    }
  }

  lemma {:induction false} SameFieldsSortEqual(fs: seq<Field>, gs: seq<Field>)
    requires WellFormed(Obj(fs)) && WellFormed(Obj(gs)) && SameJson(Obj(fs), Obj(gs))
    ensures SortFields(fs, Python) == SortFields(gs, Python)
    decreases fs, 0
  {
    SortFieldsMeaning(fs, Python);
    SortFieldsMeaning(gs, Python);
    forall i, k | 0 <= i < |fs| && 0 <= k < |gs| && fs[i].key == gs[k].key
      ensures Sorted(fs[i], Python) == Sorted(gs[k], Python)
    {
      assert MatchedIn(fs[i], gs);
      SameSortsEqual(fs[i].value, gs[k].value);
    }
    forall x ensures FromEntry(x, fs, Python) <==> FromEntry(x, gs, Python) {
      if FromEntry(x, fs, Python) {
        var i :| 0 <= i < |fs| && x == Sorted(fs[i], Python);
        assert MatchedIn(fs[i], gs);
        var k :| 0 <= k < |gs| && gs[k].key == fs[i].key;
        assert x == Sorted(gs[k], Python);
      }
      if FromEntry(x, gs, Python) {
        var k :| 0 <= k < |gs| && x == Sorted(gs[k], Python);
        assert HasKey(fs, gs[k].key);
        var i :| 0 <= i < |fs| && fs[i].key == gs[k].key;
        assert x == Sorted(fs[i], Python);
      }
    }
    KeyOrderUnique(SortFields(fs, Python), SortFields(gs, Python), Python);
  }

  // ---- the number check ------------------------------------------------------------

  lemma {:induction false} CheckItemsMeaning(items: seq<Json>)
    ensures CheckItems(items) == None <==> forall i | 0 <= i < |items| :: CheckNumbers(items[i]) == None
  {
    if items != [] {
      CheckItemsMeaning(items[1..]);
      assert items == [items[0]] + items[1..];
    }
  }

  lemma {:induction false} CheckFieldsMeaning(fields: seq<Field>)
    ensures CheckFields(fields) == None <==> forall f | f in fields :: CheckNumbers(f.value) == None
  {
    if fields != [] {
      CheckFieldsMeaning(fields[1..]);
      assert fields == [fields[0]] + fields[1..];
    }
  }

  // Every number in the value, at any depth, is finite and whole.
  ghost predicate WholeNumbers(j: Json) {
    match j
    case NonFinite(_) => false
    case Float(r) => r.Floor as real == r
    case Arr(items) => forall i | 0 <= i < |items| :: WholeNumbers(items[i])
    case Obj(fields) => forall f | f in fields :: WholeNumbers(f.value)
    case _ => true
  }

  // A body is refused exactly when some number in it is not finite or not whole.
  lemma {:induction false} CanonicalizesIff(j: Json)
    ensures Canonicalize(j).Ok? <==> WholeNumbers(j)
    decreases j
  {
    match j {
      case Arr(items) =>
        CheckItemsMeaning(items);
        forall i | 0 <= i < |items| ensures CheckNumbers(items[i]) == None <==> WholeNumbers(items[i]) {
          CanonicalizesIff(items[i]);
        }
      case Obj(fields) =>
        CheckFieldsMeaning(fields);
        forall f | f in fields ensures CheckNumbers(f.value) == None <==> WholeNumbers(f.value) {
          CanonicalizesIff(f.value);
        }
      case _ =>
    }
  }

  // A number of this kind is in the value, at some depth.
  ghost predicate HasBadNumber(j: Json, error: NumberError) {
    match j
    case NonFinite(_) => error == NonFiniteNumber
    case Float(r) => error == NonIntegralFloat && r.Floor as real != r
    case Arr(items) => exists i | 0 <= i < |items| :: HasBadNumber(items[i], error)
    case Obj(fields) => exists i | 0 <= i < |fields| :: HasBadNumber(fields[i].value, error)
    case _ => false
  }

  // A refusal names a kind of number that the value has.
  lemma {:induction false} RefusalIsGenuine(j: Json)
    ensures Canonicalize(j).Err? ==> HasBadNumber(j, Canonicalize(j).error)
    decreases j
  {
    match j {
      case Arr(items) =>
        if CheckItems(items).Some? {
          var i := FirstBadItem(items);
          RefusalIsGenuine(items[i]);
        }
      case Obj(fields) =>
        if CheckFields(fields).Some? {
          var i := FirstBadField(fields);
          RefusalIsGenuine(fields[i].value);
        }
      case _ =>
    }
  }

  lemma {:induction false} FirstBadItem(items: seq<Json>) returns (i: nat)
    requires CheckItems(items).Some?
    ensures i < |items| && CheckNumbers(items[i]) == CheckItems(items)
  {
    i := 0;
    if CheckNumbers(items[0]).None? {
      i := FirstBadItem(items[1..]);
      i := i + 1;
    }
  }

  lemma {:induction false} FirstBadField(fields: seq<Field>) returns (i: nat)
    requires CheckFields(fields).Some?
    ensures i < |fields| && CheckNumbers(fields[i].value) == CheckFields(fields)
  {
    i := 0;
    if CheckNumbers(fields[0].value).None? {
      i := FirstBadField(fields[1..]);
      i := i + 1;
    }
  }

  // ---- reading tokens -----------------------------------------------------------

  lemma MantissaIsWord(d: string)
    requires AllDigits(d) && d != ""
    ensures IsWord(Mantissa(d)) && IsDigit(Mantissa(d)[0])
  {
  }

  lemma JoinedIsWord(a: string, b: string, c: string)
    requires IsWord(a) && IsWord(b) && IsWord(c)
    ensures IsWord(a + b + c) && (a + b + c)[0] == a[0] && (a + b + c)[|a|] == b[0]
  {
  }

  lemma ScientificIsWord(v: nat)
    requires v > 0
    ensures IsWord(Scientific(v)) && IsDigit(Scientific(v)[0]) && 'e' in Scientific(v)
  {
    var text := NatText(v);
    NatTextRoundTrip(v);
    NatTextRoundTrip(|text| - 1);
    StrippedIs(text);
    NotAllStripped(Stripped(text), v, Pow10(|text| - |Stripped(text)|));
    MantissaIsWord(Stripped(text));
    JoinedIsWord(Mantissa(Stripped(text)), "e+", NatText(|text| - 1));
  }

  lemma PlainIsWord(v: nat)
    ensures IsWord(NatText(v)) && IsDigit(NatText(v)[0])
    ensures IsWord(NatText(v) + ".0") && IsDigit((NatText(v) + ".0")[0]) && '.' in NatText(v) + ".0"
  {
    NatTextRoundTrip(v);
    assert (NatText(v) + ".0")[|NatText(v)|] == '.';
  }

  lemma FloatTextIsWord(x: nat, style: Style)
    ensures IsWord(FloatText(x, style)) && IsDigit(FloatText(x, style)[0])
    ensures style == Python ==> '.' in FloatText(x, style) || 'e' in FloatText(x, style)
  {
    PlainIsWord(Shortest(x));
    EcmaTextIs(Shortest(x));
    if Shortest(x) > 0 {
      ScientificIsWord(Shortest(x));
    }
  }

  lemma SignedIsWord(negative: bool, text: string)
    requires IsWord(text)
    ensures IsWord(Signed(negative, text))
  {
  }

  lemma NumberTextIsWord(j: Json, style: Style)
    requires j.Int? || j.Float?
    ensures IsWord(NumberText(j, style))
  {
    var n := if j.Int? then j.n else j.r.Floor;
    NatTextRoundTrip(Magnitude(n));
    FloatTextIsWord(Magnitude(n), style);
    FloatTextIsWord(Round(Magnitude(n)), Ecma);
    SignedIsWord(n < 0, NatText(Magnitude(n)));
    SignedIsWord(n < 0, FloatText(Magnitude(n), style));
    SignedIsWord(n < 0, FloatText(Round(Magnitude(n)), Ecma));
  }

  lemma NamesAreWords()
    ensures IsWord("null") && IsWord("true") && IsWord("false")
  {
  }

  lemma {:induction false} TokensAreWellWritten(j: Json, style: Style)
    requires WholeNumbers(j)
    ensures WellWritten(Tokens(j, style))
    decreases j
  {
    match j {
      case Int(_) => NumberTextIsWord(j, style);
      case Float(_) => NumberTextIsWord(j, style);
      case Arr(items) =>
        forall i | 0 <= i < |items| ensures WellWritten(Tokens(items[i], style)) {
          TokensAreWellWritten(items[i], style);
        }
      case Obj(fields) =>
        forall i | 0 <= i < |fields| ensures WellWritten(Tokens(fields[i].value, style)) {
          assert fields[i] in fields;
          TokensAreWellWritten(fields[i].value, style);
        }
      case _ => NamesAreWords();
    }
  }

  // ---- Python's numbers read back --------------------------------------------------

  lemma SignStripped(negative: bool, text: string)
    requires text != "" && text[0] != '-'
    ensures var s := Signed(negative, text);
            s != "" && (s[0] == '-' <==> negative) && (if negative then s[1..] else s) == text
  {
  }

  lemma IntegerReads(n: int)
    ensures ReadWord(IntText(n)) == Int(n)
  {
    var d := NatText(Magnitude(n));
    NatTextRoundTrip(Magnitude(n));
    DigitsOnly(d);
    SignStripped(n < 0, d);
    assert IntText(n) == Signed(n < 0, d);
    assert IntText(n)[0] == '-' || IsDigit(IntText(n)[0]);
  }

  lemma FloatWordReads(negative: bool, text: string)
    requires IsWord(text) && IsDigit(text[0]) && ('.' in text || 'e' in text)
    ensures var x := Round(ReadDecimal(text)) as real;
            ReadWord(Signed(negative, text)) == Float(if negative then -x else x)
  {
    var s := Signed(negative, text);
    SignStripped(negative, text);
    assert s[0] == '-' || IsDigit(s[0]);
  }

  lemma WholeFloatReads(r: real)
    requires r.Floor as real == r && IsDouble(Magnitude(r.Floor))
    ensures ReadWord(WholeFloatText(r.Floor, Python)) == Float(r)
  {
    var x := Magnitude(r.Floor);
    FloatTextIsWord(x, Python);
    FloatReads(x);
    FloatWordReads(r.Floor < 0, FloatText(x, Python));
  }

  // Reading the tokens of a value gives the value.
  lemma {:induction false} TokensReadBack(j: Json)
    requires WellFormed(j) && WholeNumbers(j)
    ensures ReadToken(Tokens(j, Python)) == j
    decreases j
  {
    match j {
      case Int(n) => IntegerReads(n);
      case Float(r) => WholeFloatReads(r);
      case Arr(items) =>
        forall i | 0 <= i < |items| ensures ReadToken(Tokens(items[i], Python)) == items[i] {
          TokensReadBack(items[i]);
        }
        assert ReadToken(Tokens(j, Python)).items == items;
      case Obj(fields) =>
        forall i | 0 <= i < |fields| ensures ReadToken(Tokens(fields[i].value, Python)) == fields[i].value {
          assert fields[i] in fields;
          TokensReadBack(fields[i].value);
        }
        assert ReadToken(Tokens(j, Python)).fields == fields;
      case _ =>
    }
  }

  lemma {:induction false} SortKeepsForm(j: Json, style: Style)
    requires WellFormed(j) && WholeNumbers(j)
    ensures WellFormed(SortKeys(j, style)) && WholeNumbers(SortKeys(j, style))
    decreases j
  {
    match j {
      case Arr(items) =>
        forall i | 0 <= i < |items|
          ensures WellFormed(SortKeys(items[i], style)) && WholeNumbers(SortKeys(items[i], style))
        {
          SortKeepsForm(items[i], style);
        }
      case Obj(fields) =>
        var sorted := SortFields(fields, style);
        SortFieldsMeaning(fields, style);
        forall x | x in sorted ensures WellFormed(x.value) && WholeNumbers(x.value) {
          assert FromEntry(x, fields, style);
          var i :| 0 <= i < |fields| && x == Sorted(fields[i], style);
          assert fields[i] in fields;
          SortKeepsForm(fields[i].value, style);
        }
        OrderedIsDistinct(sorted, style);
      case _ =>
    }
  }

  lemma OrderedIsDistinct(fields: seq<Field>, style: Style)
    requires InKeyOrder(fields, style)
    ensures DistinctKeys(fields)
  {
    forall i, k | 0 <= i < k < |fields| ensures fields[i].key != fields[k].key {
      BeforeIrreflexive(fields[i].key, style);
    }
  }

  // ---- main results -----------------------------------------------------------

  // The text of tokens determines them.
  lemma PrintIsInjective(s: Token, t: Token)
    requires WellWritten(s) && WellWritten(t) && Print(s) == Print(t)
    ensures s == t
  {
    ParsePrint(s, "");
    ParsePrint(t, "");
    assert Print(s) + "" == Print(s) && Print(t) + "" == Print(t);
  }

  // Reading the canonical text gives the body back, its keys in order.
  lemma CanonicalTextReadsBack(j: Json)
    requires WellFormed(j) && CheckNumbers(j) == None
    ensures Canonicalize(j).Ok?
    ensures ReadText(Canonicalize(j).value) == Some(SortKeys(j, Python))
  {
    var sorted := SortKeys(j, Python);
    CanonicalizesIff(j);
    SortKeepsForm(j, Python);
    TokensAreWellWritten(sorted, Python);
    TokensReadBack(sorted);
    var text := Print(Tokens(sorted, Python));
    ParsePrint(Tokens(sorted, Python), "");
    assert text + "" == text;
  }

  // Two bodies have one canonical text exactly when they are the same JSON value: the order in
  // which keys were inserted never counts, and nothing else is forgotten.
  lemma CanonicalTextIdentifies(a: Json, b: Json)
    requires WellFormed(a) && WellFormed(b)
    requires CheckNumbers(a) == None && CheckNumbers(b) == None
    ensures Canonicalize(a) == Canonicalize(b) <==> SameJson(a, b)
  {
    CanonicalTextReadsBack(a);
    CanonicalTextReadsBack(b);
    if Canonicalize(a) == Canonicalize(b) {
      SortedEqualOnlyIfSame(a, b);
    }
    if SameJson(a, b) {
      SameSortsEqual(a, b);
    }
  }
}
