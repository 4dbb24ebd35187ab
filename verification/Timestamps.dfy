/** gateway/omp/core/store.py: the retention rule compares timestamps as text. The text has fixed
    width from the year 1000 on, so its order is the order of time, and the store may be read with
    times as numbers. Earlier years are written with fewer digits. */
module Timestamps {
  import opened Text

  // A number written with a given count of digits, and the character after it.
  datatype Part = Part(value: nat, width: nat, after: char)

  datatype Moment = Moment(year: nat, month: nat, day: nat, hour: nat, minute: nat, second: nat, milli: nat)

  // What datetime can hold.
  predicate Valid(m: Moment) {
    && 1 <= m.year <= 9999 && 1 <= m.month <= 12 && 1 <= m.day <= 31
    && m.hour < 24 && m.minute < 60 && m.second < 60 && m.milli < 1000
  }

  function Digit(n: nat): char {
    ('0' as int + n % 10) as char
  }

  function Fixed(n: nat, width: nat): (s: string)
    ensures |s| == width
    decreases width
  {
    if width == 0 then "" else Fixed(n / 10, width - 1) + [Digit(n)]
  }

  predicate Fits(n: nat, width: nat)
    decreases width
  {
    if width == 0 then n == 0 else Fits(n / 10, width - 1)
  }

  function Written(parts: seq<Part>): string {
    if parts == [] then "" else Fixed(parts[0].value, parts[0].width) + ([parts[0].after] + Written(parts[1..]))
  }

  // %m-%dT%H:%M:%S.mmmZ
  function PartsOf(m: Moment): seq<Part> {
    [Part(m.month, 2, '-'), Part(m.day, 2, 'T'),
     Part(m.hour, 2, ':'), Part(m.minute, 2, ':'), Part(m.second, 2, '.'), Part(m.milli, 3, 'Z')]
  }

  // %Y is the year without leading zeros.
  function YearText(m: Moment): string {
    NatText(m.year) + "-"
  }

  function IsoText(m: Moment): string {
    YearText(m) + Written(PartsOf(m))
  }

  predicate Before(a: Moment, b: Moment) {
    a.year < b.year || (a.year == b.year && (
      a.month < b.month || (a.month == b.month && (
        a.day < b.day || (a.day == b.day && (
          a.hour < b.hour || (a.hour == b.hour && (
            a.minute < b.minute || (a.minute == b.minute && (
              a.second < b.second || (a.second == b.second && a.milli < b.milli)))))))))))
  }

  lemma LessFirst(x: char, s: string, y: char, t: string)
    ensures Less([x] + s, [y] + t) <==> x < y || (x == y && Less(s, t))
  {
    assert ([x] + s)[1..] == s && ([y] + t)[1..] == t;
  }

  lemma DigitOrder(a: nat, b: nat)
    ensures a / 10 == b / 10 ==> (Digit(a) < Digit(b) <==> a < b) && (Digit(a) == Digit(b) <==> a == b)
  {
  }

  // Numerals of one width compare as their numbers, and then as what follows them.
  lemma {:induction false} FixedOrder(a: nat, s: string, b: nat, t: string, width: nat)
    requires Fits(a, width) && Fits(b, width)
    ensures Less(Fixed(a, width) + s, Fixed(b, width) + t) <==> a < b || (a == b && Less(s, t))
    decreases width
  {
    if width == 0 {
      assert "" + s == s && "" + t == t;
    } else {
      FixedOrder(a / 10, [Digit(a)] + s, b / 10, [Digit(b)] + t, width - 1);
      LessFirst(Digit(a), s, Digit(b), t);
      DigitOrder(a, b);
      assert Fixed(a, width) + s == Fixed(a / 10, width - 1) + ([Digit(a)] + s);
      assert Fixed(b, width) + t == Fixed(b / 10, width - 1) + ([Digit(b)] + t);
    }
  }

  predicate SameShape(p: seq<Part>, q: seq<Part>) {
    |p| == |q| && forall i | 0 <= i < |p| :: p[i].width == q[i].width && p[i].after == q[i].after
                                             && Fits(p[i].value, p[i].width) && Fits(q[i].value, q[i].width)
  }

  predicate PartsBefore(p: seq<Part>, q: seq<Part>)
    requires |p| == |q|
  {
    p != [] && (p[0].value < q[0].value || (p[0].value == q[0].value && PartsBefore(p[1..], q[1..])))
  }

  lemma {:induction false} WrittenOrder(p: seq<Part>, q: seq<Part>)
    requires SameShape(p, q)
    ensures Less(Written(p), Written(q)) <==> PartsBefore(p, q)
  {
    if p != [] {
      var s, t := [p[0].after] + Written(p[1..]), [q[0].after] + Written(q[1..]);
      WrittenOrder(p[1..], q[1..]);
      LessFirst(p[0].after, Written(p[1..]), q[0].after, Written(q[1..]));
      FixedOrder(p[0].value, s, q[0].value, t, p[0].width);
    }
  }

  lemma FitsTwo(n: nat)
    requires n < 100
    ensures Fits(n, 2)
  {
    assert Fits(n / 10 / 10, 0);
    assert Fits(n / 10, 1);
  }

  lemma FitsMore(n: nat, width: nat)
    requires Fits(n / 10, width)
    ensures Fits(n, width + 1)
  {
  }

  lemma PartsFit(m: Moment)
    requires Valid(m)
    ensures forall i | 0 <= i < 6 :: Fits(PartsOf(m)[i].value, PartsOf(m)[i].width)
  {
    FitsTwo(m.month);
    FitsTwo(m.day);
    FitsTwo(m.hour);
    FitsTwo(m.minute);
    FitsTwo(m.second);
    FitsTwo(m.milli / 10);
    FitsMore(m.milli, 2);
  }

  lemma PartsBeforeIff(a: Moment, b: Moment)
    requires a.year == b.year
    ensures PartsBefore(PartsOf(a), PartsOf(b)) <==> Before(a, b)
  {
    var p, q := PartsOf(a), PartsOf(b);
    assert PartsBefore(p[6..], q[6..]) <==> false;
    assert p[5..][1..] == p[6..] && q[5..][1..] == q[6..];
    assert PartsBefore(p[5..], q[5..]) <==> a.milli < b.milli;
    assert p[4..][1..] == p[5..] && q[4..][1..] == q[5..];
    assert p[3..][1..] == p[4..] && q[3..][1..] == q[4..];
    assert PartsBefore(p[3..], q[3..])
           <==> a.minute < b.minute || (a.minute == b.minute && PartsBefore(p[4..], q[4..]));
    assert p[2..][1..] == p[3..] && q[2..][1..] == q[3..];
    assert PartsBefore(p[2..], q[2..]) <==> a.hour < b.hour || (a.hour == b.hour && PartsBefore(p[3..], q[3..]));
    assert p[1..][1..] == p[2..] && q[1..][1..] == q[2..];
    assert PartsBefore(p[1..], q[1..]) <==> a.day < b.day || (a.day == b.day && PartsBefore(p[2..], q[2..]));
  }

  // ---- the year -----------------------------------------------------------------------

  lemma {:induction false} SamePrefix(p: string, s: string, t: string)
    ensures Less(p + s, p + t) <==> Less(s, t)
  {
    if p == "" {
      assert p + s == s && p + t == t;
    } else {
      assert (p + s)[1..] == p[1..] + s && (p + t)[1..] == p[1..] + t;
      SamePrefix(p[1..], s, t);
    }
  }

  // Texts of which neither begins the other are ordered by themselves, whatever follows.
  lemma {:induction false} PrefixDecides(p: string, s: string, q: string, t: string)
    requires !(p <= q) && !(q <= p)
    ensures Less(p + s, q + t) <==> Less(p, q)
  {
    assert p != "" && q != "";
    assert (p + s)[1..] == p[1..] + s && (q + t)[1..] == q[1..] + t;
    if p[0] == q[0] {
      assert p == [p[0]] + p[1..] && q == [q[0]] + q[1..];
      PrefixDecides(p[1..], s, q[1..], t);
    }
  }

  // The numeral of a year and its dash begin no other's.
  lemma YearsApart(a: Moment, b: Moment)
    ensures YearText(a) <= YearText(b) ==> a.year == b.year
  {
    var p, q := NatText(a.year), NatText(b.year);
    NatTextRoundTrip(a.year);
    NatTextRoundTrip(b.year);
    if YearText(a) <= YearText(b) {
      assert YearText(b)[|p|] == YearText(a)[|p|] == '-';
      assert |p| == |q| && YearText(a) == YearText(b);
      assert p == YearText(a)[..|p|] && q == YearText(b)[..|p|];
      assert NatOf(p) == NatOf(q);
    }
  }

  // The numerals of the years compare as the years.
  predicate YearsCompare(a: Moment, b: Moment) {
    a.year == b.year || (Less(YearText(a), YearText(b)) <==> a.year < b.year)
  }

  // The text of one time is less than that of another if and only if it is the earlier, exactly
  // when the numerals of their years compare as the years.
  lemma TextOrderIsTimeOrderIff(a: Moment, b: Moment)
    requires Valid(a) && Valid(b)
    ensures (Less(IsoText(a), IsoText(b)) <==> Before(a, b)) <==> YearsCompare(a, b)
  {
    if a.year == b.year {
      SamePrefix(YearText(a), Written(PartsOf(a)), Written(PartsOf(b)));
      PartsFit(a);
      PartsFit(b);
      WrittenOrder(PartsOf(a), PartsOf(b));
      PartsBeforeIff(a, b);
    } else {
      YearsApart(a, b);
      YearsApart(b, a);
      PrefixDecides(YearText(a), Written(PartsOf(a)), YearText(b), Written(PartsOf(b)));
    }
  }

  lemma FourDigits(n: nat)
    requires 1000 <= n <= 9999
    ensures NatText(n) == Fixed(n, 4) && Fits(n, 4)
  {
    var a, b, c := n / 10, n / 10 / 10, n / 10 / 10 / 10;
    assert NatText(c) == [Digit(c)] && Fixed(c, 0) == "" && Fixed(c, 1) == [Digit(c)];
    assert NatText(b) == NatText(c) + [Digit(b)] && Fixed(b, 2) == Fixed(c, 1) + [Digit(b)];
    assert NatText(a) == NatText(b) + [Digit(a)] && Fixed(a, 3) == Fixed(b, 2) + [Digit(a)];
    FitsTwo(b);
    FitsMore(a, 2);
    FitsMore(n, 3);
  }

  // From the year 1000 on they do.
  lemma TextOrderIsTimeOrder(a: Moment, b: Moment)
    requires Valid(a) && Valid(b) && 1000 <= a.year && 1000 <= b.year
    ensures Less(IsoText(a), IsoText(b)) <==> Before(a, b)
  {
    FourDigits(a.year);
    FourDigits(b.year);
    FixedOrder(a.year, "-", b.year, "-", 4);
    TextOrderIsTimeOrderIff(a, b);
  }

  // The last moment of the year 999 has a greater text than the first of the year 1000.
  lemma TextOrderIsNotTimeOrder()
    ensures var a, b := Moment(999, 12, 31, 23, 59, 59, 999), Moment(1000, 1, 1, 0, 0, 0, 0);
            Before(a, b) && !Less(IsoText(a), IsoText(b))
  {
    var a, b := Moment(999, 12, 31, 23, 59, 59, 999), Moment(1000, 1, 1, 0, 0, 0, 0);
    assert NatText(9) == "9" && NatText(99) == NatText(9) + "9" && NatText(999) == NatText(99) + "9";
    assert NatText(1) == "1" && NatText(10) == NatText(1) + "0" && NatText(100) == NatText(10) + "0";
    assert NatText(1000) == NatText(100) + "0";
    assert IsoText(a)[0] == '9' && IsoText(b)[0] == '1';
  }

  function Two(n: nat): string {
    [Digit(n / 10), Digit(n)]
  }

  // The text of a moment is its year and then two digits each, and three for the milliseconds.
  lemma IsoTextIs(m: Moment)
    ensures IsoText(m) == NatText(m.year) + "-" + Two(m.month) + "-" + Two(m.day) + "T" + Two(m.hour) + ":"
                          + Two(m.minute) + ":" + Two(m.second) + "." + [Digit(m.milli / 100)] + Two(m.milli) + "Z"
  {
    SixParts(Part(m.month, 2, '-'), Part(m.day, 2, 'T'), Part(m.hour, 2, ':'), Part(m.minute, 2, ':'),
             Part(m.second, 2, '.'), Part(m.milli, 3, 'Z'));
    TwoDigits(m.month);
    TwoDigits(m.day);
    TwoDigits(m.hour);
    TwoDigits(m.minute);
    TwoDigits(m.second);
    ThreeDigits(m.milli);
    EndToEnd(NatText(m.year) + "-", Two(m.month) + "-", Two(m.day) + "T", Two(m.hour) + ":", Two(m.minute) + ":",
             Two(m.second) + ".", Fixed(m.milli, 3) + "Z");
  }

  function PartText(p: Part): string {
    Fixed(p.value, p.width) + [p.after]
  }

  lemma SixParts(a: Part, b: Part, c: Part, d: Part, e: Part, f: Part)
    ensures Written([a, b, c, d, e, f])
            == PartText(a) + (PartText(b) + (PartText(c) + (PartText(d) + (PartText(e) + PartText(f)))))
  {
    var five, four, three, two, one, none := [b, c, d, e, f], [c, d, e, f], [d, e, f], [e, f], [f], [];
    WrittenStep(f, none);
    WrittenStep(e, one);
    WrittenStep(d, two);
    WrittenStep(c, three);
    WrittenStep(b, four);
    WrittenStep(a, five);
    assert PartText(f) + "" == PartText(f) && [f] + none == one;
    assert [e] + one == two && [d] + two == three && [c] + three == four && [b] + four == five;
    assert [a] + five == [a, b, c, d, e, f];
  }

  lemma WrittenStep(first: Part, rest: seq<Part>)
    ensures Written([first] + rest) == PartText(first) + Written(rest)
  {
    var n := Fixed(first.value, first.width);
    assert ([first] + rest)[1..] == rest;
    assert n + ([first.after] + Written(rest)) == n + [first.after] + Written(rest);
  }

  lemma ThreeDigits(n: nat)
    ensures Fixed(n, 3) == [Digit(n / 100)] + Two(n)
  {
    TwoDigits(n / 10);
    assert Fixed(n, 3) == Fixed(n / 10, 2) + [Digit(n)];
    assert n / 10 / 10 == n / 100;
  }

  lemma TwoDigits(n: nat)
    ensures Fixed(n, 2) == Two(n)
  {
    assert Fixed(n / 10, 1) == Fixed(n / 10 / 10, 0) + [Digit(n / 10)];
  }

  lemma EndToEnd(a: string, b: string, c: string, d: string, e: string, f: string, g: string)
    ensures a + (b + (c + (d + (e + (f + g))))) == a + b + c + d + e + f + g
  {
  }
}
