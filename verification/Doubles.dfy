/** Whole numbers as double-precision floats, and the texts that Python and ECMAScript write for
    them: repr() of a float, and Number::toString, which section 3.2.2.3 of RFC 8785 prescribes.
    Both write the shortest decimal that reads as the double. */
module Doubles {
  import opened Text

  // 2^53: from here on not every whole number is a double.
  const PRECISE: nat := 0x20_0000_0000_0000

  // The distance between neighbouring doubles at n.
  function Ulp(n: nat): (u: nat)
    ensures u >= 1
  {
    if n < PRECISE then 1 else 2 * Ulp(n / 2)
  }

  // q multiples of u and a rest: to the nearest multiple, halves to even.
  function RoundAt(q: nat, r: nat, u: nat): nat {
    if 2 * r < u || (2 * r == u && q % 2 == 0) then q * u else q * u + u
  }

  function RoundTo(n: nat, u: nat): nat
    requires u > 0
  {
    RoundAt(n / u, n % u, u)
  }

  // The double that a numeral is read as.
  function Round(n: nat): nat {
    RoundTo(n, Ulp(n))
  }

  predicate IsDouble(n: nat) {
    Round(n) == n
  }

  lemma SmallIsDouble(n: nat)
    requires n <= PRECISE
    ensures IsDouble(n)
  {
    if n == PRECISE {
      assert Ulp(n / 2) == 1 && Ulp(n) == 2;
    }
  }

  // ---- rounding keeps order ---------------------------------------------------------------

  lemma {:induction false} UlpRange(n: nat)
    ensures n < PRECISE * Ulp(n)
    ensures n >= PRECISE ==> PRECISE * Ulp(n) <= 2 * n
  {
    if n >= PRECISE {
      UlpRange(n / 2);
    }
  }

  lemma {:induction false} UlpGrows(a: nat, b: nat)
    requires a <= b
    ensures Ulp(a) == Ulp(b) || 2 * Ulp(a) <= Ulp(b)
  {
    if a >= PRECISE {
      UlpGrows(a / 2, b / 2);
    } else if b >= PRECISE {
      assert Ulp(a) == 1 && Ulp(b / 2) >= 1;
    }
  }

  lemma Parts(n: nat, u: nat)
    requires u > 0
    ensures n == n / u * u + n % u && n % u < u
  {
  }

  lemma {:induction false} MultiplesApart(p: nat, q: nat, u: nat)
    requires p < q
    ensures p * u + u <= q * u
    decreases q
  {
    assert q * u == (q - 1) * u + u;
    if p < q - 1 {
      MultiplesApart(p, q - 1, u);
    }
  }

  lemma QuotientGrows(p: nat, r: nat, q: nat, t: nat, u: nat)
    requires r < u && t < u && p * u + r <= q * u + t
    ensures p < q || (p == q && r <= t)
  {
    if q < p {
      MultiplesApart(q, p, u);
    }
  }

  lemma RoundAtMonotone(p: nat, r: nat, q: nat, t: nat, u: nat)
    requires r < u && t < u && p * u + r <= q * u + t
    ensures RoundAt(p, r, u) <= RoundAt(q, t, u)
  {
    QuotientGrows(p, r, q, t, u);
    if p < q {
      MultiplesApart(p, q, u);
    }
  }

  lemma RoundToMonotone(a: nat, b: nat, u: nat)
    requires u > 0 && a <= b
    ensures RoundTo(a, u) <= RoundTo(b, u)
  {
    Parts(a, u);
    Parts(b, u);
    RoundAtMonotone(a / u, a % u, b / u, b % u, u);
  }

  lemma WholeMultiple(k: nat, u: nat)
    requires u > 0
    ensures k * u / u == k && k * u % u == 0 && RoundTo(k * u, u) == k * u
  {
    Parts(k * u, u);
    Quotient(k, k * u / u, k * u % u, u);
  }

  lemma Quotient(k: nat, q: nat, r: nat, u: nat)
    requires k * u == q * u + r && r < u
    ensures k == q && r == 0
  {
    if k < q {
      MultiplesApart(k, q, u);
    } else if q < k {
      MultiplesApart(q, k, u);
    }
  }

  // Below a multiple, rounding stays below it.
  lemma RoundToBelow(n: nat, u: nat, top: nat)
    requires u > 0 && n <= top * u
    ensures RoundTo(n, u) <= top * u
  {
    RoundToMonotone(n, top * u, u);
    WholeMultiple(top, u);
  }

  lemma RoundToAbove(n: nat, u: nat, low: nat)
    requires u > 0 && low * u <= n
    ensures low * u <= RoundTo(n, u)
  {
    RoundToMonotone(low * u, n, u);
    WholeMultiple(low, u);
  }

  lemma RoundMonotone(a: nat, b: nat)
    requires a <= b
    ensures Round(a) <= Round(b)
  {
    UlpGrows(a, b);
    UlpRange(a);
    UlpRange(b);
    if Ulp(a) == Ulp(b) {
      RoundToMonotone(a, b, Ulp(a));
    } else {
      assert b < PRECISE ==> Ulp(a) == 1 && Ulp(b) == 1;
      RoundToBelow(a, Ulp(a), PRECISE);
      RoundToAbove(b, Ulp(b), PRECISE / 2);
    }
  }

  // ---- the shortest decimal ---------------------------------------------------------------

  function Pow10(n: nat): (p: nat)
    ensures p >= 1
  {
    if n == 0 then 1 else 10 * Pow10(n - 1)
  }

  function Distance(a: nat, b: nat): nat {
    if a < b then b - a else a - b
  }

  function Below(x: nat, p: nat): nat
    requires p > 0
  {
    x / p * p
  }

  // Of two numbers around x, one that reads as x, the nearer if both do.
  function Nearer(x: nat, below: nat, above: nat): nat {
    if Round(below) != x || (Round(above) == x && Distance(above, x) < Distance(below, x)) then above else below
  }

  // Of the multiples of 10^j around x.
  function Candidate(x: nat, j: nat): nat {
    Nearer(x, Below(x, Pow10(j)), Below(x, Pow10(j)) + Pow10(j))
  }

  // With as many zeros at the end as reading as x allows, up to j of them.
  function ShortestFrom(x: nat, j: nat): nat
    decreases j
  {
    if j == 0 then x
    else if Round(Candidate(x, j)) == x then Candidate(x, j)
    else ShortestFrom(x, j - 1)
  }

  function Shortest(x: nat): nat {
    ShortestFrom(x, |NatText(x)|)
  }

  lemma {:induction false} ShortestFromReads(x: nat, j: nat)
    requires IsDouble(x)
    ensures Round(ShortestFrom(x, j)) == x
    decreases j
  {
    if j > 0 {
      ShortestFromReads(x, j - 1);
    }
  }

  // The shortest decimal of a double reads as that double.
  lemma ShortestReads(x: nat)
    requires IsDouble(x)
    ensures Round(Shortest(x)) == x
  {
    ShortestFromReads(x, |NatText(x)|);
  }

  lemma BetweenReads(x: nat, m: nat, n: nat)
    requires IsDouble(x) && Round(m) == x && (m <= n <= x || x <= n <= m)
    ensures Round(n) == x
  {
    if m <= n <= x {
      RoundMonotone(m, n);
      RoundMonotone(n, x);
    } else {
      RoundMonotone(x, n);
      RoundMonotone(n, m);
    }
  }

  lemma NearestOfTwo(x: nat, below: nat, above: nat, m: nat)
    requires IsDouble(x) && Round(m) == x && below <= x < above && (m <= below || above <= m)
    ensures Round(Nearer(x, below, above)) == x && Distance(Nearer(x, below, above), x) <= Distance(m, x)
  {
    if m <= below {
      BetweenReads(x, m, below);
    } else {
      BetweenReads(x, m, above);
    }
  }

  lemma BelowIs(x: nat, p: nat)
    requires p > 0
    ensures Below(x, p) <= x < Below(x, p) + p
    ensures Below(x, p) % p == 0 && (Below(x, p) + p) % p == 0
  {
    Parts(x, p);
    WholeMultiple(x / p, p);
    WholeMultiple(x / p + 1, p);
    assert (x / p + 1) * p == x / p * p + p;
  }

  lemma BesideBelow(x: nat, m: nat, p: nat)
    requires p > 0 && m % p == 0
    ensures m <= Below(x, p) || Below(x, p) + p <= m
  {
    Parts(m, p);
    var k, q := m / p, x / p;
    if k < q {
      MultiplesApart(k, q, p);
    } else if q < k {
      MultiplesApart(q, k, p);
    }
  }

  predicate EndsInZeros(n: nat, j: nat) {
    n % Pow10(j) == 0
  }

  // If a number that ends in j zeros reads as x, the candidate does, and none is nearer.
  lemma CandidateIsNearest(x: nat, j: nat, m: nat)
    requires IsDouble(x) && Round(m) == x && EndsInZeros(m, j)
    ensures Round(Candidate(x, j)) == x
    ensures Distance(Candidate(x, j), x) <= Distance(m, x)
  {
    var p := Pow10(j);
    BelowIs(x, p);
    BesideBelow(x, m, p);
    NearestOfTwo(x, Below(x, p), Below(x, p) + p, m);
  }

  lemma CandidateEnds(x: nat, j: nat)
    ensures EndsInZeros(Candidate(x, j), j)
  {
    BelowIs(x, Pow10(j));
  }

  lemma TenthDivides(n: nat, p: nat)
    requires p > 0 && n % (10 * p) == 0
    ensures n % p == 0
  {
    var q := n / (10 * p);
    Parts(n, 10 * p);
    assert q * (10 * p) == (10 * q) * p;
    WholeMultiple(10 * q, p);
  }

  lemma {:induction false} FewerZeros(n: nat, i: nat, j: nat)
    requires EndsInZeros(n, j) && i <= j
    ensures EndsInZeros(n, i)
    decreases j - i
  {
    if i < j {
      TenthDivides(n, Pow10(j - 1));
      FewerZeros(n, i, j - 1);
    }
  }

  lemma {:induction false} ShortestFromIsShortest(x: nat, limit: nat, m: nat, j: nat)
    requires IsDouble(x) && Round(m) == x && EndsInZeros(m, j) && j <= limit
    ensures EndsInZeros(ShortestFrom(x, limit), j)
    ensures EndsInZeros(ShortestFrom(x, limit), j + 1) || Distance(ShortestFrom(x, limit), x) <= Distance(m, x)
    decreases limit
  {
    if j == limit {
      CandidateIsNearest(x, j, m);
      CandidateEnds(x, j);
    } else if Round(Candidate(x, limit)) == x {
      CandidateEnds(x, limit);
      FewerZeros(Candidate(x, limit), j, limit);
      FewerZeros(Candidate(x, limit), j + 1, limit);
    } else {
      ShortestFromIsShortest(x, limit - 1, m, j);
    }
  }

  // Every number that reads as the double ends in at most as many zeros, and none that ends in as
  // many is nearer.
  lemma ShortestIsShortest(x: nat, m: nat, j: nat)
    requires IsDouble(x) && Round(m) == x && EndsInZeros(m, j) && j <= |NatText(x)|
    ensures EndsInZeros(Shortest(x), j)
    ensures EndsInZeros(Shortest(x), j + 1) || Distance(Shortest(x), x) <= Distance(m, x)
  {
    ShortestFromIsShortest(x, |NatText(x)|, m, j);
  }

  // ---- where a numeral is its own shortest decimal ------------------------------------------

  lemma {:induction false} ShortestFromIsOwnOrTens(x: nat, limit: nat)
    requires IsDouble(x)
    ensures ShortestFrom(x, limit) == x || EndsInZeros(ShortestFrom(x, limit), 1)
    decreases limit
  {
    if limit > 0 {
      CandidateEnds(x, limit);
      FewerZeros(Candidate(x, limit), 1, limit);
      ShortestFromIsOwnOrTens(x, limit - 1);
    }
  }

  // Up to 2^53 the only number that reads as n, unless it is odd and just above, is n.
  lemma PreciseIsOwnShortest(n: nat)
    requires n <= PRECISE
    ensures Round(n) == n && Shortest(n) == n
  {
    SmallIsDouble(n);
    ShortestReads(n);
    OnlyItself(n, Shortest(n));
    ShortestFromIsOwnOrTens(n, |NatText(n)|);
    assert EndsInZeros(Shortest(n), 1) ==> Shortest(n) % 10 == 0;
    NextAfterPrecise();
  }

  lemma OnlyItself(n: nat, v: nat)
    requires n <= PRECISE && Round(v) == n
    ensures v == n || (n == PRECISE && v == PRECISE + 1)
  {
    if v <= PRECISE {
      SmallIsDouble(v);
    } else {
      SmallIsDouble(PRECISE);
      RoundMonotone(PRECISE, v);
      NextAfterPrecise();
      if v >= PRECISE + 2 {
        RoundMonotone(PRECISE + 2, v);
      }
    }
  }

  lemma NextAfterPrecise()
    ensures Round(PRECISE + 2) == PRECISE + 2
    ensures PRECISE % 10 == 2
  {
    assert Ulp((PRECISE + 2) / 2) == 1 && Ulp(PRECISE + 2) == 2;
  }

  // ---- 10^21, from where ECMAScript writes an exponent -----------------------------------------

  const E21: nat := 1_000_000_000_000_000_000_000

  lemma {:induction false} DigitCount(n: nat)
    requires n > 0
    ensures Pow10(|NatText(n)| - 1) <= n < Pow10(|NatText(n)|)
  {
    if n >= 10 {
      DigitCount(n / 10);
    } else {
      assert |NatText(n)| == 1 && Pow10(1) == 10 && Pow10(0) == 1;
    }
  }

  lemma {:induction false} Pow10Grows(i: nat, j: nat)
    requires i <= j
    ensures Pow10(i) <= Pow10(j)
    decreases j - i
  {
    if i < j {
      Pow10Grows(i, j - 1);
    }
  }

  lemma E21IsPower()
    ensures Pow10(21) == E21
  {
    assert Pow10(7) == 10_000_000;
    assert Pow10(14) == 100_000_000_000_000;
  }

  function Pow2(k: nat): (p: nat)
    ensures p >= 1
  {
    if k == 0 then 1 else 2 * Pow2(k - 1)
  }

  lemma {:induction false} UlpIs(n: nat, k: nat)
    requires k > 0 && PRECISE / 2 * Pow2(k) <= n < PRECISE * Pow2(k)
    ensures Ulp(n) == Pow2(k)
  {
    assert n >= PRECISE;
    if k > 1 {
      UlpIs(n / 2, k - 1);
    } else {
      assert n / 2 < PRECISE;
    }
  }

  lemma UlpOfE21(t: nat)
    requires t == E21
    ensures Ulp(t) == 131072
  {
    assert Pow2(6) == 64 && Pow2(12) == 4096 && Pow2(17) == 131072;
    UlpIs(t, 17);
  }

  lemma E21IsDouble(t: nat)
    requires t == E21
    ensures IsDouble(t)
  {
    UlpOfE21(t);
    assert t % 131072 == 0;
    WholeMultiple(t / 131072, 131072);
  }

  lemma E21HasEnoughDigits(t: nat)
    requires t == E21
    ensures |NatText(t)| >= 21
  {
    DigitCount(t);
    E21IsPower();
    if |NatText(t)| < 21 {
      Pow10Grows(|NatText(t)|, 21);
    }
  }

  lemma E21IsOwnShortest(t: nat)
    requires t == E21
    ensures Shortest(t) >= t
  {
    E21IsDouble(t);
    E21IsPower();
    E21HasEnoughDigits(t);
    PowerIsOwnShortest(t, 21);
  }

  lemma PowerIsOwnShortest(t: nat, j: nat)
    requires t == Pow10(j) && IsDouble(t) && j <= |NatText(t)|
    ensures Shortest(t) >= t
  {
    ShortestIsShortest(t, t, j);
    ShortestReads(t);
    SmallIsDouble(0);
    NoSmallMultiple(Shortest(t), t);
  }

  lemma NoSmallMultiple(v: nat, t: nat)
    requires t > 0 && v % t == 0
    ensures v == 0 || v >= t
  {
    Parts(v, t);
    if v / t > 0 {
      MultiplesApart(0, v / t, t);
    }
  }

  lemma ReachesPower(x: nat, t: nat)
    requires IsDouble(x) && IsDouble(t) && Shortest(t) >= t
    ensures Shortest(x) >= t <==> x >= t
  {
    ShortestReads(x);
    if Shortest(x) >= t {
      RoundMonotone(t, Shortest(x));
    } else {
      RoundMonotone(Shortest(x), t);
    }
  }

  // The shortest decimal reaches 10^21 exactly when the double does.
  lemma ReachesE21(x: nat)
    requires IsDouble(x)
    ensures Shortest(x) >= E21 <==> x >= E21
  {
    var t := E21;
    E21IsDouble(t);
    E21IsOwnShortest(t);
    ReachesPower(x, t);
  }
}
