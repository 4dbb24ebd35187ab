/** The numbers that an audit compares: real numbers, and the values that are not finite, with the
    arithmetic that Python's floats give them. JSON texts hold them as `1e999` or `NaN`. */
module Amounts {
  datatype Number = Finite(x: real) | Infinite(negative: bool) | NaN

  const ZERO := Finite(0.0)

  function Add(a: Number, b: Number): Number {
    match (a, b)
    case (Finite(x), Finite(y)) => Finite(x + y)
    case (Infinite(s), Infinite(t)) => if s == t then a else NaN
    case (Infinite(_), Finite(_)) => a
    case (Finite(_), Infinite(_)) => b
    case _ => NaN
  }

  function Negated(a: Number): Number {
    match a
    case Finite(x) => Finite(-x)
    case Infinite(s) => Infinite(!s)
    case NaN => NaN
  }

  function Minus(a: Number, b: Number): Number {
    Add(a, Negated(b))
  }

  function Abs(x: real): real {
    if x < 0.0 then -x else x
  }

  function Size(a: Number): Number {
    match a
    case Finite(x) => Finite(Abs(x))
    case Infinite(_) => Infinite(false)
    case NaN => NaN
  }

  // a > b, which never holds of NaN.
  predicate Exceeds(a: Number, b: Number) {
    match (a, b)
    case (Finite(x), Finite(y)) => x > y
    case (Infinite(s), Infinite(t)) => !s && t
    case (Infinite(s), Finite(_)) => !s
    case (Finite(_), Infinite(t)) => t
    case _ => false
  }

  // Python's max(a, 1), whose answer is `a` where the two do not compare.
  function AtLeastOne(a: Number): Number {
    if Exceeds(Finite(1.0), a) then Finite(1.0) else a
  }

  function Quotient(a: Number, b: Number): Number
    requires b != ZERO
  {
    match (a, b)
    case (Finite(x), Finite(y)) => Finite(x / y)
    case (Finite(_), Infinite(_)) => ZERO
    case (Infinite(s), Finite(y)) => Infinite(s != (y < 0.0))
    case _ => NaN
  }

  // A claim of zero is false in Python, and is not compared.
  predicate Discrepant(claimed: Number, total: Number) {
    claimed != ZERO && Exceeds(Quotient(Size(Minus(claimed, total)), AtLeastOne(Size(claimed))), Finite(0.01))
  }

  // ---- what the comparison means -------------------------------------------------------

  // Within one per cent of the claim, or within a hundredth where the claim is below one.
  predicate WithinOnePercent(claimed: Number, total: Number) {
    && claimed.Finite? && total.Finite?
    && Abs(claimed.x - total.x) <= 0.01 * (if Abs(claimed.x) > 1.0 then Abs(claimed.x) else 1.0)
  }

  // Two numbers for which the comparison is passed over, or comes out false whatever they are.
  predicate Incomparable(claimed: Number, total: Number) {
    claimed == ZERO || !claimed.Finite? || total.NaN?
  }

  lemma QuotientExceeds(x: real, y: real, bound: real)
    requires y > 0.0
    ensures x / y > bound <==> x > bound * y
  {
    assert x == (x / y) * y;
    if x / y > bound {
      assert (x / y - bound) * y > 0.0;
    } else {
      assert (bound - x / y) * y >= 0.0;
    }
  }

  // A discrepancy is reported exactly for two numbers that compare and are not within one per cent.
  lemma DiscrepantIff(claimed: Number, total: Number)
    ensures Discrepant(claimed, total) <==> !Incomparable(claimed, total) && !WithinOnePercent(claimed, total)
  {
    if claimed.Finite? && total.Finite? {
      var scale := if Abs(claimed.x) > 1.0 then Abs(claimed.x) else 1.0;
      assert AtLeastOne(Size(claimed)) == Finite(scale);
      QuotientExceeds(Abs(claimed.x - total.x), scale, 0.01);
    }
  }

  // What passes although the claim is not within one per cent: a claim of zero against more than a
  // hundredth, a claim that is not finite, and a total that is NaN.
  predicate PassedOver(claimed: Number, total: Number) {
    || (claimed == ZERO && (!total.Finite? || Abs(total.x) > 0.01))
    || !claimed.Finite? || total.NaN?
  }

  // Sums do not depend on the order, with values that are not finite among them.
  lemma AddSwap(a: Number, b: Number, c: Number)
    ensures Add(Add(a, b), c) == Add(Add(a, c), b)
  {
  }
}
