/** JSON values as Python's json module holds them. An object is the list of its
    entries in insertion order. A Python dict never repeats a key, and a float is a
    double (WellFormed). */
module JsonModel {
  import opened Wrappers
  import opened Doubles

  datatype Json =
    | Null
    | Bool(b: bool)
    | Int(n: int)
    | Float(r: real)
    | NonFinite(which: Special)
    | Str(s: string)
    | Arr(items: seq<Json>)
    | Obj(fields: seq<Field>)

  datatype Special = NotANumber | PlusInfinity | MinusInfinity

  datatype Field = Field(key: string, value: Json)

  predicate DistinctKeys(fields: seq<Field>) {
    forall i, j | 0 <= i < j < |fields| :: fields[i].key != fields[j].key
  }

  ghost predicate WellFormed(j: Json) {
    match j
    case Float(r) => r.Floor as real == r ==> IsDouble(if r.Floor < 0 then -r.Floor else r.Floor)
    case Arr(items) => forall i | 0 <= i < |items| :: WellFormed(items[i])
    case Obj(fields) => DistinctKeys(fields) && forall i | 0 <= i < |fields| :: WellFormed(fields[i].value)
    case _ => true
  }

  predicate HasKey(fields: seq<Field>, key: string) {
    exists i | 0 <= i < |fields| :: fields[i].key == key
  }

  // Python's == on values of equal kinds: order of insertion does not count, at any depth.
  ghost predicate SameJson(a: Json, b: Json)
    decreases a
  {
    match (a, b)
    case (Arr(xs), Arr(ys)) =>
      |xs| == |ys| && forall i | 0 <= i < |xs| :: SameJson(xs[i], ys[i])
    case (Obj(fs), Obj(gs)) =>
      (forall i | 0 <= i < |fs| :: MatchedIn(fs[i], gs)) &&
      (forall k | 0 <= k < |gs| :: HasKey(fs, gs[k].key))
    case _ => !a.Arr? && !a.Obj? && a == b
  }

  ghost predicate MatchedIn(f: Field, gs: seq<Field>)
    decreases f
  {
    exists k | 0 <= k < |gs| :: gs[k].key == f.key && SameJson(f.value, gs[k].value)
  }

  // dict.get on a value that may not be an object.
  function Get(j: Json, key: string): Option<Json> {
    if j.Obj? then Lookup(j.fields, key) else None
  }

  function Lookup(fields: seq<Field>, key: string): Option<Json> {
    if fields == [] then None
    else if fields[0].key == key then Some(fields[0].value)
    else Lookup(fields[1..], key)
  }

  lemma {:induction false} LookupLater(a: seq<Field>, b: seq<Field>, key: string)
    requires forall i | 0 <= i < |a| :: a[i].key != key
    ensures Lookup(a + b, key) == Lookup(b, key)
  {
    if a == [] {
      assert a + b == b;
    } else {
      assert (a + b)[1..] == a[1..] + b;
      LookupLater(a[1..], b, key);
    }
  }

  lemma {:induction false} LookupEarlier(a: seq<Field>, b: seq<Field>, key: string, i: int)
    requires 0 <= i < |a| && a[i].key == key && forall k | 0 <= k < i :: a[k].key != key
    ensures Lookup(a + b, key) == Some(a[i].value)
  {
    assert (a + b)[0] == a[0];
    if i > 0 {
      assert (a + b)[1..] == a[1..] + b;
      LookupEarlier(a[1..], b, key, i - 1);
    }
  }
}
