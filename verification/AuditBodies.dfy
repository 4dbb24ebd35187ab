/** The audit in terms of the bundle: what a report says, read from the bodies of the envelopes. */
module AuditBodies {
  import opened Wrappers
  import opened JsonModel
  import opened Envelopes
  import opened Validation
  import opened Amounts
  import opened Audits
  import opened AuditMeaning
  import opened AuditOrder

  // ---- reading a summary and a reading ---------------------------------------------------

  // The number under a key, with the values that are not finite.
  ghost predicate IsNumber(j: Json, key: string, x: Number) {
    match Get(j, key)
    case Some(Int(n)) => x == Finite(n as real)
    case Some(Float(r)) => x == Finite(r)
    case Some(NonFinite(NotANumber)) => x == NaN
    case Some(NonFinite(PlusInfinity)) => x == Infinite(false)
    case Some(NonFinite(MinusInfinity)) => x == Infinite(true)
    case _ => false
  }

  lemma NumberInIff(j: Json, key: string, x: Number)
    ensures NumberIn(Get(j, key)) == Some(x) <==> IsNumber(j, key, x)
  {
  }

  function Listed(body: Json, key: string): seq<Json> {
    match Get(body, key)
    case Some(Arr(items)) => items
    case _ => []
  }

  // No range is given where there is none, a null or an empty object.
  ghost predicate HasRange(body: Json, range: Option<Range>) {
    match range
    case Some(r) =>
      && Get(body, "event_seq_range").Some? && Get(Get(body, "event_seq_range").value, "first") == Some(Int(r.first))
      && Get(Get(body, "event_seq_range").value, "last") == Some(Int(r.last))
    case None =>
      var given := Get(body, "event_seq_range");
      given == None || given == Some(Null) || given == Some(Obj([]))
  }

  // Item i is the last that names this quantity, and gives its value.
  ghost predicate GivesQuantity(items: seq<Json>, i: int, name: string, x: Number) {
    && 0 <= i < |items| && Get(items[i], "name") == Some(Str(name)) && IsNumber(items[i], "value", x)
    && forall k | i < k < |items| :: Get(items[k], "name") != Some(Str(name))
  }

  predicate Quantified(quantities: map<string, Number>, name: string, x: Number) {
    name in quantities && quantities[name] == x
  }

  lemma {:induction false} QuantitiesIff(items: seq<Json>, name: string, x: Number)
    requires QuantitiesIn(items).Some?
    ensures Quantified(QuantitiesIn(items).value, name, x) <==> exists i :: GivesQuantity(items, i, name, x)
  {
    if items != [] {
      var n := |items| - 1;
      var front, last := items[..n], items[n];
      QuantitiesIff(front, name, x);
      NumberInIff(last, "value", x);
      if Get(last, "name") == Some(Str(name)) {
        if IsNumber(last, "value", x) {
          assert GivesQuantity(items, n, name, x);
        }
      } else {
        if i :| GivesQuantity(front, i, name, x) {
          assert GivesQuantity(items, i, name, x);
        }
        if i :| GivesQuantity(items, i, name, x) {
          assert i < n && GivesQuantity(front, i, name, x);
        }
      }
    }
  }

  lemma {:induction false} NamesAre(items: seq<Json>)
    requires NamesIn(items).Some?
    ensures |NamesIn(items).value| == |items|
    ensures forall i | 0 <= i < |items| :: Get(items[i], "name") == Some(NamesIn(items).value[i])
  {
    if items != [] {
      NamesAre(items[..|items| - 1]);
    }
  }

  // A summary is read as it is written.
  lemma SummaryIs(body: Json, s: Summary)
    requires SummaryOf(body) == Some(s)
    ensures forall o :: s.outcome == Some(o) <==> Get(body, "outcome") == Some(Str(o))
    ensures |s.phases| == |Listed(body, "phases")|
    ensures forall i | 0 <= i < |s.phases| :: Get(Listed(body, "phases")[i], "name") == Some(s.phases[i])
    ensures forall name, x :: Quantified(s.quantities, name, x)
                              <==> exists i :: GivesQuantity(Listed(body, "quantities"), i, name, x)
    ensures HasRange(body, s.range)
  {
    NamesAre(Listed(body, "phases"));
    forall name, x ensures Quantified(s.quantities, name, x)
                           <==> exists i :: GivesQuantity(Listed(body, "quantities"), i, name, x)
    {
      QuantitiesIff(Listed(body, "quantities"), name, x);
    }
  }

  // What a summary must look like to be read at all.
  ghost predicate IsReadable(body: Json) {
    && IsListOf(body, "phases", j => Get(j, "name").Some?)
    && IsListOf(body, "quantities", j => HasText(j, "name") && HasNumber(j, "value"))
    && exists range :: HasRange(body, range)
  }

  ghost predicate IsListOf(body: Json, key: string, ok: Json -> bool) {
    match Get(body, key)
    case Some(Arr(items)) => forall i | 0 <= i < |items| :: ok(items[i])
    case Some(_) => false
    case None => true
  }

  predicate HasText(j: Json, key: string) {
    match Get(j, key)
    case Some(Str(_)) => true
    case _ => false
  }

  predicate HasNumber(j: Json, key: string) {
    match Get(j, key)
    case Some(Int(_)) => true
    case Some(Float(_)) => true
    case Some(NonFinite(_)) => true
    case _ => false
  }

  lemma {:induction false} NamesReadIff(items: seq<Json>)
    ensures NamesIn(items).Some? <==> forall i | 0 <= i < |items| :: Get(items[i], "name").Some?
  {
    if items != [] {
      NamesReadIff(items[..|items| - 1]);
    }
  }

  lemma {:induction false} QuantitiesReadIff(items: seq<Json>)
    ensures QuantitiesIn(items).Some?
            <==> forall i | 0 <= i < |items| :: HasText(items[i], "name") && HasNumber(items[i], "value")
  {
    if items != [] {
      QuantitiesReadIff(items[..|items| - 1]);
    }
  }

  lemma RangeReadIff(body: Json)
    ensures RangeIn(Get(body, "event_seq_range")).Some? <==> exists range :: HasRange(body, range)
    ensures forall range :: RangeIn(Get(body, "event_seq_range")) == Some(range) <==> HasRange(body, range)
  {
    forall range ensures RangeIn(Get(body, "event_seq_range")) == Some(range) <==> HasRange(body, range) {
      OneRange(body, range);
    }
    var read := RangeIn(Get(body, "event_seq_range"));
    assert read.Some? ==> HasRange(body, read.value);
  }

  lemma OneRange(body: Json, range: Option<Range>)
    ensures RangeIn(Get(body, "event_seq_range")) == Some(range) <==> HasRange(body, range)
  {
    var given := Get(body, "event_seq_range");
    if given.Some? && given.value.Obj? && given.value.fields == [] {
      assert Get(given.value, "first") == None;
    }
  }

  // A summary is read exactly when it has that shape; anything else counts as malformed.
  lemma SummaryReadIff(body: Json)
    ensures SummaryOf(body).Some? <==> IsReadable(body)
  {
    NamesReadIff(Listed(body, "phases"));
    QuantitiesReadIff(Listed(body, "quantities"));
    RangeReadIff(body);
  }

  lemma ReadableIff(same: seq<Envelope>)
    ensures Readable(same)
            <==> forall e | e in same && e.schema == "energy" :: HasText(e.body, "metric") && HasNumber(e.body, "value")
  {
    ReadableMembers(same);
  }

  // ---- what is cited --------------------------------------------------------------------------

  // The envelopes of the run's machine in the cited range, and the summary in any case.
  lemma CitedIff(envs: seq<Envelope>, run: Envelope, range: Option<Range>, e: Envelope)
    ensures e in Cited(envs, run, range)
            <==> e == run || (e in envs && e.gatewayId == run.gatewayId && e.machineId == run.machineId
                              && (range.Some? ==> range.value.first <= e.seqNo <= range.value.last))
  {
  }

  // The only summary in the bundle, of the run that is asked for if one is.
  lemma SelectedIff(envs: seq<Envelope>, runId: string, run: Envelope)
    ensures SelectRun(envs, runId) == Ok(run)
            <==> Wanted(run, runId) && multiset(envs)[run] == 1 && forall e | e in envs && Wanted(e, runId) :: e == run
  {
    SelectRunIff(envs, runId, run);
    forall e ensures IsRun(e, runId) <==> Wanted(e, runId) {
      assert TextOf(Get(e.body, "run_id")) == Some(runId) <==> Get(e.body, "run_id") == Some(Str(runId));
    }
  }

  ghost predicate Wanted(e: Envelope, runId: string) {
    e.schema == "process_run" && (runId == "" || Get(e.body, "run_id") == Some(Str(runId)))
  }

  // ---- events and phases ------------------------------------------------------------------------

  // The envelope is an event of this type.
  predicate Tells(e: Envelope, eventType: string) {
    e.schema == "event" && Get(e.body, "event_type") == Some(Str(eventType))
  }

  predicate Begins(e: Envelope, phase: Json) {
    && Tells(e, "phase_start")
    && match Get(e.body, "payload")
       case Some(payload) => Get(payload, "phase") == Some(phase)
       case None => false
  }

  ghost predicate IsBegun(same: seq<Envelope>, phase: Json) {
    exists e :: e in same && Begins(e, phase)
  }

  ghost predicate IsTold(same: seq<Envelope>, eventType: string) {
    exists e :: e in same && Tells(e, eventType)
  }

  lemma BeginsIff(e: Envelope, phase: Json)
    ensures StartedPhase(e) == Some(phase) <==> Begins(e, phase)
  {
  }

  lemma BegunIff(same: seq<Envelope>, phase: Json)
    ensures phase in Started(same, |same|) <==> IsBegun(same, phase)
  {
    StartedMembers(same, phase);
    forall e ensures StartedPhase(e) == Some(phase) <==> Begins(e, phase) {
      BeginsIff(e, phase);
    }
  }

  lemma ToldIff(same: seq<Envelope>, eventType: string)
    ensures HasEvent(same, eventType) <==> IsTold(same, eventType)
  {
    EventMembers(same, eventType);
    forall e ensures IsEvent(e, eventType) <==> Tells(e, eventType) {
    }
  }

  // The phases declared and the phases begun are the same, where there are both.
  ghost predicate PhasesTold(same: seq<Envelope>, summary: Summary) {
    || summary.phases == [] || (forall p :: !IsBegun(same, p))
    || ((forall p | p in summary.phases :: IsBegun(same, p)) && forall p | IsBegun(same, p) :: p in summary.phases)
  }

  lemma NoneBegunIff(same: seq<Envelope>)
    ensures Started(same, |same|) == [] <==> forall p :: !IsBegun(same, p)
  {
    forall p ensures p in Started(same, |same|) <==> IsBegun(same, p) {
      BegunIff(same, p);
    }
    if Started(same, |same|) != [] {
      assert Started(same, |same|)[0] in Started(same, |same|);
    }
  }

  lemma PhasesToldIff(same: seq<Envelope>, summary: Summary)
    ensures PhasesMatch(same, summary) <==> PhasesTold(same, summary)
  {
    NoneBegunIff(same);
    forall p ensures p in Started(same, |same|) <==> IsBegun(same, p) {
      BegunIff(same, p);
    }
  }

  // ---- energy -------------------------------------------------------------------------------------

  ghost predicate Meters(e: Envelope, metric: string) {
    e.schema == "energy" && Get(e.body, "metric") == Some(Str(metric))
  }

  ghost predicate IsMetered(same: seq<Envelope>, metric: string) {
    exists e :: e in same && Meters(e, metric)
  }

  // `sum` is what the readings of the metric add up to over the first `n` envelopes.
  ghost predicate AddsUpTo(same: seq<Envelope>, n: nat, metric: string, sum: Number)
    requires n <= |same|
  {
    if n == 0 then sum == ZERO
    else if Meters(same[n - 1], metric) then
      exists before, x :: AddsUpTo(same, n - 1, metric, before) && IsNumber(same[n - 1].body, "value", x)
                          && sum == Add(before, x)
    else AddsUpTo(same, n - 1, metric, sum)
  }

  lemma {:induction false} MeteredIff(same: seq<Envelope>, metric: string)
    requires Readable(same)
    ensures metric in Metrics(Readings(same, |same|)) <==> IsMetered(same, metric)
  {
    MetricMembers(same, |same|, metric);
    forall e | e in same ensures ReadsMetric(e, metric) <==> Meters(e, metric) {
      ReadableMembers(same);
    }
    if i :| 0 <= i < |same| && ReadsMetric(same[i], metric) {
      assert same[i] in same;
    }
  }

  // One more envelope, where the sum of those before is known.
  lemma AddsUpNext(same: seq<Envelope>, m: nat, metric: string, before: Number, sum: Number)
    requires m < |same| && forall s :: AddsUpTo(same, m, metric, s) <==> s == before
    requires Meters(same[m], metric) ==> ReadingOf(same[m].body).Some?
    ensures AddsUpTo(same, m + 1, metric, sum)
            <==> sum == if Meters(same[m], metric) then Add(before, ReadingOf(same[m].body).value.value) else before
  {
    if Meters(same[m], metric) {
      OneNumber(same[m].body);
      assert AddsUpTo(same, m, metric, before);
    }
  }

  lemma {:induction false} TotalIs(same: seq<Envelope>, n: nat, metric: string, sum: Number)
    requires n <= |same| && Readable(same)
    ensures AddsUpTo(same, n, metric, sum) <==> Total(Readings(same, n), metric) == sum
  {
    if n > 0 {
      var m := n - 1;
      var before := Total(Readings(same, m), metric);
      forall s ensures AddsUpTo(same, m, metric, s) <==> s == before {
        TotalIs(same, m, metric, s);
      }
      TotalNext(same, n, metric, before);
      AddsUpNext(same, m, metric, before, sum);
    }
  }

  lemma TotalNext(same: seq<Envelope>, n: nat, metric: string, before: Number)
    requires 0 < n <= |same| && Readable(same) && before == Total(Readings(same, n - 1), metric)
    ensures var e := same[n - 1];
      && (Meters(e, metric) ==> ReadingOf(e.body).Some?)
      && Total(Readings(same, n), metric)
         == if Meters(e, metric) then Add(before, ReadingOf(e.body).value.value) else before
  {
    ReadingsNext(same, n, metric);
    ShareIs(same[n - 1], metric, before);
  }

  // A body of energy gives one number.
  lemma OneNumber(body: Json)
    requires ReadingOf(body).Some?
    ensures forall x :: IsNumber(body, "value", x) <==> x == ReadingOf(body).value.value
  {
    forall x ensures IsNumber(body, "value", x) <==> x == ReadingOf(body).value.value {
      NumberInIff(body, "value", x);
    }
  }

  lemma ShareIs(e: Envelope, metric: string, before: Number)
    requires e.schema == "energy" ==> ReadingOf(e.body).Some?
    ensures Meters(e, metric) ==> ReadingOf(e.body).Some? && Share(e, metric) == ReadingOf(e.body).value.value
    ensures !Meters(e, metric) ==> Add(before, Share(e, metric)) == before
  {
  }

  // The total is claimed under its own name or, failing that, under the name of the metric.
  ghost predicate Claims(quantities: map<string, Number>, metric: string, claimed: Number) {
    if metric + "_total" in quantities then quantities[metric + "_total"] == claimed
    else metric in quantities && quantities[metric] == claimed
  }

  // The claim is close to what the readings add up to, or the two do not compare.
  ghost predicate ClaimPasses(same: seq<Envelope>, metric: string, claimed: Number) {
    forall sum | AddsUpTo(same, |same|, metric, sum) :: Incomparable(claimed, sum) || WithinOnePercent(claimed, sum)
  }

  ghost predicate ClaimsPass(same: seq<Envelope>, summary: Summary) {
    forall m, claimed | IsMetered(same, m) && Claims(summary.quantities, m, claimed) :: ClaimPasses(same, m, claimed)
  }

  lemma ClaimPassesIff(same: seq<Envelope>, m: string, quantities: map<string, Number>)
    requires Readable(same)
    ensures ClaimHolds(m, Total(Readings(same, |same|), m), quantities)
            <==> forall claimed | Claims(quantities, m, claimed) :: ClaimPasses(same, m, claimed)
  {
    var total := Total(Readings(same, |same|), m);
    forall sum ensures AddsUpTo(same, |same|, m, sum) <==> total == sum {
      TotalIs(same, |same|, m, sum);
    }
    var name := ClaimOf(m, quantities);
    if name.Some? {
      assert Claims(quantities, m, quantities[name.value]);
      assert AddsUpTo(same, |same|, m, total);
    }
  }

  lemma ClaimsPassIff(same: seq<Envelope>, summary: Summary)
    requires Readable(same)
    ensures EnergyMatches(same, summary) <==> ClaimsPass(same, summary)
  {
    var readings := Readings(same, |same|);
    forall m ensures m in Metrics(readings) <==> IsMetered(same, m) {
      MeteredIff(same, m);
    }
    forall m ensures ClaimHolds(m, Total(readings, m), summary.quantities)
                     <==> forall claimed | Claims(summary.quantities, m, claimed) :: ClaimPasses(same, m, claimed)
    {
      ClaimPassesIff(same, m, summary.quantities);
    }
  }

  // ---- consistency --------------------------------------------------------------------------------

  ghost predicate BoundariesTold(same: seq<Envelope>, summary: Summary) {
    || (!IsTold(same, "run_start") && !IsTold(same, "run_end"))
    || (IsTold(same, "run_start") && (IsTold(same, "run_end") || summary.outcome != Some("completed")))
  }

  // There is something to compare: phases on both sides, a claimed metric, or a boundary.
  ghost predicate CanCompare(same: seq<Envelope>, summary: Summary) {
    || (summary.phases != [] && exists p :: IsBegun(same, p))
    || (exists m, claimed :: IsMetered(same, m) && Claims(summary.quantities, m, claimed))
    || IsTold(same, "run_start") || IsTold(same, "run_end")
  }

  lemma CanCompareIff(same: seq<Envelope>, summary: Summary)
    requires Readable(same)
    ensures Comparable(same, summary) <==> CanCompare(same, summary)
  {
    var metrics := Metrics(Readings(same, |same|));
    NoneBegunIff(same);
    ToldIff(same, "run_start");
    ToldIff(same, "run_end");
    ClaimMembers(metrics, summary.quantities);
    forall m ensures m in metrics <==> IsMetered(same, m) {
      MeteredIff(same, m);
    }
    forall m ensures ClaimOf(m, summary.quantities).Some?
                     <==> exists claimed :: Claims(summary.quantities, m, claimed)
    {
      var name := ClaimOf(m, summary.quantities);
      assert name.Some? ==> Claims(summary.quantities, m, summary.quantities[name.value]);
    }
  }

  // Consistency is judged exactly when there is something to compare, and passes exactly when the
  // events and the readings say what the summary says.
  lemma ConsistentIff(same: seq<Envelope>, summary: Summary)
    requires Readable(same)
    ensures Consistency(same, summary).verdict == NotEvaluated <==> !CanCompare(same, summary)
    ensures Consistency(same, summary).verdict == Passed
            <==> CanCompare(same, summary)
                 && PhasesTold(same, summary) && ClaimsPass(same, summary) && BoundariesTold(same, summary)
  {
    ConsistencyIff(same, summary);
    CanCompareIff(same, summary);
    PhasesToldIff(same, summary);
    ClaimsPassIff(same, summary);
    ToldIff(same, "run_start");
    ToldIff(same, "run_end");
  }

  // ---- findings ------------------------------------------------------------------------------------

  lemma {:induction false} CollectedFrom(cited: seq<Envelope>, n: nat, look: Envelope -> seq<Finding>, f: Finding)
    requires n <= |cited|
    ensures f in Collected(cited, n, look) <==> exists i | 0 <= i < n :: f in look(cited[i])
  {
    if n > 0 {
      CollectedFrom(cited, n - 1, look, f);
    }
  }

  // A number reported is that of a cited envelope with the fault, and at most twenty are reported.
  lemma IntegrityFindingsAreGenuine(cited: seq<Envelope>, hash: string -> string, f: Finding)
    requires f in Integrity(cited, hash).findings
    ensures |Integrity(cited, hash).findings| <= 20
    ensures exists e :: e in cited && match f
                                      case ChecksumMismatchAt(n) => n == e.seqNo && HasOtherChecksum(e, hash)
                                      case NotCanonicalizable(n) => n == e.seqNo && Checksum(e.body, hash).Err?
                                      case _ => false
  {
    var look := e => IntegrityFinding(e, hash);
    CollectedFrom(cited, |cited|, look, f);
    var i :| 0 <= i < |cited| && f in look(cited[i]);
    assert cited[i] in cited && f in IntegrityFinding(cited[i], hash);
  }

  predicate HasOtherChecksum(e: Envelope, hash: string -> string) {
    Checksum(e.body, hash).Ok? && Checksum(e.body, hash) != Ok(e.checksum)
  }

  lemma ConformanceFindingsAreGenuine(cited: seq<Envelope>, spec: Spec, f: Finding)
    requires f in Conformance(cited, spec).findings
    ensures |Conformance(cited, spec).findings| <= 20
    ensures exists e :: e in cited && f.NonConformant? && f.seqNo == e.seqNo && Genuine(f.first, e, spec)
  {
    var look := e => ConformanceFinding(e, spec);
    CollectedFrom(cited, |cited|, look, f);
    var i :| 0 <= i < |cited| && f in look(cited[i]);
    assert cited[i] in cited && f in ConformanceFinding(cited[i], spec);
    ViolationsAreGenuine(cited[i], spec, false, ValidateEnvelope(cited[i], spec, false)[0]);
  }

  lemma {:induction false} SignatureFindingsFrom(cited: seq<Envelope>, key: Audits.Key, f: Finding)
    requires f in SignatureFindings(cited, key)
    ensures IsForged(cited, key, f)
  {
    var n := |cited| - 1;
    if f in SignatureFindings(cited[..n], key) {
      SignatureFindingsFrom(cited[..n], key, f);
    } else {
      assert cited[n] in cited;
    }
  }

  ghost function UnsignedCount(cited: seq<Envelope>): nat {
    if cited == [] then 0 else UnsignedCount(cited[1..]) + if cited[0].sig.None? then 1 else 0
  }

  lemma {:induction false} UnsignedSnoc(cited: seq<Envelope>, e: Envelope)
    ensures UnsignedCount(cited + [e]) == UnsignedCount(cited) + if e.sig.None? then 1 else 0
  {
    if cited == [] {
      assert [] + [e] == [e];
      assert UnsignedCount([e]) == UnsignedCount([e][1..]) + if e.sig.None? then 1 else 0;
    } else {
      assert (cited + [e])[1..] == cited[1..] + [e] && (cited + [e])[0] == cited[0];
      UnsignedSnoc(cited[1..], e);
    }
  }

  lemma {:induction false} SignedOrNot(cited: seq<Envelope>)
    ensures SignedCount(cited) + UnsignedCount(cited) == |cited|
  {
    if cited != [] {
      var n := |cited| - 1;
      SignedOrNot(cited[..n]);
      UnsignedSnoc(cited[..n], cited[n]);
      assert cited == cited[..n] + [cited[n]];
    }
  }

  // A check that passes says how many envelopes are not signed, if any is.
  lemma UnsignedAreCounted(cited: seq<Envelope>, key: Audits.Key)
    requires Authenticity(cited, Some(key)).verdict == Passed
    ensures Authenticity(cited, Some(key)).findings
            == if UnsignedCount(cited) == 0 then [] else [Unsigned(UnsignedCount(cited))]
  {
    SignedOrNot(cited);
  }

  // One that fails says which signatures do not verify, at most twenty.
  lemma ForgedAreShown(cited: seq<Envelope>, key: Audits.Key)
    requires Authenticity(cited, Some(key)).verdict == Failed
    ensures var findings := Authenticity(cited, Some(key)).findings;
            |findings| <= 20 && forall f | f in findings :: IsForged(cited, key, f)
  {
    var bad := SignatureFindings(cited, key);
    forall f | f in Shown(bad) ensures IsForged(cited, key, f) {
      assert f in bad;
      SignatureFindingsFrom(cited, key, f);
    }
  }

  ghost predicate IsForged(cited: seq<Envelope>, key: Audits.Key, f: Finding) {
    exists e :: e in cited && f == BadSignature(e.seqNo) && e.sig.Some? && !key(e)
  }

  // Of the numbers that are not held, the first twenty are shown and the others counted.
  lemma MissingIsReported(cited: seq<Envelope>, run: Envelope, r: Range)
    requires Completeness(cited, run, Some(r)).verdict == Failed
    ensures var findings := Completeness(cited, run, Some(r)).findings;
      && |findings| == 1 && findings[0].MissingNumbers?
      && var shown, more := findings[0].shown, findings[0].more;
         && (forall i, k | 0 <= i < k < |shown| :: shown[i] < shown[k])
         && (forall n | n in shown :: IsLacking(cited, run, r, n))
         && (more > 0 ==> |shown| == 20) && |shown| <= 20
         && (forall n | IsLacking(cited, run, r, n) && n !in shown :: more > 0 && forall m | m in shown :: m < n)
  {
    var missing := Lacking(NumbersOf(cited, run), r.first, r.last);
    forall n ensures n in NumbersOf(cited, run) <==> exists e :: e in cited && SameMachine(e, run) && e.seqNo == n {
    }
    forall n ensures IsLacking(cited, run, r, n) <==> n in missing {
    }
    var shown := Completeness(cited, run, Some(r)).findings[0].shown;
    assert shown <= missing;
    forall n | n in missing && n !in shown ensures forall m | m in shown :: m < n {
      var i :| 0 <= i < |missing| && missing[i] == n;
      assert shown == missing[..|shown|] && forall k | 0 <= k < |shown| :: missing[k] in shown;
    }
  }

  ghost predicate IsLacking(cited: seq<Envelope>, run: Envelope, r: Range, n: int) {
    r.first <= n <= r.last
    && forall e | e in cited && e.seqNo == n :: e.gatewayId != run.gatewayId || e.machineId != run.machineId
  }

  // ---- the report ------------------------------------------------------------------------------------

  // What a report says of the bundle.
  ghost predicate Says(report: Report, envs: seq<Envelope>, cited: seq<Envelope>, spec: Spec, key: Option<Audits.Key>,
                       run: Envelope, summary: Summary)
  {
    && (report.completeness.verdict == Passed
        <==> summary.range.Some?
             && forall n | summary.range.value.first <= n <= summary.range.value.last :: Holds(envs, run, n))
    && (report.integrity.verdict == Passed <==> forall e | e in cited :: Checksum(e.body, spec.hash) == Ok(e.checksum))
    && (report.authenticity.verdict == Passed
        <==> key.Some? && (exists e :: e in cited && e.sig.Some?)
             && forall e | e in cited && e.sig.Some? :: key.value(e))
    && (report.consistency.verdict == Passed
        <==> CanCompare(cited, summary)
             && PhasesTold(cited, summary) && ClaimsPass(cited, summary) && BoundariesTold(cited, summary))
    && (report.conformance.verdict == Passed <==> forall e | e in cited :: Conforms(e, spec))
  }

  lemma ChecksSay(envs: seq<Envelope>, spec: Spec, key: Option<Audits.Key>, run: Envelope, summary: Summary)
    requires run in envs && Readable(Cited(envs, run, summary.range))
    ensures var cited := Cited(envs, run, summary.range);
            Says(Report(Completeness(cited, run, summary.range), Integrity(cited, spec.hash), Authenticity(cited, key),
                        Consistency(cited, summary), Conformance(cited, spec)),
                 envs, cited, spec, key, run, summary)
  {
    var cited := Cited(envs, run, summary.range);
    CompletenessIff(envs, run, summary.range);
    IntegrityIff(cited, spec.hash);
    AuthenticityIff(cited, key);
    ConformanceIff(cited, spec);
    ConsistentIff(cited, summary);
  }

  // The whole report of an audit, read from the bundle: there is one exactly when the cited readings
  // can be read.
  lemma ReportIs(envs: seq<Envelope>, spec: Spec, key: Option<Audits.Key>, runId: string, run: Envelope,
                 summary: Summary)
    requires SelectRun(envs, runId) == Ok(run) && SummaryOf(run.body) == Some(summary)
    ensures var audit, cited := Audit(envs, spec, key, runId), Cited(envs, run, summary.range);
      && (audit.Ok? <==> Readable(cited))
      && (audit.Ok? ==> Says(audit.value, envs, cited, spec, key, run, summary))
  {
    IsInBundle(envs, runId, run);
    if Readable(Cited(envs, run, summary.range)) {
      AuditAssembles(envs, spec, key, runId, run, summary);
      ChecksSay(envs, spec, key, run, summary);
    }
  }

  lemma IsInBundle(envs: seq<Envelope>, runId: string, run: Envelope)
    requires SelectRun(envs, runId) == Ok(run)
    ensures run in envs
  {
    SelectRunIff(envs, runId, run);
  }
}
