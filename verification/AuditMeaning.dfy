/** What the verdicts of an audit mean, over the whole bundle. */
module AuditMeaning {
  import opened Wrappers
  import opened JsonModel
  import opened Envelopes
  import opened Validation
  import opened Audits
  import opened Amounts
  import opened CanonicalForm

  // ---- completeness, integrity, conformance ----------------------------------------------

  predicate Holds(envs: seq<Envelope>, run: Envelope, n: int) {
    exists i | 0 <= i < |envs| ::
      envs[i].gatewayId == run.gatewayId && envs[i].machineId == run.machineId && envs[i].seqNo == n
  }

  // Completeness passes exactly when the bundle holds every cited number of the run's machine,
  // and is not evaluated exactly when the summary cites nothing.
  lemma CompletenessIff(envs: seq<Envelope>, run: Envelope, range: Option<Range>)
    requires run in envs
    ensures var check := Completeness(Cited(envs, run, range), run, range);
            && (check.verdict == NotEvaluated <==> range.None?)
            && (check.verdict == Passed
                <==> range.Some? && forall n | range.value.first <= n <= range.value.last :: Holds(envs, run, n))
  {
    if range.Some? {
      var r := range.value;
      var cited := Cited(envs, run, range);
      var have := NumbersOf(cited, run);
      forall n | r.first <= n <= r.last ensures n in have <==> Holds(envs, run, n) {
        if n in have {
          var e :| e in cited && SameMachine(e, run) && e.seqNo == n;
          assert e in envs;
        }
        if Holds(envs, run, n) {
          var i :| 0 <= i < |envs| && envs[i].gatewayId == run.gatewayId && envs[i].machineId == run.machineId
                   && envs[i].seqNo == n;
          assert envs[i] in cited;
        }
      }
      var missing := Lacking(have, r.first, r.last);
      assert missing == [] <==> forall n | r.first <= n <= r.last :: n in have by {
        if missing != [] {
          assert missing[0] in missing;
        }
      }
    }
  }

  lemma {:induction false} CollectedIff(cited: seq<Envelope>, n: nat, look: Envelope -> seq<Finding>)
    requires n <= |cited|
    ensures Collected(cited, n, look) == [] <==> forall i | 0 <= i < n :: look(cited[i]) == []
  {
    if n > 0 {
      CollectedIff(cited, n - 1, look);
    }
  }

  // Integrity passes exactly when every cited checksum is that of its body.
  lemma IntegrityIff(cited: seq<Envelope>, hash: string -> string)
    ensures Integrity(cited, hash).verdict == Passed
            <==> forall e | e in cited :: Checksum(e.body, hash) == Ok(e.checksum)
    ensures Integrity(cited, hash).verdict != NotEvaluated
  {
    CollectedIff(cited, |cited|, e => IntegrityFinding(e, hash));
  }

  predicate Conforms(e: Envelope, spec: Spec) {
    ValidateEnvelope(e, spec, false) == []
  }

  lemma ConformanceFindingIff(e: Envelope, spec: Spec)
    ensures ConformanceFinding(e, spec) == [] <==> Conforms(e, spec)
  {
  }

  lemma ConformanceIff(cited: seq<Envelope>, spec: Spec)
    ensures Conformance(cited, spec).verdict == Passed
            <==> forall e | e in cited :: Conforms(e, spec)
    ensures Conformance(cited, spec).verdict != NotEvaluated
  {
    CollectedIff(cited, |cited|, e => ConformanceFinding(e, spec));
    forall e ensures ConformanceFinding(e, spec) == [] <==> Conforms(e, spec) {
      ConformanceFindingIff(e, spec);
    }
  }

  // Whatever conforms is intact: the validator recomputes the checksum.
  lemma ConformantIsIntact(cited: seq<Envelope>, spec: Spec)
    requires Conformance(cited, spec).verdict == Passed
    ensures Integrity(cited, spec.hash).verdict == Passed
  {
    ConformanceIff(cited, spec);
    IntegrityIff(cited, spec.hash);
    forall e | e in cited ensures Checksum(e.body, spec.hash) == Ok(e.checksum) {
      ValidChecksum(e, spec, false);
    }
  }

  // Authenticity passes exactly when a key is supplied, something is signed, and every signature
  // verifies; without a key or a signature it is not evaluated.
  lemma AuthenticityIff(cited: seq<Envelope>, key: Option<Audits.Key>)
    ensures Authenticity(cited, key).verdict == NotEvaluated
            <==> key.None? || forall e | e in cited :: e.sig.None?
    ensures Authenticity(cited, key).verdict == Passed
            <==> key.Some? && (exists e :: e in cited && e.sig.Some?)
                 && forall e | e in cited && e.sig.Some? :: key.value(e)
  {
  }

  lemma AuditAssembles(envs: seq<Envelope>, spec: Spec, key: Option<Audits.Key>, runId: string,
                       run: Envelope, summary: Audits.Summary)
    requires SelectRun(envs, runId) == Ok(run) && SummaryOf(run.body) == Some(summary)
    requires Readable(Cited(envs, run, summary.range))
    ensures var cited := Cited(envs, run, summary.range);
            Audit(envs, spec, key, runId)
            == Ok(Report(Completeness(cited, run, summary.range), Integrity(cited, spec.hash),
                         Authenticity(cited, key), Consistency(cited, summary), Conformance(cited, spec)))
  {
  }

  // ---- consistency ---------------------------------------------------------------------------

  // The phases in the summary and the phases begun are the same, where there are both.
  predicate PhasesMatch(same: seq<Envelope>, summary: Summary) {
    var started := Started(same, |same|);
    summary.phases == [] || started == []
    || ((forall p | p in summary.phases :: p in started) && (forall p | p in started :: p in summary.phases))
  }

  predicate EnergyMatches(same: seq<Envelope>, summary: Summary)
    requires Readable(same)
  {
    var readings := Readings(same, |same|);
    forall m | m in Metrics(readings) :: ClaimHolds(m, Total(readings, m), summary.quantities)
  }

  predicate ClaimHolds(metric: string, total: Number, quantities: map<string, Number>) {
    var name := ClaimOf(metric, quantities);
    name.Some? ==> Incomparable(quantities[name.value], total) || WithinOnePercent(quantities[name.value], total)
  }

  predicate BoundariesMatch(same: seq<Envelope>, summary: Summary) {
    || (!HasEvent(same, "run_start") && !HasEvent(same, "run_end"))
    || (HasEvent(same, "run_start") && (HasEvent(same, "run_end") || summary.outcome != Some("completed")))
  }

  lemma NotInIsEmpty(phases: seq<Json>, others: seq<Json>)
    ensures NotIn(phases, others) == [] <==> forall p | p in phases :: p in others
  {
    if NotIn(phases, others) != [] {
      assert NotIn(phases, others)[0] in NotIn(phases, others);
    }
  }

  lemma PhaseFindingsIff(same: seq<Envelope>, summary: Summary)
    ensures PhaseFindings(summary.phases, Started(same, |same|)) == [] <==> PhasesMatch(same, summary)
  {
    NotInIsEmpty(summary.phases, Started(same, |same|));
    NotInIsEmpty(Started(same, |same|), summary.phases);
  }

  lemma EnergyFindingIff(metric: string, total: Number, quantities: map<string, Number>)
    ensures EnergyFinding(metric, total, quantities) == [] <==> ClaimHolds(metric, total, quantities)
  {
    var name := ClaimOf(metric, quantities);
    if name.Some? {
      DiscrepantIff(quantities[name.value], total);
    }
  }

  lemma {:induction false} EnergyFindingsIff(metrics: seq<string>, n: nat, readings: seq<Reading>,
                                             quantities: map<string, Number>)
    requires n <= |metrics|
    ensures EnergyFindings(metrics, n, readings, quantities) == []
            <==> forall i | 0 <= i < n :: ClaimHolds(metrics[i], Total(readings, metrics[i]), quantities)
  {
    if n > 0 {
      EnergyFindingsIff(metrics, n - 1, readings, quantities);
      EnergyFindingIff(metrics[n - 1], Total(readings, metrics[n - 1]), quantities);
    }
  }

  // Consistency passes exactly when something can be compared, the phases and boundaries that can
  // be are the same, and each claim is within one per cent of its total or is zero, not finite, or
  // against a total of NaN.
  lemma ConsistencyIff(same: seq<Envelope>, summary: Summary)
    requires Readable(same)
    ensures Consistency(same, summary).verdict == NotEvaluated <==> !Comparable(same, summary)
    ensures Consistency(same, summary).verdict == Passed
            <==> Comparable(same, summary)
                 && PhasesMatch(same, summary) && EnergyMatches(same, summary) && BoundariesMatch(same, summary)
  {
    var readings := Readings(same, |same|);
    var metrics := Metrics(readings);
    PhaseFindingsIff(same, summary);
    EnergyFindingsIff(metrics, |metrics|, readings, summary.quantities);
    assert EnergyFindings(metrics, |metrics|, readings, summary.quantities) == []
           <==> EnergyMatches(same, summary);
  }

  // ---- claims that the comparison passes over -----------------------------------------------

  // Every claimed total is within one per cent of what the cited intervals sum to.
  predicate ClaimsWithinOnePercent(same: seq<Envelope>, summary: Summary)
    requires Readable(same)
  {
    var readings := Readings(same, |same|);
    forall m | m in Metrics(readings) :: ClaimWithinOnePercent(m, Total(readings, m), summary.quantities)
  }

  predicate ClaimWithinOnePercent(metric: string, total: Number, quantities: map<string, Number>) {
    var name := ClaimOf(metric, quantities);
    name.Some? ==> WithinOnePercent(quantities[name.value], total)
  }

  predicate ClaimPassedOver(metric: string, total: Number, quantities: map<string, Number>) {
    var name := ClaimOf(metric, quantities);
    name.Some? && PassedOver(quantities[name.value], total)
  }

  predicate NonePassedOver(same: seq<Envelope>, summary: Summary)
    requires Readable(same)
  {
    var readings := Readings(same, |same|);
    forall m | m in Metrics(readings) :: !ClaimPassedOver(m, Total(readings, m), summary.quantities)
  }

  lemma ClaimIff(metric: string, total: Number, quantities: map<string, Number>)
    requires ClaimHolds(metric, total, quantities)
    ensures ClaimWithinOnePercent(metric, total, quantities) <==> !ClaimPassedOver(metric, total, quantities)
  {
    var name := ClaimOf(metric, quantities);
    if name.Some? {
      DiscrepantIff(quantities[name.value], total);
    }
  }

  // Where the check passes, the claimed totals are what they should be exactly when none is passed
  // over: claimed at zero against a sum of more than a hundredth, not finite, or against NaN.
  lemma PassedClaimsHoldIff(same: seq<Envelope>, summary: Summary)
    requires Readable(same) && Consistency(same, summary).verdict == Passed
    ensures ClaimsWithinOnePercent(same, summary) <==> NonePassedOver(same, summary)
  {
    ConsistencyIff(same, summary);
    var readings := Readings(same, |same|);
    forall m | m in Metrics(readings)
      ensures ClaimWithinOnePercent(m, Total(readings, m), summary.quantities)
              <==> !ClaimPassedOver(m, Total(readings, m), summary.quantities)
    {
      assert ClaimHolds(m, Total(readings, m), summary.quantities);
      ClaimIff(m, Total(readings, m), summary.quantities);
    }
  }

  // A metric is claimed at zero although its readings sum to more than a hundredth.
  predicate FalseZero(metric: string, total: Number, quantities: map<string, Number>) {
    var name := ClaimOf(metric, quantities);
    name.Some? && quantities[name.value] == ZERO && total.Finite? && Abs(total.x) > 0.01
  }

  predicate NoFalseZero(same: seq<Envelope>, summary: Summary)
    requires Readable(same)
  {
    var readings := Readings(same, |same|);
    forall m | m in Metrics(readings) :: !FalseZero(m, Total(readings, m), summary.quantities)
  }

  predicate AllFinite(quantities: map<string, Number>) {
    forall name | name in quantities :: quantities[name].Finite?
  }

  lemma {:induction false} LookedUpIsWhole(fields: seq<Field>, key: string)
    requires forall f | f in fields :: WholeNumbers(f.value)
    ensures Lookup(fields, key).Some? ==> WholeNumbers(Lookup(fields, key).value)
  {
    if fields != [] {
      assert fields == [fields[0]] + fields[1..];
      LookedUpIsWhole(fields[1..], key);
    }
  }

  lemma GotIsWhole(body: Json, key: string)
    requires WholeNumbers(body)
    ensures Get(body, key).Some? ==> WholeNumbers(Get(body, key).value)
    ensures NumberIn(Get(body, key)).Some? ==> NumberIn(Get(body, key)).value.Finite?
  {
    if body.Obj? {
      LookedUpIsWhole(body.fields, key);
    }
  }

  lemma {:induction false} QuantitiesAreFinite(items: seq<Json>)
    requires forall i | 0 <= i < |items| :: WholeNumbers(items[i])
    ensures QuantitiesIn(items).Some? ==> AllFinite(QuantitiesIn(items).value)
  {
    if items != [] {
      var n := |items| - 1;
      QuantitiesAreFinite(items[..n]);
      GotIsWhole(items[n], "value");
    }
  }

  lemma SummaryIsFinite(body: Json, summary: Summary)
    requires WholeNumbers(body) && SummaryOf(body) == Some(summary)
    ensures AllFinite(summary.quantities)
  {
    GotIsWhole(body, "quantities");
    var items := ListIn(Get(body, "quantities")).value;
    QuantitiesAreFinite(items);
  }

  predicate FiniteReadings(readings: seq<Reading>) {
    forall i | 0 <= i < |readings| :: readings[i].value.Finite?
  }

  lemma {:induction false} TotalIsFinite(readings: seq<Reading>, metric: string)
    requires FiniteReadings(readings)
    ensures Total(readings, metric).Finite?
  {
    if readings != [] {
      TotalIsFinite(readings[..|readings| - 1], metric);
    }
  }

  lemma {:induction false} ReadingsAreFinite(same: seq<Envelope>, n: nat)
    requires n <= |same| && Readable(same) && forall e | e in same :: WholeNumbers(e.body)
    ensures FiniteReadings(Readings(same, n))
  {
    if n > 0 {
      ReadingsAreFinite(same, n - 1);
      assert same[n - 1] in same;
      GotIsWhole(same[n - 1].body, "value");
    }
  }

  lemma IntactBodiesAreWhole(cited: seq<Envelope>, hash: string -> string)
    requires Integrity(cited, hash).verdict == Passed
    ensures forall e | e in cited :: WholeNumbers(e.body)
  {
    IntegrityIff(cited, hash);
    forall e | e in cited ensures WholeNumbers(e.body) {
      CanonicalizesIff(e.body);
    }
  }

  lemma FalseZeroIff(metric: string, total: Number, quantities: map<string, Number>)
    requires total.Finite? && AllFinite(quantities)
    ensures ClaimPassedOver(metric, total, quantities) <==> FalseZero(metric, total, quantities)
  {
  }

  lemma FiniteClaimsHoldIff(same: seq<Envelope>, summary: Summary)
    requires Readable(same) && AllFinite(summary.quantities)
    requires FiniteReadings(Readings(same, |same|))
    ensures NonePassedOver(same, summary) <==> NoFalseZero(same, summary)
  {
    var readings := Readings(same, |same|);
    forall m | m in Metrics(readings)
      ensures ClaimPassedOver(m, Total(readings, m), summary.quantities)
              <==> FalseZero(m, Total(readings, m), summary.quantities)
    {
      TotalIsFinite(readings, m);
      FalseZeroIff(m, Total(readings, m), summary.quantities);
    }
  }

  // What is not finite has no checksum: with integrity passed as well, the claimed totals are what
  // they should be exactly when none is claimed at zero against a sum of more than a hundredth.
  lemma IntactClaimsHoldIff(envs: seq<Envelope>, spec: Spec, key: Option<Audits.Key>, runId: string,
                            run: Envelope, summary: Summary)
    requires SelectRun(envs, runId) == Ok(run) && SummaryOf(run.body) == Some(summary)
    requires var audit := Audit(envs, spec, key, runId);
             audit.Ok? && audit.value.integrity.verdict == Passed && audit.value.consistency.verdict == Passed
    ensures var cited := Cited(envs, run, summary.range);
            Readable(cited) && (ClaimsWithinOnePercent(cited, summary) <==> NoFalseZero(cited, summary))
  {
    var cited := Cited(envs, run, summary.range);
    IntactBodiesAreWhole(cited, spec.hash);
    SummaryIsFinite(run.body, summary);
    ReadingsAreFinite(cited, |cited|);
    FiniteClaimsHoldIff(cited, summary);
    PassedClaimsHoldIff(cited, summary);
  }

  // ---- witnesses -------------------------------------------------------------------------

  // One reading of 100 kWh.
  function HundredKwh(): Envelope {
    Envelope(OMP_VERSION, "generic/0.1", "gw", "m", 1, "",
             "energy", Obj([Field("metric", Str("kwh")), Field("value", Int(100))]), "", None)
  }

  // The body of a summary that claims so many kWh.
  function Claiming(value: Json): Json {
    Obj([Field("outcome", Str("completed")),
         Field("quantities", Arr([Obj([Field("name", Str("kwh_total")), Field("value", value)])]))])
  }

  lemma ReadsHundredKwh()
    ensures ReadingOf(HundredKwh().body) == Some(Reading("kwh", Finite(100.0)))
  {
    var fields := HundredKwh().body.fields;
    LookupEarlier(fields, [], "metric", 0);
    LookupEarlier(fields, [], "value", 1);
    assert fields + [] == fields;
  }

  lemma ReadsClaim(value: Json, claimed: Number)
    requires NumberIn(Some(value)) == Some(claimed)
    ensures SummaryOf(Claiming(value))
            == Some(Summary(Some("completed"), [], map["kwh_total" := claimed], None))
  {
    var fields := Claiming(value).fields;
    var items := fields[1].value.items;
    LookupEarlier(fields, [], "outcome", 0);
    LookupEarlier(fields, [], "quantities", 1);
    LookupLater(fields, [], "phases");
    LookupLater(fields, [], "event_seq_range");
    LookupEarlier(items[0].fields, [], "name", 0);
    LookupEarlier(items[0].fields, [], "value", 1);
    assert fields + [] == fields && items[0].fields + [] == items[0].fields;
    assert items[..0] == [];
    assert QuantitiesIn(items[..0]) == Some(map[]);
  }

  lemma OneReading(e: Envelope, r: Reading)
    requires e.schema == "energy" && ReadingOf(e.body) == Some(r)
    ensures Readable([e]) && Readings([e], 1) == [r] && Metrics([r]) == [r.metric]
    ensures Total([r], r.metric) == Add(ZERO, r.value)
  {
    var none: seq<Reading> := [];
    SnocReading(none, r);
    assert none + [r] == [r] && Metrics(none) == [];
  }

  // Any single reading passes under a claim that is not compared.
  lemma UncomparedClaimPasses(e: Envelope, r: Reading, summary: Summary, name: string)
    requires e.schema == "energy" && ReadingOf(e.body) == Some(r) && summary.phases == []
    requires ClaimOf(r.metric, summary.quantities) == Some(name)
    requires Incomparable(summary.quantities[name], Add(ZERO, r.value))
    ensures Readable([e]) && Consistency([e], summary).verdict == Passed
    ensures Metrics(Readings([e], 1)) == [r.metric] && Total(Readings([e], 1), r.metric) == Add(ZERO, r.value)
  {
    OneReading(e, r);
    var metrics := [r.metric];
    assert ClaimOf(metrics[0], summary.quantities).Some?;
    assert ClaimHolds(r.metric, Add(ZERO, r.value), summary.quantities);
    assert EnergyMatches([e], summary);
    ConsistencyIff([e], summary);
  }

  // The check passes a summary that claims so much, although the claim is not within one per cent.
  ghost predicate PassesUncompared(value: Json) {
    var same, summary := [HundredKwh()], SummaryOf(Claiming(value));
    && summary.Some? && Readable(same) && Consistency(same, summary.value).verdict == Passed
    && !ClaimsWithinOnePercent(same, summary.value)
  }

  lemma HundredKwhPass(value: Json, claimed: Number)
    requires NumberIn(Some(value)) == Some(claimed) && Incomparable(claimed, Finite(100.0))
    ensures PassesUncompared(value)
  {
    var same, summary := [HundredKwh()], SummaryOf(Claiming(value)).value;
    ReadsHundredKwh();
    ReadsClaim(value, claimed);
    assert "kwh" + "_total" == "kwh_total";
    UncomparedClaimPasses(HundredKwh(), Reading("kwh", Finite(100.0)), summary, "kwh_total");
    assert Metrics(Readings(same, 1))[0] == "kwh";
    assert !ClaimWithinOnePercent("kwh", Finite(100.0), summary.quantities);
  }

  lemma IncomparableNumbers(which: Special)
    ensures NumberIn(Some(Int(0))) == Some(ZERO) && Incomparable(ZERO, Finite(100.0))
    ensures var claimed := NumberIn(Some(NonFinite(which)));
            claimed.Some? && Incomparable(claimed.value, Finite(100.0))
  {
  }

  // A claim of zero, of NaN, or of an infinity, which is what 1e999 is read as, passes against a
  // reading of 100.
  lemma UncomparedClaimsPass(which: Special)
    ensures PassesUncompared(Int(0)) && PassesUncompared(NonFinite(which))
  {
    IncomparableNumbers(which);
    HundredKwhPass(Int(0), ZERO);
    HundredKwhPass(NonFinite(which), NumberIn(Some(NonFinite(which))).value);
  }
}
