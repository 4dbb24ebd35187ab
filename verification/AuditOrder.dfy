/** An audit comes to the same verdicts whatever the order of the bundle, so anyone who holds the
    same envelopes can reproduce them. */
module AuditOrder {
  import opened Wrappers
  import opened JsonModel
  import opened Envelopes
  import opened Validation
  import opened Audits
  import opened AuditMeaning
  import opened Amounts
  import opened Evidence

  // ---- choosing the run --------------------------------------------------------------------

  ghost predicate Filters(part: seq<Envelope>, envs: seq<Envelope>, keep: Envelope -> bool) {
    forall e :: multiset(part)[e] == if keep(e) then multiset(envs)[e] else 0
  }

  lemma FiltersSnoc(part: seq<Envelope>, front: seq<Envelope>, e: Envelope, keep: Envelope -> bool)
    requires Filters(part, front, keep)
    ensures Filters(part + if keep(e) then [e] else [], front + [e], keep)
  {
  }

  lemma {:induction false} RunsFilter(envs: seq<Envelope>, runId: string)
    ensures Filters(Runs(envs, runId), envs, e => IsRun(e, runId))
  {
    if envs != [] {
      var n := |envs| - 1;
      RunsFilter(envs[..n], runId);
      FiltersSnoc(Runs(envs[..n], runId), envs[..n], envs[n], e => IsRun(e, runId));
      assert envs == envs[..n] + [envs[n]];
    }
  }

  lemma {:induction false} WithinFilters(envs: seq<Envelope>, run: Envelope, range: Option<Range>)
    ensures Filters(Within(envs, run, range), envs, e => InRange(e, run, range))
  {
    if envs != [] {
      var n := |envs| - 1;
      WithinFilters(envs[..n], run, range);
      FiltersSnoc(Within(envs[..n], run, range), envs[..n], envs[n], e => InRange(e, run, range));
      assert envs == envs[..n] + [envs[n]];
    }
  }

  lemma FiltersAgree(p: seq<Envelope>, a: seq<Envelope>, q: seq<Envelope>, b: seq<Envelope>, keep: Envelope -> bool)
    requires Filters(p, a, keep) && Filters(q, b, keep) && multiset(a) == multiset(b)
    ensures multiset(p) == multiset(q)
  {
    assert forall e :: multiset(p)[e] == multiset(q)[e];
  }

  // A run is selected exactly when the bundle holds one summary of it, and only one.
  lemma SelectRunIff(envs: seq<Envelope>, runId: string, run: Envelope)
    ensures SelectRun(envs, runId) == Ok(run)
            <==> IsRun(run, runId) && multiset(envs)[run] == 1
                 && forall e | e in envs && IsRun(e, runId) :: e == run
    ensures SelectRun(envs, runId) == Err(if runId == "" then NoRun else RunNotFound)
            <==> forall e | e in envs :: !IsRun(e, runId)
  {
    var runs := Runs(envs, runId);
    RunsFilter(envs, runId);
    if SelectRun(envs, runId) == Ok(run) {
      assert runs == [run];
      assert multiset(runs)[run] == 1;
    }
    if IsRun(run, runId) && multiset(envs)[run] == 1 && forall e | e in envs && IsRun(e, runId) :: e == run {
      assert multiset(runs)[run] == 1;
      OnlyOne(runs, run);
    }
    assert runs != [] ==> runs[0] in runs;
  }

  lemma OnlyOne(runs: seq<Envelope>, run: Envelope)
    requires multiset(runs)[run] == 1 && forall e | e in runs :: e == run
    ensures runs == [run]
  {
    assert runs != [] && runs[0] in runs;
    assert runs == [run] + runs[1..];
    assert multiset(runs) == multiset{run} + multiset(runs[1..]);
    assert multiset(runs[1..])[run] == 0;
    assert forall i | 1 <= i < |runs| :: runs[i] in runs && runs[i] in runs[1..];
  }

  lemma RunsAgree(a: seq<Envelope>, b: seq<Envelope>, runId: string)
    requires multiset(a) == multiset(b)
    ensures SelectRun(a, runId) == SelectRun(b, runId)
  {
    var p, q := Runs(a, runId), Runs(b, runId);
    RunsFilter(a, runId);
    RunsFilter(b, runId);
    FiltersAgree(p, a, q, b, e => IsRun(e, runId));
    SameSize(p, q);
    if |p| == 1 {
      assert p[0] in multiset(q);
    }
  }

  lemma CitedAgree(a: seq<Envelope>, b: seq<Envelope>, run: Envelope, range: Option<Range>)
    requires multiset(a) == multiset(b)
    ensures multiset(Cited(a, run, range)) == multiset(Cited(b, run, range))
  {
    WithinFilters(a, run, range);
    WithinFilters(b, run, range);
    FiltersAgree(Within(a, run, range), a, Within(b, run, range), b, e => InRange(e, run, range));
    assert run in Within(a, run, range) <==> run in multiset(Within(a, run, range));
    assert run in Within(b, run, range) <==> run in multiset(Within(b, run, range));
  }

  ghost predicate SameMembers(a: seq<Envelope>, b: seq<Envelope>) {
    forall e :: e in a <==> e in b
  }

  lemma MembersAgree(a: seq<Envelope>, b: seq<Envelope>)
    requires multiset(a) == multiset(b)
    ensures SameMembers(a, b)
  {
    forall e ensures e in a <==> e in b {
      assert e in a <==> e in multiset(a);
      assert e in b <==> e in multiset(b);
    }
  }

  // ---- checks that look at members ------------------------------------------------------------

  lemma CompletenessAgrees(a: seq<Envelope>, b: seq<Envelope>, run: Envelope, range: Option<Range>)
    requires SameMembers(a, b)
    ensures Completeness(a, run, range) == Completeness(b, run, range)
  {
    assert NumbersOf(a, run) == NumbersOf(b, run);
  }

  lemma MemberChecksAgree(a: seq<Envelope>, b: seq<Envelope>, spec: Spec, key: Option<Audits.Key>)
    requires SameMembers(a, b)
    ensures Integrity(a, spec.hash).verdict == Integrity(b, spec.hash).verdict
    ensures Conformance(a, spec).verdict == Conformance(b, spec).verdict
    ensures Authenticity(a, key).verdict == Authenticity(b, key).verdict
  {
    IntegrityIff(a, spec.hash);
    IntegrityIff(b, spec.hash);
    ConformanceIff(a, spec);
    ConformanceIff(b, spec);
    AuthenticityIff(a, key);
    AuthenticityIff(b, key);
  }

  lemma ReadableAgrees(a: seq<Envelope>, b: seq<Envelope>)
    requires SameMembers(a, b)
    ensures Readable(a) <==> Readable(b)
  {
    ReadableMembers(a);
    ReadableMembers(b);
  }

  lemma ReadableMembers(a: seq<Envelope>)
    ensures Readable(a) <==> forall e | e in a && e.schema == "energy" :: ReadingOf(e.body).Some?
  {
    if forall e | e in a && e.schema == "energy" :: ReadingOf(e.body).Some? {
      assert forall i | 0 <= i < |a| :: a[i] in a;
    }
  }

  lemma StartedAgrees(a: seq<Envelope>, b: seq<Envelope>)
    requires SameMembers(a, b)
    ensures forall p :: p in Started(a, |a|) <==> p in Started(b, |b|)
  {
    forall p ensures p in Started(a, |a|) <==> p in Started(b, |b|) {
      StartedMembers(a, p);
      StartedMembers(b, p);
    }
  }

  lemma StartedMembers(a: seq<Envelope>, p: Json)
    ensures p in Started(a, |a|) <==> exists e :: e in a && StartedPhase(e) == Some(p)
  {
    if p in Started(a, |a|) {
      var i :| 0 <= i < |a| && StartedPhase(a[i]) == Some(p);
      assert a[i] in a;
    }
  }

  lemma EventsAgree(a: seq<Envelope>, b: seq<Envelope>, eventType: string)
    requires SameMembers(a, b)
    ensures HasEvent(a, eventType) <==> HasEvent(b, eventType)
  {
    EventMembers(a, eventType);
    EventMembers(b, eventType);
  }

  lemma EventMembers(a: seq<Envelope>, eventType: string)
    ensures HasEvent(a, eventType) <==> exists e :: e in a && IsEvent(e, eventType)
  {
    if HasEvent(a, eventType) {
      var i :| 0 <= i < |a| && IsEvent(a[i], eventType);
      assert a[i] in a;
    }
  }

  // ---- energy totals ---------------------------------------------------------------------------

  ghost predicate ReadsMetric(e: Envelope, metric: string) {
    e.schema == "energy" && ReadingOf(e.body).Some? && ReadingOf(e.body).value.metric == metric
  }

  function Share(e: Envelope, metric: string): Number {
    if e.schema == "energy" && ReadingOf(e.body).Some? && ReadingOf(e.body).value.metric == metric
    then ReadingOf(e.body).value.value else ZERO
  }

  lemma ReadingsNext(a: seq<Envelope>, n: nat, metric: string)
    requires 0 < n <= |a| && Readable(a)
    ensures metric in Metrics(Readings(a, n))
            <==> metric in Metrics(Readings(a, n - 1)) || ReadsMetric(a[n - 1], metric)
    ensures Total(Readings(a, n), metric) == Add(Total(Readings(a, n - 1), metric), Share(a[n - 1], metric))
  {
    if a[n - 1].schema == "energy" {
      var r := ReadingOf(a[n - 1].body).value;
      SnocReading(Readings(a, n - 1), r);
      assert Readings(a, n) == Readings(a, n - 1) + [r];
    } else {
      assert Readings(a, n) == Readings(a, n - 1);
    }
  }

  ghost predicate IsRead(a: seq<Envelope>, n: nat, metric: string)
    requires n <= |a|
  {
    exists i | 0 <= i < n :: ReadsMetric(a[i], metric)
  }

  lemma ReadNext(a: seq<Envelope>, n: nat, metric: string)
    requires 0 < n <= |a|
    ensures IsRead(a, n, metric) <==> IsRead(a, n - 1, metric) || ReadsMetric(a[n - 1], metric)
  {
  }

  lemma {:induction false} MetricMembers(a: seq<Envelope>, n: nat, metric: string)
    requires n <= |a| && Readable(a)
    ensures metric in Metrics(Readings(a, n)) <==> IsRead(a, n, metric)
  {
    if n == 0 {
      assert Metrics(Readings(a, n)) == [];
    } else {
      MetricMembers(a, n - 1, metric);
      ReadingsNext(a, n, metric);
      ReadNext(a, n, metric);
    }
  }

  function Shares(metric: string): Envelope -> Number {
    e => Share(e, metric)
  }

  function SumOf(a: seq<Envelope>, share: Envelope -> Number): Number {
    if a == [] then ZERO else Add(SumOf(a[..|a| - 1], share), share(a[|a| - 1]))
  }

  lemma {:induction false} TotalIsSum(a: seq<Envelope>, n: nat, metric: string)
    requires n <= |a| && Readable(a)
    ensures Total(Readings(a, n), metric) == SumOf(a[..n], Shares(metric))
  {
    if n > 0 {
      TotalIsSum(a, n - 1, metric);
      assert a[..n][..n - 1] == a[..n - 1];
      assert a[..n][n - 1] == a[n - 1];
      ReadingsNext(a, n, metric);
    }
  }

  lemma SumSnoc(a: seq<Envelope>, e: Envelope, share: Envelope -> Number)
    ensures SumOf(a + [e], share) == Add(SumOf(a, share), share(e))
  {
    assert (a + [e])[..|a|] == a;
  }

  lemma {:induction false} SumOmits(a: seq<Envelope>, i: nat, share: Envelope -> Number)
    requires i < |a|
    ensures SumOf(a, share) == Add(SumOf(Omit(a, i), share), share(a[i]))
  {
    var n := |a| - 1;
    if i == n {
      assert Omit(a, i) == a[..n];
    } else {
      SumOmits(a[..n], i, share);
      assert Omit(a, i) == Omit(a[..n], i) + [a[n]];
      SumSnoc(Omit(a[..n], i), a[n], share);
      AddSwap(SumOf(Omit(a[..n], i), share), share(a[i]), share(a[n]));
    }
  }

  lemma {:induction false} SumsAgree(a: seq<Envelope>, b: seq<Envelope>, share: Envelope -> Number)
    requires multiset(a) == multiset(b)
    ensures SumOf(a, share) == SumOf(b, share)
  {
    SameSize(a, b);
    if a != [] {
      var n := |a| - 1;
      assert a[n] in multiset(b);
      var i :| 0 <= i < |b| && b[i] == a[n];
      OmitIs(a, n);
      OmitIs(b, i);
      Cancel(multiset(Omit(a, n)), multiset(Omit(b, i)), a[n]);
      SumsAgree(Omit(a, n), Omit(b, i), share);
      SumOmits(a, n, share);
      SumOmits(b, i, share);
    }
  }

  lemma MetricsAgree(a: seq<Envelope>, b: seq<Envelope>, metric: string)
    requires SameMembers(a, b) && Readable(a) && Readable(b)
    ensures metric in Metrics(Readings(a, |a|)) <==> metric in Metrics(Readings(b, |b|))
  {
    MetricMembers(a, |a|, metric);
    MetricMembers(b, |b|, metric);
    if i :| 0 <= i < |a| && ReadsMetric(a[i], metric) {
      assert a[i] in b;
    }
    if i :| 0 <= i < |b| && ReadsMetric(b[i], metric) {
      assert b[i] in a;
    }
  }

  lemma TotalsAgree(a: seq<Envelope>, b: seq<Envelope>, metric: string)
    requires multiset(a) == multiset(b) && Readable(a) && Readable(b)
    ensures Total(Readings(a, |a|), metric) == Total(Readings(b, |b|), metric)
  {
    assert a[..|a|] == a && b[..|b|] == b;
    TotalIsSum(a, |a|, metric);
    TotalIsSum(b, |b|, metric);
    SumsAgree(a, b, Shares(metric));
  }

  // ---- consistency ---------------------------------------------------------------------------

  lemma ClaimMembers(metrics: seq<string>, quantities: map<string, Number>)
    ensures SomeClaim(metrics, |metrics|, quantities) <==> exists m :: m in metrics && ClaimOf(m, quantities).Some?
  {
    if m :| m in metrics && ClaimOf(m, quantities).Some? {
      var i :| 0 <= i < |metrics| && metrics[i] == m;
      assert ClaimOf(metrics[i], quantities).Some?;
    }
    if i :| 0 <= i < |metrics| && ClaimOf(metrics[i], quantities).Some? {
      assert metrics[i] in metrics;
    }
  }

  lemma ClaimsAgree(p: seq<string>, q: seq<string>, quantities: map<string, Number>)
    requires forall m :: m in p <==> m in q
    ensures SomeClaim(p, |p|, quantities) <==> SomeClaim(q, |q|, quantities)
  {
    ClaimMembers(p, quantities);
    ClaimMembers(q, quantities);
  }

  lemma EmptyAgrees(p: seq<Json>, q: seq<Json>)
    requires forall x :: x in p <==> x in q
    ensures p == [] <==> q == []
  {
    assert p != [] ==> p[0] in p;
    assert q != [] ==> q[0] in q;
  }

  lemma PhasesMatchAgrees(a: seq<Envelope>, b: seq<Envelope>, summary: Summary)
    requires SameMembers(a, b)
    ensures PhasesMatch(a, summary) <==> PhasesMatch(b, summary)
    ensures Started(a, |a|) == [] <==> Started(b, |b|) == []
  {
    StartedAgrees(a, b);
    EmptyAgrees(Started(a, |a|), Started(b, |b|));
  }

  lemma EnergyMatchesAgrees(a: seq<Envelope>, b: seq<Envelope>, summary: Summary)
    requires multiset(a) == multiset(b) && SameMembers(a, b) && Readable(a) && Readable(b)
    ensures EnergyMatches(a, summary) <==> EnergyMatches(b, summary)
    ensures var p, q := Metrics(Readings(a, |a|)), Metrics(Readings(b, |b|));
            SomeClaim(p, |p|, summary.quantities) <==> SomeClaim(q, |q|, summary.quantities)
  {
    var p, q := Metrics(Readings(a, |a|)), Metrics(Readings(b, |b|));
    forall m ensures (m in p <==> m in q)
                     && Total(Readings(a, |a|), m) == Total(Readings(b, |b|), m)
    {
      MetricsAgree(a, b, m);
      TotalsAgree(a, b, m);
    }
    ClaimsAgree(p, q, summary.quantities);
  }

  lemma ConsistencyAgrees(a: seq<Envelope>, b: seq<Envelope>, summary: Summary)
    requires multiset(a) == multiset(b) && SameMembers(a, b) && Readable(a) && Readable(b)
    ensures Consistency(a, summary).verdict == Consistency(b, summary).verdict
  {
    ConsistencyIff(a, summary);
    ConsistencyIff(b, summary);
    PhasesMatchAgrees(a, b, summary);
    EnergyMatchesAgrees(a, b, summary);
    EventsAgree(a, b, "run_start");
    EventsAgree(a, b, "run_end");
    assert BoundariesMatch(a, summary) <==> BoundariesMatch(b, summary);
    assert Comparable(a, summary) <==> Comparable(b, summary);
  }

  // ---- the whole audit -------------------------------------------------------------------------

  ghost predicate SameVerdicts(x: Result<Report, AuditError>, y: Result<Report, AuditError>) {
    match (x, y)
    case (Ok(r), Ok(s)) =>
      && r.completeness == s.completeness && r.integrity.verdict == s.integrity.verdict
      && r.authenticity.verdict == s.authenticity.verdict && r.consistency.verdict == s.consistency.verdict
      && r.conformance.verdict == s.conformance.verdict
    case (Err(e), Err(f)) => e == f
    case _ => false
  }

  lemma AuditIgnoresOrder(a: seq<Envelope>, b: seq<Envelope>, spec: Spec, key: Option<Audits.Key>, runId: string)
    requires multiset(a) == multiset(b)
    ensures SameVerdicts(Audit(a, spec, key, runId), Audit(b, spec, key, runId))
  {
    RunsAgree(a, b, runId);
    match SelectRun(a, runId) {
      case Err(_) =>
      case Ok(run) =>
        match SummaryOf(run.body) {
          case None =>
          case Some(summary) =>
            CitedAuditAgrees(a, b, spec, key, run, summary);
        }
    }
  }

  lemma CitedAuditAgrees(a: seq<Envelope>, b: seq<Envelope>, spec: Spec, key: Option<Audits.Key>,
                         run: Envelope, summary: Summary)
    requires multiset(a) == multiset(b)
    ensures var p, q := Cited(a, run, summary.range), Cited(b, run, summary.range);
            && (Readable(p) <==> Readable(q))
            && Completeness(p, run, summary.range) == Completeness(q, run, summary.range)
            && Integrity(p, spec.hash).verdict == Integrity(q, spec.hash).verdict
            && Authenticity(p, key).verdict == Authenticity(q, key).verdict
            && Conformance(p, spec).verdict == Conformance(q, spec).verdict
            && (Readable(p) ==> Consistency(p, summary).verdict == Consistency(q, summary).verdict)
  {
    var p, q := Cited(a, run, summary.range), Cited(b, run, summary.range);
    CitedAgree(a, b, run, summary.range);
    MembersAgree(p, q);
    ReadableAgrees(p, q);
    CompletenessAgrees(p, q, run, summary.range);
    MemberChecksAgree(p, q, spec, key);
    if Readable(p) {
      ConsistencyAgrees(p, q, summary);
    }
  }
}
