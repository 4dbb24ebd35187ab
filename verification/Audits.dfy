/** tools/omp_tools/audit.py: the checks that an auditor makes on a bundle of envelopes covering
    one run. A check that cannot be made is not evaluated; it never counts as passed. */
module Audits {
  import opened Wrappers
  import opened JsonModel
  import opened Envelopes
  import opened Validation
  import opened Amounts

  datatype Verdict = Passed | Failed | NotEvaluated

  datatype Finding =
    | MissingNumbers(shown: seq<int>, more: nat)
    | ChecksumMismatchAt(seqNo: int)
    | NotCanonicalizable(seqNo: int)
    | BadSignature(seqNo: int)
    | Unsigned(count: nat)
    | PhasesWithoutStart(phases: seq<Json>)
    | PhasesNotInSummary(phases: seq<Json>)
    | QuantityOff(name: string, claimed: Number, total: Number)
    | NoRunStart
    | NoRunEnd
    | NonConformant(seqNo: int, first: Violation)

  datatype Check = Check(verdict: Verdict, findings: seq<Finding>)

  datatype AuditError = RunNotFound | NoRun | SeveralRuns | Malformed

  datatype Report = Report(
    completeness: Check, integrity: Check, authenticity: Check, consistency: Check, conformance: Check)

  datatype Range = Range(first: int, last: int)

  datatype Reading = Reading(metric: string, value: Number)

  // The parts of a run's summary that the checks read.
  datatype Summary = Summary(
    outcome: Option<string>, phases: seq<Json>, quantities: map<string, Number>, range: Option<Range>)

  // ---- reading bodies: None where indexing the body would raise ----------------------

  function NumberIn(j: Option<Json>): Option<Number> {
    match j
    case Some(Int(n)) => Some(Finite(n as real))
    case Some(Float(r)) => Some(Finite(r))
    case Some(NonFinite(NotANumber)) => Some(NaN)
    case Some(NonFinite(which)) => Some(Infinite(which == MinusInfinity))
    case _ => None
  }

  function ListIn(j: Option<Json>): Option<seq<Json>> {
    match j
    case None => Some([])
    case Some(Arr(items)) => Some(items)
    case _ => None
  }

  function NamesIn(items: seq<Json>): Option<seq<Json>> {
    if items == [] then Some([])
    else
      var n := |items| - 1;
      match (NamesIn(items[..n]), Get(items[n], "name"))
      case (Some(names), Some(name)) => Some(names + [name])
      case _ => None
  }

  function QuantitiesIn(items: seq<Json>): Option<map<string, Number>> {
    if items == [] then Some(map[])
    else
      var n := |items| - 1;
      match (QuantitiesIn(items[..n]), TextOf(Get(items[n], "name")), NumberIn(Get(items[n], "value")))
      case (Some(quantities), Some(name), Some(value)) => Some(quantities[name := value])
      case _ => None
  }

  function RangeIn(j: Option<Json>): Option<Option<Range>> {
    match j
    case None => Some(None)
    case Some(Null) => Some(None)
    case Some(Obj(fields)) =>
      if fields == [] then Some(None)
      else
        (match (Lookup(fields, "first"), Lookup(fields, "last"))
         case (Some(Int(first)), Some(Int(last))) => Some(Some(Range(first, last)))
         case _ => None)
    case _ => None
  }

  function SummaryOf(body: Json): Option<Summary> {
    match (ListIn(Get(body, "phases")), ListIn(Get(body, "quantities")), RangeIn(Get(body, "event_seq_range")))
    case (Some(phases), Some(quantities), Some(range)) =>
      (match (NamesIn(phases), QuantitiesIn(quantities))
       case (Some(names), Some(claims)) =>
         Some(Summary(TextOf(Get(body, "outcome")), names, claims, range))
       case _ => None)
    case _ => None
  }

  function ReadingOf(body: Json): Option<Reading> {
    match (TextOf(Get(body, "metric")), NumberIn(Get(body, "value")))
    case (Some(metric), Some(value)) => Some(Reading(metric, value))
    case _ => None
  }

  predicate IsEvent(e: Envelope, eventType: string) {
    e.schema == "event" && TextOf(Get(e.body, "event_type")) == Some(eventType)
  }

  function StartedPhase(e: Envelope): Option<Json> {
    if IsEvent(e, "phase_start") then Get(OrEmptyObject(Get(e.body, "payload")), "phase") else None
  }

  // ---- choosing the run and what it cites ----------------------------------------------

  predicate SameMachine(e: Envelope, run: Envelope) {
    e.gatewayId == run.gatewayId && e.machineId == run.machineId
  }

  // The summaries in the bundle, of one run if its id is given.
  function Runs(envs: seq<Envelope>, runId: string): (runs: seq<Envelope>)
    ensures forall e :: e in runs <==> e in envs && IsRun(e, runId)
  {
    if envs == [] then []
    else
      var n := |envs| - 1;
      Runs(envs[..n], runId) + if IsRun(envs[n], runId) then [envs[n]] else []
  }

  predicate IsRun(e: Envelope, runId: string) {
    e.schema == "process_run" && (runId == "" || TextOf(Get(e.body, "run_id")) == Some(runId))
  }

  function SelectRun(envs: seq<Envelope>, runId: string): Result<Envelope, AuditError> {
    var runs := Runs(envs, runId);
    if runs == [] then Err(if runId == "" then NoRun else RunNotFound)
    else if |runs| > 1 then Err(SeveralRuns)
    else Ok(runs[0])
  }

  predicate InRange(e: Envelope, run: Envelope, range: Option<Range>) {
    SameMachine(e, run) && (range.Some? ==> range.value.first <= e.seqNo <= range.value.last)
  }

  function Within(envs: seq<Envelope>, run: Envelope, range: Option<Range>): (cited: seq<Envelope>)
    ensures forall e :: e in cited <==> e in envs && InRange(e, run, range)
  {
    if envs == [] then []
    else
      var n := |envs| - 1;
      Within(envs[..n], run, range) + if InRange(envs[n], run, range) then [envs[n]] else []
  }

  // The cited envelopes always include the summary itself.
  function Cited(envs: seq<Envelope>, run: Envelope, range: Option<Range>): seq<Envelope> {
    var within := Within(envs, run, range);
    if run in within then within else within + [run]
  }

  function Shown(findings: seq<Finding>): seq<Finding> {
    if |findings| <= 20 then findings else findings[..20]
  }

  // ---- completeness -----------------------------------------------------------------------

  // The numbers from `first` to `last` that are not held, in order.
  function Lacking(have: set<int>, first: int, last: int): (missing: seq<int>)
    ensures forall n :: n in missing <==> first <= n <= last && n !in have
    ensures forall i, k | 0 <= i < k < |missing| :: missing[i] < missing[k]
    decreases last - first
  {
    if first > last then []
    else
      var rest := Lacking(have, first + 1, last);
      if first in have then rest
      else
        assert forall i | 0 <= i < |rest| :: rest[i] in rest;
        [first] + rest
  }

  function NumbersOf(cited: seq<Envelope>, run: Envelope): set<int> {
    set e | e in cited && SameMachine(e, run) :: e.seqNo
  }

  function Completeness(cited: seq<Envelope>, run: Envelope, range: Option<Range>): Check {
    match range
    case None => Check(NotEvaluated, [])
    case Some(r) =>
      var missing := Lacking(NumbersOf(cited, run), r.first, r.last);
      if missing == [] then Check(Passed, [])
      else
        var shown := if |missing| <= 20 then missing else missing[..20];
        Check(Failed, [MissingNumbers(shown, |missing| - |shown|)])
  }

  // ---- integrity ----------------------------------------------------------------------------

  // The findings of a check that looks at one envelope at a time, over the first `n`.
  function Collected(cited: seq<Envelope>, n: nat, look: Envelope -> seq<Finding>): seq<Finding>
    requires n <= |cited|
  {
    if n == 0 then [] else Collected(cited, n - 1, look) + look(cited[n - 1])
  }

  function IntegrityFinding(e: Envelope, hash: string -> string): seq<Finding> {
    match Checksum(e.body, hash)
    case Ok(sum) => if sum == e.checksum then [] else [ChecksumMismatchAt(e.seqNo)]
    case Err(_) => [NotCanonicalizable(e.seqNo)]
  }

  function Integrity(cited: seq<Envelope>, hash: string -> string): Check {
    var bad := Collected(cited, |cited|, e => IntegrityFinding(e, hash));
    if bad == [] then Check(Passed, []) else Check(Failed, Shown(bad))
  }

  method CheckIntegrity(cited: seq<Envelope>, hash: string -> string) returns (check: Check)
    ensures check == Integrity(cited, hash)
  {
    ghost var look := e => IntegrityFinding(e, hash);
    var bad: seq<Finding> := [];
    for i := 0 to |cited|
      invariant bad == Collected(cited, i, look)
    {
      match Checksum(cited[i].body, hash) {
        case Ok(sum) =>
          if sum != cited[i].checksum {
            bad := bad + [ChecksumMismatchAt(cited[i].seqNo)];
          }
        case Err(_) =>
          bad := bad + [NotCanonicalizable(cited[i].seqNo)];
      }
    }
    check := if bad == [] then Check(Passed, []) else Check(Failed, Shown(bad));
  }

  // ---- authenticity ---------------------------------------------------------------------------

  // The key, if one is supplied, as the signatures that it verifies.
  type Key = Envelope -> bool

  function SignatureFindings(cited: seq<Envelope>, key: Key): (bad: seq<Finding>)
    ensures bad == [] <==> forall e | e in cited && e.sig.Some? :: key(e)
  {
    if cited == [] then []
    else
      var n := |cited| - 1;
      SignatureFindings(cited[..n], key) +
      if cited[n].sig.Some? && !key(cited[n]) then [BadSignature(cited[n].seqNo)] else []
  }

  function SignedCount(cited: seq<Envelope>): (n: nat)
    ensures n <= |cited|
    ensures n == 0 <==> forall e | e in cited :: e.sig.None?
    ensures n == |cited| <==> forall e | e in cited :: e.sig.Some?
  {
    if cited == [] then 0
    else
      var n := |cited| - 1;
      SignedCount(cited[..n]) + if cited[n].sig.Some? then 1 else 0
  }

  function Authenticity(cited: seq<Envelope>, key: Option<Key>): Check {
    if key.None? || SignedCount(cited) == 0 then Check(NotEvaluated, [])
    else
      var bad := SignatureFindings(cited, key.value);
      var unsigned := |cited| - SignedCount(cited);
      if bad != [] then Check(Failed, Shown(bad))
      else Check(Passed, if unsigned > 0 then [Unsigned(unsigned)] else [])
  }

  // ---- consistency ----------------------------------------------------------------------------

  function Started(same: seq<Envelope>, n: nat): (phases: seq<Json>)
    requires n <= |same|
    ensures forall p :: p in phases <==> exists i | 0 <= i < n :: StartedPhase(same[i]) == Some(p)
  {
    if n == 0 then []
    else
      Started(same, n - 1) +
      match StartedPhase(same[n - 1])
      case Some(p) => [p]
      case None => []
  }

  function NotIn(phases: seq<Json>, others: seq<Json>): (rest: seq<Json>)
    ensures forall p :: p in rest <==> p in phases && p !in others
  {
    if phases == [] then []
    else
      var n := |phases| - 1;
      NotIn(phases[..n], others) + if phases[n] in others then [] else [phases[n]]
  }

  function PhaseFindings(declared: seq<Json>, started: seq<Json>): seq<Finding> {
    if declared == [] || started == [] then []
    else
      var missing, extra := NotIn(declared, started), NotIn(started, declared);
      (if missing != [] then [PhasesWithoutStart(missing)] else []) +
      (if extra != [] then [PhasesNotInSummary(extra)] else [])
  }

  predicate Readable(same: seq<Envelope>) {
    forall i | 0 <= i < |same| && same[i].schema == "energy" :: ReadingOf(same[i].body).Some?
  }

  // The energy readings among the first `n` envelopes.
  function Readings(same: seq<Envelope>, n: nat): seq<Reading>
    requires n <= |same| && Readable(same)
  {
    if n == 0 then []
    else Readings(same, n - 1) + if same[n - 1].schema == "energy" then [ReadingOf(same[n - 1].body).value] else []
  }

  // The metrics read, in order of first appearance.
  function Metrics(readings: seq<Reading>): (metrics: seq<string>)
    ensures forall m :: m in metrics <==> exists i | 0 <= i < |readings| :: readings[i].metric == m
    ensures forall i, k | 0 <= i < k < |metrics| :: metrics[i] != metrics[k]
  {
    if readings == [] then []
    else
      var n := |readings| - 1;
      var before := Metrics(readings[..n]);
      if readings[n].metric in before then before else before + [readings[n].metric]
  }

  function Total(readings: seq<Reading>, metric: string): Number {
    if readings == [] then ZERO
    else
      var n := |readings| - 1;
      Add(Total(readings[..n], metric), if readings[n].metric == metric then readings[n].value else ZERO)
  }

  // The quantity that claims a metric's total.
  function ClaimOf(metric: string, quantities: map<string, Number>): Option<string> {
    if metric + "_total" in quantities then Some(metric + "_total")
    else if metric in quantities then Some(metric)
    else None
  }

  function EnergyFinding(metric: string, total: Number, quantities: map<string, Number>): seq<Finding> {
    match ClaimOf(metric, quantities)
    case None => []
    case Some(name) =>
      if Discrepant(quantities[name], total) then [QuantityOff(name, quantities[name], total)] else []
  }

  function EnergyFindings(metrics: seq<string>, n: nat, readings: seq<Reading>, quantities: map<string, Number>)
    : seq<Finding>
    requires n <= |metrics|
  {
    if n == 0 then []
    else
      EnergyFindings(metrics, n - 1, readings, quantities) +
      EnergyFinding(metrics[n - 1], Total(readings, metrics[n - 1]), quantities)
  }

  predicate SomeClaim(metrics: seq<string>, n: nat, quantities: map<string, Number>)
    requires n <= |metrics|
  {
    exists i | 0 <= i < n :: ClaimOf(metrics[i], quantities).Some?
  }

  predicate HasEvent(same: seq<Envelope>, eventType: string) {
    exists i | 0 <= i < |same| :: IsEvent(same[i], eventType)
  }

  function BoundaryFindings(hasStart: bool, hasEnd: bool, outcome: Option<string>): seq<Finding> {
    if !hasStart && !hasEnd then []
    else
      (if !hasStart then [NoRunStart] else []) +
      (if !hasEnd && outcome == Some("completed") then [NoRunEnd] else [])
  }

  function ConsistencyFindings(same: seq<Envelope>, summary: Summary): seq<Finding>
    requires Readable(same)
  {
    var readings := Readings(same, |same|);
    var metrics := Metrics(readings);
    PhaseFindings(summary.phases, Started(same, |same|)) +
    EnergyFindings(metrics, |metrics|, readings, summary.quantities) +
    BoundaryFindings(HasEvent(same, "run_start"), HasEvent(same, "run_end"), summary.outcome)
  }

  // Whether there is anything to compare.
  predicate Comparable(same: seq<Envelope>, summary: Summary)
    requires Readable(same)
  {
    var metrics := Metrics(Readings(same, |same|));
    || (summary.phases != [] && Started(same, |same|) != [])
    || SomeClaim(metrics, |metrics|, summary.quantities)
    || HasEvent(same, "run_start") || HasEvent(same, "run_end")
  }

  function Consistency(same: seq<Envelope>, summary: Summary): Check
    requires Readable(same)
  {
    var findings := ConsistencyFindings(same, summary);
    if !Comparable(same, summary) then Check(NotEvaluated, [])
    else if findings != [] then Check(Failed, findings)
    else Check(Passed, [])
  }

  method CheckConsistency(same: seq<Envelope>, summary: Summary) returns (check: Check)
    requires Readable(same)
    ensures check == Consistency(same, summary)
  {
    var phaseFindings, phaseCompared := ComparePhases(summary.phases, Started(same, |same|));
    var totals, metrics := SumEnergy(same);
    var energyFindings, energyCompared := CompareEnergy(same, totals, metrics, summary.quantities);
    var hasStart, hasEnd := HasEvent(same, "run_start"), HasEvent(same, "run_end");
    var boundaryFindings, boundaryCompared := CompareBoundaries(hasStart, hasEnd, summary.outcome);
    var findings := phaseFindings + energyFindings + boundaryFindings;
    check := if phaseCompared + energyCompared + boundaryCompared == 0 then Check(NotEvaluated, [])
             else if findings != [] then Check(Failed, findings)
             else Check(Passed, []);
  }

  method ComparePhases(declared: seq<Json>, started: seq<Json>) returns (findings: seq<Finding>, compared: nat)
    ensures findings == PhaseFindings(declared, started)
    ensures findings == [] <==>
              declared == [] || started == []
              || ((forall p | p in declared :: p in started) && (forall p | p in started :: p in declared))
    ensures compared > 0 <==> declared != [] && started != []
  {
    findings, compared := [], 0;
    if declared != [] && started != [] {
      compared := 1;
      var missing, extra := NotIn(declared, started), NotIn(started, declared);
      assert missing != [] ==> missing[0] in missing;
      assert extra != [] ==> extra[0] in extra;
      if missing != [] {
        findings := findings + [PhasesWithoutStart(missing)];
      }
      if extra != [] {
        findings := findings + [PhasesNotInSummary(extra)];
      }
    }
  }

  method CompareBoundaries(hasStart: bool, hasEnd: bool, outcome: Option<string>)
    returns (findings: seq<Finding>, compared: nat)
    ensures findings == BoundaryFindings(hasStart, hasEnd, outcome)
    ensures findings == [] <==> hasStart == hasEnd || (hasStart && outcome != Some("completed"))
    ensures compared > 0 <==> hasStart || hasEnd
  {
    findings, compared := [], 0;
    if hasStart || hasEnd {
      compared := 1;
      if !hasStart {
        findings := findings + [NoRunStart];
      }
      if !hasEnd && outcome == Some("completed") {
        findings := findings + [NoRunEnd];
      }
    }
  }

  method CompareEnergy(same: seq<Envelope>, totals: map<string, Number>, metrics: seq<string>,
                       quantities: map<string, Number>)
    returns (findings: seq<Finding>, compared: nat)
    requires Readable(same)
    requires Sums(totals, Readings(same, |same|)) && forall m | m in metrics :: m in totals
    ensures findings == EnergyFindings(metrics, |metrics|, Readings(same, |same|), quantities)
    ensures compared > 0 <==> SomeClaim(metrics, |metrics|, quantities)
  {
    ghost var readings := Readings(same, |same|);
    findings, compared := [], 0;
    for i := 0 to |metrics|
      invariant findings == EnergyFindings(metrics, i, readings, quantities)
      invariant compared > 0 <==> SomeClaim(metrics, i, quantities)
    {
      var name := ClaimOf(metrics[i], quantities);
      if name.Some? {
        compared := compared + 1;
        var claimed, total := quantities[name.value], totals[metrics[i]];
        assert total == Total(readings, metrics[i]);
        assert EnergyFinding(metrics[i], total, quantities)
               == if Discrepant(claimed, total) then [QuantityOff(name.value, claimed, total)] else [];
        if Discrepant(claimed, total) {
          findings := findings + [QuantityOff(name.value, claimed, total)];
        }
      }
    }
  }

  ghost predicate Sums(totals: map<string, Number>, readings: seq<Reading>) {
    forall m | m in totals :: totals[m] == Total(readings, m)
  }

  lemma SnocReading(readings: seq<Reading>, r: Reading)
    ensures Metrics(readings + [r])
            == if r.metric in Metrics(readings) then Metrics(readings) else Metrics(readings) + [r.metric]
    ensures forall m :: Total(readings + [r], m)
                        == Add(Total(readings, m), if r.metric == m then r.value else ZERO)
  {
    assert (readings + [r])[..|readings|] == readings;
  }

  lemma {:induction false} TotalOfUnread(readings: seq<Reading>, metric: string)
    requires metric !in Metrics(readings)
    ensures Total(readings, metric) == ZERO
  {
    if readings != [] {
      var n := |readings| - 1;
      assert readings[n].metric != metric;
      assert metric !in Metrics(readings[..n]);
      TotalOfUnread(readings[..n], metric);
    }
  }

  // The totals per metric, and the metrics in order of first appearance.
  method SumEnergy(same: seq<Envelope>) returns (totals: map<string, Number>, metrics: seq<string>)
    requires Readable(same)
    ensures metrics == Metrics(Readings(same, |same|))
    ensures Sums(totals, Readings(same, |same|)) && forall m :: m in metrics <==> m in totals
  {
    totals, metrics := map[], [];
    ghost var readings: seq<Reading> := [];
    for i := 0 to |same|
      invariant readings == Readings(same, i) && metrics == Metrics(readings)
      invariant Sums(totals, readings) && forall m :: m in metrics <==> m in totals
    {
      if same[i].schema == "energy" {
        var r := ReadingOf(same[i].body).value;
        SnocReading(readings, r);
        if r.metric !in metrics {
          TotalOfUnread(readings, r.metric);
          metrics := metrics + [r.metric];
        }
        totals := totals[r.metric := Add(if r.metric in totals then totals[r.metric] else ZERO, r.value)];
        readings := readings + [r];
      }
    }
  }

  // ---- conformance ----------------------------------------------------------------------------

  function ConformanceFinding(e: Envelope, spec: Spec): seq<Finding> {
    var errors := ValidateEnvelope(e, spec, false);
    if errors == [] then [] else [NonConformant(e.seqNo, errors[0])]
  }

  function Conformance(cited: seq<Envelope>, spec: Spec): Check {
    var bad := Collected(cited, |cited|, e => ConformanceFinding(e, spec));
    if bad == [] then Check(Passed, []) else Check(Failed, Shown(bad))
  }

  method CheckConformance(cited: seq<Envelope>, spec: Spec) returns (check: Check)
    ensures check == Conformance(cited, spec)
  {
    ghost var look := e => ConformanceFinding(e, spec);
    var bad: seq<Finding> := [];
    for i := 0 to |cited|
      invariant bad == Collected(cited, i, look)
    {
      var errors := ValidateEnvelope(cited[i], spec, false);
      if errors != [] {
        bad := bad + [NonConformant(cited[i].seqNo, errors[0])];
      }
    }
    check := if bad == [] then Check(Passed, []) else Check(Failed, Shown(bad));
  }

  // ---- the whole audit ---------------------------------------------------------------------------

  function Audit(envs: seq<Envelope>, spec: Spec, key: Option<Key>, runId: string): Result<Report, AuditError> {
    match SelectRun(envs, runId)
    case Err(e) => Err(e)
    case Ok(run) =>
      match SummaryOf(run.body)
      case None => Err(Malformed)
      case Some(summary) =>
        var cited := Cited(envs, run, summary.range);
        if !Readable(cited) then Err(Malformed)
        else
          Ok(Report(
               Completeness(cited, run, summary.range),
               Integrity(cited, spec.hash),
               Authenticity(cited, key),
               Consistency(cited, summary),
               Conformance(cited, spec)))
  }
}
