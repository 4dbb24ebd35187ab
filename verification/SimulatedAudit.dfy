/** The simulator against the auditor: every simulated run passes completeness, integrity and
    consistency, in any bundle that holds its machine's envelopes. */
module SimulatedAudit {
  import opened Wrappers
  import opened JsonModel
  import opened Envelopes
  import opened Validation
  import opened Simulators
  import opened SimulatedBodies
  import opened SimulatedCycles
  import opened SimulatedDyeing
  import opened Audits
  import opened Amounts
  import opened AuditMeaning

  // ---- what both kinds of run have in common ------------------------------------------

  ghost predicate NamesRow(rows: seq<PhaseRow>, name: string) {
    exists i | 0 <= i < |rows| :: rows[i].name == name
  }

  ghost predicate RunLog(log: seq<Record>) {
    && |log| >= 4
    && var n := |log|;
       && log[0].entry.Announce? && log[1].entry.RunStart? && log[n - 2].entry.RunEnd?
       && log[n - 1].entry.Summary?
       && (forall i | 0 <= i < n - 1 :: !log[i].entry.Summary?)
       && log[n - 1].entry.first == 2 && log[n - 1].entry.last == n - 1
       && CleanEntry(log[n - 1].entry)
       && (forall name :: name in PhaseStarts(log) <==> NamesRow(log[n - 1].entry.phases, name))
       && !NamesQuantity(log[n - 1].entry.quantities, "kwh") && !NamesQuantity(log[n - 1].entry.quantities, "kwh_total")
  }

  ghost predicate NamesQuantity(quantities: seq<Quantity>, name: string) {
    exists i | 0 <= i < |quantities| :: quantities[i].name == name
  }

  lemma {:induction false} PhaseStartsIn(log: seq<Record>, name: string)
    ensures name in PhaseStarts(log) <==> exists i | 0 <= i < |log| :: log[i].entry == PhaseStart(name)
  {
    if log != [] {
      var n := |log| - 1;
      PhaseStartsIn(log[..n], name);
      if name in PhaseStarts(log) && log[n].entry != PhaseStart(name) {
        var i :| 0 <= i < n && log[..n][i].entry == PhaseStart(name);
        assert log[i].entry == PhaseStart(name);
      }
      if i :| 0 <= i < |log| && log[i].entry == PhaseStart(name) {
        assert i < n ==> log[..n][i].entry == PhaseStart(name);
      }
    }
  }

  lemma CyclicRunIsRunLog(log: seq<Record>, seconds: real)
    requires CyclicRun(log, seconds)
    ensures RunLog(log)
  {
    var n := |log|;
    forall i | 0 <= i < n - 1 ensures !log[i].entry.Summary? && !log[i].entry.PhaseStart? {
      assert i < n - 2 ==> log[..n - 2][i] == log[i];
      assert 2 <= i < n - 2 ==> Middle(log[..n - 2][i]);
    }
    forall name ensures name !in PhaseStarts(log) {
      PhaseStartsIn(log, name);
    }
  }

  lemma PhaseStartsKept(before: seq<Record>, a: Record, b: Record, c: Record)
    requires !a.entry.PhaseStart? && !b.entry.PhaseStart? && !c.entry.PhaseStart?
    ensures PhaseStarts(before + [a] + [b] + [c]) == PhaseStarts(before)
  {
    LogGrows(before, a);
    LogGrows(before + [a], b);
    LogGrows(before + [a] + [b], c);
  }

  lemma DyeRunIsRunLog(plan: seq<Planned>, log: seq<Record>, seconds: real, rows: seq<PhaseRow>,
                       fabricKg: int, kwh: int)
    requires DyeRun(plan, log, seconds, rows, fabricKg, kwh)
    ensures RunLog(log)
  {
    var n := |log|;
    var before := log[..n - 3];
    assert log == before + [log[n - 3]] + [log[n - 2]] + [log[n - 1]];
    PhaseStartsKept(before, log[n - 3], log[n - 2], log[n - 1]);
    BatchHasNoSummary(before, log);
    RowsAreClean(plan, rows, seconds, fabricKg, log[n - 1].at);
    forall name ensures name in PhaseStarts(log) <==> NamesRow(rows, name) {
      RowNames(plan, PhaseStarts(before), rows, seconds, fabricKg, log[n - 1].at, name);
    }
  }

  lemma BatchHasNoSummary(before: seq<Record>, log: seq<Record>)
    requires Begun(before) && before <= log
    ensures forall i | 0 <= i < |before| :: !log[i].entry.Summary?
  {
    forall i | 0 <= i < |before| ensures !log[i].entry.Summary? {
      assert before[i] == log[i];
    }
  }

  lemma RowNames(plan: seq<Planned>, names: seq<string>, rows: seq<PhaseRow>, seconds: real,
                 fabricKg: int, t: int, name: string)
    requires NamesAre(plan, names, |plan|) && RowsFollow(plan, rows, |plan|, seconds, fabricKg, t)
    ensures name in names <==> NamesRow(rows, name)
  {
    forall i | 0 <= i < |plan| ensures names[i] == rows[i].name {
      assert RowFollows(plan, rows, i, seconds, fabricKg);
    }
  }

  // ---- reading back what was emitted ----------------------------------------------------

  lemma IssuedBy(plant: Plant, log: seq<Record>, out: seq<Envelope>, i: int)
    requires Issued(plant, log, out) && 0 <= i < |log|
    ensures out[i].gatewayId == plant.gatewayId && out[i].machineId == plant.machineId && out[i].seqNo == i + 1
    ensures Checksum(out[i].body, plant.hash) == Ok(out[i].checksum) && out[i].sig == None
    ensures out[i].profile == plant.profileRef && out[i].ompVersion == "0.1.0" && out[i].ts == plant.iso(log[i].at)
  {
    assert IssuedAt(plant, log, out, i);
  }

  // The names of phases, as a reader of the summary sees them.
  ghost predicate ReadsPhases(phases: seq<Json>, rows: seq<PhaseRow>) {
    forall j :: j in phases <==> j.Str? && NamesRow(rows, j.s)
  }

  lemma ReadsMore(phases: seq<Json>, front: seq<PhaseRow>, row: PhaseRow)
    requires ReadsPhases(phases, front)
    ensures ReadsPhases(phases + [Str(row.name)], front + [row])
  {
    var rows := front + [row];
    assert rows[|front|] == row;
    forall name ensures NamesRow(rows, name) <==> NamesRow(front, name) || row.name == name {
      if NamesRow(front, name) {
        var i :| 0 <= i < |front| && front[i].name == name;
        assert rows[i].name == name;
      }
    }
  }

  lemma NamesSnoc(items: seq<Json>, row: PhaseRow, iso: int -> string)
    requires NamesIn(items).Some?
    ensures NamesIn(items + [PhaseItem(row, iso)]) == Some(NamesIn(items).value + [Str(row.name)])
  {
    assert Get(PhaseItem(row, iso), "name") == Some(Str(row.name));
    assert (items + [PhaseItem(row, iso)])[..|items|] == items;
  }

  lemma {:induction false} NamesRead(rows: seq<PhaseRow>, iso: int -> string)
    ensures NamesIn(PhaseItems(rows, iso)).Some?
    ensures ReadsPhases(NamesIn(PhaseItems(rows, iso)).value, rows)
  {
    if rows == [] {
      assert PhaseItems(rows, iso) == [];
      assert NamesIn(PhaseItems(rows, iso)).value == [];
    } else {
      var n := |rows| - 1;
      var front, row := rows[..n], rows[n];
      NamesRead(front, iso);
      NamesSnoc(PhaseItems(front, iso), row, iso);
      assert PhaseItems(rows, iso) == PhaseItems(front, iso) + [PhaseItem(row, iso)];
      assert rows == front + [row];
      ReadsMore(NamesIn(PhaseItems(front, iso)).value, front, row);
    }
  }

  lemma QuantityRead(q: Quantity)
    ensures TextOf(Get(QuantityItem(q), "name")) == Some(q.name)
    ensures NumberIn(Get(QuantityItem(q), "value")) == Some(Finite(q.value as real))
  {
    var fields := QuantityItem(q).fields;
    LookupEarlier(fields, [], "name", 0);
    LookupEarlier(fields, [], "value", 1);
    assert fields + [] == fields;
  }

  lemma QuantitiesSnoc(items: seq<Json>, q: Quantity)
    requires QuantitiesIn(items).Some?
    ensures QuantitiesIn(items + [QuantityItem(q)])
            == Some(QuantitiesIn(items).value[q.name := Finite(q.value as real)])
  {
    QuantityRead(q);
    assert (items + [QuantityItem(q)])[..|items|] == items;
  }

  ghost predicate Named(claims: map<string, Number>, quantities: seq<Quantity>) {
    forall name | name in claims :: NamesQuantity(quantities, name)
  }

  lemma {:induction false} QuantitiesRead(quantities: seq<Quantity>)
    ensures QuantitiesIn(QuantityItems(quantities)).Some?
    ensures Named(QuantitiesIn(QuantityItems(quantities)).value, quantities)
  {
    if quantities == [] {
      assert QuantityItems(quantities) == [];
      assert QuantitiesIn(QuantityItems(quantities)).value == map[];
    } else {
      var n := |quantities| - 1;
      var front, q := quantities[..n], quantities[n];
      QuantitiesRead(front);
      QuantitiesSnoc(QuantityItems(front), q);
      assert QuantityItems(quantities) == QuantityItems(front) + [QuantityItem(q)];
      assert quantities == front + [q];
      NamedGrows(QuantitiesIn(QuantityItems(front)).value, front, q);
    }
  }

  lemma NamedGrows(claims: map<string, Number>, front: seq<Quantity>, q: Quantity)
    requires Named(claims, front)
    ensures Named(claims[q.name := Finite(q.value as real)], front + [q])
  {
    var quantities := front + [q];
    assert quantities[|front|].name == q.name;
    forall name | name in claims ensures NamesQuantity(quantities, name) {
      var i :| 0 <= i < |front| && front[i].name == name;
      assert quantities[i].name == name;
    }
  }

  // ---- the summary that the auditor reads -------------------------------------------------

  lemma SummaryParts(plant: Plant, s: Entry)
    requires s.Summary?
    ensures var body := SummaryBody(plant, s);
            && TextOf(Get(body, "run_id")) == Some(plant.runId)
            && TextOf(Get(body, "outcome")) == Some("completed")
            && Get(body, "phases") == (if s.phases == [] then None else Some(Arr(PhaseItems(s.phases, plant.iso))))
            && Get(body, "quantities") == Some(Arr(QuantityItems(s.quantities)))
            && RangeIn(Get(body, "event_seq_range")) == Some(Some(Range(s.first, s.last)))
  {
    SummaryReads(plant, s);
    RangeRead(s.first, s.last);
  }

  lemma RangeRead(first: int, last: int)
    ensures RangeIn(Some(Obj([Field("first", Int(first)), Field("last", Int(last))]))) == Some(Some(Range(first, last)))
  {
    var fields := [Field("first", Int(first)), Field("last", Int(last))];
    assert fields[1..][0] == fields[1];
    assert Lookup(fields, "first") == Some(Int(first));
    assert Lookup(fields[1..], "last") == Some(Int(last));
  }

  lemma SummaryRead(plant: Plant, s: Entry)
    requires s.Summary? && !NamesQuantity(s.quantities, "kwh") && !NamesQuantity(s.quantities, "kwh_total")
    ensures SummaryOf(SummaryBody(plant, s)).Some?
    ensures var summary := SummaryOf(SummaryBody(plant, s)).value;
            && summary.range == Some(Range(s.first, s.last))
            && ClaimOf("kwh", summary.quantities).None?
            && ReadsPhases(summary.phases, s.phases)
  {
    SummaryParts(plant, s);
    var names := NamesIn(PhaseItems(s.phases, plant.iso));
    var claims := QuantitiesIn(QuantityItems(s.quantities));
    NamesRead(s.phases, plant.iso);
    QuantitiesRead(s.quantities);
    NoClaim(claims.value, s.quantities);
    SummaryAssembles(SummaryBody(plant, s), PhaseItems(s.phases, plant.iso), QuantityItems(s.quantities),
                     Range(s.first, s.last));
  }

  lemma NoClaim(claims: map<string, Number>, quantities: seq<Quantity>)
    requires Named(claims, quantities)
    requires !NamesQuantity(quantities, "kwh") && !NamesQuantity(quantities, "kwh_total")
    ensures ClaimOf("kwh", claims).None?
  {
    assert "kwh" + "_total" == "kwh_total";
  }

  lemma SummaryAssembles(body: Json, rows: seq<Json>, quantities: seq<Json>, range: Range)
    requires Get(body, "phases") == if rows == [] then None else Some(Arr(rows))
    requires Get(body, "quantities") == Some(Arr(quantities))
    requires RangeIn(Get(body, "event_seq_range")) == Some(Some(range))
    requires NamesIn(rows).Some? && QuantitiesIn(quantities).Some?
    ensures SummaryOf(body) == Some(Audits.Summary.Summary(TextOf(Get(body, "outcome")), NamesIn(rows).value,
                                            QuantitiesIn(quantities).value, Some(range)))
  {
  }

  // ---- the audit ---------------------------------------------------------------------------

  // A bundle that holds this machine's envelopes, in any order and any number, among those of
  // other machines.
  ghost predicate Bundles(plant: Plant, out: seq<Envelope>, envs: seq<Envelope>) {
    forall e: Envelope | e.gatewayId == plant.gatewayId && e.machineId == plant.machineId :: e in envs <==> e in out
  }

  lemma RunIsSelected(plant: Plant, log: seq<Record>, out: seq<Envelope>, envs: seq<Envelope>, runId: string)
    requires Issued(plant, log, out) && RunLog(log) && Bundles(plant, out, envs)
    requires runId == "" || runId == plant.runId
    requires |Runs(envs, runId)| == 1
    ensures SelectRun(envs, runId) == Ok(out[|log| - 1])
  {
    var n := |log|;
    IssuedBy(plant, log, out, n - 1);
    SummaryIsRun(plant, log, out);
    assert out[n - 1] in envs;
    assert IsRun(out[n - 1], runId);
    assert out[n - 1] in Runs(envs, runId);
  }

  lemma SummaryIsRun(plant: Plant, log: seq<Record>, out: seq<Envelope>)
    requires Issued(plant, log, out) && log != [] && log[|log| - 1].entry.Summary?
    ensures out[|log| - 1].schema == "process_run"
    ensures TextOf(Get(out[|log| - 1].body, "run_id")) == Some(plant.runId)
  {
    IssuedBody(plant, log, out, |log| - 1);
    SummaryParts(plant, log[|log| - 1].entry);
  }

  // Everything cited was emitted by the machine, and everything emitted from start to end is cited.
  lemma CitedIsEmitted(plant: Plant, log: seq<Record>, out: seq<Envelope>, envs: seq<Envelope>)
    requires Issued(plant, log, out) && RunLog(log) && Bundles(plant, out, envs)
    ensures var n := |log|;
            var cited := Cited(envs, out[n - 1], Some(Range(2, n - 1)));
            && (forall e | e in cited :: exists i | 0 <= i < n :: e == out[i])
            && (forall i | 1 <= i < n - 1 :: out[i] in cited)
  {
    var n := |log|;
    var run := out[n - 1];
    var cited := Cited(envs, run, Some(Range(2, n - 1)));
    IssuedBy(plant, log, out, n - 1);
    forall e | e in cited ensures exists i | 0 <= i < n :: e == out[i] {
      assert e in envs || e == run;
      assert SameMachine(e, run);
      assert e in out;
    }
    forall i | 1 <= i < n - 1 ensures out[i] in cited {
      IssuedBy(plant, log, out, i);
      assert out[i] in envs && InRange(out[i], run, Some(Range(2, n - 1)));
    }
  }

  lemma RunIsComplete(plant: Plant, log: seq<Record>, out: seq<Envelope>, envs: seq<Envelope>)
    requires Issued(plant, log, out) && RunLog(log) && Bundles(plant, out, envs)
    ensures var run := out[|log| - 1];
            var range := Some(Range(2, |log| - 1));
            Completeness(Cited(envs, run, range), run, range).verdict == Passed
  {
    var n := |log|;
    var run := out[n - 1];
    IssuedBy(plant, log, out, n - 1);
    CompletenessIff(envs, run, Some(Range(2, n - 1)));
    assert run in envs;
    forall k: int | 2 <= k <= n - 1 ensures Holds(envs, run, k) {
      IssuedBy(plant, log, out, k - 1);
      assert out[k - 1] in envs;
      var i :| 0 <= i < |envs| && envs[i] == out[k - 1];
      assert SameMachine(envs[i], run) && envs[i].seqNo == k;
    }
  }

  lemma RunIsIntact(plant: Plant, log: seq<Record>, out: seq<Envelope>, cited: seq<Envelope>)
    requires Issued(plant, log, out)
    requires forall e | e in cited :: exists i | 0 <= i < |log| :: e == out[i]
    ensures Integrity(cited, plant.hash).verdict == Passed
  {
    IntegrityIff(cited, plant.hash);
    forall e | e in cited ensures Checksum(e.body, plant.hash) == Ok(e.checksum) {
      var i :| 0 <= i < |log| && e == out[i];
      IssuedBy(plant, log, out, i);
    }
  }

  // What the auditor reads off one emitted body.
  lemma EnergyRead(plant: Plant, entry: Entry)
    requires entry.Energy?
    ensures ReadingOf(BodyOf(plant, entry)) == Some(Reading("kwh", Finite(entry.kwh as real)))
  {
    var fields := BodyOf(plant, entry).fields;
    assert fields[0] == Field("metric", Str("kwh")) && fields[1] == Field("value", Int(entry.kwh));
    LookupEarlier(fields, [], "value", 1);
    assert fields + [] == fields;
  }

  lemma PhaseEventRead(plant: Plant, name: string)
    ensures var body := BodyOf(plant, PhaseStart(name));
            TextOf(Get(body, "event_type")) == Some("phase_start")
            && Get(OrEmptyObject(Get(body, "payload")), "phase") == Some(Str(name))
  {
    var payload := Obj([Field("phase", Str(name))]);
    var a := [Field("event_type", Str("phase_start")), Field("run_id", Str(plant.runId))];
    assert BodyOf(plant, PhaseStart(name)).fields == a + [Field("payload", payload)];
    LookupLater(a, [Field("payload", payload)], "payload");
    LookupEarlier(a, [Field("payload", payload)], "event_type", 0);
  }

  lemma EventTypeOf(eventType: string, rest: seq<Field>)
    ensures TextOf(Get(Event(eventType, rest), "event_type")) == Some(eventType)
  {
  }

  // The auditor sees a phase start exactly where the machine emitted one.
  lemma StartedPhaseOf(plant: Plant, e: Envelope, entry: Entry)
    requires e.schema == SchemaOf(entry) && e.body == BodyOf(plant, entry)
    ensures StartedPhase(e) == if entry.PhaseStart? then Some(Str(entry.name)) else None
  {
    if entry.PhaseStart? {
      PhaseEventRead(plant, entry.name);
    } else if SchemaOf(entry) == "event" {
      var fields := BodyOf(plant, entry).fields;
      EventTypeOf(fields[0].value.s, fields[1..]);
      assert fields == [fields[0]] + fields[1..];
    }
  }

  // ---- consistency of a simulated run ----------------------------------------------------

  ghost predicate Renders(plant: Plant, entry: Entry, e: Envelope) {
    e.schema == SchemaOf(entry) && e.body == BodyOf(plant, entry)
  }

  ghost predicate Recorded(plant: Plant, log: seq<Record>, e: Envelope) {
    exists i | 0 <= i < |log| :: Renders(plant, log[i].entry, e)
  }

  ghost predicate IsCited(plant: Plant, entry: Entry, cited: seq<Envelope>) {
    exists k | 0 <= k < |cited| :: Renders(plant, entry, cited[k])
  }

  // Each cited envelope comes from a record, and the records from start to end are cited.
  ghost predicate Represents(plant: Plant, log: seq<Record>, cited: seq<Envelope>) {
    && (forall k | 0 <= k < |cited| :: Recorded(plant, log, cited[k]))
    && (forall i | 1 <= i < |log| - 1 :: IsCited(plant, log[i].entry, cited))
  }

  lemma CitedRepresents(plant: Plant, log: seq<Record>, out: seq<Envelope>, cited: seq<Envelope>)
    requires Issued(plant, log, out)
    requires forall e | e in cited :: exists i | 0 <= i < |log| :: e == out[i]
    requires forall i | 1 <= i < |log| - 1 :: out[i] in cited
    ensures Represents(plant, log, cited)
  {
    forall k | 0 <= k < |cited| ensures Recorded(plant, log, cited[k]) {
      assert cited[k] in cited;
      var i :| 0 <= i < |log| && cited[k] == out[i];
      IssuedBody(plant, log, out, i);
      assert Renders(plant, log[i].entry, cited[k]);
    }
    forall i | 1 <= i < |log| - 1 ensures IsCited(plant, log[i].entry, cited) {
      IssuedBody(plant, log, out, i);
      var k :| 0 <= k < |cited| && cited[k] == out[i];
      assert Renders(plant, log[i].entry, cited[k]);
    }
  }

  ghost predicate ReadsKwh(e: Envelope) {
    e.schema == "energy" ==> ReadingOf(e.body).Some? && ReadingOf(e.body).value.metric == "kwh"
  }

  lemma EnergyIsReadable(plant: Plant, log: seq<Record>, cited: seq<Envelope>)
    requires Represents(plant, log, cited)
    ensures forall k | 0 <= k < |cited| :: ReadsKwh(cited[k])
  {
    forall k | 0 <= k < |cited| ensures ReadsKwh(cited[k]) {
      assert Recorded(plant, log, cited[k]);
      var i :| 0 <= i < |log| && Renders(plant, log[i].entry, cited[k]);
      KwhRead(plant, log[i].entry, cited[k]);
    }
  }

  lemma KwhRead(plant: Plant, entry: Entry, e: Envelope)
    requires Renders(plant, entry, e)
    ensures ReadsKwh(e)
  {
    if e.schema == "energy" {
      OnlyEnergyIsEnergy(entry);
      EnergyRead(plant, entry);
    }
  }

  lemma OnlyEnergyIsEnergy(entry: Entry)
    requires SchemaOf(entry) == "energy"
    ensures entry.Energy?
  {
  }

  lemma {:induction false} OnlyKwh(cited: seq<Envelope>, n: nat)
    requires n <= |cited| && Readable(cited) && forall k | 0 <= k < |cited| :: ReadsKwh(cited[k])
    ensures forall i | 0 <= i < |Readings(cited, n)| :: Readings(cited, n)[i].metric == "kwh"
  {
    if n > 0 {
      OnlyKwh(cited, n - 1);
      assert ReadsKwh(cited[n - 1]);
    }
  }

  // Energy readings claim nothing in a simulated summary, so there is nothing to disagree with.
  lemma EnergyIsUnclaimed(cited: seq<Envelope>, summary: Audits.Summary)
    requires ClaimOf("kwh", summary.quantities).None? && forall k | 0 <= k < |cited| :: ReadsKwh(cited[k])
    ensures Readable(cited) && EnergyMatches(cited, summary)
  {
    assert Readable(cited) by {
      forall k | 0 <= k < |cited| && cited[k].schema == "energy" ensures ReadingOf(cited[k].body).Some? {
        assert ReadsKwh(cited[k]);
      }
    }
    OnlyKwh(cited, |cited|);
  }

  lemma DeclaredIsLogged(log: seq<Record>, name: string) returns (i: int)
    requires RunLog(log) && NamesRow(log[|log| - 1].entry.phases, name)
    ensures 1 <= i < |log| - 1 && log[i].entry == PhaseStart(name)
  {
    PhaseStartsIn(log, name);
    i :| 0 <= i < |log| && log[i].entry == PhaseStart(name);
  }

  lemma CitedIsStarted(plant: Plant, cited: seq<Envelope>, name: string)
    requires IsCited(plant, PhaseStart(name), cited)
    ensures Str(name) in Started(cited, |cited|)
  {
    var k :| 0 <= k < |cited| && Renders(plant, PhaseStart(name), cited[k]);
    StartedPhaseOf(plant, cited[k], PhaseStart(name));
  }

  lemma StartedIsDeclared(plant: Plant, log: seq<Record>, cited: seq<Envelope>, j: Json)
    requires RunLog(log) && Represents(plant, log, cited) && j in Started(cited, |cited|)
    ensures j.Str? && NamesRow(log[|log| - 1].entry.phases, j.s)
  {
    var k :| 0 <= k < |cited| && StartedPhase(cited[k]) == Some(j);
    assert Recorded(plant, log, cited[k]);
    var i :| 0 <= i < |log| && Renders(plant, log[i].entry, cited[k]);
    StartedPhaseOf(plant, cited[k], log[i].entry);
    PhaseStartsIn(log, j.s);
  }

  lemma PhasesAreStarted(plant: Plant, log: seq<Record>, cited: seq<Envelope>, summary: Audits.Summary)
    requires RunLog(log) && Represents(plant, log, cited) && ReadsPhases(summary.phases, log[|log| - 1].entry.phases)
    ensures PhasesMatch(cited, summary)
  {
    forall j | j in summary.phases ensures j in Started(cited, |cited|) {
      var i := DeclaredIsLogged(log, j.s);
      assert IsCited(plant, log[i].entry, cited);
      CitedIsStarted(plant, cited, j.s);
    }
    forall j | j in Started(cited, |cited|) ensures j in summary.phases {
      StartedIsDeclared(plant, log, cited, j);
    }
  }

  lemma EventRead(plant: Plant, entry: Entry, e: Envelope)
    requires Renders(plant, entry, e)
    ensures entry.RunStart? ==> IsEvent(e, "run_start")
    ensures entry.RunEnd? ==> IsEvent(e, "run_end")
  {
    EventTypeOf("run_start", [Field("run_id", Str(plant.runId))]);
    EventTypeOf("run_end", [Field("run_id", Str(plant.runId))]);
  }

  lemma BoundariesAreCited(plant: Plant, log: seq<Record>, cited: seq<Envelope>)
    requires RunLog(log) && Represents(plant, log, cited)
    ensures HasEvent(cited, "run_start") && HasEvent(cited, "run_end")
  {
    var n := |log|;
    assert IsCited(plant, log[1].entry, cited) && IsCited(plant, log[n - 2].entry, cited);
    var k :| 0 <= k < |cited| && Renders(plant, log[1].entry, cited[k]);
    EventRead(plant, log[1].entry, cited[k]);
    var m :| 0 <= m < |cited| && Renders(plant, log[n - 2].entry, cited[m]);
    EventRead(plant, log[n - 2].entry, cited[m]);
  }

  lemma RunIsConsistent(plant: Plant, log: seq<Record>, cited: seq<Envelope>, summary: Audits.Summary)
    requires RunLog(log) && Represents(plant, log, cited)
    requires ClaimOf("kwh", summary.quantities).None?
    requires ReadsPhases(summary.phases, log[|log| - 1].entry.phases)
    ensures Readable(cited) && Consistency(cited, summary).verdict == Passed
  {
    EnergyIsReadable(plant, log, cited);
    EnergyIsUnclaimed(cited, summary);
    PhasesAreStarted(plant, log, cited, summary);
    BoundariesAreCited(plant, log, cited);
    ConsistencyIff(cited, summary);
  }

  lemma SummaryOfRun(plant: Plant, log: seq<Record>, out: seq<Envelope>)
    requires Issued(plant, log, out) && RunLog(log)
    ensures SummaryOf(out[|log| - 1].body).Some?
    ensures var summary := SummaryOf(out[|log| - 1].body).value;
            && summary.range == Some(Range(2, |log| - 1))
            && ClaimOf("kwh", summary.quantities).None?
            && ReadsPhases(summary.phases, log[|log| - 1].entry.phases)
  {
    IssuedBody(plant, log, out, |log| - 1);
    SummaryRead(plant, log[|log| - 1].entry);
  }

  // The audit came to a report, and the three checks that need nothing but the bundle passed.
  ghost predicate Accepted(audit: Result<Report, AuditError>) {
    && audit.Ok?
    && audit.value.completeness.verdict == Passed
    && audit.value.integrity.verdict == Passed
    && audit.value.consistency.verdict == Passed
  }

  // Whatever the random choices, in whatever order the bundle comes and whatever else is in it,
  // the run that a simulated machine emitted is found and accepted.
  lemma SimulatedRunPasses(plant: Plant, log: seq<Record>, out: seq<Envelope>, envs: seq<Envelope>,
                           spec: Spec, key: Option<Audits.Key>, runId: string)
    requires Issued(plant, log, out) && RunLog(log) && Bundles(plant, out, envs)
    requires runId == "" || runId == plant.runId
    requires |Runs(envs, runId)| == 1 && spec.hash == plant.hash
    ensures Accepted(Audit(envs, spec, key, runId))
  {
    var run := out[|log| - 1];
    RunIsSelected(plant, log, out, envs, runId);
    SummaryOfRun(plant, log, out);
    var summary := SummaryOf(run.body).value;
    CitedPasses(plant, log, out, envs, run, summary);
    AuditAssembles(envs, spec, key, runId, run, summary);
  }

  lemma CitedPasses(plant: Plant, log: seq<Record>, out: seq<Envelope>, envs: seq<Envelope>,
                    run: Envelope, summary: Audits.Summary)
    requires Issued(plant, log, out) && RunLog(log) && Bundles(plant, out, envs) && run == out[|log| - 1]
    requires summary.range == Some(Range(2, |log| - 1)) && ClaimOf("kwh", summary.quantities).None?
    requires ReadsPhases(summary.phases, log[|log| - 1].entry.phases)
    ensures Completeness(Cited(envs, run, summary.range), run, summary.range).verdict == Passed
    ensures Integrity(Cited(envs, run, summary.range), plant.hash).verdict == Passed
    ensures Readable(Cited(envs, run, summary.range))
    ensures Consistency(Cited(envs, run, summary.range), summary).verdict == Passed
  {
    var cited := Cited(envs, run, summary.range);
    CitedIsEmitted(plant, log, out, envs);
    CitedRepresents(plant, log, out, cited);
    RunIsComplete(plant, log, out, envs);
    RunIsIntact(plant, log, out, cited);
    RunIsConsistent(plant, log, cited, summary);
  }

  lemma CyclicRunPasses(plant: Plant, log: seq<Record>, out: seq<Envelope>, envs: seq<Envelope>,
                        spec: Spec, key: Option<Audits.Key>, seconds: real)
    requires Issued(plant, log, out) && CyclicRun(log, seconds) && Bundles(plant, out, envs)
    requires |Runs(envs, plant.runId)| == 1 && spec.hash == plant.hash
    ensures Accepted(Audit(envs, spec, key, plant.runId))
  {
    CyclicRunIsRunLog(log, seconds);
    SimulatedRunPasses(plant, log, out, envs, spec, key, plant.runId);
  }

  lemma DyeRunPasses(plant: Plant, log: seq<Record>, out: seq<Envelope>, envs: seq<Envelope>,
                     spec: Spec, key: Option<Audits.Key>, seconds: real, rows: seq<PhaseRow>, fabricKg: int, kwh: int)
    requires Issued(plant, log, out) && DyeRun(PLAN, log, seconds, rows, fabricKg, kwh) && Bundles(plant, out, envs)
    requires |Runs(envs, plant.runId)| == 1 && spec.hash == plant.hash
    ensures Accepted(Audit(envs, spec, key, plant.runId))
  {
    DyeRunIsRunLog(PLAN, log, seconds, rows, fabricKg, kwh);
    SimulatedRunPasses(plant, log, out, envs, spec, key, plant.runId);
  }
}
