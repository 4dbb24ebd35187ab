/** What a reader finds in the bodies that a simulated machine emits. */
module SimulatedBodies {
  import opened Wrappers
  import opened JsonModel
  import opened Envelopes
  import opened Simulators

  // ---- reading one body -------------------------------------------------------------------

  // The value under `inner` in the object under `outer`.
  function Inner(j: Json, outer: string, inner: string): Option<Json> {
    match Get(j, outer)
    case Some(value) => Get(value, inner)
    case None => None
  }

  predicate IsEventOf(e: Envelope, eventType: string) {
    e.schema == "event" && Get(e.body, "event_type") == Some(Str(eventType))
  }

  lemma LookupAt(fields: seq<Field>, i: int)
    requires 0 <= i < |fields| && forall k | 0 <= k < i :: fields[k].key != fields[i].key
    ensures Lookup(fields, fields[i].key) == Some(fields[i].value)
  {
    LookupEarlier(fields, [], fields[i].key, i);
    assert fields + [] == fields;
  }

  ghost predicate ReadsAnnouncement(plant: Plant, body: Json) {
    && Get(body, "machine_class") == Some(Str(plant.machineClass)) && Get(body, "make") == Some(Str("SimWorks"))
    && Get(body, "model") == Some(Str("SW-100")) && Get(body, "data_source") == Some(Str("native"))
    && Get(body, "capabilities") == Some(Arr(Strings(plant.capabilities)))
    && Get(body, "location").Some? && ReadsLocation(plant, Get(body, "location").value)
    && Inner(body, "adapter", "name") == Some(Str("omp-simulate"))
    && Inner(body, "adapter", "version") == Some(Str(plant.version))
  }

  // The station is the last three characters of the machine's id.
  ghost predicate ReadsLocation(plant: Plant, location: Json) {
    && Get(location, "site") == Some(Str(plant.site)) && Get(location, "area") == Some(Str(plant.area))
    && Get(location, "line") == Some(Str(plant.line))
    && exists start, station :: plant.machineId == start + station && Get(location, "station") == Some(Str(station))
                                && (|station| == 3 || (|station| < 3 && start == ""))
  }

  lemma LocationReads(plant: Plant, fields: seq<Field>)
    requires fields == [Field("site", Str(plant.site)), Field("area", Str(plant.area)), Field("line", Str(plant.line)),
                        Field("station", Str(Station(plant.machineId)))]
    ensures ReadsLocation(plant, Obj(fields))
  {
    LookupAt(fields, 0);
    LookupAt(fields, 1);
    LookupAt(fields, 2);
    LookupAt(fields, 3);
    var id, station := plant.machineId, Station(plant.machineId);
    var start := id[..|id| - |station|];
    assert id == start + station;
  }

  lemma AnnouncementReads(plant: Plant)
    ensures ReadsAnnouncement(plant, AnnounceBody(plant))
  {
    var fields := AnnounceBody(plant).fields;
    LookupAt(fields, 0);
    LookupAt(fields, 1);
    LookupAt(fields, 2);
    LookupAt(fields, 3);
    LookupAt(fields, 4);
    LookupAt(fields, 5);
    LookupAt(fields, 6);
    LocationReads(plant, fields[3].value.fields);
    LookupAt(fields[5].value.fields, 0);
    LookupAt(fields[5].value.fields, 1);
  }

  // A stop and an addition give a reason, the boundaries name the run.
  lemma OtherEventsRead(plant: Plant)
    ensures Inner(BodyOf(plant, Stop), "payload", "reason") == Some(Str("unknown"))
    ensures Inner(BodyOf(plant, Addition), "payload", "reason") == Some(Str("shade_correction"))
    ensures Get(BodyOf(plant, RunStart), "run_id") == Get(BodyOf(plant, RunEnd), "run_id") == Some(Str(plant.runId))
    ensures Get(BodyOf(plant, Addition), "run_id") == Some(Str(plant.runId))
  {
    LookupAt(BodyOf(plant, Stop).fields, 1);
    LookupAt([Field("reason", Str("unknown"))], 0);
    LookupAt(BodyOf(plant, Addition).fields, 1);
    LookupAt(BodyOf(plant, Addition).fields, 2);
    LookupAt([Field("reason", Str("shade_correction"))], 0);
    LookupAt(BodyOf(plant, RunStart).fields, 1);
    LookupAt(BodyOf(plant, RunEnd).fields, 1);
  }

  ghost predicate ReadsCycle(plant: Plant, body: Json, count: nat, ms: int) {
    && Get(body, "event_type") == Some(Str("cycle_complete")) && Get(body, "run_id") == Some(Str(plant.runId))
    && Inner(body, "payload", "cycle_count") == Some(Int(count))
    && Inner(body, "payload", "cycle_time_ms") == Some(Int(ms))
  }

  lemma CycleReads(plant: Plant, count: nat, ms: int)
    ensures ReadsCycle(plant, BodyOf(plant, Cycle(count, ms)), count, ms)
  {
    var payload := [Field("cycle_count", Int(count)), Field("cycle_time_ms", Int(ms))];
    var fields := [Field("event_type", Str("cycle_complete")), Field("run_id", Str(plant.runId)),
                   Field("payload", Obj(payload))];
    assert BodyOf(plant, Cycle(count, ms)) == Obj(fields);
    LookupAt(fields, 0);
    LookupAt(fields, 1);
    LookupAt(fields, 2);
    LookupAt(payload, 0);
    LookupAt(payload, 1);
  }

  ghost predicate ReadsStart(body: Json, ms: int) {
    && Get(body, "event_type") == Some(Str("start")) && Inner(body, "payload", "reason") == Some(Str("unknown"))
    && Get(body, "duration_ms") == Some(Int(ms))
  }

  lemma StartReads(plant: Plant, ms: int)
    ensures ReadsStart(BodyOf(plant, Start(ms)), ms)
  {
    var payload := [Field("reason", Str("unknown"))];
    var fields := [Field("event_type", Str("start")), Field("payload", Obj(payload)), Field("duration_ms", Int(ms))];
    assert BodyOf(plant, Start(ms)) == Obj(fields);
    LookupAt(fields, 0);
    LookupAt(fields, 1);
    LookupAt(fields, 2);
    LookupAt(payload, 0);
  }

  ghost predicate ReadsEnergy(plant: Plant, body: Json, from: int, to: int, kwh: int, source: string) {
    && Get(body, "metric") == Some(Str("kwh")) && Get(body, "value") == Some(Int(kwh))
    && Inner(body, "interval", "start_ts") == Some(Str(plant.iso(from)))
    && Inner(body, "interval", "end_ts") == Some(Str(plant.iso(to)))
    && Get(body, "source") == Some(Str(source)) && Get(body, "run_id") == Some(Str(plant.runId))
  }

  lemma EnergyReads(plant: Plant, from: int, to: int, kwh: int, source: string)
    ensures ReadsEnergy(plant, BodyOf(plant, Energy(from, to, kwh, source)), from, to, kwh, source)
  {
    var interval := [Field("start_ts", Str(plant.iso(from))), Field("end_ts", Str(plant.iso(to)))];
    var fields := [Field("metric", Str("kwh")), Field("value", Int(kwh)), Field("interval", Obj(interval)),
                   Field("source", Str(source)), Field("run_id", Str(plant.runId))];
    assert BodyOf(plant, Energy(from, to, kwh, source)) == Obj(fields);
    LookupAt(fields, 0);
    LookupAt(fields, 1);
    LookupAt(fields, 2);
    LookupAt(fields, 3);
    LookupAt(fields, 4);
    LookupAt(interval, 0);
    LookupAt(interval, 1);
  }

  ghost predicate ReadsPhase(plant: Plant, body: Json, eventType: string, name: string) {
    && Get(body, "event_type") == Some(Str(eventType)) && Get(body, "run_id") == Some(Str(plant.runId))
    && Inner(body, "payload", "phase") == Some(Str(name))
  }

  lemma PhaseReads(plant: Plant, name: string)
    ensures ReadsPhase(plant, BodyOf(plant, PhaseStart(name)), "phase_start", name)
    ensures ReadsPhase(plant, BodyOf(plant, PhaseEnd(name)), "phase_end", name)
  {
    PhaseFieldsRead(plant, "phase_start", name);
    PhaseFieldsRead(plant, "phase_end", name);
  }

  lemma PhaseFieldsRead(plant: Plant, eventType: string, name: string)
    ensures ReadsPhase(plant, Event(eventType, [Field("run_id", Str(plant.runId)),
                                                Field("payload", Obj([Field("phase", Str(name))]))]),
                       eventType, name)
  {
    var payload := [Field("phase", Str(name))];
    var fields := [Field("event_type", Str(eventType)), Field("run_id", Str(plant.runId)),
                   Field("payload", Obj(payload))];
    assert Event(eventType, fields[1..]) == Obj(fields);
    LookupAt(fields, 0);
    LookupAt(fields, 1);
    LookupAt(fields, 2);
    LookupAt(payload, 0);
  }

  ghost predicate ReadsBlock(plant: Plant, body: Json, block: Entry)
    requires block.Telemetry?
  {
    && Get(body, "channel") == Some(Str("bath_temp")) && Get(body, "unit") == Some(Str("Cel"))
    && Get(body, "mode") == Some(Str("stats")) && Get(body, "run_id") == Some(Str(plant.runId))
    && Get(body, "stats").Some? && ReadsStats(plant, Get(body, "stats").value, block)
  }

  ghost predicate ReadsStats(plant: Plant, stats: Json, block: Entry)
    requires block.Telemetry?
  {
    && Get(stats, "start_ts") == Some(Str(plant.iso(block.begin)))
    && Get(stats, "end_ts") == Some(Str(plant.iso(block.end)))
    && Get(stats, "min") == Some(Int(block.lo)) && Get(stats, "max") == Some(Int(block.hi))
    && Get(stats, "avg") == Some(Int(block.avg)) && Get(stats, "count") == Some(Int(block.samples))
  }

  lemma BlockReads(plant: Plant, block: Entry)
    requires block.Telemetry?
    ensures ReadsBlock(plant, BodyOf(plant, block), block)
  {
    var fields := BodyOf(plant, block).fields;
    LookupAt(fields, 0);
    LookupAt(fields, 1);
    LookupAt(fields, 2);
    LookupAt(fields, 3);
    LookupAt(fields, 4);
    StatsRead(plant, fields[4].value.fields, block);
  }

  lemma StatsRead(plant: Plant, stats: seq<Field>, block: Entry)
    requires block.Telemetry?
    requires stats == [Field("start_ts", Str(plant.iso(block.begin))), Field("end_ts", Str(plant.iso(block.end))),
                       Field("min", Int(block.lo)), Field("max", Int(block.hi)), Field("avg", Int(block.avg)),
                       Field("count", Int(block.samples))]
    ensures ReadsStats(plant, Obj(stats), block)
  {
    LookupAt(stats, 0);
    LookupAt(stats, 1);
    LookupAt(stats, 2);
    LookupAt(stats, 3);
    LookupAt(stats, 4);
    LookupAt(stats, 5);
  }

  ghost predicate ReadsRow(plant: Plant, item: Json, row: PhaseRow) {
    && Get(item, "name") == Some(Str(row.name)) && Get(item, "params") == Some(row.params)
    && Get(item, "start_ts") == Some(Str(plant.iso(row.start))) && Get(item, "end_ts") == Some(Str(plant.iso(row.end)))
  }

  lemma RowReads(plant: Plant, row: PhaseRow)
    ensures ReadsRow(plant, PhaseItem(row, plant.iso), row)
  {
    var fields := PhaseItem(row, plant.iso).fields;
    LookupAt(fields, 0);
    LookupAt(fields, 1);
    LookupAt(fields, 2);
    LookupAt(fields, 3);
  }

  ghost predicate ReadsQuantity(item: Json, name: string, value: int, unit: string) {
    && Get(item, "name") == Some(Str(name)) && Get(item, "value") == Some(Int(value))
    && Get(item, "unit") == Some(Str(unit))
  }

  lemma QuantityReads(q: Quantity)
    ensures ReadsQuantity(QuantityItem(q), q.name, q.value, q.unit)
  {
    var fields := QuantityItem(q).fields;
    LookupAt(fields, 0);
    LookupAt(fields, 1);
    LookupAt(fields, 2);
  }

  ghost predicate ReadsSummary(plant: Plant, body: Json, s: Entry)
    requires s.Summary?
  {
    && Get(body, "run_id") == Some(Str(plant.runId)) && Get(body, "run_type") == Some(Str(s.runType))
    && Get(body, "start_ts") == Some(Str(plant.iso(s.begun))) && Get(body, "end_ts") == Some(Str(plant.iso(s.ended)))
    && Get(body, "outcome") == Some(Str("completed"))
    && Get(body, "phases") == (if s.phases == [] then None else Some(Arr(PhaseItems(s.phases, plant.iso))))
    && Get(body, "quantities") == Some(Arr(QuantityItems(s.quantities)))
    && Get(body, "event_seq_range") == Some(Obj([Field("first", Int(s.first)), Field("last", Int(s.last))]))
  }

  lemma SummaryReads(plant: Plant, s: Entry)
    requires s.Summary?
    ensures ReadsSummary(plant, SummaryBody(plant, s), s)
  {
    var head := [Field("run_id", Str(plant.runId)), Field("run_type", Str(s.runType)),
                 Field("start_ts", Str(plant.iso(s.begun))), Field("end_ts", Str(plant.iso(s.ended))),
                 Field("outcome", Str("completed"))];
    var mid := if s.phases == [] then [] else [Field("phases", Arr(PhaseItems(s.phases, plant.iso)))];
    var cited := Obj([Field("first", Int(s.first)), Field("last", Int(s.last))]);
    var tail := [Field("quantities", Arr(QuantityItems(s.quantities))), Field("event_seq_range", cited)];
    assert SummaryBody(plant, s) == Obj(head + mid + tail);
    assert head + mid + tail == head + (mid + tail);
    HeadReads(head, mid + tail);
    LookupLater(head, mid + tail, "phases");
    LookupLater(head, mid + tail, "quantities");
    LookupLater(head, mid + tail, "event_seq_range");
    LookupLater(mid, tail, "quantities");
    LookupLater(mid, tail, "event_seq_range");
    LookupAt(tail, 0);
    LookupAt(tail, 1);
    if s.phases != [] {
      LookupEarlier(mid, tail, "phases", 0);
    } else {
      assert mid + tail == tail;
      LookupLater(tail, [], "phases");
      assert tail + [] == tail;
    }
  }

  lemma HeadReads(head: seq<Field>, rest: seq<Field>)
    requires |head| == 5 && head[0].key == "run_id" && head[1].key == "run_type" && head[2].key == "start_ts"
    requires head[3].key == "end_ts" && head[4].key == "outcome"
    ensures Lookup(head + rest, "run_id") == Some(head[0].value)
    ensures Lookup(head + rest, "run_type") == Some(head[1].value)
    ensures Lookup(head + rest, "start_ts") == Some(head[2].value)
    ensures Lookup(head + rest, "end_ts") == Some(head[3].value)
    ensures Lookup(head + rest, "outcome") == Some(head[4].value)
  {
    LookupEarlier(head, rest, "run_id", 0);
    LookupEarlier(head, rest, "run_type", 1);
    LookupEarlier(head, rest, "start_ts", 2);
    LookupEarlier(head, rest, "end_ts", 3);
    LookupEarlier(head, rest, "outcome", 4);
  }

  // ---- which event it is ------------------------------------------------------------------------

  // The type of the events among the entries.
  function TypeOf(entry: Entry): string {
    match entry
    case RunStart => "run_start"
    case RunEnd => "run_end"
    case Cycle(_, _) => "cycle_complete"
    case Stop => "stop"
    case Start(_) => "start"
    case PhaseStart(_) => "phase_start"
    case PhaseEnd(_) => "phase_end"
    case Addition => "addition"
    case _ => ""
  }

  lemma TypeReads(plant: Plant, entry: Entry, e: Envelope, eventType: string)
    requires e.schema == SchemaOf(entry) && e.body == BodyOf(plant, entry)
    ensures IsEventOf(e, eventType) <==> e.schema == "event" && TypeOf(entry) == eventType
  {
    if e.schema == "event" {
      var fields := e.body.fields;
      assert fields[0] == Field("event_type", Str(TypeOf(entry)));
      LookupAt(fields, 0);
    }
  }

  // ---- counting in a log and in what was emitted ----------------------------------------------------

  function Kept(log: seq<Record>, keep: Entry -> bool): seq<Entry> {
    if log == [] then []
    else
      var n := |log| - 1;
      Kept(log[..n], keep) + if keep(log[n].entry) then [log[n].entry] else []
  }

  lemma {:induction false} KeptAt(log: seq<Record>, keep: Entry -> bool, i: nat)
    requires i < |log| && keep(log[i].entry)
    ensures |Kept(log[..i], keep)| < |Kept(log, keep)| && Kept(log, keep)[|Kept(log[..i], keep)|] == log[i].entry
  {
    var n := |log| - 1;
    if i < n {
      KeptAt(log[..n], keep, i);
      assert log[..n][..i] == log[..i];
    }
  }

  // How many of the first `n` envelopes are of this kind.
  function Rank(out: seq<Envelope>, kind: Envelope -> bool, n: nat): nat
    requires n <= |out|
  {
    if n == 0 then 0 else Rank(out, kind, n - 1) + if kind(out[n - 1]) then 1 else 0
  }

  ghost predicate SameKind(log: seq<Record>, out: seq<Envelope>, keep: Entry -> bool, kind: Envelope -> bool) {
    |out| == |log| && forall i | 0 <= i < |log| :: kind(out[i]) <==> keep(log[i].entry)
  }

  lemma {:induction false} RankIs(log: seq<Record>, out: seq<Envelope>, keep: Entry -> bool,
                                  kind: Envelope -> bool, n: nat)
    requires SameKind(log, out, keep, kind) && n <= |out|
    ensures Rank(out, kind, n) == |Kept(log[..n], keep)|
  {
    if n > 0 {
      RankIs(log, out, keep, kind, n - 1);
      assert log[..n][..n - 1] == log[..n - 1];
    }
  }

  // The entry of an envelope of this kind is the one with its rank.
  lemma EntryOfRank(log: seq<Record>, out: seq<Envelope>, keep: Entry -> bool, kind: Envelope -> bool, i: nat)
    requires SameKind(log, out, keep, kind) && i < |out| && kind(out[i])
    ensures var r := Rank(out, kind, i); r < |Kept(log, keep)| && Kept(log, keep)[r] == log[i].entry
  {
    RankIs(log, out, keep, kind, i);
    KeptAt(log, keep, i);
  }

  // Kinds of envelopes.
  function EventsOf(eventType: string): Envelope -> bool {
    (e: Envelope) => IsEventOf(e, eventType)
  }

  function OfSchema(schema: string): Envelope -> bool {
    (e: Envelope) => e.schema == schema
  }

  lemma EventKind(plant: Plant, log: seq<Record>, out: seq<Envelope>, eventType: string, keep: Entry -> bool)
    requires Issued(plant, log, out)
    requires forall entry :: keep(entry) <==> SchemaOf(entry) == "event" && TypeOf(entry) == eventType
    ensures SameKind(log, out, keep, EventsOf(eventType))
  {
    forall i | 0 <= i < |log| ensures EventsOf(eventType)(out[i]) <==> keep(log[i].entry) {
      assert IssuedAt(plant, log, out, i);
      TypeReads(plant, log[i].entry, out[i], eventType);
    }
  }

  lemma SchemaKind(plant: Plant, log: seq<Record>, out: seq<Envelope>, schema: string, keep: Entry -> bool)
    requires Issued(plant, log, out) && forall entry :: keep(entry) <==> SchemaOf(entry) == schema
    ensures SameKind(log, out, keep, OfSchema(schema))
  {
    forall i | 0 <= i < |log| ensures OfSchema(schema)(out[i]) <==> keep(log[i].entry) {
      assert IssuedAt(plant, log, out, i);
    }
  }

  lemma IssuedBody(plant: Plant, log: seq<Record>, out: seq<Envelope>, i: int)
    requires Issued(plant, log, out) && 0 <= i < |log|
    ensures out[i].schema == SchemaOf(log[i].entry) && out[i].body == BodyOf(plant, log[i].entry)
    ensures out[i].ts == plant.iso(log[i].at) && out[i].seqNo == i + 1
  {
    assert IssuedAt(plant, log, out, i);
  }
}
