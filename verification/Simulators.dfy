/** tools/omp_tools/simulate.py: machines that emit a run without hardware. Every random choice is
    arbitrary within its range; time counts microseconds. */
module Simulators {
  import opened Wrappers
  import opened JsonModel
  import opened Canonical
  import opened Envelopes

  // 2026-07-24T02:00:00Z
  const EPOCH: int := 1_784_858_400_000_000
  const HOUR: int := 3_600_000_000

  // From 1970 to 2026 there are 56 years and 14 leap days; July 24 is day 205 of the year.
  lemma EpochIs()
    ensures EPOCH == ((56 * 365 + 14 + 204) * 24 + 2) * 3_600_000_000
  {
  }

  // What is fixed for one simulated machine; `iso` writes a time as text.
  datatype Plant = Plant(
    profileRef: string, gatewayId: string, machineId: string, machineClass: string, capabilities: seq<string>,
    site: string, area: string, line: string, version: string, runId: string,
    iso: int -> string, hash: string -> string)

  datatype PhaseRow = PhaseRow(name: string, start: int, end: int, params: Json)

  datatype Quantity = Quantity(name: string, value: int, unit: string)

  datatype Entry =
    | Announce
    | RunStart
    | RunEnd
    | Cycle(count: nat, ms: int)
    | Stop
    | Start(pauseMs: int)
    | Energy(from: int, to: int, kwh: int, source: string)
    | PhaseStart(name: string)
    | PhaseEnd(name: string)
    | Telemetry(begin: int, end: int, lo: int, hi: int, avg: int, samples: int)
    | Addition
    | Summary(runType: string, begun: int, ended: int, phases: seq<PhaseRow>, quantities: seq<Quantity>,
              first: nat, last: nat)

  datatype Record = Record(entry: Entry, at: int)

  // ---- envelopes ------------------------------------------------------------------

  function SchemaOf(entry: Entry): string {
    match entry
    case Announce => "machine"
    case Energy(_, _, _, _) => "energy"
    case Telemetry(_, _, _, _, _, _) => "telemetry"
    case Summary(_, _, _, _, _, _, _) => "process_run"
    case _ => "event"
  }

  function Event(eventType: string, rest: seq<Field>): Json {
    Obj([Field("event_type", Str(eventType))] + rest)
  }

  function Strings(texts: seq<string>): (items: seq<Json>)
    ensures |items| == |texts|
  {
    seq(|texts|, i requires 0 <= i < |texts| => Str(texts[i]))
  }

  function PhaseItem(row: PhaseRow, iso: int -> string): Json {
    Obj([Field("name", Str(row.name)), Field("start_ts", Str(iso(row.start))),
         Field("end_ts", Str(iso(row.end))), Field("params", row.params)])
  }

  function PhaseItems(rows: seq<PhaseRow>, iso: int -> string): (items: seq<Json>)
    ensures |items| == |rows|
  {
    seq(|rows|, i requires 0 <= i < |rows| => PhaseItem(rows[i], iso))
  }

  function QuantityItem(q: Quantity): Json {
    Obj([Field("name", Str(q.name)), Field("value", Int(q.value)), Field("unit", Str(q.unit))])
  }

  function QuantityItems(quantities: seq<Quantity>): (items: seq<Json>)
    ensures |items| == |quantities|
  {
    seq(|quantities|, i requires 0 <= i < |quantities| => QuantityItem(quantities[i]))
  }

  function Station(machineId: string): string {
    if |machineId| < 3 then machineId else machineId[|machineId| - 3..]
  }

  function AnnounceBody(plant: Plant): Json {
    Obj([Field("machine_class", Str(plant.machineClass)), Field("make", Str("SimWorks")), Field("model", Str("SW-100")),
         Field("location",
               Obj([Field("site", Str(plant.site)), Field("area", Str(plant.area)), Field("line", Str(plant.line)),
                    Field("station", Str(Station(plant.machineId)))])),
         Field("capabilities", Arr(Strings(plant.capabilities))),
         Field("adapter", Obj([Field("name", Str("omp-simulate")), Field("version", Str(plant.version))])),
         Field("data_source", Str("native"))])
  }

  function SummaryBody(plant: Plant, s: Entry): Json
    requires s.Summary?
  {
    Obj([Field("run_id", Str(plant.runId)), Field("run_type", Str(s.runType)),
         Field("start_ts", Str(plant.iso(s.begun))), Field("end_ts", Str(plant.iso(s.ended))),
         Field("outcome", Str("completed"))] +
        (if s.phases == [] then [] else [Field("phases", Arr(PhaseItems(s.phases, plant.iso)))]) +
        [Field("quantities", Arr(QuantityItems(s.quantities))),
         Field("event_seq_range", Obj([Field("first", Int(s.first)), Field("last", Int(s.last))]))])
  }

  function BodyOf(plant: Plant, entry: Entry): Json {
    var runId := Field("run_id", Str(plant.runId));
    var unknown := Field("payload", Obj([Field("reason", Str("unknown"))]));
    match entry
    case Announce => AnnounceBody(plant)
    case RunStart => Event("run_start", [runId])
    case RunEnd => Event("run_end", [runId])
    case Cycle(count, ms) =>
      Event("cycle_complete",
            [runId, Field("payload", Obj([Field("cycle_count", Int(count)), Field("cycle_time_ms", Int(ms))]))])
    case Stop => Event("stop", [unknown])
    case Start(ms) => Event("start", [unknown, Field("duration_ms", Int(ms))])
    case Energy(from, to, kwh, source) =>
      Obj([Field("metric", Str("kwh")), Field("value", Int(kwh)),
           Field("interval", Obj([Field("start_ts", Str(plant.iso(from))), Field("end_ts", Str(plant.iso(to)))])),
           Field("source", Str(source)), runId])
    case PhaseStart(name) => Event("phase_start", [runId, Field("payload", Obj([Field("phase", Str(name))]))])
    case PhaseEnd(name) => Event("phase_end", [runId, Field("payload", Obj([Field("phase", Str(name))]))])
    case Telemetry(from, to, lo, hi, avg, samples) =>
      Obj([Field("channel", Str("bath_temp")), Field("unit", Str("Cel")), Field("mode", Str("stats")), runId,
           Field("stats",
                 Obj([Field("start_ts", Str(plant.iso(from))), Field("end_ts", Str(plant.iso(to))),
                      Field("min", Int(lo)), Field("max", Int(hi)), Field("avg", Int(avg)),
                      Field("count", Int(samples))]))])
    case Addition =>
      Event("addition", [runId, Field("payload", Obj([Field("reason", Str("shade_correction"))]))])
    case Summary(_, _, _, _, _, _, _) => SummaryBody(plant, entry)
  }

  function Made(plant: Plant, seqNo: nat, record: Record): Result<Envelope, BuildError> {
    MakeEnvelope(SchemaOf(record.entry), BodyOf(plant, record.entry), plant.profileRef, plant.gatewayId,
                 plant.machineId, seqNo, plant.iso(record.at), plant.hash)
  }

  // Parameters of phases are chosen by the plan and hold only integers.
  ghost predicate CleanEntry(entry: Entry) {
    entry.Summary? ==> forall i | 0 <= i < |entry.phases| :: CheckNumbers(entry.phases[i].params).None?
  }

  lemma {:induction false} CleanItems(items: seq<Json>)
    requires forall i | 0 <= i < |items| :: CheckNumbers(items[i]).None?
    ensures CheckItems(items).None?
  {
    if items != [] {
      CleanItems(items[1..]);
    }
  }

  lemma {:induction false} CleanFields(fields: seq<Field>)
    requires forall i | 0 <= i < |fields| :: CheckNumbers(fields[i].value).None?
    ensures CheckFields(fields).None?
  {
    if fields != [] {
      CleanFields(fields[1..]);
    }
  }

  predicate Clean(j: Json) {
    CheckNumbers(j).None?
  }

  lemma CleanObject(fields: seq<Field>)
    requires forall i | 0 <= i < |fields| :: Clean(fields[i].value)
    ensures Clean(Obj(fields))
  {
    CleanFields(fields);
  }

  lemma AnnounceIsClean(plant: Plant)
    ensures Clean(AnnounceBody(plant))
  {
    var fields := AnnounceBody(plant).fields;
    CleanObject(fields[3].value.fields);
    CleanItems(Strings(plant.capabilities));
    CleanObject(fields[5].value.fields);
    CleanObject(fields);
  }

  lemma SummaryIsClean(plant: Plant, s: Entry)
    requires s.Summary? && CleanEntry(s)
    ensures Clean(SummaryBody(plant, s))
  {
    var rows, quantities := PhaseItems(s.phases, plant.iso), QuantityItems(s.quantities);
    forall i | 0 <= i < |rows| ensures Clean(rows[i]) {
      CleanObject(rows[i].fields);
    }
    CleanItems(rows);
    forall i | 0 <= i < |quantities| ensures Clean(quantities[i]) {
      CleanObject(quantities[i].fields);
    }
    CleanItems(quantities);
    CleanObject([Field("first", Int(s.first)), Field("last", Int(s.last))]);
    CleanObject(SummaryBody(plant, s).fields);
  }

  lemma EventIsClean(eventType: string, rest: seq<Field>)
    requires forall i | 0 <= i < |rest| :: Clean(rest[i].value)
    ensures Clean(Event(eventType, rest))
  {
    CleanObject(Event(eventType, rest).fields);
  }

  lemma EnergyIsClean(plant: Plant, entry: Entry)
    requires entry.Energy?
    ensures Clean(BodyOf(plant, entry))
  {
    var fields := BodyOf(plant, entry).fields;
    CleanObject(fields[2].value.fields);
    CleanObject(fields);
  }

  lemma TelemetryIsClean(plant: Plant, entry: Entry)
    requires entry.Telemetry?
    ensures Clean(BodyOf(plant, entry))
  {
    var fields := BodyOf(plant, entry).fields;
    CleanObject(fields[4].value.fields);
    CleanObject(fields);
  }

  lemma BodyIsClean(plant: Plant, entry: Entry)
    requires CleanEntry(entry)
    ensures Clean(BodyOf(plant, entry))
  {
    var runId := Field("run_id", Str(plant.runId));
    var unknown := Field("payload", Obj([Field("reason", Str("unknown"))]));
    CleanObject([Field("reason", Str("unknown"))]);
    match entry {
      case Announce => AnnounceIsClean(plant);
      case RunStart => EventIsClean("run_start", [runId]);
      case RunEnd => EventIsClean("run_end", [runId]);
      case Cycle(count, ms) =>
        CleanObject([Field("cycle_count", Int(count)), Field("cycle_time_ms", Int(ms))]);
        EventIsClean("cycle_complete", BodyOf(plant, entry).fields[1..]);
      case Stop => EventIsClean("stop", [unknown]);
      case Start(ms) => EventIsClean("start", [unknown, Field("duration_ms", Int(ms))]);
      case Energy(from, to, kwh, source) =>
        EnergyIsClean(plant, entry);
      case PhaseStart(name) =>
        CleanObject([Field("phase", Str(name))]);
        EventIsClean("phase_start", BodyOf(plant, entry).fields[1..]);
      case PhaseEnd(name) =>
        CleanObject([Field("phase", Str(name))]);
        EventIsClean("phase_end", BodyOf(plant, entry).fields[1..]);
      case Telemetry(_, _, _, _, _, _) =>
        TelemetryIsClean(plant, entry);
      case Addition =>
        CleanObject([Field("reason", Str("shade_correction"))]);
        EventIsClean("addition", BodyOf(plant, entry).fields[1..]);
      case Summary(_, _, _, _, _, _, _) => SummaryIsClean(plant, entry);
    }
  }

  // Every body that a machine emits has a checksum, so emitting never fails.
  lemma EmittingNeverFails(plant: Plant, seqNo: nat, record: Record)
    requires CleanEntry(record.entry)
    ensures Made(plant, seqNo, record).Ok?
  {
    BodyIsClean(plant, record.entry);
  }

  // ---- what a log says -----------------------------------------------------------------

  ghost predicate InOrder(log: seq<Record>) {
    forall i, k | 0 <= i < k < |log| :: log[i].at <= log[k].at
  }

  function CycleCounts(log: seq<Record>): seq<nat> {
    if log == [] then []
    else
      var n := |log| - 1;
      CycleCounts(log[..n]) + if log[n].entry.Cycle? then [log[n].entry.count] else []
  }

  // The entries that say whether the machine runs.
  predicate IsMark(entry: Entry) {
    entry.Cycle? || entry.Stop? || entry.Start? || entry.RunEnd?
  }

  function Marks(log: seq<Record>): seq<Entry> {
    if log == [] then []
    else
      var n := |log| - 1;
      Marks(log[..n]) + if IsMark(log[n].entry) then [log[n].entry] else []
  }

  // Every stop is followed by a start before anything else happens, and no start comes without one.
  ghost predicate StopsResume(marks: seq<Entry>) {
    && (forall i | 0 <= i < |marks| && marks[i].Stop? :: i + 1 < |marks| && marks[i + 1].Start?)
    && (forall i | 0 <= i < |marks| && marks[i].Start? :: 0 < i && marks[i - 1].Stop?)
  }

  function Intervals(log: seq<Record>): seq<(int, int)> {
    if log == [] then []
    else
      var n := |log| - 1;
      Intervals(log[..n]) + if log[n].entry.Energy? then [(log[n].entry.from, log[n].entry.to)] else []
  }

  // Intervals that follow one another without a gap or an overlap.
  ghost predicate Abut(intervals: seq<(int, int)>, from: int, to: int) {
    if intervals == [] then from == to
    else
      && intervals[0].0 == from && intervals[|intervals| - 1].1 == to
      && forall i | 0 <= i < |intervals| - 1 :: intervals[i].1 == intervals[i + 1].0
  }

  function PhaseStarts(log: seq<Record>): seq<string> {
    if log == [] then []
    else
      var n := |log| - 1;
      PhaseStarts(log[..n]) + if log[n].entry.PhaseStart? then [log[n].entry.name] else []
  }

  function PhaseMarks(log: seq<Record>): seq<Entry> {
    if log == [] then []
    else
      var n := |log| - 1;
      PhaseMarks(log[..n]) + if log[n].entry.PhaseStart? || log[n].entry.PhaseEnd? then [log[n].entry] else []
  }

  function Telemetries(log: seq<Record>): seq<Entry> {
    if log == [] then []
    else
      var n := |log| - 1;
      Telemetries(log[..n]) + if log[n].entry.Telemetry? then [log[n].entry] else []
  }

  // Every reading of a log after one more record.
  lemma LogGrows(log: seq<Record>, r: Record)
    ensures CycleCounts(log + [r]) == CycleCounts(log) + if r.entry.Cycle? then [r.entry.count] else []
    ensures Marks(log + [r]) == Marks(log) + if IsMark(r.entry) then [r.entry] else []
    ensures Intervals(log + [r]) == Intervals(log) + if r.entry.Energy? then [(r.entry.from, r.entry.to)] else []
    ensures PhaseStarts(log + [r]) == PhaseStarts(log) + if r.entry.PhaseStart? then [r.entry.name] else []
    ensures PhaseMarks(log + [r])
            == PhaseMarks(log) + if r.entry.PhaseStart? || r.entry.PhaseEnd? then [r.entry] else []
    ensures Telemetries(log + [r]) == Telemetries(log) + if r.entry.Telemetry? then [r.entry] else []
  {
    assert (log + [r])[..|log|] == log;
  }

  // ---- the machine --------------------------------------------------------------------------

  lemma OrderGrows(log: seq<Record>, r: Record)
    requires InOrder(log) && (log != [] ==> log[|log| - 1].at <= r.at)
    ensures InOrder(log + [r])
  {
  }

  // The envelopes of a log, numbered from 1.
  ghost predicate Issued(plant: Plant, log: seq<Record>, out: seq<Envelope>) {
    |out| == |log| && forall i :: IssuedAt(plant, log, out, i)
  }

  ghost predicate IssuedAt(plant: Plant, log: seq<Record>, out: seq<Envelope>, i: int) {
    0 <= i < |log| && i < |out| ==> Made(plant, i + 1, log[i]) == Ok(out[i])
  }

  lemma IssuedGrows(plant: Plant, log: seq<Record>, out: seq<Envelope>, r: Record)
    requires Issued(plant, log, out) && CleanEntry(r.entry)
    ensures Made(plant, |log| + 1, r).Ok?
    ensures Issued(plant, log + [r], out + [Made(plant, |log| + 1, r).value])
  {
    EmittingNeverFails(plant, |log| + 1, r);
    var envelope := Made(plant, |log| + 1, r).value;
    forall i ensures IssuedAt(plant, log + [r], out + [envelope], i) {
      assert IssuedAt(plant, log, out, i);
    }
  }

  class Machine {
    const plant: Plant
    var seqNo: nat
    var out: seq<Envelope>
    ghost var log: seq<Record>

    ghost predicate Valid()
      reads this
    {
      seqNo == |log| && Issued(plant, log, out)
    }

    constructor (plant: Plant)
      ensures Valid() && this.plant == plant && log == []
    {
      this.plant := plant;
      seqNo, out, log := 0, [], [];
    }

    method Emit(entry: Entry, t: int)
      requires Valid() && CleanEntry(entry)
      modifies this
      ensures Valid() && log == old(log) + [Record(entry, t)]
    {
      IssuedGrows(plant, log, out, Record(entry, t));
      seqNo := seqNo + 1;
      var envelope := Made(plant, seqNo, Record(entry, t)).value;
      out := out + [envelope];
      log := log + [Record(entry, t)];
    }
  }

  // timedelta rounds to microseconds, halves to even.
  function Micros(seconds: real): (t: int)
    ensures -0.5 <= t as real - seconds * 1_000_000.0 <= 0.5
  {
    var x := seconds * 1_000_000.0;
    var d := x - x.Floor as real;
    if d < 0.5 || (d == 0.5 && x.Floor % 2 == 0) then x.Floor else x.Floor + 1
  }

  // The random generator: any number in the range.
  method Uniform(lo: real, hi: real) returns (x: real)
    requires lo <= hi
    ensures lo <= x <= hi
  {
    x := *;
    if x < lo || hi < x {
      x := lo;
    }
  }
}
