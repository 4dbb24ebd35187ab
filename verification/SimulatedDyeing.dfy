/** tools/omp_tools/simulate.py: a dyeing machine, whose batch runs through seven phases. */
module SimulatedDyeing {
  import opened Wrappers
  import opened JsonModel
  import opened Canonical
  import opened Simulators

  datatype Planned = Planned(name: string, share: real)

  const PLAN: seq<Planned> := [
    Planned("load", 0.05),
    Planned("heat", 0.15),
    Planned("hold", 0.35),
    Planned("cool", 0.10),
    Planned("rinse", 0.20),
    Planned("drain", 0.05),
    Planned("unload", 0.10)]

  function PhaseTime(seconds: real, share: real): real {
    seconds * share
  }

  function ParamsOf(name: string, fabricKg: int): Json {
    if name == "load" then Obj([Field("fabric_kg", Int(fabricKg))])
    else if name == "heat" then
      Obj([Field("from_c", Int(30)), Field("to_c", Int(60)), Field("gradient_c_per_min", Int(2))])
    else if name == "hold" then Obj([Field("temp_c", Int(60)), Field("duration_min", Int(45))])
    else if name == "cool" then
      Obj([Field("from_c", Int(60)), Field("to_c", Int(40)), Field("gradient_c_per_min", Int(2))])
    else if name == "rinse" then Obj([Field("cycles", Int(2)), Field("temp_c", Int(40))])
    else Obj([])
  }

  lemma ParamsAreClean(name: string, fabricKg: int)
    ensures Clean(ParamsOf(name, fabricKg))
  {
    CleanObject(ParamsOf(name, fabricKg).fields);
  }

  // ---- what a batch must look like -----------------------------------------------------

  // Phases open and close one at a time, in the order of the plan.
  ghost predicate OneAtATime(plan: seq<Planned>, marks: seq<Entry>, k: nat)
    requires k <= |plan|
  {
    && |marks| == 2 * k
    && forall i | 0 <= i < k :: marks[2 * i] == PhaseStart(plan[i].name) && marks[2 * i + 1] == PhaseEnd(plan[i].name)
  }

  ghost predicate NamesAre(plan: seq<Planned>, names: seq<string>, k: nat)
    requires k <= |plan|
  {
    |names| == k && forall i | 0 <= i < k :: names[i] == plan[i].name
  }

  // The summary's rows follow the plan without a gap, each for its share of the duration.
  ghost predicate RowsFollow(plan: seq<Planned>, rows: seq<PhaseRow>, k: nat, seconds: real, fabricKg: int, t: int)
    requires k <= |plan|
  {
    && |rows| == k
    && (forall i | 0 <= i < k :: RowFollows(plan, rows, i, seconds, fabricKg))
    && t == (if k == 0 then EPOCH else rows[k - 1].end)
  }

  ghost predicate RowFollows(plan: seq<Planned>, rows: seq<PhaseRow>, i: int, seconds: real, fabricKg: int)
    requires 0 <= i < |rows| && i < |plan|
  {
    && rows[i].name == plan[i].name && rows[i].params == ParamsOf(plan[i].name, fabricKg)
    && rows[i].start == (if i == 0 then EPOCH else rows[i - 1].end)
    && rows[i].end == rows[i].start + Micros(PhaseTime(seconds, plan[i].share))
  }

  // One block of bath temperatures for each phase, over exactly that phase, starting where the
  // bath was left.
  ghost predicate Measured(plan: seq<Planned>, blocks: seq<Entry>, rows: seq<PhaseRow>, k: nat, seconds: real)
    requires k <= |plan|
  {
    |blocks| == |rows| == k && forall i | 0 <= i < k :: Measures(plan, blocks[i], rows[i], i, seconds)
  }

  ghost predicate Measures(plan: seq<Planned>, block: Entry, row: PhaseRow, i: nat, seconds: real)
    requires i < |plan|
  {
    && block.Telemetry? && block.begin == row.start && block.end == row.end
    && (block.lo, block.hi) == BathAt(plan[i].name, Found(plan, i))
    && block.lo <= block.avg <= block.hi && block.lo + block.hi - 1 <= 2 * block.avg <= block.lo + block.hi
    && SampledEveryTen(block.samples, PhaseTime(seconds, plan[i].share))
  }

  // One sample each full ten seconds, and one in any case.
  ghost predicate SampledEveryTen(samples: int, seconds: real) {
    samples >= 1 && (samples == 1 || 10.0 * samples as real <= seconds) && seconds < 10.0 * (samples + 1) as real
  }

  function BathAt(name: string, temp: int): (int, int) {
    if name == "heat" then (30, 60)
    else if name == "hold" then (59, 61)
    else if name == "cool" then (40, 60)
    else (temp - 1, temp + 1)
  }

  // The temperature that a phase leaves, and the one that phase `i` finds.
  function Left(name: string, temp: int): int {
    if name == "heat" then 60 else if name == "cool" then 40 else temp
  }

  function Found(plan: seq<Planned>, i: nat): int
    requires i <= |plan|
  {
    if i == 0 then 30 else Left(plan[i - 1].name, Found(plan, i - 1))
  }

  ghost predicate BatchEntry(entry: Entry) {
    entry.PhaseStart? || entry.PhaseEnd? || entry.Telemetry? || entry.Addition?
  }

  ghost predicate Begun(log: seq<Record>) {
    && |log| >= 2
    && log[0] == Record(Announce, EPOCH) && log[1] == Record(RunStart, EPOCH)
    && (forall i | 2 <= i < |log| :: BatchEntry(log[i].entry))
    && InOrder(log)
  }

  // After `k` phases, at time t.
  ghost predicate Batch(plan: seq<Planned>, log: seq<Record>, k: nat, rows: seq<PhaseRow>, seconds: real,
                        fabricKg: int, t: int)
  {
    && k <= |plan|
    && Begun(log) && log[|log| - 1].at <= t
    && OneAtATime(plan, PhaseMarks(log), k) && NamesAre(plan, PhaseStarts(log), k)
    && RowsFollow(plan, rows, k, seconds, fabricKg, t)
    && Measured(plan, Telemetries(log), rows, k, seconds)
  }

  function BatchSummary(t: int, rows: seq<PhaseRow>, fabricKg: int, last: nat): Entry {
    Summary("batch", EPOCH, t, rows,
            [Quantity("fabric_kg", fabricKg, "kg"), Quantity("water_l_total", fabricKg * 4, "L")], 2, last)
  }

  // A whole batch: the seven phases in order, one energy reading over all of it, its end, and the
  // summary that cites exactly the envelopes from start to end.
  ghost predicate DyeRun(plan: seq<Planned>, log: seq<Record>, seconds: real, rows: seq<PhaseRow>,
                         fabricKg: int, kwh: int)
  {
    && |log| >= 5
    && var n := |log|;
       var t := log[n - 1].at;
       && Batch(plan, log[..n - 3], |plan|, rows, seconds, fabricKg, t)
       && log[n - 3] == Record(Energy(EPOCH, t, kwh, "submeter"), t)
       && log[n - 2] == Record(RunEnd, t)
       && log[n - 1].entry == BatchSummary(t, rows, fabricKg, n - 1)
       && InOrder(log)
  }

  // ---- one phase ---------------------------------------------------------------------------

  // The records of a phase, with or without an addition.
  function PhaseRecords(name: string, start: int, end: int, block: Entry, added: bool): seq<Record> {
    [Record(PhaseStart(name), start), Record(block, end)] +
    (if added then [Record(Addition, end)] else []) +
    [Record(PhaseEnd(name), end)]
  }

  // The same, appended one at a time.
  function Appended(log: seq<Record>, name: string, start: int, end: int, block: Entry, added: bool): seq<Record> {
    var measured := log + [Record(PhaseStart(name), start)] + [Record(block, end)];
    (if added then measured + [Record(Addition, end)] else measured) + [Record(PhaseEnd(name), end)]
  }

  lemma AppendedIs(log: seq<Record>, name: string, start: int, end: int, block: Entry, added: bool)
    ensures Appended(log, name, start, end, block, added) == log + PhaseRecords(name, start, end, block, added)
  {
  }

  lemma MeasuringGrows(log: seq<Record>, name: string, start: int, end: int, block: Entry)
    requires block.Telemetry?
    ensures var measured := log + [Record(PhaseStart(name), start)] + [Record(block, end)];
            && PhaseMarks(measured) == PhaseMarks(log) + [PhaseStart(name)]
            && PhaseStarts(measured) == PhaseStarts(log) + [name]
            && Telemetries(measured) == Telemetries(log) + [block]
  {
    LogGrows(log, Record(PhaseStart(name), start));
    LogGrows(log + [Record(PhaseStart(name), start)], Record(block, end));
  }

  lemma EndingGrows(log: seq<Record>, name: string, end: int, added: bool)
    ensures var ended := (if added then log + [Record(Addition, end)] else log) + [Record(PhaseEnd(name), end)];
            && PhaseMarks(ended) == PhaseMarks(log) + [PhaseEnd(name)]
            && PhaseStarts(ended) == PhaseStarts(log)
            && Telemetries(ended) == Telemetries(log)
  {
    LogGrows(log, Record(Addition, end));
    LogGrows(log + [Record(Addition, end)], Record(PhaseEnd(name), end));
    LogGrows(log, Record(PhaseEnd(name), end));
  }

  lemma RecordsGrow(log: seq<Record>, name: string, start: int, end: int, block: Entry, added: bool)
    requires block.Telemetry?
    ensures var grown := log + PhaseRecords(name, start, end, block, added);
            && PhaseMarks(grown) == PhaseMarks(log) + [PhaseStart(name), PhaseEnd(name)]
            && PhaseStarts(grown) == PhaseStarts(log) + [name]
            && Telemetries(grown) == Telemetries(log) + [block]
  {
    AppendedIs(log, name, start, end, block, added);
    MeasuringGrows(log, name, start, end, block);
    EndingGrows(log + [Record(PhaseStart(name), start)] + [Record(block, end)], name, end, added);
  }

  lemma BegunGrows(log: seq<Record>, name: string, start: int, end: int, block: Entry, added: bool)
    requires Begun(log) && log[|log| - 1].at <= start <= end && block.Telemetry?
    ensures Begun(log + PhaseRecords(name, start, end, block, added))
  {
  }

  lemma BatchGrows(plan: seq<Planned>, log: seq<Record>, k: nat, rows: seq<PhaseRow>, seconds: real,
                   fabricKg: int, t: int, end: int, block: Entry, added: bool)
    requires k < |plan| && Batch(plan, log, k, rows, seconds, fabricKg, t)
    requires t <= end == t + Micros(PhaseTime(seconds, plan[k].share))
    requires Measures(plan, block, PhaseRow(plan[k].name, t, end, ParamsOf(plan[k].name, fabricKg)), k, seconds)
    ensures Batch(plan, log + PhaseRecords(plan[k].name, t, end, block, added), k + 1,
                  rows + [PhaseRow(plan[k].name, t, end, ParamsOf(plan[k].name, fabricKg))],
                  seconds, fabricKg, end)
  {
    var name := plan[k].name;
    var row := PhaseRow(name, t, end, ParamsOf(name, fabricKg));
    RecordsGrow(log, name, t, end, block, added);
    BegunGrows(log, name, t, end, block, added);
    RowsGrow(plan, k, rows, seconds, fabricKg, t, row);
    MeasuredGrows(plan, Telemetries(log), rows, k, block, row, seconds);
  }

  lemma RowsGrow(plan: seq<Planned>, k: nat, rows: seq<PhaseRow>, seconds: real, fabricKg: int, t: int, row: PhaseRow)
    requires k < |plan| && RowsFollow(plan, rows, k, seconds, fabricKg, t)
    requires row.name == plan[k].name && row.start == t && row.end == t + Micros(PhaseTime(seconds, plan[k].share))
             && row.params == ParamsOf(plan[k].name, fabricKg)
    ensures RowsFollow(plan, rows + [row], k + 1, seconds, fabricKg, row.end)
  {
    var grown := rows + [row];
    forall i | 0 <= i < k + 1 ensures RowFollows(plan, grown, i, seconds, fabricKg) {
      if i < k {
        assert RowFollows(plan, rows, i, seconds, fabricKg);
        assert grown[i] == rows[i] && (i > 0 ==> grown[i - 1] == rows[i - 1]);
      } else {
        assert grown[i] == row && (i > 0 ==> grown[i - 1] == rows[i - 1]);
      }
    }
  }

  lemma MeasuredGrows(plan: seq<Planned>, blocks: seq<Entry>, rows: seq<PhaseRow>, k: nat, block: Entry, row: PhaseRow,
                      seconds: real)
    requires k < |plan| && Measured(plan, blocks, rows, k, seconds) && Measures(plan, block, row, k, seconds)
    ensures Measured(plan, blocks + [block], rows + [row], k + 1, seconds)
  {
  }

  method RunPhase(m: Machine, name: string, t: int, temp: int, phaseS: real)
    returns (end: int, left: int, ghost block: Entry, ghost added: bool)
    requires m.Valid() && phaseS >= 0.0
    modifies m
    ensures m.Valid() && m.log == old(m.log) + PhaseRecords(name, t, end, block, added)
    ensures t <= end == t + Micros(phaseS)
    ensures added ==> name == "hold"
    ensures block.Telemetry? && block.begin == t && block.end == end && SampledEveryTen(block.samples, phaseS)
    ensures (block.lo, block.hi) == BathAt(name, temp) && block.avg == (block.lo + block.hi) / 2
    ensures left == Left(name, temp)
  {
    m.Emit(PhaseStart(name), t);
    left := temp;
    var lo, hi;
    if name == "heat" {
      lo, hi := 30, 60;
      left := 60;
    } else if name == "hold" {
      lo, hi := 59, 61;
    } else if name == "cool" {
      lo, hi := 40, 60;
      left := 40;
    } else {
      lo, hi := temp - 1, temp + 1;
    }
    end := t + Micros(phaseS);
    var samples := (phaseS / 10.0).Floor;
    block := Telemetry(t, end, lo, hi, (lo + hi) / 2, if samples < 1 then 1 else samples);
    m.Emit(Telemetry(t, end, lo, hi, (lo + hi) / 2, if samples < 1 then 1 else samples), end);
    added := false;
    if name == "hold" {
      var adds: bool := *;
      if adds {
        added := true;
        m.Emit(Addition, end);
      }
    }
    m.Emit(PhaseEnd(name), end);
  }

  // ---- the run -------------------------------------------------------------------------------

  method RunDyeMachine(m: Machine, seconds: real) returns (ghost rows: seq<PhaseRow>, ghost kg: int, ghost used: int)
    requires m.Valid() && m.log == [] && seconds >= 0.0
    modifies m
    ensures m.Valid() && DyeRun(PLAN, m.log, seconds, rows, kg, used)
    ensures 300 <= kg < 600 && kg % 20 == 0 && 30 <= used <= 60
  {
    PlanIsPositive();
    var step := PickInt(0, 14);
    kg := 300 + 20 * step;
    rows, used := RunPlan(m, PLAN, seconds, 300 + 20 * step);
  }

  lemma PlanIsPositive()
    ensures forall i | 0 <= i < |PLAN| :: PLAN[i].share > 0.0
  {
  }

  method RunPlan(m: Machine, plan: seq<Planned>, seconds: real, fabricKg: int)
    returns (ghost rows: seq<PhaseRow>, ghost used: int)
    requires m.Valid() && m.log == [] && seconds >= 0.0
    requires forall i | 0 <= i < |plan| :: plan[i].share > 0.0
    modifies m
    ensures m.Valid() && DyeRun(plan, m.log, seconds, rows, fabricKg, used) && 30 <= used <= 60
  {
    var t := EPOCH;
    m.Emit(Announce, t);
    m.Emit(RunStart, t);
    var firstSeq := m.seqNo;
    BatchOpens(plan, m.log, seconds, fabricKg);
    var phases;
    t, phases := RunPhases(m, plan, t, seconds, fabricKg);
    var kwh := PickInt(30, 60);
    used, rows := kwh, phases;
    Finish(m, plan, t, phases, seconds, fabricKg, kwh, firstSeq);
  }

  method RunPhases(m: Machine, plan: seq<Planned>, start: int, seconds: real, fabricKg: int)
    returns (t: int, phases: seq<PhaseRow>)
    requires m.Valid() && seconds >= 0.0 && Batch(plan, m.log, 0, [], seconds, fabricKg, start)
    requires forall i | 0 <= i < |plan| :: plan[i].share > 0.0
    modifies m
    ensures m.Valid() && Batch(plan, m.log, |plan|, phases, seconds, fabricKg, t)
  {
    t, phases := start, [];
    var temp := 30;
    for i := 0 to |plan|
      invariant m.Valid() && Batch(plan, m.log, i, phases, seconds, fabricKg, t)
      invariant temp == Found(plan, i)
    {
      var begin := t;
      ghost var before := m.log;
      ghost var block, added;
      t, temp, block, added := RunPhase(m, plan[i].name, t, temp, PhaseTime(seconds, plan[i].share));
      BatchGrows(plan, before, i, phases, seconds, fabricKg, begin, t, block, added);
      phases := phases + [PhaseRow(plan[i].name, begin, t, ParamsOf(plan[i].name, fabricKg))];
    }
  }

  method PickInt(lo: int, hi: int) returns (n: int)
    requires lo <= hi
    ensures lo <= n <= hi
  {
    n := *;
    if n < lo || hi < n {
      n := lo;
    }
  }

  lemma BatchOpens(plan: seq<Planned>, log: seq<Record>, seconds: real, fabricKg: int)
    requires log == [Record(Announce, EPOCH), Record(RunStart, EPOCH)]
    ensures Batch(plan, log, 0, [], seconds, fabricKg, EPOCH)
  {
    var none: seq<Record> := [];
    LogGrows(none, log[0]);
    LogGrows(none + [log[0]], log[1]);
    assert none + [log[0]] + [log[1]] == log;
  }

  lemma ClosingInOrder(log: seq<Record>, a: Record, b: Record, c: Record)
    requires log != [] && InOrder(log) && log[|log| - 1].at <= a.at == b.at == c.at
    ensures InOrder(log + [a] + [b] + [c]) && (log + [a] + [b] + [c])[..|log|] == log
  {
    OrderGrows(log, a);
    OrderGrows(log + [a], b);
    OrderGrows(log + [a] + [b], c);
  }

  lemma BatchCloses(plan: seq<Planned>, log: seq<Record>, rows: seq<PhaseRow>, seconds: real, fabricKg: int,
                    kwh: int, t: int)
    requires Batch(plan, log, |plan|, rows, seconds, fabricKg, t)
    ensures DyeRun(plan, log + [Record(Energy(EPOCH, t, kwh, "submeter"), t)] + [Record(RunEnd, t)]
                   + [Record(BatchSummary(t, rows, fabricKg, |log| + 2), t)], seconds, rows, fabricKg, kwh)
  {
    ClosingInOrder(log, Record(Energy(EPOCH, t, kwh, "submeter"), t), Record(RunEnd, t),
                   Record(BatchSummary(t, rows, fabricKg, |log| + 2), t));
  }

  method Finish(m: Machine, ghost plan: seq<Planned>, t: int, phases: seq<PhaseRow>, ghost seconds: real,
                fabricKg: int, kwh: int, firstSeq: nat)
    requires m.Valid() && firstSeq == 2 && Batch(plan, m.log, |plan|, phases, seconds, fabricKg, t)
    modifies m
    ensures m.Valid() && DyeRun(plan, m.log, seconds, phases, fabricKg, kwh)
  {
    ghost var log := m.log;
    m.Emit(Energy(EPOCH, t, kwh, "submeter"), t);
    m.Emit(RunEnd, t);
    var summary := Summary("batch", EPOCH, t, phases,
                           [Quantity("fabric_kg", fabricKg, "kg"), Quantity("water_l_total", fabricKg * 4, "L")],
                           firstSeq, m.seqNo);
    assert summary == BatchSummary(t, phases, fabricKg, |log| + 2);
    RowsAreClean(plan, phases, seconds, fabricKg, t);
    m.Emit(summary, t);
    BatchCloses(plan, log, phases, seconds, fabricKg, kwh, t);
  }

  lemma RowsAreClean(plan: seq<Planned>, rows: seq<PhaseRow>, seconds: real, fabricKg: int, t: int)
    requires RowsFollow(plan, rows, |plan|, seconds, fabricKg, t)
    ensures forall i | 0 <= i < |rows| :: CheckNumbers(rows[i].params).None?
  {
    forall i | 0 <= i < |rows| ensures CheckNumbers(rows[i].params).None? {
      assert RowFollows(plan, rows, i, seconds, fabricKg);
      ParamsAreClean(rows[i].name, fabricKg);
    }
  }
}
