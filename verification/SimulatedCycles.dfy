/** tools/omp_tools/simulate.py: a cycle-based machine. Whatever the random choices, its loop ends
    and the run that it emits keeps its books. */
module SimulatedCycles {
  import opened Simulators

  // ---- the invariant of the loop --------------------------------------------------------

  ghost predicate UpTo(counts: seq<nat>, n: nat) {
    |counts| == n && forall i | 0 <= i < n :: counts[i] == i + 1
  }

  // Stops have resumed, save perhaps the last mark while the machine stands.
  ghost predicate Balanced(marks: seq<Entry>, running: bool) {
    && (forall i | 0 <= i < |marks| - 1 && marks[i].Stop? :: marks[i + 1].Start?)
    && (forall i | 0 <= i < |marks| && marks[i].Start? :: 0 < i && marks[i - 1].Stop?)
    && (running <==> !(marks != [] && marks[|marks| - 1].Stop?))
  }

  ghost predicate Middle(r: Record) {
    match r.entry
    case Cycle(_, ms) => 18_000 <= ms <= 45_000
    case Stop => true
    case Start(ms) => 30_000 <= ms <= 240_000
    case Energy(_, to, kwh, source) => to == r.at && 0 <= kwh <= 2 && source == "ct_clamp"
    case _ => false
  }

  // A cycle or a pause takes, to the millisecond, the time since the record before it.
  ghost predicate Paced(log: seq<Record>) {
    forall i | 0 < i < |log| :: Pace(log[i - 1], log[i])
  }

  ghost predicate Pace(before: Record, r: Record) {
    match r.entry
    case Cycle(_, ms) => 1000 * ms <= r.at - before.at <= 1000 * ms + 1000
    case Start(ms) => 1000 * ms <= r.at - before.at <= 1000 * ms + 1000
    case _ => true
  }

  ghost predicate LongEnough(intervals: seq<(int, int)>) {
    forall i | 0 <= i < |intervals| :: intervals[i].1 - intervals[i].0 >= HOUR
  }

  // The end of the last energy reading.
  ghost function Anchor(log: seq<Record>): int {
    var intervals := Intervals(log);
    if intervals == [] then EPOCH else intervals[|intervals| - 1].1
  }

  // No cycle and no pause begins while an energy reading is due.
  ghost predicate NothingDue(log: seq<Record>) {
    forall i | 0 < i < |log| && (log[i].entry.Cycle? || log[i].entry.Start?) :: log[i - 1].at - Anchor(log[..i]) < HOUR
  }

  ghost predicate Opened(log: seq<Record>) {
    && |log| >= 2
    && log[0] == Record(Announce, EPOCH) && log[1] == Record(RunStart, EPOCH)
    && (forall i | 2 <= i < |log| :: Middle(log[i]))
  }

  ghost predicate Books(log: seq<Record>, t: int, running: bool, cycles: nat, anchor: int) {
    && Opened(log)
    && InOrder(log) && log[|log| - 1].at <= t && Paced(log)
    && UpTo(CycleCounts(log), cycles) && NothingDue(log)
    && Balanced(Marks(log), running)
    && Abut(Intervals(log), EPOCH, anchor) && LongEnough(Intervals(log)) && anchor <= t
  }

  lemma BooksOpen(log: seq<Record>)
    requires log == [Record(Announce, EPOCH), Record(RunStart, EPOCH)]
    ensures Books(log, EPOCH, true, 0, EPOCH)
  {
    NothingYet(log);
  }

  lemma NothingYet(log: seq<Record>)
    requires log == [Record(Announce, EPOCH), Record(RunStart, EPOCH)]
    ensures CycleCounts(log) == [] && Marks(log) == [] && Intervals(log) == []
  {
    var none: seq<Record> := [];
    LogGrows(none, log[0]);
    LogGrows(none + [log[0]], log[1]);
    assert none + [log[0]] + [log[1]] == log;
  }

  // Time may pass before the next record.
  lemma BooksWait(log: seq<Record>, t: int, later: int, running: bool, cycles: nat, anchor: int)
    requires Books(log, t, running, cycles, anchor) && t <= later
    ensures Books(log, later, running, cycles, anchor)
  {
  }

  lemma OpenedGrows(log: seq<Record>, r: Record)
    requires Opened(log) && Middle(r)
    ensures Opened(log + [r])
  {
  }

  lemma BalancedGrows(marks: seq<Entry>, mark: Entry, running: bool)
    requires Balanced(marks, running) && (running <==> !mark.Start?)
    ensures Balanced(marks + [mark], !mark.Stop?)
  {
  }

  lemma AbutGrows(intervals: seq<(int, int)>, from: int, to: int, later: int)
    requires Abut(intervals, from, to)
    ensures Abut(intervals + [(to, later)], from, later)
  {
  }

  lemma BooksAfterMark(log: seq<Record>, t: int, running: bool, cycles: nat, anchor: int, mark: Entry, more: nat)
    requires Books(log, t, running, cycles, anchor)
    requires Middle(Record(mark, t)) && Pace(log[|log| - 1], Record(mark, t))
    requires IsMark(mark) && (running <==> !mark.Start?)
    requires if mark.Cycle? then mark.count == more == cycles + 1 else more == cycles
    requires mark.Cycle? || mark.Start? ==> log[|log| - 1].at - anchor < HOUR
    ensures Books(log + [Record(mark, t)], t, !mark.Stop?, more, anchor)
  {
    var r := Record(mark, t);
    LogGrows(log, r);
    OrderGrows(log, r);
    OpenedGrows(log, r);
    BalancedGrows(Marks(log), mark, running);
    DueGrows(log, r, anchor);
  }

  lemma DueGrows(log: seq<Record>, r: Record, anchor: int)
    requires log != [] && NothingDue(log) && Abut(Intervals(log), EPOCH, anchor)
    requires r.entry.Cycle? || r.entry.Start? ==> log[|log| - 1].at - anchor < HOUR
    ensures NothingDue(log + [r])
  {
    var grown := log + [r];
    forall i | 0 < i < |grown| && (grown[i].entry.Cycle? || grown[i].entry.Start?)
      ensures grown[i - 1].at - Anchor(grown[..i]) < HOUR
    {
      if i < |log| {
        assert grown[..i] == log[..i];
      } else {
        assert grown[..i] == log;
      }
    }
  }

  lemma BooksAfterEnergy(log: seq<Record>, t: int, running: bool, cycles: nat, anchor: int, kwh: int)
    requires Books(log, t, running, cycles, anchor) && t - anchor >= HOUR && 0 <= kwh <= 2
    ensures Books(log + [Record(Energy(anchor, t, kwh, "ct_clamp"), t)], t, running, cycles, t)
  {
    var r := Record(Energy(anchor, t, kwh, "ct_clamp"), t);
    LogGrows(log, r);
    OrderGrows(log, r);
    OpenedGrows(log, r);
    AbutGrows(Intervals(log), EPOCH, anchor, t);
    DueGrows(log, r, anchor);
  }

  // ---- the run -----------------------------------------------------------------------------

  function ShiftSummary(t: int, cycles: nat, last: nat): Entry {
    Summary("shift", EPOCH, t, [], [Quantity("cycles_total", cycles, "1")], 2, last)
  }

  // The envelopes of a run: announced and opened, closed by its end and a summary that cites
  // exactly the envelopes from start to end, with every cycle counted once and in order, every
  // stop resumed, and energy intervals of an hour or more that abut.
  ghost predicate CyclicRun(log: seq<Record>, seconds: real) {
    && |log| >= 4
    && var n := |log|;
       var t := log[n - 1].at;
       && Opened(log[..n - 2])
       && log[n - 2] == Record(RunEnd, t)
       && log[n - 1].entry == ShiftSummary(t, |CycleCounts(log)|, n - 1)
       && InOrder(log) && Paced(log) && NothingDue(log)
       && UpTo(CycleCounts(log), |CycleCounts(log)|)
       && StopsResume(Marks(log))
       && Hourly(Intervals(log), t)
       && WithinDuration(t, seconds)
  }

  // The run lasts at least as long as asked, and less than four minutes longer.
  ghost predicate WithinDuration(t: int, seconds: real) {
    && EPOCH + Micros(seconds) <= t
    && (t == EPOCH || t < EPOCH + Micros(seconds) + 240_000_000)
  }

  ghost predicate Hourly(intervals: seq<(int, int)>, t: int) {
    var end := if intervals == [] then EPOCH else intervals[|intervals| - 1].1;
    LongEnough(intervals) && Abut(intervals, EPOCH, end) && end <= t
  }

  lemma BalancedCloses(marks: seq<Entry>)
    requires Balanced(marks, true)
    ensures StopsResume(marks + [RunEnd])
  {
  }

  lemma BooksEnd(log: seq<Record>, t: int, cycles: nat, anchor: int)
    requires Books(log, t, true, cycles, anchor)
    ensures var ended := log + [Record(RunEnd, t)];
            && InOrder(ended) && Paced(ended) && NothingDue(ended) && UpTo(CycleCounts(ended), cycles)
            && StopsResume(Marks(ended)) && Hourly(Intervals(ended), t)
  {
    LogGrows(log, Record(RunEnd, t));
    OrderGrows(log, Record(RunEnd, t));
    DueGrows(log, Record(RunEnd, t), anchor);
    BalancedCloses(Marks(log));
  }

  lemma BooksClose(log: seq<Record>, seconds: real, t: int, cycles: nat, anchor: int)
    requires Books(log, t, true, cycles, anchor) && WithinDuration(t, seconds)
    ensures CyclicRun(log + [Record(RunEnd, t)] + [Record(ShiftSummary(t, cycles, |log| + 1), t)], seconds)
  {
    var ended, summary := log + [Record(RunEnd, t)], Record(ShiftSummary(t, cycles, |log| + 1), t);
    BooksEnd(log, t, cycles, anchor);
    LogGrows(ended, summary);
    OrderGrows(ended, summary);
    DueGrows(ended, summary, Anchor(ended));
    assert Paced(ended + [summary]);
    assert (ended + [summary])[..|log|] == log;
  }

  // A random time in seconds, as the clock and as the payload round it.
  method Elapse(lo: int, hi: int) returns (micros: int, ms: int)
    requires lo <= hi
    ensures 1_000_000 * lo <= micros <= 1_000_000 * hi
    ensures 1000 * ms <= micros <= 1000 * ms + 1000 && 1000 * lo <= ms <= 1000 * hi
  {
    var seconds := Uniform(lo as real, hi as real);
    micros, ms := Micros(seconds), (seconds * 1000.0).Floor;
    assert seconds * 1_000_000.0 == 1000.0 * (seconds * 1000.0);
  }

  // A running machine finishes a cycle, and perhaps stops, unless the time is up.
  method RunOn(m: Machine, start: int, end: int, done: nat, ghost anchor: int)
    returns (t: int, cycles: nat, running: bool)
    requires m.Valid() && Books(m.log, start, true, done, anchor) && start < end
    requires m.log[|m.log| - 1].at == start && start - anchor < HOUR
    modifies m
    ensures m.Valid() && Books(m.log, t, running, cycles, anchor)
    ensures start + 18_000_000 <= t <= start + 45_000_000
    ensures if t >= end then running else m.log[|m.log| - 1].at == t
  {
    var micros, ms := Elapse(18, 45);
    t := start + micros;
    cycles, running := done, true;
    BooksWait(m.log, start, t, running, done, anchor);
    if t >= end {
      return;
    }
    cycles := cycles + 1;
    BooksAfterMark(m.log, t, true, done, anchor, Cycle(cycles, ms), cycles);
    m.Emit(Cycle(cycles, ms), t);
    running := MayStop(m, t, cycles, anchor);
  }

  method MayStop(m: Machine, t: int, ghost cycles: nat, ghost anchor: int) returns (running: bool)
    requires m.Valid() && Books(m.log, t, true, cycles, anchor)
    requires m.log[|m.log| - 1].at == t
    modifies m
    ensures m.Valid() && Books(m.log, t, running, cycles, anchor)
    ensures m.log[|m.log| - 1].at == t
  {
    running := *;
    if !running {
      BooksAfterMark(m.log, t, true, cycles, anchor, Stop, cycles);
      m.Emit(Stop, t);
    }
  }

  // A standing machine starts again after a pause.
  method Resume(m: Machine, start: int, ghost cycles: nat, ghost anchor: int) returns (t: int)
    requires m.Valid() && Books(m.log, start, false, cycles, anchor)
    requires m.log[|m.log| - 1].at == start && start - anchor < HOUR
    modifies m
    ensures m.Valid() && Books(m.log, t, true, cycles, anchor)
    ensures m.log[|m.log| - 1].at == t
    ensures start + 30_000_000 <= t <= start + 240_000_000
  {
    var micros, ms := Elapse(30, 240);
    t := start + micros;
    BooksWait(m.log, start, t, false, cycles, anchor);
    BooksAfterMark(m.log, t, false, cycles, anchor, Start(ms), cycles);
    m.Emit(Start(ms), t);
  }

  method RecordEnergy(m: Machine, t: int, anchor: int, ghost running: bool, ghost cycles: nat)
    returns (newAnchor: int)
    requires m.Valid() && Books(m.log, t, running, cycles, anchor)
    modifies m
    ensures m.Valid() && Books(m.log, t, running, cycles, newAnchor) && t - newAnchor < HOUR
    ensures old(m.log)[|old(m.log)| - 1].at == t ==> m.log[|m.log| - 1].at == t
  {
    newAnchor := anchor;
    if t - anchor >= HOUR {
      var kwh: int :| 0 <= kwh <= 2;
      BooksAfterEnergy(m.log, t, running, cycles, anchor, kwh);
      m.Emit(Energy(anchor, t, kwh, "ct_clamp"), t);
      newAnchor := t;
    }
  }

  method Open(m: Machine, t: int) returns (firstSeq: nat)
    requires m.Valid() && m.log == [] && t == EPOCH
    modifies m
    ensures m.Valid() && Books(m.log, EPOCH, true, 0, EPOCH)
    ensures firstSeq == 2
  {
    m.Emit(Announce, t);
    m.Emit(RunStart, t);
    firstSeq := m.seqNo;
    BooksOpen(m.log);
  }

  method Close(m: Machine, t: int, cycles: nat, firstSeq: nat, ghost seconds: real, ghost anchor: int)
    requires m.Valid() && Books(m.log, t, true, cycles, anchor) && WithinDuration(t, seconds) && firstSeq == 2
    modifies m
    ensures m.Valid() && CyclicRun(m.log, seconds)
  {
    ghost var log := m.log;
    m.Emit(RunEnd, t);
    var summary := Summary("shift", EPOCH, t, [], [Quantity("cycles_total", cycles, "1")], firstSeq, m.seqNo);
    assert summary == ShiftSummary(t, cycles, |log| + 1);
    m.Emit(summary, t);
    BooksClose(log, seconds, t, cycles, anchor);
  }

  method RunCyclicMachine(m: Machine, seconds: real)
    requires m.Valid() && m.log == []
    modifies m
    ensures m.Valid() && CyclicRun(m.log, seconds)
  {
    var t := EPOCH;
    var end := EPOCH + Micros(seconds);
    var firstSeq := Open(m, t);
    var cycles := 0;
    var energyAnchor := t;
    var running := true;
    while t < end
      invariant m.Valid() && Books(m.log, t, running, cycles, energyAnchor)
      invariant t == EPOCH || t < end + 240_000_000
      invariant running || t < end
      invariant t < end ==> m.log[|m.log| - 1].at == t && t - energyAnchor < HOUR
      decreases end - t
    {
      if running {
        t, cycles, running := RunOn(m, t, end, cycles, energyAnchor);
        if t >= end {
          break;
        }
      } else {
        t := Resume(m, t, cycles, energyAnchor);
        running := true;
      }
      energyAnchor := RecordEnergy(m, t, energyAnchor, running, cycles);
    }
    Close(m, t, cycles, firstSeq, seconds, energyAnchor);
  }
}
