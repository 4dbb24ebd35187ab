/** The books of a simulated run, read from the envelopes alone: cycles are counted, stops resumed,
    energy and temperature intervals abut, and the summary says what the events say. */
module SimulatedBooks {
  import opened Wrappers
  import opened JsonModel
  import opened Envelopes
  import opened Simulators
  import opened SimulatedBodies
  import opened SimulatedCycles
  import opened SimulatedDyeing

  // Envelope i bears the text of time i; numbers run from 1 and time does not go back.
  ghost predicate Timed(plant: Plant, out: seq<Envelope>, times: seq<int>) {
    && |times| == |out|
    && (forall i | 0 <= i < |out| :: out[i].ts == plant.iso(times[i]) && out[i].seqNo == i + 1)
    && (forall i, k | 0 <= i < k < |out| :: times[i] <= times[k])
  }

  function TimesOf(log: seq<Record>): (times: seq<int>)
    ensures |times| == |log| && forall i | 0 <= i < |log| :: times[i] == log[i].at
  {
    seq(|log|, i requires 0 <= i < |log| => log[i].at)
  }

  lemma LogIsTimed(plant: Plant, log: seq<Record>, out: seq<Envelope>)
    requires Issued(plant, log, out) && InOrder(log)
    ensures Timed(plant, out, TimesOf(log))
  {
    forall i | 0 <= i < |out| ensures out[i].ts == plant.iso(TimesOf(log)[i]) && out[i].seqNo == i + 1 {
      IssuedBody(plant, log, out, i);
    }
  }

  // ---- cycles --------------------------------------------------------------------------------

  // Cycle i took as long as it says, and is counted next.
  ghost predicate CycleCounted(plant: Plant, out: seq<Envelope>, times: seq<int>, i: nat)
    requires |times| == |out| && i < |out|
  {
    exists ms ::
      && ReadsCycle(plant, out[i].body, Rank(out, EventsOf("cycle_complete"), i) + 1, ms)
      && 18_000 <= ms <= 45_000 && i > 0 && 1000 * ms <= times[i] - times[i - 1] <= 1000 * ms + 1000
  }

  function IsCycle(): Entry -> bool {
    (entry: Entry) => entry.Cycle?
  }

  lemma {:induction false} CountsKept(log: seq<Record>)
    ensures |CycleCounts(log)| == |Kept(log, IsCycle())|
    ensures forall r | 0 <= r < |CycleCounts(log)| ::
              Kept(log, IsCycle())[r].Cycle? && Kept(log, IsCycle())[r].count == CycleCounts(log)[r]
  {
    if log != [] {
      CountsKept(log[..|log| - 1]);
    }
  }

  lemma MiddleAt(log: seq<Record>, seconds: real, i: int)
    requires CyclicRun(log, seconds) && 2 <= i < |log| - 2
    ensures Middle(log[i])
  {
    assert log[..|log| - 2][i] == log[i];
  }

  lemma CountOfCycle(plant: Plant, log: seq<Record>, out: seq<Envelope>, seconds: real, i: nat)
    requires Issued(plant, log, out) && CyclicRun(log, seconds) && i < |out| && IsEventOf(out[i], "cycle_complete")
    ensures log[i].entry.Cycle? && log[i].entry.count == Rank(out, EventsOf("cycle_complete"), i) + 1
  {
    CycleKind(plant, log, out);
    EntryOfRank(log, out, IsCycle(), EventsOf("cycle_complete"), i);
    CountsKept(log);
  }

  lemma CycleKind(plant: Plant, log: seq<Record>, out: seq<Envelope>)
    requires Issued(plant, log, out)
    ensures SameKind(log, out, IsCycle(), EventsOf("cycle_complete"))
  {
    EventKind(plant, log, out, "cycle_complete", IsCycle());
  }

  lemma CyclesAreCounted(plant: Plant, log: seq<Record>, out: seq<Envelope>, seconds: real, i: nat)
    requires Issued(plant, log, out) && CyclicRun(log, seconds) && i < |out| && IsEventOf(out[i], "cycle_complete")
    ensures CycleCounted(plant, out, TimesOf(log), i)
  {
    CountOfCycle(plant, log, out, seconds, i);
    var entry := log[i].entry;
    CycleReads(plant, entry.count, entry.ms);
    IssuedBody(plant, log, out, i);
    MiddleAt(log, seconds, i);
    assert Pace(log[i - 1], log[i]);
  }

  // ---- stops --------------------------------------------------------------------------------

  // The stop of envelope i ends with the start of envelope k, and nothing but energy comes between.
  ghost predicate Resumed(out: seq<Envelope>, times: seq<int>, i: nat, k: nat)
    requires |times| == |out|
  {
    && i < k < |out| && IsEventOf(out[k], "start")
    && (forall j | i < j < k :: out[j].schema == "energy")
    && exists ms :: ReadsStart(out[k].body, ms) && 30_000 <= ms <= 240_000
                    && 1000 * ms <= times[k] - times[k - 1] <= 1000 * ms + 1000
  }

  lemma {:induction false} MarksKept(log: seq<Record>)
    ensures Marks(log) == Kept(log, IsMark)
  {
    if log != [] {
      MarksKept(log[..|log| - 1]);
    }
  }

  // The record of the r-th entry that is kept.
  lemma {:induction false} KeptFrom(log: seq<Record>, keep: Entry -> bool, r: nat) returns (k: nat)
    requires r < |Kept(log, keep)|
    ensures k < |log| && keep(log[k].entry) && |Kept(log[..k], keep)| == r
  {
    var n := |log| - 1;
    if r < |Kept(log[..n], keep)| {
      k := KeptFrom(log[..n], keep, r);
      assert log[..n][..k] == log[..k];
    } else {
      k := n;
    }
  }

  lemma {:induction false} KeptGrows(log: seq<Record>, keep: Entry -> bool, i: nat, k: nat)
    requires i <= k <= |log|
    ensures |Kept(log[..i], keep)| <= |Kept(log[..k], keep)|
    ensures forall j | i <= j < k && keep(log[j].entry) :: |Kept(log[..i], keep)| < |Kept(log[..k], keep)|
  {
    if i < k {
      KeptGrows(log, keep, i, k - 1);
      assert log[..k][..k - 1] == log[..k - 1];
    }
  }

  // What is kept next after record i comes after it, and nothing between is kept.
  lemma NextKept(log: seq<Record>, keep: Entry -> bool, i: nat) returns (k: nat)
    requires i < |log| && keep(log[i].entry) && |Kept(log[..i], keep)| + 1 < |Kept(log, keep)|
    ensures i < k < |log| && keep(log[k].entry) && Kept(log, keep)[|Kept(log[..i], keep)| + 1] == log[k].entry
    ensures forall j | i < j < k :: !keep(log[j].entry)
  {
    var r := |Kept(log[..i], keep)|;
    k := KeptFrom(log, keep, r + 1);
    KeptAt(log, keep, k);
    if k <= i {
      KeptGrows(log, keep, k, i);
    }
    assert log[..i + 1][..i] == log[..i];
    KeptGrows(log, keep, i + 1, k);
  }

  lemma StopsAreResumed(plant: Plant, log: seq<Record>, out: seq<Envelope>, seconds: real, i: nat) returns (k: nat)
    requires Issued(plant, log, out) && CyclicRun(log, seconds) && i < |out| && IsEventOf(out[i], "stop")
    ensures Resumed(out, TimesOf(log), i, k)
  {
    IssuedBody(plant, log, out, i);
    TypeReads(plant, log[i].entry, out[i], "stop");
    MarksKept(log);
    KeptAt(log, IsMark, i);
    k := NextKept(log, IsMark, i);
    assert log[k].entry.Start?;
    IssuedBody(plant, log, out, k);
    TypeReads(plant, log[k].entry, out[k], "start");
    StartReads(plant, log[k].entry.pauseMs);
    MiddleAt(log, seconds, k);
    assert Pace(log[k - 1], log[k]);
    forall j | i < j < k ensures out[j].schema == "energy" {
      MiddleAt(log, seconds, j);
      IssuedBody(plant, log, out, j);
    }
  }

  // ---- energy -----------------------------------------------------------------------------------

  // The reading of envelope i covers the time from the reading before it, or from the start of the
  // run, up to the envelope, an hour at least.
  ghost predicate EnergyCovers(plant: Plant, out: seq<Envelope>, times: seq<int>, i: nat)
    requires |times| == |out| && i < |out|
  {
    exists from, kwh ::
      && ReadsEnergy(plant, out[i].body, from, times[i], kwh, "ct_clamp") && 0 <= kwh <= 2
      && times[i] - from >= 3_600_000_000
      && (Rank(out, OfSchema("energy"), i) == 0 ==> from == EPOCH)
      && forall k | 0 <= k < i && out[k].schema == "energy" && IsLastBefore(out, k, i) :: from == times[k]
  }

  ghost predicate IsLastBefore(out: seq<Envelope>, k: int, i: nat)
    requires 0 <= k < i < |out|
  {
    forall j | k < j < i :: out[j].schema != "energy"
  }

  function IsEnergy(): Entry -> bool {
    (entry: Entry) => entry.Energy?
  }

  lemma {:induction false} IntervalsKept(log: seq<Record>)
    ensures |Intervals(log)| == |Kept(log, IsEnergy())|
    ensures forall r | 0 <= r < |Intervals(log)| ::
              Kept(log, IsEnergy())[r].Energy?
              && Intervals(log)[r] == (Kept(log, IsEnergy())[r].from, Kept(log, IsEnergy())[r].to)
  {
    if log != [] {
      IntervalsKept(log[..|log| - 1]);
    }
  }

  lemma {:induction false} NoneKept(log: seq<Record>, keep: Entry -> bool, i: nat, k: nat)
    requires i <= k <= |log| && forall j | i <= j < k :: !keep(log[j].entry)
    ensures |Kept(log[..i], keep)| == |Kept(log[..k], keep)|
  {
    if i < k {
      NoneKept(log, keep, i, k - 1);
      assert log[..k][..k - 1] == log[..k - 1];
    }
  }

  // Entries of an energy reading in a cyclic run.
  lemma EnergyOf(plant: Plant, log: seq<Record>, out: seq<Envelope>, seconds: real, i: nat)
    requires Issued(plant, log, out) && CyclicRun(log, seconds) && i < |out| && out[i].schema == "energy"
    ensures log[i].entry.Energy? && log[i].entry.to == log[i].at && 0 <= log[i].entry.kwh <= 2
    ensures 2 <= i < |log| - 2 && log[i].entry.source == "ct_clamp"
  {
    IssuedBody(plant, log, out, i);
    MiddleAt(log, seconds, i);
  }

  // The interval of a reading begins where the one before it ends.
  lemma IntervalBegins(log: seq<Record>, seconds: real, i: nat)
    requires CyclicRun(log, seconds) && i < |log| && log[i].entry.Energy?
    ensures var r := |Kept(log[..i], IsEnergy())|;
      && r < |Intervals(log)| && log[i].entry.to - log[i].entry.from >= HOUR
      && log[i].entry.from == if r == 0 then EPOCH else Intervals(log)[r - 1].1
  {
    KeptAt(log, IsEnergy(), i);
    IntervalsKept(log);
    var r := |Kept(log[..i], IsEnergy())|;
    assert r > 0 ==> Intervals(log)[r - 1].1 == Intervals(log)[r].0;
  }

  lemma IntervalBefore(log: seq<Record>, k: nat, i: nat)
    requires k < i < |log| && log[k].entry.Energy? && forall j | k < j < i :: !log[j].entry.Energy?
    ensures var r := |Kept(log[..i], IsEnergy())|;
            0 < r <= |Intervals(log)| && Intervals(log)[r - 1].1 == log[k].entry.to
  {
    KeptAt(log, IsEnergy(), k);
    IntervalsKept(log);
    NoneKept(log, IsEnergy(), k + 1, i);
    assert log[..k + 1][..k] == log[..k];
  }

  lemma NoEnergyBetween(plant: Plant, log: seq<Record>, out: seq<Envelope>, k: nat, i: nat)
    requires Issued(plant, log, out) && k < i < |out| && IsLastBefore(out, k, i)
    ensures forall j | k < j < i :: !log[j].entry.Energy?
  {
    forall j | k < j < i ensures !log[j].entry.Energy? {
      IssuedBody(plant, log, out, j);
    }
  }

  lemma EnergyRank(plant: Plant, log: seq<Record>, out: seq<Envelope>, i: nat)
    requires Issued(plant, log, out) && i <= |out|
    ensures Rank(out, OfSchema("energy"), i) == |Kept(log[..i], IsEnergy())|
  {
    SchemaKind(plant, log, out, "energy", IsEnergy());
    RankIs(log, out, IsEnergy(), OfSchema("energy"), i);
  }

  lemma EnergyIsCovered(plant: Plant, log: seq<Record>, out: seq<Envelope>, seconds: real, i: nat)
    requires Issued(plant, log, out) && CyclicRun(log, seconds) && i < |out| && out[i].schema == "energy"
    ensures EnergyCovers(plant, out, TimesOf(log), i)
  {
    EnergyRank(plant, log, out, i);
    EnergyOf(plant, log, out, seconds, i);
    IntervalBegins(log, seconds, i);
    var entry := log[i].entry;
    forall k | 0 <= k < i && out[k].schema == "energy" && IsLastBefore(out, k, i) ensures entry.from == log[k].at {
      EnergyOf(plant, log, out, seconds, k);
      NoEnergyBetween(plant, log, out, k, i);
      IntervalBefore(log, k, i);
    }
    EnergyReads(plant, entry.from, entry.to, entry.kwh, entry.source);
    EnergyBodyIs(plant, log, out, i);
  }

  lemma EnergyBodyIs(plant: Plant, log: seq<Record>, out: seq<Envelope>, i: nat)
    requires Issued(plant, log, out) && i < |out| && log[i].entry.Energy?
    ensures var entry := log[i].entry;
            out[i].body == BodyOf(plant, Energy(entry.from, entry.to, entry.kwh, entry.source))
  {
    IssuedBody(plant, log, out, i);
  }

  // No cycle and no pause began an hour or more after the last reading.
  ghost predicate ReadInTime(out: seq<Envelope>, times: seq<int>, i: nat)
    requires |times| == |out| && i < |out|
  {
    && i > 0
    && ((forall k | 0 <= k < i :: out[k].schema != "energy") ==> times[i - 1] - EPOCH < 3_600_000_000)
    && forall k | 0 <= k < i && out[k].schema == "energy" && IsLastBefore(out, k, i) ::
         times[i - 1] - times[k] < 3_600_000_000
  }

  lemma AnchorIs(plant: Plant, log: seq<Record>, out: seq<Envelope>, seconds: real, i: nat)
    requires Issued(plant, log, out) && CyclicRun(log, seconds) && i < |log|
    ensures (forall k | 0 <= k < i :: out[k].schema != "energy") ==> Anchor(log[..i]) == EPOCH
    ensures forall k | 0 <= k < i && out[k].schema == "energy" && IsLastBefore(out, k, i) ::
              Anchor(log[..i]) == log[k].at
  {
    var front := log[..i];
    IntervalsKept(front);
    if forall k | 0 <= k < i :: out[k].schema != "energy" {
      forall j | 0 <= j < i ensures !log[j].entry.Energy? {
        IssuedBody(plant, log, out, j);
      }
      NoneKept(log, IsEnergy(), 0, i);
    }
    forall k | 0 <= k < i && out[k].schema == "energy" && IsLastBefore(out, k, i)
      ensures Anchor(front) == log[k].at
    {
      EnergyOf(plant, log, out, seconds, k);
      NoEnergyBetween(plant, log, out, k, i);
      LastInterval(front, k);
    }
  }

  lemma LastInterval(front: seq<Record>, k: nat)
    requires k < |front| && front[k].entry.Energy? && forall j | k < j < |front| :: !front[j].entry.Energy?
    ensures Anchor(front) == front[k].entry.to
  {
    IntervalsKept(front);
    KeptAt(front, IsEnergy(), k);
    KeptPrefix(front, IsEnergy(), k + 1);
    assert front[..k + 1][..k] == front[..k];
  }

  lemma EnergyIsReadInTime(plant: Plant, log: seq<Record>, out: seq<Envelope>, seconds: real, i: nat)
    requires Issued(plant, log, out) && CyclicRun(log, seconds) && i < |out|
    requires IsEventOf(out[i], "cycle_complete") || IsEventOf(out[i], "start")
    ensures ReadInTime(out, TimesOf(log), i)
  {
    IssuedBody(plant, log, out, i);
    TypeReads(plant, log[i].entry, out[i], "cycle_complete");
    TypeReads(plant, log[i].entry, out[i], "start");
    assert i > 0;
    AnchorIs(plant, log, out, seconds, i);
  }

  // ---- a run of cycles ----------------------------------------------------------------------------

  ghost predicate ReadsAsSummary(plant: Plant, body: Json, runType: string, end: int, last: nat) {
    && Get(body, "run_id") == Some(Str(plant.runId)) && Get(body, "run_type") == Some(Str(runType))
    && Get(body, "start_ts") == Some(Str(plant.iso(EPOCH))) && Get(body, "end_ts") == Some(Str(plant.iso(end)))
    && Get(body, "outcome") == Some(Str("completed"))
    && Inner(body, "event_seq_range", "first") == Some(Int(2))
    && Inner(body, "event_seq_range", "last") == Some(Int(last))
  }

  lemma RangeReads(first: nat, last: nat)
    ensures var range := Obj([Field("first", Int(first)), Field("last", Int(last))]);
            Get(range, "first") == Some(Int(first)) && Get(range, "last") == Some(Int(last))
  {
    var fields := [Field("first", Int(first)), Field("last", Int(last))];
    LookupAt(fields, 0);
    LookupAt(fields, 1);
  }

  ghost predicate HasQuantities(body: Json, quantities: seq<Quantity>) {
    match Get(body, "quantities")
    case Some(Arr(items)) =>
      |items| == |quantities|
      && forall i | 0 <= i < |items| ::
           ReadsQuantity(items[i], quantities[i].name, quantities[i].value, quantities[i].unit)
    case _ => false
  }

  lemma QuantitiesAreRead(plant: Plant, s: Entry)
    requires s.Summary?
    ensures HasQuantities(SummaryBody(plant, s), s.quantities)
  {
    SummaryReads(plant, s);
    forall i | 0 <= i < |s.quantities|
      ensures ReadsQuantity(QuantityItems(s.quantities)[i], s.quantities[i].name, s.quantities[i].value,
                            s.quantities[i].unit)
    {
      QuantityReads(s.quantities[i]);
    }
  }

  // Announced and opened first, ended and summed up last.
  ghost predicate Framed(plant: Plant, out: seq<Envelope>, times: seq<int>, runType: string,
                         quantities: seq<Quantity>)
  {
    && |out| == |times| >= 4
    && var n := |out|;
       && out[0].schema == "machine" && ReadsAnnouncement(plant, out[0].body)
       && IsEventOf(out[1], "run_start") && IsEventOf(out[n - 2], "run_end")
       && times[0] == times[1] == EPOCH && times[n - 2] == times[n - 1]
       && out[n - 1].schema == "process_run"
       && ReadsAsSummary(plant, out[n - 1].body, runType, times[n - 1], n - 1)
       && HasQuantities(out[n - 1].body, quantities)
  }

  lemma LogIsFramed(plant: Plant, log: seq<Record>, out: seq<Envelope>, runType: string, t: int)
    requires Issued(plant, log, out) && |log| >= 4
    requires var n := |log|;
             && log[0] == Record(Announce, EPOCH) && log[1] == Record(RunStart, EPOCH)
             && log[n - 2] == Record(RunEnd, t)
             && log[n - 1].at == t && SumsUp(log[n - 1].entry, runType, t, n - 1)
    ensures Framed(plant, out, TimesOf(log), runType, log[|log| - 1].entry.quantities)
  {
    var n := |log|;
    BoundaryReads(plant, log, out, 1, "run_start");
    BoundaryReads(plant, log, out, n - 2, "run_end");
    IssuedBody(plant, log, out, 0);
    AnnouncementReads(plant);
    SummaryIsRead(plant, log, out, runType, t);
  }

  ghost predicate SumsUp(s: Entry, runType: string, t: int, last: nat) {
    s.Summary? && s.runType == runType && s.begun == EPOCH && s.ended == t && s.first == 2 && s.last == last
  }

  lemma BoundaryReads(plant: Plant, log: seq<Record>, out: seq<Envelope>, i: nat, eventType: string)
    requires Issued(plant, log, out) && i < |log|
    requires SchemaOf(log[i].entry) == "event" && TypeOf(log[i].entry) == eventType
    ensures IsEventOf(out[i], eventType)
  {
    IssuedBody(plant, log, out, i);
    TypeReads(plant, log[i].entry, out[i], eventType);
  }

  lemma SummaryIsRead(plant: Plant, log: seq<Record>, out: seq<Envelope>, runType: string, t: int)
    requires Issued(plant, log, out) && log != [] && SumsUp(log[|log| - 1].entry, runType, t, |log| - 1)
    ensures out[|log| - 1].schema == "process_run"
    ensures ReadsAsSummary(plant, out[|log| - 1].body, runType, t, |log| - 1)
    ensures HasQuantities(out[|log| - 1].body, log[|log| - 1].entry.quantities)
  {
    var s := log[|log| - 1].entry;
    IssuedBody(plant, log, out, |log| - 1);
    SummaryReads(plant, s);
    RangeReads(2, |log| - 1);
    QuantitiesAreRead(plant, s);
  }

  // Everything that a run of cycles promises, in the envelopes themselves.
  ghost predicate CyclicBooks(plant: Plant, out: seq<Envelope>, times: seq<int>) {
    && Timed(plant, out, times)
    && Framed(plant, out, times, "shift", [Quantity("cycles_total", Rank(out, EventsOf("cycle_complete"), |out|), "1")])
    && (forall i | 0 <= i < |out| && IsEventOf(out[i], "cycle_complete") :: CycleCounted(plant, out, times, i))
    && (forall i | 0 <= i < |out| && IsEventOf(out[i], "stop") :: exists k :: Resumed(out, times, i, k))
    && (forall i | 0 <= i < |out| && out[i].schema == "energy" :: EnergyCovers(plant, out, times, i))
    && (forall i | 0 <= i < |out| && (IsEventOf(out[i], "cycle_complete") || IsEventOf(out[i], "start")) ::
          ReadInTime(out, times, i))
  }

  // Whatever the random choices, the n-th cycle is counted as n and took as long as it says, each stop
  // is resumed after the pause that is given, energy is read each hour in intervals that abut from the
  // start on, and the summary counts the cycles and cites the envelopes from start to end.
  lemma CyclicRunKeepsBooks(plant: Plant, log: seq<Record>, out: seq<Envelope>, seconds: real)
    requires Issued(plant, log, out) && CyclicRun(log, seconds)
    ensures CyclicBooks(plant, out, TimesOf(log))
  {
    var n := |log|;
    LogIsTimed(plant, log, out);
    assert log[..n - 2][0] == log[0] && log[..n - 2][1] == log[1];
    LogIsFramed(plant, log, out, "shift", log[n - 1].at);
    CycleKind(plant, log, out);
    RankIs(log, out, IsCycle(), EventsOf("cycle_complete"), n);
    CountsKept(log);
    assert log[..n] == log;
    forall i | 0 <= i < |out| && IsEventOf(out[i], "cycle_complete") ensures CycleCounted(plant, out, TimesOf(log), i) {
      CyclesAreCounted(plant, log, out, seconds, i);
    }
    forall i | 0 <= i < |out| && IsEventOf(out[i], "stop") ensures exists k :: Resumed(out, TimesOf(log), i, k) {
      var k := StopsAreResumed(plant, log, out, seconds, i);
    }
    forall i | 0 <= i < |out| && out[i].schema == "energy" ensures EnergyCovers(plant, out, TimesOf(log), i) {
      EnergyIsCovered(plant, log, out, seconds, i);
    }
    forall i | 0 <= i < |out| && (IsEventOf(out[i], "cycle_complete") || IsEventOf(out[i], "start"))
      ensures ReadInTime(out, TimesOf(log), i)
    {
      EnergyIsReadInTime(plant, log, out, seconds, i);
    }
  }

  // ---- a batch ---------------------------------------------------------------------------------

  const PHASES: seq<string> := ["load", "heat", "hold", "cool", "rinse", "drain", "unload"]
  const SHARES: seq<real> := [0.05, 0.15, 0.35, 0.10, 0.20, 0.05, 0.10]
  const COLDEST: seq<int> := [29, 30, 59, 40, 39, 39, 39]
  const HOTTEST: seq<int> := [31, 60, 61, 60, 41, 41, 41]

  // The instants at which phases begin, and at which the last one ends.
  ghost predicate Shared(bounds: seq<int>, seconds: real) {
    && |bounds| == 8 && bounds[0] == EPOCH
    && forall i | 0 <= i < 7 :: bounds[i + 1] - bounds[i] == Micros(PhaseTime(seconds, SHARES[i]))
  }

  ghost predicate ReadsParams(params: Json, i: int, fabricKg: int) {
    match i
    case 0 => Get(params, "fabric_kg") == Some(Int(fabricKg))
    case 1 => Get(params, "from_c") == Some(Int(30)) && Get(params, "to_c") == Some(Int(60))
              && Get(params, "gradient_c_per_min") == Some(Int(2))
    case 2 => Get(params, "temp_c") == Some(Int(60)) && Get(params, "duration_min") == Some(Int(45))
    case 3 => Get(params, "from_c") == Some(Int(60)) && Get(params, "to_c") == Some(Int(40))
              && Get(params, "gradient_c_per_min") == Some(Int(2))
    case 4 => Get(params, "cycles") == Some(Int(2)) && Get(params, "temp_c") == Some(Int(40))
    case _ => params == Obj([])
  }

  ghost predicate ReadsPhaseRow(plant: Plant, item: Json, i: int, bounds: seq<int>, fabricKg: int)
    requires 0 <= i < 7 && |bounds| == 8
  {
    && Get(item, "name") == Some(Str(PHASES[i]))
    && Get(item, "start_ts") == Some(Str(plant.iso(bounds[i])))
    && Get(item, "end_ts") == Some(Str(plant.iso(bounds[i + 1])))
    && Get(item, "params").Some? && ReadsParams(Get(item, "params").value, i, fabricKg)
  }

  ghost predicate ReadsPhaseRows(plant: Plant, body: Json, bounds: seq<int>, fabricKg: int)
    requires |bounds| == 8
  {
    match Get(body, "phases")
    case Some(Arr(items)) =>
      |items| == 7 && forall i | 0 <= i < 7 :: ReadsPhaseRow(plant, items[i], i, bounds, fabricKg)
    case _ => false
  }

  // Block r of bath temperatures covers phase r, sampled every ten seconds.
  ghost predicate BathMeasured(plant: Plant, e: Envelope, r: int, bounds: seq<int>, seconds: real)
    requires |bounds| == 8
  {
    && 0 <= r < 7
    && exists block: Entry | block.Telemetry? ::
         && ReadsBlock(plant, e.body, block) && block.begin == bounds[r] && block.end == bounds[r + 1]
         && block.lo == COLDEST[r] && block.hi == HOTTEST[r] && block.avg == (COLDEST[r] + HOTTEST[r]) / 2
         && SampledEveryTen(block.samples, PhaseTime(seconds, SHARES[r]))
  }

  // Phases begin and end one at a time, in order, and under their names.
  ghost predicate PhaseMarked(plant: Plant, out: seq<Envelope>, i: nat)
    requires i < |out|
  {
    var begun, ended := Rank(out, EventsOf("phase_start"), i), Rank(out, EventsOf("phase_end"), i);
    && (IsEventOf(out[i], "phase_start") ==>
          begun == ended < 7 && ReadsPhase(plant, out[i].body, "phase_start", PHASES[begun]))
    && (IsEventOf(out[i], "phase_end") ==>
          begun == ended + 1 <= 7 && ReadsPhase(plant, out[i].body, "phase_end", PHASES[ended]))
  }

  // Everything that a batch promises, in the envelopes themselves.
  ghost predicate DyeBooks(plant: Plant, out: seq<Envelope>, times: seq<int>, bounds: seq<int>, seconds: real,
                           fabricKg: int, kwh: int)
  {
    && Timed(plant, out, times)
    && Framed(plant, out, times, "batch",
              [Quantity("fabric_kg", fabricKg, "kg"), Quantity("water_l_total", 4 * fabricKg, "L")])
    && BatchBooks(plant, out, bounds, seconds, fabricKg, kwh) && times[|out| - 1] == bounds[7]
  }

  ghost predicate BatchBooks(plant: Plant, out: seq<Envelope>, bounds: seq<int>, seconds: real,
                             fabricKg: int, kwh: int)
  {
    && |out| >= 4 && Shared(bounds, seconds)
    && var n := |out|;
       && ReadsPhaseRows(plant, out[n - 1].body, bounds, fabricKg)
       && out[n - 3].schema == "energy" && ReadsEnergy(plant, out[n - 3].body, EPOCH, bounds[7], kwh, "submeter")
       && Rank(out, OfSchema("energy"), n) == 1 && Rank(out, OfSchema("telemetry"), n) == 7
       && Rank(out, EventsOf("phase_start"), n) == Rank(out, EventsOf("phase_end"), n) == 7
       && (forall i | 0 <= i < n && out[i].schema == "telemetry" ::
             BathMeasured(plant, out[i], Rank(out, OfSchema("telemetry"), i), bounds, seconds))
       && forall i | 0 <= i < n :: PhaseMarked(plant, out, i)
  }

  lemma PlanIs(i: int)
    requires 0 <= i < 7
    ensures |PLAN| == 7 && PLAN[i].name == PHASES[i] && PLAN[i].share == SHARES[i]
  {
  }

  lemma BathIs(i: int)
    requires 0 <= i < 7
    ensures BathAt(PLAN[i].name, Found(PLAN, i)) == (COLDEST[i], HOTTEST[i])
  {
    assert Found(PLAN, 0) == 30;
    assert Found(PLAN, 1) == 30;
    assert Found(PLAN, 2) == 60;
    assert Found(PLAN, 3) == 60;
    assert Found(PLAN, 4) == 40;
    assert Found(PLAN, 5) == 40;
    assert Found(PLAN, 6) == 40;
  }

  function BoundsOf(rows: seq<PhaseRow>): (bounds: seq<int>)
    ensures |bounds| == |rows| + 1 && bounds[0] == EPOCH
    ensures forall i | 0 <= i < |rows| :: bounds[i + 1] == rows[i].end
  {
    [EPOCH] + seq(|rows|, i requires 0 <= i < |rows| => rows[i].end)
  }

  lemma RowBounds(rows: seq<PhaseRow>, seconds: real, fabricKg: int, t: int, i: int)
    requires RowsFollow(PLAN, rows, 7, seconds, fabricKg, t) && 0 <= i < 7
    ensures var bounds := BoundsOf(rows);
      && rows[i].start == bounds[i] && rows[i].end == bounds[i + 1]
      && rows[i].name == PHASES[i] && rows[i].params == ParamsOf(PHASES[i], fabricKg)
      && bounds[i + 1] - bounds[i] == Micros(PhaseTime(seconds, SHARES[i]))
  {
    PlanIs(i);
    assert RowFollows(PLAN, rows, i, seconds, fabricKg);
  }

  lemma ParamsRead(i: int, fabricKg: int)
    requires 0 <= i < 7
    ensures ReadsParams(ParamsOf(PHASES[i], fabricKg), i, fabricKg)
  {
    var fields := ParamsOf(PHASES[i], fabricKg).fields;
    if 0 < |fields| {
      LookupAt(fields, 0);
    }
    if 1 < |fields| {
      LookupAt(fields, 1);
    }
    if 2 < |fields| {
      LookupAt(fields, 2);
    }
  }

  lemma PhaseRowsAreRead(plant: Plant, s: Entry, seconds: real, fabricKg: int, t: int)
    requires s.Summary? && RowsFollow(PLAN, s.phases, 7, seconds, fabricKg, t)
    ensures ReadsPhaseRows(plant, SummaryBody(plant, s), BoundsOf(s.phases), fabricKg)
  {
    SummaryReads(plant, s);
    var items := PhaseItems(s.phases, plant.iso);
    forall i | 0 <= i < 7 ensures ReadsPhaseRow(plant, items[i], i, BoundsOf(s.phases), fabricKg) {
      RowReads(plant, s.phases[i]);
      RowBounds(s.phases, seconds, fabricKg, t, i);
      ParamsRead(i, fabricKg);
    }
  }

  lemma BlockOfRank(plant: Plant, log: seq<Record>, out: seq<Envelope>, i: nat)
    requires Issued(plant, log, out) && i < |out| && out[i].schema == "telemetry"
    ensures var r := Rank(out, OfSchema("telemetry"), i);
      && r < |Telemetries(log)| && Telemetries(log)[r] == log[i].entry && log[i].entry.Telemetry?
      && out[i].body == BodyOf(plant, log[i].entry)
  {
    SchemaKind(plant, log, out, "telemetry", IsTelemetry());
    EntryOfRank(log, out, IsTelemetry(), OfSchema("telemetry"), i);
    PhasesKept(log);
    IssuedBody(plant, log, out, i);
  }

  lemma BathIsMeasured(plant: Plant, log: seq<Record>, out: seq<Envelope>, rows: seq<PhaseRow>, seconds: real,
                       fabricKg: int, t: int, i: nat)
    requires Issued(plant, log, out) && i < |out| && out[i].schema == "telemetry"
    requires RowsFollow(PLAN, rows, 7, seconds, fabricKg, t) && Measured(PLAN, Telemetries(log), rows, 7, seconds)
    ensures BathMeasured(plant, out[i], Rank(out, OfSchema("telemetry"), i), BoundsOf(rows), seconds)
  {
    var r := Rank(out, OfSchema("telemetry"), i);
    BlockOfRank(plant, log, out, i);
    var block := log[i].entry;
    assert Measures(PLAN, Telemetries(log)[r], rows[r], r, seconds);
    RowBounds(rows, seconds, fabricKg, t, r);
    BlockIs(block, rows[r], r, seconds);
    BlockReads(plant, block);
  }

  lemma BlockIs(block: Entry, row: PhaseRow, r: int, seconds: real)
    requires 0 <= r < 7 && Measures(PLAN, block, row, r, seconds)
    ensures block.Telemetry? && block.begin == row.start && block.end == row.end
    ensures block.lo == COLDEST[r] && block.hi == HOTTEST[r] && block.avg == (COLDEST[r] + HOTTEST[r]) / 2
    ensures SampledEveryTen(block.samples, PhaseTime(seconds, SHARES[r]))
  {
    PlanIs(r);
    BathIs(r);
  }

  function IsBegin(): Entry -> bool {
    (entry: Entry) => entry.PhaseStart?
  }

  function IsEnd(): Entry -> bool {
    (entry: Entry) => entry.PhaseEnd?
  }

  // Among alternating marks the first, third, fifth … are beginnings and the others ends.
  lemma {:induction false} Alternate(plan: seq<Planned>, log: seq<Record>, k: nat, n: nat)
    requires k <= |plan| && OneAtATime(plan, Kept(log, IsPhaseMark()), k) && n <= |log|
    ensures var marks := |Kept(log[..n], IsPhaseMark())|;
            |Kept(log[..n], IsBegin())| == (marks + 1) / 2 && |Kept(log[..n], IsEnd())| == marks / 2
  {
    if n > 0 {
      Alternate(plan, log, k, n - 1);
      assert log[..n][..n - 1] == log[..n - 1] && log[..n][n - 1] == log[n - 1];
      if IsPhaseMark()(log[n - 1].entry) {
        MarkAt(plan, log, k, n - 1);
      }
    }
  }

  // The mark of record i, by how many came before it.
  lemma MarkAt(plan: seq<Planned>, log: seq<Record>, k: nat, i: nat)
    requires k <= |plan| && OneAtATime(plan, Kept(log, IsPhaseMark()), k)
    requires i < |log| && IsPhaseMark()(log[i].entry)
    ensures var marks := |Kept(log[..i], IsPhaseMark())|;
      && marks < 2 * k
      && log[i].entry == if marks % 2 == 0 then PhaseStart(plan[marks / 2].name) else PhaseEnd(plan[marks / 2].name)
  {
    KeptAt(log, IsPhaseMark(), i);
    var marks := |Kept(log[..i], IsPhaseMark())|;
    assert marks == 2 * (marks / 2) + marks % 2;
  }

  lemma PhaseRanks(plant: Plant, log: seq<Record>, out: seq<Envelope>, n: nat)
    requires Issued(plant, log, out) && n <= |out|
    ensures Rank(out, EventsOf("phase_start"), n) == |Kept(log[..n], IsBegin())|
    ensures Rank(out, EventsOf("phase_end"), n) == |Kept(log[..n], IsEnd())|
  {
    EventKind(plant, log, out, "phase_start", IsBegin());
    EventKind(plant, log, out, "phase_end", IsEnd());
    RankIs(log, out, IsBegin(), EventsOf("phase_start"), n);
    RankIs(log, out, IsEnd(), EventsOf("phase_end"), n);
  }

  lemma PhaseIsMarked(plant: Plant, log: seq<Record>, out: seq<Envelope>, i: nat)
    requires Issued(plant, log, out) && i < |out| && OneAtATime(PLAN, Kept(log, IsPhaseMark()), 7)
    ensures PhaseMarked(plant, out, i)
  {
    var entry := log[i].entry;
    PhaseRanks(plant, log, out, i);
    Alternate(PLAN, log, 7, i);
    IssuedBody(plant, log, out, i);
    TypeReads(plant, entry, out[i], "phase_start");
    TypeReads(plant, entry, out[i], "phase_end");
    if IsPhaseMark()(entry) {
      MarkAt(PLAN, log, 7, i);
      PlanIs(|Kept(log[..i], IsPhaseMark())| / 2);
      PhaseReads(plant, entry.name);
    }
  }

  lemma {:induction false} KeptPrefix(log: seq<Record>, keep: Entry -> bool, n: nat)
    requires n <= |log| && forall j | n <= j < |log| :: !keep(log[j].entry)
    ensures Kept(log, keep) == Kept(log[..n], keep)
  {
    if n < |log| {
      KeptPrefix(log[..|log| - 1], keep, n);
      assert log[..|log| - 1][..n] == log[..n];
    } else {
      assert log[..n] == log;
    }
  }

  // A batch up to its last three records, which are its energy, its end and its summary.
  ghost predicate Closes(log: seq<Record>, front: seq<Record>) {
    && |log| == |front| + 3 && log[..|front|] == front
    && log[|front|].entry.Energy? && log[|front| + 1].entry.RunEnd? && log[|front| + 2].entry.Summary?
  }

  lemma DyeParts(log: seq<Record>, seconds: real, rows: seq<PhaseRow>, fabricKg: int, kwh: int)
    requires DyeRun(PLAN, log, seconds, rows, fabricKg, kwh)
    ensures |PLAN| == 7 && Closes(log, log[..|log| - 3]) && Begun(log[..|log| - 3])
    ensures OneAtATime(PLAN, PhaseMarks(log[..|log| - 3]), 7)
    ensures RowsFollow(PLAN, rows, 7, seconds, fabricKg, log[|log| - 1].at)
    ensures Measured(PLAN, Telemetries(log[..|log| - 3]), rows, 7, seconds)
    ensures EndsWith(log, rows, kwh, log[|log| - 1].at)
  {
  }

  ghost predicate EndsWith(log: seq<Record>, rows: seq<PhaseRow>, kwh: int, t: int) {
    && |log| >= 3 && log[|log| - 3].entry == Energy(EPOCH, t, kwh, "submeter")
    && log[|log| - 1].entry.Summary? && log[|log| - 1].entry.phases == rows
  }

  lemma FrontKeeps(log: seq<Record>, front: seq<Record>)
    requires Closes(log, front)
    ensures Kept(log, IsTelemetry()) == Telemetries(front) == Telemetries(log)
    ensures Kept(log, IsPhaseMark()) == PhaseMarks(front)
  {
    KeptPrefix(log, IsTelemetry(), |front|);
    KeptPrefix(log, IsPhaseMark(), |front|);
    PhasesKept(front);
    PhasesKept(log);
  }

  // The only energy reading of a batch is the third envelope from the end.
  lemma {:induction false} NoEnergyYet(log: seq<Record>)
    requires Begun(log)
    ensures |Kept(log, IsEnergy())| == 0
  {
    NoneKept(log, IsEnergy(), 0, |log|);
    assert log[..|log|] == log;
    forall j | 0 <= j < |log| ensures !log[j].entry.Energy? {
      assert j >= 2 ==> BatchEntry(log[j].entry);
    }
  }

  lemma OneEnergy(plant: Plant, log: seq<Record>, out: seq<Envelope>, front: seq<Record>)
    requires Issued(plant, log, out) && Closes(log, front) && Begun(front)
    ensures Rank(out, OfSchema("energy"), |out|) == 1
  {
    var n := |front|;
    EnergyRank(plant, log, out, n + 3);
    NoEnergyYet(front);
    assert log[..n + 3] == log;
    KeptPrefix(log, IsEnergy(), n + 1);
    assert log[..n + 1][..n] == front;
  }

  lemma {:induction false} PhasesKept(log: seq<Record>)
    ensures Telemetries(log) == Kept(log, IsTelemetry()) && PhaseMarks(log) == Kept(log, IsPhaseMark())
  {
    if log != [] {
      PhasesKept(log[..|log| - 1]);
    }
  }

  function IsTelemetry(): Entry -> bool {
    (entry: Entry) => entry.Telemetry?
  }

  function IsPhaseMark(): Entry -> bool {
    (entry: Entry) => entry.PhaseStart? || entry.PhaseEnd?
  }

  lemma BatchIsFramed(plant: Plant, log: seq<Record>, out: seq<Envelope>, seconds: real, rows: seq<PhaseRow>,
                      fabricKg: int, kwh: int)
    requires Issued(plant, log, out) && DyeRun(PLAN, log, seconds, rows, fabricKg, kwh)
    ensures Framed(plant, out, TimesOf(log), "batch",
                   [Quantity("fabric_kg", fabricKg, "kg"), Quantity("water_l_total", 4 * fabricKg, "L")])
  {
    var n := |log|;
    assert log[..n - 3][0] == log[0] && log[..n - 3][1] == log[1];
    LogIsFramed(plant, log, out, "batch", log[n - 1].at);
  }

  lemma BatchCounts(plant: Plant, log: seq<Record>, out: seq<Envelope>, front: seq<Record>,
                    rows: seq<PhaseRow>, seconds: real)
    requires Issued(plant, log, out) && Closes(log, front) && |PLAN| == 7
    requires OneAtATime(PLAN, PhaseMarks(front), 7) && Measured(PLAN, Telemetries(front), rows, 7, seconds)
    ensures Rank(out, OfSchema("telemetry"), |out|) == 7
    ensures Rank(out, EventsOf("phase_start"), |out|) == Rank(out, EventsOf("phase_end"), |out|) == 7
  {
    FrontKeeps(log, front);
    TelemetryCount(plant, log, out);
    PhaseCount(plant, log, out, PLAN, 7);
  }

  lemma PhaseCount(plant: Plant, log: seq<Record>, out: seq<Envelope>, plan: seq<Planned>, k: nat)
    requires Issued(plant, log, out) && k <= |plan| && OneAtATime(plan, Kept(log, IsPhaseMark()), k)
    ensures Rank(out, EventsOf("phase_start"), |out|) == Rank(out, EventsOf("phase_end"), |out|) == k
  {
    PhaseRanks(plant, log, out, |log|);
    AlternateToEnd(plan, log, k);
    assert log[..|log|] == log;
  }

  lemma AlternateToEnd(plan: seq<Planned>, log: seq<Record>, k: nat)
    requires k <= |plan| && OneAtATime(plan, Kept(log, IsPhaseMark()), k)
    ensures |Kept(log, IsBegin())| == |Kept(log, IsEnd())| == k
  {
    Alternate(plan, log, k, |log|);
    assert log[..|log|] == log;
  }

  lemma TelemetryCount(plant: Plant, log: seq<Record>, out: seq<Envelope>)
    requires Issued(plant, log, out)
    ensures Rank(out, OfSchema("telemetry"), |out|) == |Kept(log, IsTelemetry())|
  {
    SchemaKind(plant, log, out, "telemetry", IsTelemetry());
    RankIs(log, out, IsTelemetry(), OfSchema("telemetry"), |log|);
    assert log[..|log|] == log;
  }

  // The counts, and what each block and each phase event reads as.
  lemma BatchReads(plant: Plant, log: seq<Record>, out: seq<Envelope>, front: seq<Record>, rows: seq<PhaseRow>,
                   seconds: real, fabricKg: int, t: int)
    requires Issued(plant, log, out) && Closes(log, front) && |PLAN| == 7
    requires OneAtATime(PLAN, PhaseMarks(front), 7) && Measured(PLAN, Telemetries(front), rows, 7, seconds)
    requires RowsFollow(PLAN, rows, 7, seconds, fabricKg, t)
    ensures forall i | 0 <= i < |out| && out[i].schema == "telemetry" ::
              BathMeasured(plant, out[i], Rank(out, OfSchema("telemetry"), i), BoundsOf(rows), seconds)
    ensures forall i | 0 <= i < |out| :: PhaseMarked(plant, out, i)
  {
    FrontKeeps(log, front);
    forall i | 0 <= i < |out| && out[i].schema == "telemetry"
      ensures BathMeasured(plant, out[i], Rank(out, OfSchema("telemetry"), i), BoundsOf(rows), seconds)
    {
      BathIsMeasured(plant, log, out, rows, seconds, fabricKg, t, i);
    }
    forall i | 0 <= i < |out| ensures PhaseMarked(plant, out, i) {
      PhaseIsMarked(plant, log, out, i);
    }
  }

  lemma BatchEnds(plant: Plant, log: seq<Record>, out: seq<Envelope>, seconds: real, rows: seq<PhaseRow>,
                  fabricKg: int, kwh: int, t: int)
    requires Issued(plant, log, out) && EndsWith(log, rows, kwh, t) && RowsFollow(PLAN, rows, 7, seconds, fabricKg, t)
    ensures var n, bounds := |out|, BoundsOf(rows);
      && Shared(bounds, seconds) && t == bounds[7] && ReadsPhaseRows(plant, out[n - 1].body, bounds, fabricKg)
      && out[n - 3].schema == "energy" && ReadsEnergy(plant, out[n - 3].body, EPOCH, bounds[7], kwh, "submeter")
  {
    var n := |log|;
    BatchIsShared(rows, seconds, fabricKg, t);
    IssuedBody(plant, log, out, n - 1);
    PhaseRowsAreRead(plant, log[n - 1].entry, seconds, fabricKg, t);
    IssuedBody(plant, log, out, n - 3);
    EnergyReads(plant, EPOCH, t, kwh, "submeter");
  }

  // Whatever the random choices, a batch goes through its seven phases one at a time, each for its share
  // of the duration, with one block of bath temperatures over it, one energy reading over all of it, and
  // a summary whose rows are those phases.
  lemma DyeRunKeepsBooks(plant: Plant, log: seq<Record>, out: seq<Envelope>, seconds: real, rows: seq<PhaseRow>,
                         fabricKg: int, kwh: int)
    requires Issued(plant, log, out) && DyeRun(PLAN, log, seconds, rows, fabricKg, kwh)
    ensures DyeBooks(plant, out, TimesOf(log), BoundsOf(rows), seconds, fabricKg, kwh)
  {
    LogIsTimed(plant, log, out);
    BatchIsFramed(plant, log, out, seconds, rows, fabricKg, kwh);
    DyeParts(log, seconds, rows, fabricKg, kwh);
    BatchIsKept(plant, log, out, log[..|log| - 3], seconds, rows, fabricKg, kwh, log[|log| - 1].at);
  }

  lemma BatchIsKept(plant: Plant, log: seq<Record>, out: seq<Envelope>, front: seq<Record>, seconds: real,
                    rows: seq<PhaseRow>, fabricKg: int, kwh: int, t: int)
    requires Issued(plant, log, out) && Closes(log, front) && Begun(front) && |PLAN| == 7
    requires OneAtATime(PLAN, PhaseMarks(front), 7) && Measured(PLAN, Telemetries(front), rows, 7, seconds)
    requires RowsFollow(PLAN, rows, 7, seconds, fabricKg, t) && EndsWith(log, rows, kwh, t)
    ensures BatchBooks(plant, out, BoundsOf(rows), seconds, fabricKg, kwh) && t == BoundsOf(rows)[7]
  {
    BatchCounts(plant, log, out, front, rows, seconds);
    OneEnergy(plant, log, out, front);
    BatchEnds(plant, log, out, seconds, rows, fabricKg, kwh, t);
    BatchReads(plant, log, out, front, rows, seconds, fabricKg, t);
  }

  lemma BatchIsShared(rows: seq<PhaseRow>, seconds: real, fabricKg: int, t: int)
    requires RowsFollow(PLAN, rows, 7, seconds, fabricKg, t)
    ensures Shared(BoundsOf(rows), seconds) && BoundsOf(rows)[7] == t
  {
    forall i | 0 <= i < 7 ensures BoundsOf(rows)[i + 1] - BoundsOf(rows)[i] == Micros(PhaseTime(seconds, SHARES[i])) {
      RowBounds(rows, seconds, fabricKg, t, i);
    }
  }
}
