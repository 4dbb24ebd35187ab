/** gateway/omp/cli.py: the machines that a gateway runs, and what a reload of its registry does to them. */
module Reloads {
  import opened Wrappers
  import opened Registries

  // An adapter instance is known by the number of its creation.
  datatype Entry = Entry(adapter: nat, spec: MachineSpec)

  type Running = map<string, Entry>

  // What becomes of importing an adapter: its class, an exception, or an exit of the interpreter
  // where there is no module or no class.
  datatype Loading = Loads | Raises | Missing

  // Refused, or the process ends: by an exit while importing, or by an exception while stopping or
  // building an adapter, which comes when machines are already being stopped and started.
  datatype Outcome = Refused | Exits | Crashes | Applied

  // What becomes of starting a machine.
  datatype Start = Runs | ProbeFails | Raised

  function Wanted(specs: seq<MachineSpec>): (w: map<string, MachineSpec>)
    requires DistinctIds(specs)
    ensures forall id | id in w :: w[id].machineId == id
  {
    map i | 0 <= i < |specs| :: specs[i].machineId := specs[i]
  }

  function Removed(running: Running, wanted: map<string, MachineSpec>): set<string> {
    running.Keys - wanted.Keys
  }

  function Changed(running: Running, wanted: map<string, MachineSpec>): set<string> {
    set id | id in running && id in wanted && running[id].spec != wanted[id]
  }

  function Kept(running: Running, wanted: map<string, MachineSpec>): set<string> {
    set id | id in running && id in wanted && running[id].spec == wanted[id]
  }

  function Added(running: Running, wanted: map<string, MachineSpec>): set<string> {
    wanted.Keys - running.Keys
  }

  function AdaptersOf(running: Running, ids: set<string>): set<nat>
    requires ids <= running.Keys
  {
    set id | id in ids :: running[id].adapter
  }

  // ---- what a reload promises --------------------------------------------------------------

  // The wanted machines run, save those that failed to start; those whose entry did not change
  // run on the same adapter as before, and every other on a new one.
  ghost predicate Reconciled(before: Running, wanted: map<string, MachineSpec>, after: Running,
                             failed: set<string>, next: nat)
  {
    && failed <= Changed(before, wanted) + Added(before, wanted)
    && after.Keys == wanted.Keys - failed
    && (forall id | id in after :: after[id].spec == wanted[id])
    && (forall id | id in after && id in Kept(before, wanted) :: after[id] == before[id])
    && (forall id | id in after && id !in Kept(before, wanted) :: next <= after[id].adapter)
  }

  lemma Partition(running: Running, wanted: map<string, MachineSpec>)
    ensures running.Keys == Removed(running, wanted) + Changed(running, wanted) + Kept(running, wanted)
    ensures wanted.Keys == Changed(running, wanted) + Kept(running, wanted) + Added(running, wanted)
    ensures Removed(running, wanted) !! Changed(running, wanted) && Changed(running, wanted) !! Kept(running, wanted)
  {
  }

  // Reloading the same registry again touches only the machines that failed to start.
  lemma SecondReloadRetriesFailures(before: Running, wanted: map<string, MachineSpec>, after: Running,
                                    failed: set<string>, next: nat)
    requires Reconciled(before, wanted, after, failed, next)
    ensures Removed(after, wanted) == {} && Changed(after, wanted) == {}
    ensures Added(after, wanted) == failed && Kept(after, wanted) == after.Keys
  {
    Partition(before, wanted);
  }

  // `done` machines were started anew, save those that failed; no other was touched.
  ghost predicate Restarted(before: Running, wanted: map<string, MachineSpec>, after: Running,
                            done: set<string>, failed: set<string>, next: nat)
  {
    failed <= done <= wanted.Keys && forall id :: RestartedAt(before, wanted, after, done, failed, next, id)
  }

  ghost predicate RestartedAt(before: Running, wanted: map<string, MachineSpec>, after: Running,
                              done: set<string>, failed: set<string>, next: nat, id: string)
    requires done <= wanted.Keys
  {
    && (id in after <==> (id in before || id in done) && id !in failed)
    && (id in after ==> if id in done then after[id].spec == wanted[id] && next <= after[id].adapter
                        else after[id] == before[id])
  }

  ghost predicate SameElsewhere(mid: Running, after: Running, id: string) {
    forall other | other != id :: (other in after <==> other in mid) && (other in after ==> after[other] == mid[other])
  }

  lemma NoneRestarted(before: Running, wanted: map<string, MachineSpec>, next: nat)
    ensures Restarted(before, wanted, before, {}, {}, next)
  {
  }

  lemma OneRestarted(before: Running, wanted: map<string, MachineSpec>, mid: Running, after: Running,
                     done: set<string>, failed: set<string>, next: nat, id: string, ok: bool)
    requires Restarted(before, wanted, mid, done, failed, next) && id in wanted && id !in done
    requires SameElsewhere(mid, after, id)
    requires id in after <==> ok
    requires ok ==> after[id].spec == wanted[id] && next <= after[id].adapter
    ensures Restarted(before, wanted, after, done + {id}, if ok then failed else failed + {id}, next)
  {
    var failures := if ok then failed else failed + {id};
    forall other ensures RestartedAt(before, wanted, after, done + {id}, failures, next, other) {
      assert RestartedAt(before, wanted, mid, done, failed, next, other);
    }
  }

  lemma Reconciles(before: Running, wanted: map<string, MachineSpec>, afterStops: Running, afterRestarts: Running,
                   after: Running, failedRestarts: set<string>, failedStarts: set<string>, next: nat)
    requires afterStops == before - Removed(before, wanted)
    requires Restarted(afterStops, wanted, afterRestarts, Changed(before, wanted), failedRestarts, next)
    requires Restarted(afterRestarts, wanted, after, Added(before, wanted), failedStarts, next)
    ensures Reconciled(before, wanted, after, failedRestarts + failedStarts, next)
  {
    Partition(before, wanted);
    var changed, added, failed := Changed(before, wanted), Added(before, wanted), failedRestarts + failedStarts;
    forall id ensures (id in after <==> id in wanted && id !in failed)
                      && (id in after ==>
                            && after[id].spec == wanted[id]
                            && if id in Kept(before, wanted) then after[id] == before[id]
                               else next <= after[id].adapter)
    {
      assert RestartedAt(afterStops, wanted, afterRestarts, changed, failedRestarts, next, id);
      assert RestartedAt(afterRestarts, wanted, after, added, failedStarts, next, id);
    }
    assert after.Keys == wanted.Keys - failed;
  }

  lemma AddedStillMissing(before: Running, wanted: map<string, MachineSpec>, afterStops: Running,
                          afterRestarts: Running, failed: set<string>, next: nat)
    requires afterStops == before - Removed(before, wanted)
    requires Restarted(afterStops, wanted, afterRestarts, Changed(before, wanted), failed, next)
    ensures Added(before, wanted) !! afterRestarts.Keys
  {
    forall id | id in Added(before, wanted) ensures id !in afterRestarts {
      assert RestartedAt(afterStops, wanted, afterRestarts, Changed(before, wanted), failed, next, id);
    }
  }

  lemma LaterStarts(before: Running, wanted: map<string, MachineSpec>, after: Running, done: set<string>,
                    failed: set<string>, next: nat, later: nat)
    requires Restarted(before, wanted, after, done, failed, later) && next <= later
    ensures Restarted(before, wanted, after, done, failed, next)
  {
    forall id ensures RestartedAt(before, wanted, after, done, failed, next, id) {
      assert RestartedAt(before, wanted, after, done, failed, later, id);
    }
  }

  // Exactly the adapters of these machines stopped, each once.
  ghost predicate StoppedOnce(was: multiset<nat>, now: multiset<nat>, running: Running, ids: set<string>) {
    ids <= running.Keys && now == was + multiset(AdaptersOf(running, ids))
  }

  lemma OneMoreDone(ids: set<string>, done: set<string>, rest: set<string>, id: string)
    requires done + rest == ids && done !! rest && id in rest
    ensures (done + {id}) + (rest - {id}) == ids && (done + {id}) !! (rest - {id})
  {
  }

  lemma LessOneMore(running: Running, ids: set<string>, id: string)
    ensures running - ids - {id} == running - (ids + {id})
  {
  }

  lemma StoppedNone(was: multiset<nat>, running: Running)
    ensures StoppedOnce(was, was, running, {})
  {
    assert AdaptersOf(running, {}) == {};
  }

  ghost predicate OwnAdapters(running: Running) {
    forall a, b | a in running && b in running && a != b :: running[a].adapter != running[b].adapter
  }

  lemma StoppedOneMore(was: multiset<nat>, mid: multiset<nat>, now: multiset<nat>, running: Running,
                       ids: set<string>, id: string)
    requires StoppedOnce(was, mid, running, ids) && id in running && id !in ids && OwnAdapters(running)
    requires now == mid + multiset{running[id].adapter}
    ensures StoppedOnce(was, now, running, ids + {id})
  {
    AdaptersGrow(running, ids, id);
  }

  lemma AdaptersGrow(running: Running, ids: set<string>, id: string)
    requires ids <= running.Keys && id in running && id !in ids
    requires OwnAdapters(running)
    ensures multiset(AdaptersOf(running, ids + {id}))
            == multiset(AdaptersOf(running, ids)) + multiset{running[id].adapter}
  {
    assert AdaptersOf(running, ids + {id}) == AdaptersOf(running, ids) + {running[id].adapter};
    assert running[id].adapter !in AdaptersOf(running, ids);
  }

  lemma StoppedBoth(was: multiset<nat>, mid: multiset<nat>, now: multiset<nat>, running: Running,
                    a: set<string>, b: set<string>, later: Running)
    requires a <= running.Keys && b <= running.Keys && a !! b && later == running - a && OwnAdapters(running)
    requires StoppedOnce(was, mid, running, a) && StoppedOnce(mid, now, later, b)
    ensures StoppedOnce(was, now, running, a + b)
  {
    assert AdaptersOf(later, b) == AdaptersOf(running, b);
    assert AdaptersOf(running, a + b) == AdaptersOf(running, a) + AdaptersOf(running, b);
    assert AdaptersOf(running, a) !! AdaptersOf(running, b);
  }

  // ---- whether a reload is applied ---------------------------------------------------------

  // The first import that does not succeed decides.
  function FirstFailure(specs: seq<MachineSpec>, loading: string -> Loading): Loading {
    if specs == [] then Loads
    else if loading(specs[0].adapter) != Loads then loading(specs[0].adapter)
    else FirstFailure(specs[1..], loading)
  }

  // Which adapters can be built from their configuration, and which stop without an exception.
  type Builds = MachineSpec -> bool
  type Stops = Entry -> bool

  predicate AllBuild(ids: set<string>, wanted: map<string, MachineSpec>, builds: Builds) {
    forall id | id in ids && id in wanted :: builds(wanted[id])
  }

  predicate AllStop(ids: set<string>, running: Running, stops: Stops) {
    forall id | id in ids && id in running :: stops(running[id])
  }

  // The machines that a reload stops, and those that it starts.
  function Leaving(running: Running, wanted: map<string, MachineSpec>): set<string> {
    Removed(running, wanted) + Changed(running, wanted)
  }

  function Affected(running: Running, wanted: map<string, MachineSpec>): set<string> {
    Changed(running, wanted) + Added(running, wanted)
  }

  predicate Smooth(running: Running, wanted: map<string, MachineSpec>, builds: Builds, stops: Stops) {
    AllStop(Leaving(running, wanted), running, stops) && AllBuild(Affected(running, wanted), wanted, builds)
  }

  lemma SmoothParts(running: Running, wanted: map<string, MachineSpec>, afterStops: Running,
                    builds: Builds, stops: Stops)
    requires afterStops == running - Removed(running, wanted)
    ensures Smooth(running, wanted, builds, stops)
            <==> AllStop(Removed(running, wanted), running, stops)
                 && AllStop(Changed(running, wanted), afterStops, stops)
                 && AllBuild(Changed(running, wanted), wanted, builds)
                 && AllBuild(Added(running, wanted), wanted, builds)
  {
    Partition(running, wanted);
  }

  function OutcomeOf(registry: RawRegistry, loading: string -> Loading, builds: Builds, stops: Stops, running: Running)
    : Outcome
  {
    if registry.None? || !Acceptable(registry.value) then Refused
    else match FirstFailure(SpecsOf(registry.value), loading)
      case Loads =>
        if Smooth(running, Wanted(SpecsOf(registry.value)), builds, stops) then Applied else Crashes
      case Raises => Refused
      case Missing => Exits
  }

  lemma {:induction false} FirstIs(specs: seq<MachineSpec>, loading: string -> Loading, i: nat)
    requires i < |specs| && loading(specs[i].adapter) != Loads
    requires forall k | 0 <= k < i :: loading(specs[k].adapter) == Loads
    ensures FirstFailure(specs, loading) == loading(specs[i].adapter)
  {
    if i > 0 {
      FirstIs(specs[1..], loading, i - 1);
    }
  }

  lemma {:induction false} NoneFails(specs: seq<MachineSpec>, loading: string -> Loading, i: nat)
    requires i <= |specs| && forall k | i <= k < |specs| :: loading(specs[k].adapter) == Loads
    ensures FirstFailure(specs[i..], loading) == Loads
    decreases |specs| - i
  {
    if i < |specs| {
      NoneFails(specs, loading, i + 1);
    }
  }

  predicate AllLoad(registry: RawRegistry, loading: string -> Loading) {
    && registry.Some? && Acceptable(registry.value)
    && forall i | 0 <= i < |registry.value| :: AdapterLoading(registry.value[i], loading) == Loads
  }

  // A reload is applied exactly when the registry is acceptable, every adapter loads, each that is
  // to be stopped stops, and each that is to be started can be built. It ends the gateway, where the
  // documentation promises a refusal, exactly when the first adapter that does not load is missing,
  // or all load and one raises when it is stopped or built.
  lemma AppliedIff(registry: RawRegistry, loading: string -> Loading, builds: Builds, stops: Stops, running: Running)
    ensures OutcomeOf(registry, loading, builds, stops, running) == Applied
            <==> AllLoad(registry, loading) && Smooth(running, Wanted(SpecsOf(registry.value)), builds, stops)
    ensures OutcomeOf(registry, loading, builds, stops, running) == Exits
            <==> registry.Some? && Acceptable(registry.value)
                 && exists i | 0 <= i < |registry.value| :: IsFirstMissing(registry.value, i, loading)
    ensures OutcomeOf(registry, loading, builds, stops, running) == Crashes
            <==> AllLoad(registry, loading) && !Smooth(running, Wanted(SpecsOf(registry.value)), builds, stops)
  {
    if registry.Some? && Acceptable(registry.value) {
      FirstFailureIff(SpecsOf(registry.value), loading);
      var machines, specs := registry.value, SpecsOf(registry.value);
      assert forall i | 0 <= i < |machines| :: AdapterLoading(machines[i], loading) == loading(specs[i].adapter);
      if i :| 0 <= i < |specs| && FirstMissingSpec(specs, i, loading) {
        assert IsFirstMissing(machines, i, loading);
      }
      if i :| 0 <= i < |machines| && IsFirstMissing(machines, i, loading) {
        assert FirstMissingSpec(specs, i, loading);
      }
    }
  }

  // A registry of one machine whose adapter has no module.
  lemma MissingAdapterExits(builds: Builds, stops: Stops, running: Running)
    ensures var machine := RawMachine(Some("press-01"), Some("adapters/none"), None, None, "");
            OutcomeOf(Some([machine]), name => Missing, builds, stops, running) == Exits
  {
    var machine := RawMachine(Some("press-01"), Some("adapters/none"), None, None, "");
    var loading := (name: string) => Missing;
    assert IsId("press-01") && Acceptable([machine]);
    assert IsFirstMissing([machine], 0, loading);
    AppliedIff(Some([machine]), loading, builds, stops, running);
  }

  // A registry without machines stops all that run, and ends the process exactly when one of them
  // raises when it is stopped.
  lemma EmptyRegistryCrashesIff(loading: string -> Loading, builds: Builds, stops: Stops, running: Running)
    ensures OutcomeOf(Some([]), loading, builds, stops, running) == Crashes
            <==> exists id | id in running :: !stops(running[id])
    ensures OutcomeOf(Some([]), loading, builds, stops, running) == Applied
            <==> forall id | id in running :: stops(running[id])
  {
    var wanted := Wanted([]);
    assert wanted == map[] && Leaving(running, wanted) == running.Keys && Affected(running, wanted) == {};
    assert Acceptable([]) && SpecsOf([]) == [];
  }

  function AdapterLoading(m: RawMachine, loading: string -> Loading): Loading {
    match m.adapter
    case Some(adapter) => loading(adapter)
    case None => Loads
  }

  predicate IsFirstMissing(machines: seq<RawMachine>, i: int, loading: string -> Loading)
    requires 0 <= i < |machines|
  {
    && AdapterLoading(machines[i], loading) == Missing
    && forall k | 0 <= k < i :: AdapterLoading(machines[k], loading) == Loads
  }

  predicate FirstMissingSpec(specs: seq<MachineSpec>, i: int, loading: string -> Loading)
    requires 0 <= i < |specs|
  {
    loading(specs[i].adapter) == Missing && forall k | 0 <= k < i :: loading(specs[k].adapter) == Loads
  }

  lemma {:induction false} FirstFailureIff(specs: seq<MachineSpec>, loading: string -> Loading)
    ensures FirstFailure(specs, loading) == Loads <==> forall i | 0 <= i < |specs| :: loading(specs[i].adapter) == Loads
    ensures FirstFailure(specs, loading) == Missing
            <==> exists i | 0 <= i < |specs| :: FirstMissingSpec(specs, i, loading)
  {
    if specs != [] {
      var rest := specs[1..];
      FirstFailureIff(rest, loading);
      if loading(specs[0].adapter) == Loads {
        if i :| 0 <= i < |rest| && FirstMissingSpec(rest, i, loading) {
          assert FirstMissingSpec(specs, i + 1, loading);
        }
        if i :| 0 <= i < |specs| && FirstMissingSpec(specs, i, loading) {
          assert FirstMissingSpec(rest, i - 1, loading);
        }
      } else if loading(specs[0].adapter) == Missing {
        assert FirstMissingSpec(specs, 0, loading);
      }
    }
  }

  // ---- a reload, machine by machine --------------------------------------------------------------

  lemma WantedIs(specs: seq<MachineSpec>, spec: MachineSpec)
    requires DistinctIds(specs)
    ensures spec.machineId in Wanted(specs) && Wanted(specs)[spec.machineId] == spec <==> spec in specs
  {
  }

  // Nothing gets in the way exactly when each machine that is no longer wanted as it is stops, and
  // each that is not running as wanted can be built.
  lemma SmoothIff(running: Running, wanted: map<string, MachineSpec>, builds: Builds, stops: Stops)
    ensures Smooth(running, wanted, builds, stops)
            <==> && (forall id | id in running && (id !in wanted || wanted[id] != running[id].spec) ::
                       stops(running[id]))
                 && forall id | id in wanted && (id !in running || running[id].spec != wanted[id]) :: builds(wanted[id])
  {
  }

  // The adapter ran a machine that is no longer wanted, or not as it was.
  ghost predicate IsLeft(running: Running, wanted: map<string, MachineSpec>, adapter: nat) {
    exists id :: id in running && running[id].adapter == adapter && (id !in wanted || wanted[id] != running[id].spec)
  }

  // After a reload what was running as wanted runs on untouched, everything else that is wanted runs on
  // a new adapter or failed to start, nothing else runs, and exactly the adapters that were left have
  // stopped, once each.
  lemma ReloadDoes(before: Running, wanted: map<string, MachineSpec>, after: Running, failed: set<string>, next: nat,
                   was: multiset<nat>, now: multiset<nat>)
    requires Reconciled(before, wanted, after, failed, next) && OwnAdapters(before)
    requires StoppedOnce(was, now, before, Leaving(before, wanted))
    ensures forall id | id in before && id in wanted && before[id].spec == wanted[id] ::
              id in after && after[id] == before[id]
    ensures forall id | id in wanted && (id !in before || before[id].spec != wanted[id]) ::
              if id in failed then id !in after
              else id in after && after[id].spec == wanted[id] && after[id].adapter >= next
    ensures forall id | id in after :: id in wanted
    ensures forall a :: now[a] == was[a] + if IsLeft(before, wanted, a) then 1 else 0
  {
    Partition(before, wanted);
    forall a ensures a in AdaptersOf(before, Leaving(before, wanted)) <==> IsLeft(before, wanted, a) {
      if IsLeft(before, wanted, a) {
        var id :| id in before && before[id].adapter == a && (id !in wanted || wanted[id] != before[id].spec);
        assert id in Leaving(before, wanted);
      }
    }
  }

  // ---- the gateway ------------------------------------------------------------------------------

  class Gateway {
    var running: Running
    var next: nat
    ghost var stopped: multiset<nat>      // adapters stopped so far
    ghost var started: seq<Entry>         // machines started so far

    // Every adapter runs at most one machine, under that machine's own identity.
    ghost predicate Valid()
      reads this
    {
      && (forall id | id in running :: running[id].adapter < next && running[id].spec.machineId == id)
      && OwnAdapters(running)
    }

    constructor ()
      ensures Valid() && running == map[] && next == 0 && stopped == multiset{} && started == []
    {
      running, next, stopped, started := map[], 0, multiset{}, [];
    }

    // Building the adapter may raise, which nothing catches; probing and announcing may fail, and
    // then the machine does not run.
    method StartMachine(spec: MachineSpec, builds: Builds) returns (start: Start)
      requires Valid() && spec.machineId !in running
      modifies this
      ensures Valid() && old(next) <= next <= old(next) + 1 && stopped == old(stopped)
      ensures start == Raised <==> !builds(spec)
      ensures start == Runs ==> running == old(running)[spec.machineId := Entry(old(next), spec)]
                                && started == old(started) + [Entry(old(next), spec)]
      ensures start != Runs ==> running == old(running) && started == old(started)
    {
      if !builds(spec) {
        return Raised;
      }
      var adapter := next;
      next := next + 1;
      var probed: bool := *;
      if !probed {
        return ProbeFails;
      }
      running := running[spec.machineId := Entry(adapter, spec)];
      started := started + [Entry(adapter, spec)];
      return Runs;
    }

    // The entry goes before the adapter is stopped, which may raise; nothing catches that.
    method StopMachine(machineId: string, stops: Stops) returns (raised: bool)
      requires Valid()
      modifies this
      ensures raised <==> machineId in old(running) && !stops(old(running)[machineId])
      ensures Valid() && running == old(running) - {machineId} && next == old(next) && started == old(started)
      ensures stopped == old(stopped)
                         + if machineId in old(running) then multiset{old(running)[machineId].adapter} else multiset{}
    {
      raised := false;
      if machineId in running {
        var entry := running[machineId];
        running := running - {machineId};
        stopped := stopped + multiset{entry.adapter};
        raised := !stops(entry);
      }
    }

    method StopAll(ids: set<string>, stops: Stops) returns (raised: bool)
      requires Valid() && ids <= running.Keys
      modifies this
      ensures Valid() && next == old(next)
      ensures raised <==> !AllStop(ids, old(running), stops)
      ensures !raised ==> running == old(running) - ids && StoppedOnce(old(stopped), stopped, old(running), ids)
    {
      var rest := ids;
      ghost var done: set<string> := {};
      StoppedNone(stopped, running);
      while rest != {}
        invariant Valid() && done + rest == ids && done !! rest && next == old(next)
        invariant running == old(running) - done && AllStop(done, old(running), stops)
        invariant StoppedOnce(old(stopped), stopped, old(running), done)
        decreases |rest|
      {
        var id :| id in rest;
        ghost var mid := stopped;
        raised := StopMachine(id, stops);
        if raised {
          return;
        }
        StoppedOneMore(old(stopped), mid, stopped, old(running), done, id);
        LessOneMore(old(running), done, id);
        OneMoreDone(ids, done, rest, id);
        rest, done := rest - {id}, done + {id};
      }
      raised := false;
    }

    method Restart(id: string, spec: MachineSpec, builds: Builds, stops: Stops) returns (start: Start)
      requires Valid() && id in running && spec.machineId == id
      modifies this
      ensures Valid() && old(next) <= next && SameElsewhere(old(running), running, id)
      ensures start == Raised <==> !stops(old(running)[id]) || !builds(spec)
      ensures id in running <==> start == Runs
      ensures start == Runs ==> running[id].spec == spec && old(next) <= running[id].adapter
      ensures stopped == old(stopped) + multiset{old(running)[id].adapter}
    {
      var raised := StopMachine(id, stops);
      if raised {
        return Raised;
      }
      start := StartMachine(spec, builds);
    }

    method RestartAll(ids: set<string>, wanted: map<string, MachineSpec>, builds: Builds, stops: Stops)
      returns (raised: bool, ghost failed: set<string>)
      requires Valid() && ids <= running.Keys && ids <= wanted.Keys
      requires forall id | id in wanted :: wanted[id].machineId == id
      modifies this
      ensures Valid() && old(next) <= next
      ensures raised <==> !AllStop(ids, old(running), stops) || !AllBuild(ids, wanted, builds)
      ensures !raised ==> Restarted(old(running), wanted, running, ids, failed, old(next))
                          && StoppedOnce(old(stopped), stopped, old(running), ids)
    {
      failed := {};
      var rest := ids;
      ghost var done: set<string> := {};
      NoneRestarted(running, wanted, next);
      StoppedNone(stopped, running);
      while rest != {}
        invariant Valid() && done + rest == ids && done !! rest && old(next) <= next
        invariant AllStop(done, old(running), stops) && AllBuild(done, wanted, builds)
        invariant Restarted(old(running), wanted, running, done, failed, old(next))
        invariant StoppedOnce(old(stopped), stopped, old(running), done)
        decreases |rest|
      {
        var id :| id in rest;
        assert RestartedAt(old(running), wanted, running, done, failed, old(next), id);
        ghost var before, mid := running, stopped;
        var start := Restart(id, wanted[id], builds, stops);
        if start == Raised {
          return true, failed;
        }
        var ok := start == Runs;
        StoppedOneMore(old(stopped), mid, stopped, old(running), done, id);
        OneRestarted(old(running), wanted, before, running, done, failed, old(next), id, ok);
        OneMoreDone(ids, done, rest, id);
        rest, done, failed := rest - {id}, done + {id}, if ok then failed else failed + {id};
      }
      raised := false;
    }

    method StartAll(ids: set<string>, wanted: map<string, MachineSpec>, builds: Builds)
      returns (raised: bool, ghost failed: set<string>)
      requires Valid() && ids !! running.Keys && ids <= wanted.Keys
      requires forall id | id in wanted :: wanted[id].machineId == id
      modifies this
      ensures Valid() && old(next) <= next && stopped == old(stopped)
      ensures raised <==> !AllBuild(ids, wanted, builds)
      ensures !raised ==> Restarted(old(running), wanted, running, ids, failed, old(next))
    {
      failed := {};
      var rest := ids;
      ghost var done: set<string> := {};
      NoneRestarted(running, wanted, next);
      while rest != {}
        invariant Valid() && done + rest == ids && done !! rest && old(next) <= next && stopped == old(stopped)
        invariant AllBuild(done, wanted, builds)
        invariant Restarted(old(running), wanted, running, done, failed, old(next))
        decreases |rest|
      {
        var id :| id in rest;
        assert RestartedAt(old(running), wanted, running, done, failed, old(next), id);
        ghost var before := running;
        var start := StartMachine(wanted[id], builds);
        if start == Raised {
          return true, failed;
        }
        var ok := start == Runs;
        OneRestarted(old(running), wanted, before, running, done, failed, old(next), id, ok);
        OneMoreDone(ids, done, rest, id);
        rest, done, failed := rest - {id}, done + {id}, if ok then failed else failed + {id};
      }
      raised := false;
    }

    method Reconcile(wanted: map<string, MachineSpec>, builds: Builds, stops: Stops)
      returns (raised: bool, ghost failed: set<string>)
      requires Valid() && forall id | id in wanted :: wanted[id].machineId == id
      modifies this
      ensures Valid() && (raised <==> !Smooth(old(running), wanted, builds, stops))
      ensures !raised ==>
                && Reconciled(old(running), wanted, running, failed, old(next))
                && StoppedOnce(old(stopped), stopped, old(running), Leaving(old(running), wanted))
    {
      var removed, changed, added := Removed(running, wanted), Changed(running, wanted), Added(running, wanted);
      failed := {};
      SmoothParts(running, wanted, running - removed, builds, stops);
      raised := StopAll(removed, stops);
      if raised {
        return;
      }
      ghost var afterStops, mid := running, stopped;
      raised, failed := RestartAll(changed, wanted, builds, stops);
      if raised {
        return;
      }
      ghost var failedRestarts := failed;
      ghost var afterRestarts, later := running, next;
      AddedStillMissing(old(running), wanted, afterStops, afterRestarts, failedRestarts, old(next));
      ghost var failedStarts;
      raised, failedStarts := StartAll(added, wanted, builds);
      if raised {
        return;
      }
      failed := failedRestarts + failedStarts;
      LaterStarts(afterRestarts, wanted, running, added, failedStarts, old(next), later);
      Reconciles(old(running), wanted, afterStops, afterRestarts, running, failedRestarts, failedStarts, old(next));
      StoppedBoth(old(stopped), mid, stopped, old(running), removed, changed, afterStops);
    }

    // Refused, or ending the process before it begins, a reload changes nothing. Applied, it leaves
    // the wanted machines running, and a machine that stopped is one that is no longer wanted or
    // whose entry changed, and it stopped once.
    method ApplyReload(registry: RawRegistry, loading: string -> Loading, builds: Builds, stops: Stops)
      returns (outcome: Outcome, ghost failed: set<string>)
      requires Valid()
      modifies this
      ensures Valid() && outcome == OutcomeOf(registry, loading, builds, stops, old(running))
      ensures outcome == Refused || outcome == Exits ==>
                running == old(running) && next == old(next) && stopped == old(stopped) && started == old(started)
      ensures outcome == Applied ==>
                var wanted := Wanted(SpecsOf(registry.value));
                && Reconciled(old(running), wanted, running, failed, old(next))
                && StoppedOnce(old(stopped), stopped, old(running), Leaving(old(running), wanted))
    {
      failed := {};
      var loaded := LoadRegistry(registry);
      if loaded.Err? {
        return Refused, {};
      }
      var specs := loaded.value;
      for i := 0 to |specs|
        invariant forall k | 0 <= k < i :: loading(specs[k].adapter) == Loads
      {
        if loading(specs[i].adapter) != Loads {
          FirstIs(specs, loading, i);
          return if loading(specs[i].adapter) == Raises then Refused else Exits, {};
        }
      }
      NoneFails(specs, loading, 0);
      assert specs[0..] == specs;
      var raised;
      raised, failed := Reconcile(Wanted(specs), builds, stops);
      outcome := if raised then Crashes else Applied;
    }
  }
}
