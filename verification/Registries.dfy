/** gateway/omp/core/registry.py: which machine registries are accepted. */
module Registries {
  import opened Wrappers

  // A machine as the file gives it; `rest` stands for the entries that the loader does not look at.
  datatype RawMachine = RawMachine(
    machineId: Option<string>, adapter: Option<string>, config: Option<string>,
    location: Option<Location>, rest: string)

  datatype Location = Location(site: Option<string>, rest: string)

  datatype MachineSpec = MachineSpec(
    machineId: string, adapter: string, config: string, location: Option<Location>, rest: string)

  datatype Fault = MissingMachineId | MissingAdapter | BadMachineId | DuplicateMachineId | MissingSite

  datatype RegistryError = NotAList | At(index: nat, fault: Fault)

  // None where `machines` is not a list.
  type RawRegistry = Option<seq<RawMachine>>

  predicate IsLowerOrDigit(c: char) {
    'a' <= c <= 'z' || '0' <= c <= '9'
  }

  // ^[a-z0-9][a-z0-9-]{2,62}$
  predicate IsId(s: string) {
    3 <= |s| <= 63 && IsLowerOrDigit(s[0]) && forall i | 1 <= i < |s| :: IsLowerOrDigit(s[i]) || s[i] == '-'
  }

  function FaultIn(m: RawMachine, seen: set<string>): Option<Fault> {
    if m.machineId.None? then Some(MissingMachineId)
    else if m.adapter.None? then Some(MissingAdapter)
    else if !IsId(m.machineId.value) then Some(BadMachineId)
    else if m.machineId.value in seen then Some(DuplicateMachineId)
    else if m.location.Some? && m.location.value.site.None? then Some(MissingSite)
    else None
  }

  function SpecOf(m: RawMachine): MachineSpec
    requires m.machineId.Some? && m.adapter.Some?
  {
    MachineSpec(m.machineId.value, m.adapter.value,
                match m.config { case Some(c) => c case None => "{}" }, m.location, m.rest)
  }

  // A machine that is acceptable by itself.
  predicate Sound(m: RawMachine) {
    FaultIn(m, {}).None?
  }

  // Acceptable machines with distinct identities.
  predicate Acceptable(machines: seq<RawMachine>) {
    && (forall i | 0 <= i < |machines| :: Sound(machines[i]))
    && (forall i, k | 0 <= i < k < |machines| :: machines[i].machineId != machines[k].machineId)
  }

  predicate DistinctIds(specs: seq<MachineSpec>) {
    forall i, k | 0 <= i < k < |specs| :: specs[i].machineId != specs[k].machineId
  }

  function SpecsOf(machines: seq<RawMachine>): (specs: seq<MachineSpec>)
    requires Acceptable(machines)
    ensures |specs| == |machines|
            && forall i | 0 <= i < |specs| :: Sound(machines[i]) && specs[i] == SpecOf(machines[i])
    ensures DistinctIds(specs)
  {
    seq(|machines|, i requires 0 <= i < |machines| => assert Sound(machines[i]); SpecOf(machines[i]))
  }

  // Accepts exactly the acceptable registries, and refuses any other at its first offender.
  method LoadRegistry(registry: RawRegistry) returns (r: Result<seq<MachineSpec>, RegistryError>)
    ensures r.Ok? <==> registry.Some? && Acceptable(registry.value)
    ensures r.Ok? ==> r.value == SpecsOf(registry.value)
    ensures registry.None? ==> r == Err(NotAList)
    ensures registry.Some? && r.Err? ==>
              && r.error.At? && r.error.index < |registry.value|
              && Acceptable(registry.value[..r.error.index])
              && FaultIn(registry.value[r.error.index], Ids(registry.value[..r.error.index])) == Some(r.error.fault)
  {
    if registry.None? {
      return Err(NotAList);
    }
    var machines := registry.value;
    var seen: set<string> := {};
    var specs: seq<MachineSpec> := [];
    for i := 0 to |machines|
      invariant Acceptable(machines[..i]) && seen == Ids(machines[..i])
      invariant |specs| == i && forall k | 0 <= k < i :: Sound(machines[k]) && specs[k] == SpecOf(machines[k])
    {
      var m := machines[i];
      FaultIff(machines, i);
      assert machines[..i + 1] == machines[..i] + [m];
      var fault := FaultIn(m, seen);
      if fault.Some? {
        NotAcceptable(machines, i);
        return Err(At(i, fault.value));
      }
      seen := seen + {m.machineId.value};
      specs := specs + [SpecOf(m)];
    }
    assert machines[..|machines|] == machines;
    return Ok(specs);
  }

  function Ids(machines: seq<RawMachine>): set<string> {
    set i | 0 <= i < |machines| && machines[i].machineId.Some? :: machines[i].machineId.value
  }

  // With the machines before it acceptable, a machine is at fault exactly when it spoils them.
  lemma FaultIff(machines: seq<RawMachine>, n: nat)
    requires n < |machines| && Acceptable(machines[..n])
    ensures FaultIn(machines[n], Ids(machines[..n])).None? <==> Acceptable(machines[..n + 1])
  {
    var before, m := machines[..n], machines[n];
    assert machines[..n + 1] == before + [m];
    if Acceptable(before + [m]) {
      assert Sound((before + [m])[n]);
      forall i | 0 <= i < n ensures before[i].machineId != m.machineId {
        assert (before + [m])[i].machineId != (before + [m])[n].machineId;
      }
    }
    if FaultIn(m, Ids(before)).None? {
      forall i | 0 <= i < n ensures before[i].machineId != m.machineId {
        assert Sound(before[i]);
        assert before[i].machineId.value in Ids(before);
      }
    }
  }

  lemma NotAcceptable(machines: seq<RawMachine>, n: nat)
    requires n < |machines| && !Acceptable(machines[..n + 1])
    ensures !Acceptable(machines)
  {
    if Acceptable(machines) {
      var part := machines[..n + 1];
      assert forall i | 0 <= i < |part| :: part[i] == machines[i] && Sound(machines[i]);
    }
  }

  // ---- what is acceptable, entry by entry ---------------------------------------------------

  // Three to 63 of these characters, of which a dash is not the first.
  ghost predicate MatchesId(s: string) {
    && 3 <= |s| <= 63 && s[0] != '-'
    && forall i | 0 <= i < |s| :: 'a' <= s[i] <= 'z' || '0' <= s[i] <= '9' || s[i] == '-'
  }

  lemma IsIdIff(s: string)
    ensures IsId(s) <==> MatchesId(s)
  {
  }

  // A machine with an identity, an adapter and, if it has a location, a site.
  ghost predicate IsSound(m: RawMachine) {
    && m.machineId.Some? && MatchesId(m.machineId.value) && m.adapter.Some?
    && (m.location.Some? ==> m.location.value.site.Some?)
  }

  lemma AcceptableIff(machines: seq<RawMachine>)
    ensures Acceptable(machines)
            <==> && (forall m | m in machines :: IsSound(m))
                 && forall i, k | 0 <= i < k < |machines| :: machines[i].machineId != machines[k].machineId
  {
    forall m ensures Sound(m) <==> IsSound(m) {
      if m.machineId.Some? {
        IsIdIff(m.machineId.value);
      }
    }
  }

  // The fault that is reported is the first of these that the machine has.
  lemma FaultIs(m: RawMachine, seen: set<string>)
    ensures var fault := FaultIn(m, seen);
      && (fault == Some(MissingMachineId) <==> m.machineId == None)
      && (fault == Some(MissingAdapter) <==> m.machineId != None && m.adapter == None)
      && (fault == Some(BadMachineId) <==> m.machineId.Some? && m.adapter.Some? && !MatchesId(m.machineId.value))
      && (fault == Some(DuplicateMachineId)
          <==> m.machineId.Some? && m.adapter.Some? && MatchesId(m.machineId.value) && m.machineId.value in seen)
      && (fault == Some(MissingSite)
          <==> && m.machineId.Some? && m.adapter.Some? && MatchesId(m.machineId.value) && m.machineId.value !in seen
               && m.location.Some? && m.location.value.site == None)
  {
    if m.machineId.Some? {
      IsIdIff(m.machineId.value);
    }
  }

  // An accepted machine is taken as it is written; a missing configuration is an empty one.
  lemma SpecIs(m: RawMachine)
    requires IsSound(m)
    ensures var spec := SpecOf(m);
      && m.machineId == Some(spec.machineId) && m.adapter == Some(spec.adapter)
      && (m.config == None ==> spec.config == "{}") && (m.config.Some? ==> m.config == Some(spec.config))
      && spec.location == m.location && spec.rest == m.rest
  {
  }
}
