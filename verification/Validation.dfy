/** tools/omp_tools/specload.py and tools/omp_tools/validate.py: the staged check that the
    gateway (strict) and the consumer (forward compatible) share. */
module Validation {
  import opened Wrappers
  import opened Text
  import opened JsonModel
  import opened Canonical
  import opened Envelopes

  // The messages that a JSON Schema validator reports for a value.
  type Validator = Json -> seq<string>

  datatype Profile = Profile(events: map<string, Validator>, phases: map<string, Validator>)

  datatype Spec = Spec(
    envelopeSchema: Envelope -> seq<string>,
    bodySchema: (string, Json) -> seq<string>,
    profiles: map<string, Profile>,
    hash: string -> string)

  const CORE_EVENT_TYPES: set<string> :=
    {"run_start", "run_end", "cycle_complete", "start", "stop", "error", "alarm", "state_change",
     "maintenance_flag"}

  datatype Violation =
    | SchemaViolation(message: string)
    | ChecksumMismatch
    | ChecksumNotComputable(error: NumberError)
    | BadPayload(message: string)
    | UnknownEventType(eventType: Option<string>, profile: string)
    | BadPhaseParams(index: nat, message: string)
    | UnknownPhase(phaseIndex: nat, name: Option<string>, profile: string)

  // Why the gateway refused a body, kept with its dead letter.
  datatype Refusal = NotBuilt(error: BuildError) | NotValid(violations: seq<Violation>)

  // Vocabulary that a newer minor version of the profile may have added.
  predicate NewVocabulary(v: Violation) {
    v.UnknownEventType? || v.UnknownPhase?
  }

  // ---- reading a body -----------------------------------------------------

  function TextOf(j: Option<Json>): Option<string> {
    match j
    case Some(Str(s)) => Some(s)
    case _ => None
  }

  function OrEmptyObject(j: Option<Json>): Json {
    match j
    case Some(value) => value
    case None => Obj([])
  }

  function ItemsOf(j: Option<Json>): seq<Json> {
    match j
    case Some(Arr(items)) => items
    case _ => []
  }

  function ProfileName(e: Envelope): string {
    SplitFirst(e.profile, '/').0
  }

  // ---- profile constraints ------------------------------------------------

  function Messages(texts: seq<string>, wrap: string -> Violation): (vs: seq<Violation>) {
    seq(|texts|, i requires 0 <= i < |texts| => wrap(texts[i]))
  }

  function EventErrors(prof: Profile, name: string, body: Json, forwardCompatible: bool): seq<Violation> {
    var eventType := TextOf(Get(body, "event_type"));
    if eventType.Some? && eventType.value in CORE_EVENT_TYPES then []
    else if eventType.Some? && eventType.value in prof.events then
      Messages(prof.events[eventType.value](OrEmptyObject(Get(body, "payload"))), m => BadPayload(m))
    else if !forwardCompatible then [UnknownEventType(eventType, name)]
    else []
  }

  function PhaseErrors(prof: Profile, name: string, index: nat, phase: Json, forwardCompatible: bool)
    : seq<Violation>
  {
    var pname := TextOf(Get(phase, "name"));
    if pname.None? || pname.value !in prof.phases then
      if forwardCompatible then [] else [UnknownPhase(index, pname, name)]
    else
      Messages(prof.phases[pname.value](OrEmptyObject(Get(phase, "params"))), m => BadPhaseParams(index, m))
  }

  // Errors of the first `n` phases.
  function PhasesErrors(prof: Profile, name: string, phases: seq<Json>, n: nat, forwardCompatible: bool)
    : seq<Violation>
    requires n <= |phases|
  {
    if n == 0 then []
    else PhasesErrors(prof, name, phases, n - 1, forwardCompatible)
         + PhaseErrors(prof, name, n - 1, phases[n - 1], forwardCompatible)
  }

  function ProfileErrors(spec: Spec, e: Envelope, forwardCompatible: bool): seq<Violation> {
    var name := ProfileName(e);
    if name !in spec.profiles then []
    else if e.schema == "event" then
      EventErrors(spec.profiles[name], name, e.body, forwardCompatible)
    else if e.schema == "process_run" then
      var phases := ItemsOf(Get(e.body, "phases"));
      PhasesErrors(spec.profiles[name], name, phases, |phases|, forwardCompatible)
    else []
  }

  // The accumulating form of the source.
  method CollectProfileErrors(spec: Spec, e: Envelope, forwardCompatible: bool) returns (errors: seq<Violation>)
    ensures errors == ProfileErrors(spec, e, forwardCompatible)
  {
    var name := ProfileName(e);
    errors := [];
    if name !in spec.profiles {
      return;
    }
    var prof := spec.profiles[name];
    if e.schema == "event" {
      var eventType := TextOf(Get(e.body, "event_type"));
      if eventType.Some? && eventType.value in CORE_EVENT_TYPES {
      } else if eventType.Some? && eventType.value in prof.events {
        var validator := prof.events[eventType.value];
        errors := errors + Messages(validator(OrEmptyObject(Get(e.body, "payload"))), m => BadPayload(m));
      } else if !forwardCompatible {
        errors := errors + [UnknownEventType(eventType, name)];
      }
    } else if e.schema == "process_run" {
      var phases := ItemsOf(Get(e.body, "phases"));
      for i := 0 to |phases|
        invariant errors == PhasesErrors(prof, name, phases, i, forwardCompatible)
      {
        var pname := TextOf(Get(phases[i], "name"));
        if pname.None? || pname.value !in prof.phases {
          if !forwardCompatible {
            errors := errors + [UnknownPhase(i, pname, name)];
          }
        } else {
          var validator := prof.phases[pname.value];
          errors := errors + Messages(validator(OrEmptyObject(Get(phases[i], "params"))), m => BadPhaseParams(i, m));
        }
      }
    }
  }

  function ValidateEnvelope(e: Envelope, spec: Spec, forwardCompatible: bool): seq<Violation> {
    var envelopeErrors := spec.envelopeSchema(e);
    if envelopeErrors != [] then Messages(envelopeErrors, m => SchemaViolation(m))
    else
      var bodyErrors := spec.bodySchema(e.schema, e.body);
      if bodyErrors != [] then Messages(bodyErrors, m => SchemaViolation(m))
      else match Checksum(e.body, spec.hash)
        case Err(error) => [ChecksumNotComputable(error)]
        case Ok(sum) =>
          if sum != e.checksum then [ChecksumMismatch] else ProfileErrors(spec, e, forwardCompatible)
  }

  // ---- strict against forward-compatible reading ---------------------------

  function WithoutNewVocabulary(vs: seq<Violation>): seq<Violation> {
    if vs == [] then []
    else (if NewVocabulary(vs[0]) then [] else [vs[0]]) + WithoutNewVocabulary(vs[1..])
  }

  lemma {:induction false} WithoutNothing(vs: seq<Violation>)
    requires forall v | v in vs :: !NewVocabulary(v)
    ensures WithoutNewVocabulary(vs) == vs
  {
    if vs != [] {
      WithoutNothing(vs[1..]);
      assert vs == [vs[0]] + vs[1..];
    }
  }

  lemma WithoutStep(vs: seq<Violation>)
    requires vs != []
    ensures WithoutNewVocabulary(vs)
            == (if NewVocabulary(vs[0]) then [] else [vs[0]]) + WithoutNewVocabulary(vs[1..])
  {
  }

  lemma Associative(x: seq<Violation>, y: seq<Violation>, z: seq<Violation>)
    ensures x + (y + z) == x + y + z
  {
  }

  lemma {:induction false} WithoutOfConcat(a: seq<Violation>, b: seq<Violation>)
    ensures WithoutNewVocabulary(a + b) == WithoutNewVocabulary(a) + WithoutNewVocabulary(b)
  {
    if a == [] {
      assert a + b == b;
    } else {
      WithoutOfConcat(a[1..], b);
      WithoutStep(a);
      WithoutStep(a + b);
      assert (a + b)[0] == a[0] && (a + b)[1..] == a[1..] + b;
      Associative(if NewVocabulary(a[0]) then [] else [a[0]], WithoutNewVocabulary(a[1..]), WithoutNewVocabulary(b));
    }
  }

  lemma {:induction false} WithoutIsEmpty(vs: seq<Violation>)
    ensures WithoutNewVocabulary(vs) == [] <==> forall v | v in vs :: NewVocabulary(v)
  {
    if vs != [] {
      WithoutIsEmpty(vs[1..]);
      assert vs == [vs[0]] + vs[1..];
    }
  }

  lemma PhaseForwardIsStrictWithout(prof: Profile, name: string, index: nat, phase: Json)
    ensures PhaseErrors(prof, name, index, phase, true)
            == WithoutNewVocabulary(PhaseErrors(prof, name, index, phase, false))
  {
    var strict := PhaseErrors(prof, name, index, phase, false);
    if forall v | v in strict :: !NewVocabulary(v) {
      WithoutNothing(strict);
    }
  }

  lemma PhasesStep(prof: Profile, name: string, phases: seq<Json>, n: nat, forwardCompatible: bool)
    requires 0 < n <= |phases|
    ensures PhasesErrors(prof, name, phases, n, forwardCompatible)
            == PhasesErrors(prof, name, phases, n - 1, forwardCompatible)
               + PhaseErrors(prof, name, n - 1, phases[n - 1], forwardCompatible)
  {
  }

  lemma {:induction false} PhasesForwardIsStrictWithout(prof: Profile, name: string, phases: seq<Json>, n: nat)
    requires n <= |phases|
    ensures PhasesErrors(prof, name, phases, n, true)
            == WithoutNewVocabulary(PhasesErrors(prof, name, phases, n, false))
  {
    if n > 0 {
      PhasesForwardIsStrictWithout(prof, name, phases, n - 1);
      PhaseForwardIsStrictWithout(prof, name, n - 1, phases[n - 1]);
      PhasesStep(prof, name, phases, n, false);
      PhasesStep(prof, name, phases, n, true);
      WithoutOfConcat(PhasesErrors(prof, name, phases, n - 1, false),
                      PhaseErrors(prof, name, n - 1, phases[n - 1], false));
    }
  }

  // The consumer's errors are the gateway's errors, in order, less those about unknown event
  // types and unknown phases, which are all that the two readings disagree about.
  lemma ForwardIsStrictWithoutNewVocabulary(e: Envelope, spec: Spec)
    ensures ValidateEnvelope(e, spec, true) == WithoutNewVocabulary(ValidateEnvelope(e, spec, false))
  {
    var strict := ValidateEnvelope(e, spec, false);
    var name := ProfileName(e);
    if name in spec.profiles && e.schema == "process_run" {
      var phases := ItemsOf(Get(e.body, "phases"));
      PhasesForwardIsStrictWithout(spec.profiles[name], name, phases, |phases|);
    }
    if forall v | v in strict :: !NewVocabulary(v) {
      WithoutNothing(strict);
    }
  }

  // A consumer with the gateway's spec accepts exactly what the gateway would refuse for nothing
  // but unknown vocabulary; in particular everything that the gateway buffers.
  lemma ConsumerAcceptsIff(e: Envelope, spec: Spec)
    ensures ValidateEnvelope(e, spec, true) == [] <==>
            forall v | v in ValidateEnvelope(e, spec, false) :: NewVocabulary(v)
  {
    ForwardIsStrictWithoutNewVocabulary(e, spec);
    WithoutIsEmpty(ValidateEnvelope(e, spec, false));
  }

  // ---- what is accepted ---------------------------------------------------------------------

  // The profile that an envelope declares is its text up to the first slash.
  ghost predicate Declares(e: Envelope, name: string) {
    '/' !in name && (e.profile == name || name + "/" <= e.profile)
  }

  // A known event type has a payload that its profile accepts; an unknown one may be new vocabulary.
  ghost predicate EventFits(prof: Profile, body: Json, forwardCompatible: bool) {
    match Get(body, "event_type")
    case Some(Str(t)) =>
      || t in {"run_start", "run_end", "cycle_complete", "start", "stop", "error", "alarm", "state_change",
               "maintenance_flag"}
      || (if t in prof.events then Accepts(prof.events[t], body, "payload") else forwardCompatible)
    case _ => forwardCompatible
  }

  ghost predicate PhaseFits(prof: Profile, phase: Json, forwardCompatible: bool) {
    match Get(phase, "name")
    case Some(Str(p)) => if p in prof.phases then Accepts(prof.phases[p], phase, "params") else forwardCompatible
    case _ => forwardCompatible
  }

  // The validator has nothing to say about the value under this key, or about an empty object
  // where there is none.
  ghost predicate Accepts(validator: Validator, j: Json, key: string) {
    match Get(j, key)
    case Some(value) => validator(value) == []
    case None => validator(Obj([])) == []
  }

  ghost predicate FitsProfile(e: Envelope, prof: Profile, forwardCompatible: bool) {
    && (e.schema == "event" ==> EventFits(prof, e.body, forwardCompatible))
    && (e.schema == "process_run" ==>
          match Get(e.body, "phases")
          case Some(Arr(phases)) => forall i | 0 <= i < |phases| :: PhaseFits(prof, phases[i], forwardCompatible)
          case _ => true)
  }

  lemma {:induction false} SplitsAtFirst(s: string, sep: char)
    ensures var head := SplitFirst(s, sep).0; sep !in head && (s == head || head + [sep] <= s)
  {
    if s != "" && s[0] != sep {
      SplitsAtFirst(s[1..], sep);
      var head := SplitFirst(s[1..], sep).0;
      assert [s[0]] + s[1..] == s && ([s[0]] + head) + [sep] == [s[0]] + (head + [sep]);
    }
  }

  lemma DeclaresIff(e: Envelope, name: string)
    ensures Declares(e, name) <==> ProfileName(e) == name
  {
    SplitsAtFirst(e.profile, '/');
    if Declares(e, name) {
      if e.profile == name {
        SplitNone(name, '/');
      } else {
        assert e.profile == name + ['/'] + e.profile[|name| + 1..];
        SplitFirstOfJoin(name, '/', e.profile[|name| + 1..]);
      }
    }
  }

  lemma EventFitsIff(prof: Profile, name: string, body: Json, forwardCompatible: bool)
    ensures EventErrors(prof, name, body, forwardCompatible) == [] <==> EventFits(prof, body, forwardCompatible)
  {
    var eventType := TextOf(Get(body, "event_type"));
    if eventType.Some? && eventType.value in prof.events {
      var texts := prof.events[eventType.value](OrEmptyObject(Get(body, "payload")));
      assert |Messages(texts, m => BadPayload(m))| == |texts|;
    }
  }

  lemma PhaseFitsIff(prof: Profile, name: string, index: nat, phase: Json, forwardCompatible: bool)
    ensures PhaseErrors(prof, name, index, phase, forwardCompatible) == []
            <==> PhaseFits(prof, phase, forwardCompatible)
  {
    var pname := TextOf(Get(phase, "name"));
    if pname.Some? && pname.value in prof.phases {
      var texts := prof.phases[pname.value](OrEmptyObject(Get(phase, "params")));
      assert |Messages(texts, m => BadPhaseParams(index, m))| == |texts|;
    }
  }

  lemma {:induction false} PhasesFitIff(prof: Profile, name: string, phases: seq<Json>, n: nat, forwardCompatible: bool)
    requires n <= |phases|
    ensures PhasesErrors(prof, name, phases, n, forwardCompatible) == []
            <==> forall i | 0 <= i < n :: PhaseFits(prof, phases[i], forwardCompatible)
  {
    if n > 0 {
      PhasesFitIff(prof, name, phases, n - 1, forwardCompatible);
      PhasesStep(prof, name, phases, n, forwardCompatible);
      PhaseFitsIff(prof, name, n - 1, phases[n - 1], forwardCompatible);
    }
  }

  lemma FitsProfileIff(e: Envelope, spec: Spec, forwardCompatible: bool)
    ensures ProfileErrors(spec, e, forwardCompatible) == []
            <==> forall name | name in spec.profiles && Declares(e, name) ::
                   FitsProfile(e, spec.profiles[name], forwardCompatible)
  {
    var own := ProfileName(e);
    forall name ensures Declares(e, name) <==> name == own {
      DeclaresIff(e, name);
    }
    if own in spec.profiles {
      var prof := spec.profiles[own];
      var phases := ItemsOf(Get(e.body, "phases"));
      EventFitsIff(prof, own, e.body, forwardCompatible);
      PhasesFitIff(prof, own, phases, |phases|, forwardCompatible);
    }
  }

  // An envelope is valid exactly when both schemas accept it, its checksum is that of its body, and
  // it fits the profile that it declares, if that is known; the forward-compatible reading lets
  // unknown event types and phases pass.
  lemma ValidIff(e: Envelope, spec: Spec, forwardCompatible: bool)
    ensures ValidateEnvelope(e, spec, forwardCompatible) == []
            <==> && spec.envelopeSchema(e) == [] && spec.bodySchema(e.schema, e.body) == []
                 && Checksum(e.body, spec.hash) == Ok(e.checksum)
                 && forall name | name in spec.profiles && Declares(e, name) ::
                      FitsProfile(e, spec.profiles[name], forwardCompatible)
  {
    var envelopeErrors := spec.envelopeSchema(e);
    var bodyErrors := spec.bodySchema(e.schema, e.body);
    assert |Messages(envelopeErrors, m => SchemaViolation(m))| == |envelopeErrors|;
    assert |Messages(bodyErrors, m => SchemaViolation(m))| == |bodyErrors|;
    FitsProfileIff(e, spec, forwardCompatible);
  }

  // A valid envelope carries the checksum of its body.
  lemma ValidChecksum(e: Envelope, spec: Spec, forwardCompatible: bool)
    requires ValidateEnvelope(e, spec, forwardCompatible) == []
    ensures Checksum(e.body, spec.hash) == Ok(e.checksum)
  {
    ValidIff(e, spec, forwardCompatible);
  }

  // ---- what is reported ---------------------------------------------------------------------

  // What a validator says about the value under this key.
  ghost predicate Says(validator: Validator, j: Json, key: string, message: string) {
    match Get(j, key)
    case Some(value) => message in validator(value)
    case None => message in validator(Obj([]))
  }

  ghost predicate PhaseAt(e: Envelope, i: nat, phase: Json) {
    && e.schema == "process_run"
    && match Get(e.body, "phases")
       case Some(Arr(phases)) => i < |phases| && phases[i] == phase
       case _ => false
  }

  // The violation is one that this envelope has.
  ghost predicate Genuine(v: Violation, e: Envelope, spec: Spec) {
    match v
    case SchemaViolation(m) => m in spec.envelopeSchema(e) || m in spec.bodySchema(e.schema, e.body)
    case ChecksumMismatch => Checksum(e.body, spec.hash).Ok? && Checksum(e.body, spec.hash) != Ok(e.checksum)
    case ChecksumNotComputable(error) => Checksum(e.body, spec.hash) == Err(error)
    case BadPayload(m) =>
      e.schema == "event" && exists p, t | p in spec.profiles && Declares(e, p) && t in spec.profiles[p].events ::
        Get(e.body, "event_type") == Some(Str(t)) && Says(spec.profiles[p].events[t], e.body, "payload", m)
    case UnknownEventType(t, p) =>
      && e.schema == "event" && p in spec.profiles && Declares(e, p) && t == TextOf(Get(e.body, "event_type"))
      && !EventFits(spec.profiles[p], e.body, false)
    case BadPhaseParams(i, m) =>
      exists p, t, phase | p in spec.profiles && Declares(e, p) && t in spec.profiles[p].phases
                           && PhaseAt(e, i, phase) ::
        Get(phase, "name") == Some(Str(t)) && Says(spec.profiles[p].phases[t], phase, "params", m)
    case UnknownPhase(i, t, p) =>
      && p in spec.profiles && Declares(e, p)
      && exists phase | PhaseAt(e, i, phase) ::
           t == TextOf(Get(phase, "name")) && !PhaseFits(spec.profiles[p], phase, false)
  }

  lemma EventViolationsAreGenuine(e: Envelope, spec: Spec, v: Violation)
    requires ProfileName(e) in spec.profiles && e.schema == "event"
    requires v in EventErrors(spec.profiles[ProfileName(e)], ProfileName(e), e.body, false)
    ensures Genuine(v, e, spec)
  {
    var p := ProfileName(e);
    var prof := spec.profiles[p];
    DeclaresIff(e, p);
    var eventType := TextOf(Get(e.body, "event_type"));
    if eventType.Some? && eventType.value in prof.events {
      var texts := prof.events[eventType.value](OrEmptyObject(Get(e.body, "payload")));
      var i :| 0 <= i < |texts| && v == BadPayload(texts[i]);
      assert Says(prof.events[eventType.value], e.body, "payload", v.message);
    }
  }

  lemma PhaseViolationsAreGenuine(e: Envelope, spec: Spec, phases: seq<Json>, i: nat, v: Violation)
    requires ProfileName(e) in spec.profiles && e.schema == "process_run" && i < |phases|
    requires Get(e.body, "phases") == Some(Arr(phases))
    requires v in PhaseErrors(spec.profiles[ProfileName(e)], ProfileName(e), i, phases[i], false)
    ensures Genuine(v, e, spec)
  {
    var p := ProfileName(e);
    var prof, phase := spec.profiles[p], phases[i];
    DeclaresIff(e, p);
    assert PhaseAt(e, i, phase);
    var pname := TextOf(Get(phase, "name"));
    if pname.Some? && pname.value in prof.phases {
      var texts := prof.phases[pname.value](OrEmptyObject(Get(phase, "params")));
      var k :| 0 <= k < |texts| && v == BadPhaseParams(i, texts[k]);
      assert Says(prof.phases[pname.value], phase, "params", v.message);
    }
  }

  lemma {:induction false} PhasesErrorsFrom(prof: Profile, name: string, phases: seq<Json>, n: nat, v: Violation)
    returns (i: nat)
    requires n <= |phases| && v in PhasesErrors(prof, name, phases, n, false)
    ensures i < n && v in PhaseErrors(prof, name, i, phases[i], false)
  {
    PhasesStep(prof, name, phases, n, false);
    if v in PhasesErrors(prof, name, phases, n - 1, false) {
      i := PhasesErrorsFrom(prof, name, phases, n - 1, v);
    } else {
      i := n - 1;
    }
  }

  lemma {:induction false} WithoutIsWithin(vs: seq<Violation>)
    ensures forall v | v in WithoutNewVocabulary(vs) :: v in vs
  {
    if vs != [] {
      WithoutIsWithin(vs[1..]);
    }
  }

  // Each violation that is reported, in either reading, is one that the envelope has.
  lemma ViolationsAreGenuine(e: Envelope, spec: Spec, forwardCompatible: bool, v: Violation)
    requires v in ValidateEnvelope(e, spec, forwardCompatible)
    ensures Genuine(v, e, spec)
  {
    if forwardCompatible {
      ForwardIsStrictWithoutNewVocabulary(e, spec);
      WithoutIsWithin(ValidateEnvelope(e, spec, false));
    }
    StrictViolationsAreGenuine(e, spec, v);
  }

  lemma StrictViolationsAreGenuine(e: Envelope, spec: Spec, v: Violation)
    requires v in ValidateEnvelope(e, spec, false)
    ensures Genuine(v, e, spec)
  {
    if v in ProfileErrors(spec, e, false) {
      if e.schema == "event" {
        EventViolationsAreGenuine(e, spec, v);
      } else {
        var p, phases := ProfileName(e), ItemsOf(Get(e.body, "phases"));
        var i := PhasesErrorsFrom(spec.profiles[p], p, phases, |phases|, v);
        PhaseViolationsAreGenuine(e, spec, phases, i, v);
      }
    }
  }
}
