/** gateway/omp/core/engine.py: bodies become numbered, validated, buffered envelopes. */
module Engines {
  import opened Wrappers
  import opened JsonModel
  import opened Envelopes
  import opened CanonicalForm
  import opened Validation
  import opened Stores

  datatype Body = Body(schema: string, profile: string, body: Json, eventTs: Option<string>)

  // Ed25519 over the signed message is any function of the four values that it covers.
  type Signer = (string, string, int, string) -> string

  datatype Gateway = Gateway(gatewayId: string, spec: Spec, signer: Option<Signer>)

  function Timestamp(body: Body, now: string): string {
    if body.eventTs.Some? && body.eventTs.value != "" then body.eventTs.value else now
  }

  function Build(gw: Gateway, machineId: string, body: Body, seqNo: int, ts: string): Result<Envelope, BuildError> {
    match MakeEnvelope(body.schema, body.body, body.profile, gw.gatewayId, machineId, seqNo, ts, gw.spec.hash)
    case Err(e) => Err(e)
    case Ok(e) =>
      match gw.signer
      case None => Ok(e)
      case Some(sign) => Ok(e.(sig := Some(sign(gw.gatewayId, machineId, seqNo, e.checksum))))
  }

  // The envelope to buffer, or why there is none.
  function Judge(gw: Gateway, machineId: string, body: Body, seqNo: int, ts: string): (r: Result<Envelope, Refusal>)
    ensures r.Ok? ==> KeyOf(r.value) == Key(gw.gatewayId, machineId, seqNo)
    ensures r.Ok? ==> ValidateEnvelope(r.value, gw.spec, false) == []
  {
    match Build(gw, machineId, body, seqNo, ts)
    case Err(error) => Err(NotBuilt(error))
    case Ok(e) =>
      var violations := ValidateEnvelope(e, gw.spec, false);
      if violations == [] then Ok(e) else Err(NotValid(violations))
  }

  // The second half of `process`, once the number is taken.
  function AfterFinish(s: StoreState, gw: Gateway, machineId: string, body: Body, seqNo: int, ts: string,
                       storedAt: int): StoreState
  {
    match Judge(gw, machineId, body, seqNo, ts)
    case Ok(e) => AfterAppend(s, e, storedAt)
    case Err(refusal) => AfterDeadLetter(s, DeadLetter(machineId, ts, body.body, refusal))
  }

  // No buffered row carries a number that is yet to be handed out.
  ghost predicate NumbersHandedOut(s: StoreState) {
    forall r | r in s.buffer :: r.envelope.seqNo <= LastSeq(s, r.envelope.machineId)
  }

  // ---- what a call of `process` does -------------------------------------------------------

  // The time of the event where it has one, the time of the call otherwise.
  ghost predicate IsTime(ts: string, body: Body, now: string) {
    match body.eventTs
    case Some(t) => ts == if t != "" then t else now
    case None => ts == now
  }

  // The envelope around this body with this number.
  ghost predicate Wraps(e: Envelope, gw: Gateway, machineId: string, seqNo: int, body: Body, now: string) {
    && e.ompVersion == "0.1.0" && e.schema == body.schema && e.profile == body.profile && e.body == body.body
    && e.gatewayId == gw.gatewayId && e.machineId == machineId && e.seqNo == seqNo && IsTime(e.ts, body, now)
    && Checksum(body.body, gw.spec.hash) == Ok(e.checksum)
    && match gw.signer
       case Some(sign) => e.sig == Some(sign(gw.gatewayId, machineId, seqNo, e.checksum))
       case None => e.sig == None
  }

  ghost predicate IsCore(schema: string) {
    schema in {"machine", "event", "process_run", "energy", "telemetry"}
  }

  // The schema is one of the core, every number can be canonicalised, and both schemas and the
  // profile accept the envelope.
  ghost predicate Bufferable(gw: Gateway, machineId: string, seqNo: int, body: Body, now: string) {
    && IsCore(body.schema) && WholeNumbers(body.body)
    && exists e :: Wraps(e, gw, machineId, seqNo, body, now) && ValidateEnvelope(e, gw.spec, false) == []
  }

  // The refusal names what is wrong with the body.
  ghost predicate IsCause(r: Refusal, gw: Gateway, machineId: string, seqNo: int, body: Body, now: string) {
    match r
    case NotBuilt(UnknownSchema(schema)) => schema == body.schema && !IsCore(schema)
    case NotBuilt(BadNumber(error)) => IsCore(body.schema) && HasBadNumber(body.body, error)
    case NotValid(violations) =>
      violations != [] && exists e :: Wraps(e, gw, machineId, seqNo, body, now)
                                      && forall v | v in violations :: Genuine(v, e, gw.spec)
  }

  // One call, from the tables before it to those after it: the machine's next number is taken, and
  // either one row or one dead letter is added.
  ghost predicate Processed(s: StoreState, t: StoreState, envelope: Option<Envelope>, gw: Gateway,
                            machineId: string, body: Body, now: string, storedAt: int)
  {
    var seqNo := (if machineId in s.counters then s.counters[machineId] else 0) + 1;
    && t.counters == s.counters[machineId := seqNo] && t.cursors == s.cursors && t.pruneLog == s.pruneLog
    && (envelope.Some? <==> Bufferable(gw, machineId, seqNo, body, now))
    && match envelope
       case Some(e) =>
         && Wraps(e, gw, machineId, seqNo, body, now)
         && t.buffer == s.buffer + [Row(s.lastRowid + 1, e, Some(storedAt))] && t.lastRowid == s.lastRowid + 1
         && t.deadLetters == s.deadLetters
       case None =>
         && t.buffer == s.buffer && t.lastRowid == s.lastRowid
         && |t.deadLetters| == |s.deadLetters| + 1 && s.deadLetters <= t.deadLetters
         && IsDeadLetter(t.deadLetters[|s.deadLetters|], gw, machineId, seqNo, body, now)
  }

  ghost predicate IsDeadLetter(letter: DeadLetter, gw: Gateway, machineId: string, seqNo: int, body: Body,
                               now: string)
  {
    && letter.machineId == machineId && IsTime(letter.receivedTs, body, now) && letter.body == body.body
    && IsCause(letter.error, gw, machineId, seqNo, body, now)
  }

  lemma BuildWraps(gw: Gateway, machineId: string, body: Body, seqNo: int, now: string)
    ensures var r := Build(gw, machineId, body, seqNo, Timestamp(body, now));
      && (r.Ok? <==> IsCore(body.schema) && WholeNumbers(body.body))
      && (forall e :: Wraps(e, gw, machineId, seqNo, body, now) && IsCore(body.schema) <==> r == Ok(e))
      && (r.Err? ==> IsCause(NotBuilt(r.error), gw, machineId, seqNo, body, now))
  {
    CanonicalizesIff(body.body);
    RefusalIsGenuine(body.body);
  }

  // The envelope is judged as one call of `process` is meant to judge it.
  lemma JudgeIff(gw: Gateway, machineId: string, body: Body, seqNo: int, now: string)
    ensures var r := Judge(gw, machineId, body, seqNo, Timestamp(body, now));
      && (r.Ok? <==> Bufferable(gw, machineId, seqNo, body, now))
      && (r.Ok? ==> Wraps(r.value, gw, machineId, seqNo, body, now))
      && (r.Err? ==> IsCause(r.error, gw, machineId, seqNo, body, now))
  {
    BuildWraps(gw, machineId, body, seqNo, now);
    var built := Build(gw, machineId, body, seqNo, Timestamp(body, now));
    if built.Ok? {
      var e := built.value;
      assert Wraps(e, gw, machineId, seqNo, body, now);
      forall v | v in ValidateEnvelope(e, gw.spec, false) ensures Genuine(v, e, gw.spec) {
        ViolationsAreGenuine(e, gw.spec, false, v);
      }
    }
  }

  lemma ProcessMeaning(s: StoreState, gw: Gateway, machineId: string, body: Body, now: string, storedAt: int)
    ensures var seqNo, ts := LastSeq(s, machineId) + 1, Timestamp(body, now);
            var r := Judge(gw, machineId, body, seqNo, ts);
            Processed(s, AfterFinish(AfterNextSeq(s, machineId), gw, machineId, body, seqNo, ts, storedAt),
                      if r.Ok? then Some(r.value) else None, gw, machineId, body, now, storedAt)
  {
    var seqNo, ts := LastSeq(s, machineId) + 1, Timestamp(body, now);
    JudgeIff(gw, machineId, body, seqNo, now);
    Concluded(s, Judge(gw, machineId, body, seqNo, ts), gw, machineId, seqNo, body, ts, now, storedAt);
  }

  lemma Concluded(s: StoreState, r: Result<Envelope, Refusal>, gw: Gateway, machineId: string, seqNo: int, body: Body,
                  ts: string, now: string, storedAt: int)
    requires seqNo == LastSeq(s, machineId) + 1 && IsTime(ts, body, now)
    requires r.Ok? <==> Bufferable(gw, machineId, seqNo, body, now)
    requires r.Ok? ==> Wraps(r.value, gw, machineId, seqNo, body, now)
    requires r.Err? ==> IsCause(r.error, gw, machineId, seqNo, body, now)
    ensures match r
            case Ok(e) =>
              Processed(s, AfterAppend(AfterNextSeq(s, machineId), e, storedAt), Some(e),
                        gw, machineId, body, now, storedAt)
            case Err(refusal) =>
              Processed(s, AfterDeadLetter(AfterNextSeq(s, machineId), DeadLetter(machineId, ts, body.body, refusal)),
                        None, gw, machineId, body, now, storedAt)
  {
  }

  lemma ProcessKeepsNumbers(s: StoreState, gw: Gateway, machineId: string, body: Body, ts: string, storedAt: int)
    requires NumbersHandedOut(s)
    ensures var seqNo := LastSeq(s, machineId) + 1;
      && NumbersHandedOut(AfterFinish(AfterNextSeq(s, machineId), gw, machineId, body, seqNo, ts, storedAt))
      && forall e :: KeyOf(e) == Key(gw.gatewayId, machineId, seqNo) ==> !SlotTaken(AfterNextSeq(s, machineId), e)
  {
    var seqNo := LastSeq(s, machineId) + 1;
    var t := AfterFinish(AfterNextSeq(s, machineId), gw, machineId, body, seqNo, ts, storedAt);
    if t.buffer != s.buffer {
      var row := t.buffer[|s.buffer|];
      assert t.buffer == s.buffer + [row] && KeyOf(row.envelope) == Key(gw.gatewayId, machineId, seqNo);
      assert forall r | r in t.buffer :: r in s.buffer || r == row;
    }
  }

  class Engine {
    const gateway: Gateway
    const store: Store

    constructor (gateway: Gateway, store: Store)
      ensures this.gateway == gateway && this.store == store
    {
      this.gateway := gateway;
      this.store := store;
    }

    // Takes a number, then buffers the envelope or keeps the body as a dead letter. The number is
    // new, so the UNIQUE constraint of the buffer never refuses the row.
    method Process(machineId: string, body: Body, now: string, storedAt: int) returns (envelope: Option<Envelope>)
      requires NumbersHandedOut(store.State())
      modifies store
      ensures NumbersHandedOut(store.State())
      ensures Processed(old(store.State()), store.State(), envelope, gateway, machineId, body, now, storedAt)
      ensures var seqNo := LastSeq(old(store.State()), machineId) + 1;
              var ts := Timestamp(body, now);
              && store.State() == AfterFinish(AfterNextSeq(old(store.State()), machineId), gateway, machineId, body,
                                              seqNo, ts, storedAt)
              && envelope == match Judge(gateway, machineId, body, seqNo, ts)
                             case Ok(e) => Some(e)
                             case Err(_) => None
    {
      var ts := Timestamp(body, now);
      ghost var before := store.State();
      ProcessMeaning(before, gateway, machineId, body, now, storedAt);
      ProcessKeepsNumbers(before, gateway, machineId, body, ts, storedAt);
      var seqNo := store.NextSeq(machineId);
      match Build(gateway, machineId, body, seqNo, ts) {
        case Err(error) =>
          store.RecordDeadLetter(machineId, ts, body.body, NotBuilt(error));
          envelope := None;
        case Ok(e) =>
          var violations := ValidateEnvelope(e, gateway.spec, false);
          if violations != [] {
            store.RecordDeadLetter(machineId, ts, body.body, NotValid(violations));
            envelope := None;
          } else {
            var ok := store.Append(e, storedAt);
            envelope := Some(e);
          }
      }
    }
  }
}
