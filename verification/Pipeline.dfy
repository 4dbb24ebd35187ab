/** The gateway's delivery pipeline and its consumers as one state machine.

    A step is one atomic block of the source: taking a number and buffering an envelope are apart,
    and so are publishing and acknowledging, so that other steps or a crash may come between. */
module Pipeline {
  import opened Wrappers
  import opened JsonModel
  import opened Stores
  import opened Engines

  // `exporters[d]` is the name under which destination `d` keeps its cursor.
  datatype Config = Config(gateway: Gateway, exporters: seq<string>)

  datatype Slot = Slot(machineId: string, seqNo: int)

  // A call of `process` between taking its number and buffering its envelope.
  datatype Call = Call(machineId: string, body: Body, seqNo: int, ts: string)

  // Drains are serialised: at most one is under way. `handedOver` is true between publishing the
  // first row of `todo` and acknowledging it.
  datatype Drain = Idle | Draining(destination: nat, todo: seq<Row>, handedOver: bool)

  // `store` is durable, `calls` and `drain` are lost in a crash, and the rest is history: every row
  // ever buffered, the numbers of refused and of lost calls, and per destination what it was given
  // and what of that reached its consumer.
  datatype Sys = Sys(
    store: StoreState,
    calls: set<Call>,
    drain: Drain,
    appended: seq<Row>,
    refused: set<Slot>,
    lost: set<Slot>,
    published: seq<seq<Row>>,
    received: seq<seq<Row>>)

  datatype Action =
    | Begin(machineId: string, body: Body, now: string)
    | Finish(call: Call, storedAt: int)
    | Fetch(destination: nat, batch: int)
    | Publish
    | Acknowledge
    | Abort
    | Prune(pruneNow: int, retention: int, diskOver: bool)
    | Arrive(at: nat, index: nat)
    | Crash

  function SlotOfCall(c: Call): Slot {
    Slot(c.machineId, c.seqNo)
  }

  function SlotOfRow(r: Row): Slot {
    Slot(r.envelope.machineId, r.envelope.seqNo)
  }

  function Start(cfg: Config): Sys {
    var nothing := seq(|cfg.exporters|, d => []);
    Sys(EMPTY_STORE, {}, Idle, [], {}, {}, nothing, nothing)
  }

  // A step that is not enabled changes nothing.
  function Step(cfg: Config, s: Sys, a: Action): Sys {
    match a
    case Begin(m, body, now) =>
      s.(store := AfterNextSeq(s.store, m),
         calls := s.calls + {Call(m, body, LastSeq(s.store, m) + 1, Timestamp(body, now))})
    case Finish(c, storedAt) =>
      if c !in s.calls then s else FinishCall(cfg, s, c, storedAt)
    case Fetch(d, batch) =>
      if s.drain != Idle || d >= |cfg.exporters| then s
      else
        var rows := Pending(s.store, cfg.exporters[d], batch);
        if rows == [] then s else s.(drain := Draining(d, rows, false))
    case Publish =>
      if s.drain == Idle || s.drain.handedOver || s.drain.todo == [] || s.drain.destination >= |s.published| then s
      else
        var d := s.drain.destination;
        s.(drain := s.drain.(handedOver := true),
           published := s.published[d := s.published[d] + [s.drain.todo[0]]])
    case Acknowledge =>
      if s.drain == Idle || !s.drain.handedOver || s.drain.todo == []
         || s.drain.destination >= |cfg.exporters| then s
      else
        var rest := s.drain.todo[1..];
        s.(store := AfterAck(s.store, cfg.exporters[s.drain.destination], s.drain.todo[0].rowid),
           drain := if rest == [] then Idle else Draining(s.drain.destination, rest, false))
    case Abort =>
      s.(drain := Idle)
    case Prune(now, retention, diskOver) =>
      s.(store := AfterPrune(s.store, cfg.exporters, now, now - retention, diskOver))
    case Arrive(d, i) =>
      if d >= |s.published| || d >= |s.received| || i >= |s.published[d]| then s
      else s.(received := s.received[d := s.received[d] + [s.published[d][i]]])
    case Crash =>
      s.(calls := {}, drain := Idle, lost := s.lost + set c | c in s.calls :: SlotOfCall(c))
  }

  function FinishCall(cfg: Config, s: Sys, c: Call, storedAt: int): Sys {
    var t := s.(store := AfterFinish(s.store, cfg.gateway, c.machineId, c.body, c.seqNo, c.ts, storedAt),
                calls := s.calls - {c});
    match Judge(cfg.gateway, c.machineId, c.body, c.seqNo, c.ts)
    case Ok(e) => t.(appended := s.appended + [Row(s.store.lastRowid + 1, e, Some(storedAt))])
    case Err(_) => t.(refused := s.refused + {SlotOfCall(c)})
  }

  function Run(cfg: Config, actions: seq<Action>): Sys {
    if actions == [] then Start(cfg)
    else Step(cfg, Run(cfg, actions[..|actions| - 1]), actions[|actions| - 1])
  }

  ghost predicate DistinctNames(cfg: Config) {
    forall i, k | 0 <= i < k < |cfg.exporters| :: cfg.exporters[i] != cfg.exporters[k]
  }

  // A crash forgets the calls in flight and the batch under way, and leaves what is durable.
  lemma CrashForgets(cfg: Config, s: Sys)
    ensures var t := Step(cfg, s, Crash);
      && t.store == s.store && t.calls == {} && t.drain == Idle && t.published == s.published
      && t.appended == s.appended && t.refused == s.refused && t.received == s.received
      && forall x :: x in t.lost <==> x in s.lost || exists c :: c in s.calls && SlotOfCall(c) == x
  {
  }
}
