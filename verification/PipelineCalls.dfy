/** The gateway's calls are runs of the pipeline: what `Engine.Process` and `Exporter.Drain` leave
    behind is what their steps lead to, so the results about runs are about them. */
module PipelineCalls {
  import opened Envelopes
  import opened Stores
  import opened Engines
  import opened Exporters
  import opened Pipeline

  function Steps(cfg: Config, s: Sys, actions: seq<Action>): Sys
    decreases |actions|
  {
    if actions == [] then s else Steps(cfg, Step(cfg, s, actions[0]), actions[1..])
  }

  lemma {:induction false} StepsConcat(cfg: Config, s: Sys, a: seq<Action>, b: seq<Action>)
    ensures Steps(cfg, s, a + b) == Steps(cfg, Steps(cfg, s, a), b)
    decreases |a|
  {
    if a == [] {
      assert a + b == b;
    } else {
      assert (a + b)[1..] == a[1..] + b;
      StepsConcat(cfg, Step(cfg, s, a[0]), a[1..], b);
    }
  }

  // Steps from a state that a run reaches lead to a state that a run reaches.
  lemma {:induction false} StepsContinueRun(cfg: Config, past: seq<Action>, more: seq<Action>)
    ensures Steps(cfg, Run(cfg, past), more) == Run(cfg, past + more)
    decreases |more|
  {
    if more == [] {
      assert past + more == past;
    } else {
      assert (past + [more[0]])[..|past|] == past;
      assert past + more == past + [more[0]] + more[1..];
      StepsContinueRun(cfg, past + [more[0]], more[1..]);
    }
  }

  // `Process`, undisturbed, is taking a number and finishing the call.
  lemma ProcessIsARun(cfg: Config, s: Sys, machineId: string, body: Body, now: string, storedAt: int)
    ensures var seqNo, ts := LastSeq(s.store, machineId) + 1, Timestamp(body, now);
            Steps(cfg, s, [Begin(machineId, body, now), Finish(Call(machineId, body, seqNo, ts), storedAt)]).store
            == AfterFinish(AfterNextSeq(s.store, machineId), cfg.gateway, machineId, body, seqNo, ts, storedAt)
  {
    var call := Call(machineId, body, LastSeq(s.store, machineId) + 1, Timestamp(body, now));
    var a, b := Begin(machineId, body, now), Finish(call, storedAt);
    assert [a, b][1..] == [b] && [b][1..] == [];
    assert Steps(cfg, s, [a, b]) == Steps(cfg, Step(cfg, s, a), [b]);
    assert Steps(cfg, Step(cfg, s, a), [b]) == Steps(cfg, Step(cfg, Step(cfg, s, a), b), []);
    assert call in Step(cfg, s, a).calls;
  }

  // One row of a drain.
  lemma DeliverOne(cfg: Config, s: Sys, d: nat, todo: seq<Row>)
    requires d < |cfg.exporters| && |s.published| == |cfg.exporters| && todo != []
    ensures Steps(cfg, s.(drain := Draining(d, todo, false)), [Publish, Acknowledge])
            == s.(store := AfterAck(s.store, cfg.exporters[d], todo[0].rowid),
                  published := s.published[d := s.published[d] + [todo[0]]],
                  drain := if todo[1..] == [] then Idle else Draining(d, todo[1..], false))
  {
    var s0 := s.(drain := Draining(d, todo, false));
    assert [Publish, Acknowledge][1..] == [Acknowledge] && [Acknowledge][1..] == [];
    assert Steps(cfg, s0, [Publish, Acknowledge]) == Steps(cfg, Step(cfg, s0, Publish), [Acknowledge]);
    assert Steps(cfg, Step(cfg, s0, Publish), [Acknowledge])
           == Steps(cfg, Step(cfg, Step(cfg, s0, Publish), Acknowledge), []);
  }

  // The state once `k` of the rows were delivered.
  function Delivered(cfg: Config, s: Sys, d: nat, rows: seq<Row>, k: nat): Sys
    requires d < |cfg.exporters| && d < |s.published| && k <= |rows|
  {
    s.(store := AfterDeliveries(s.store, cfg.exporters[d], rows, k),
       published := s.published[d := s.published[d] + rows[..k]])
  }

  lemma DeliveredNext(cfg: Config, s: Sys, d: nat, rows: seq<Row>, k: nat)
    requires d < |cfg.exporters| && |s.published| == |cfg.exporters| && k < |rows|
    ensures var t := Delivered(cfg, s, d, rows, k);
            Delivered(cfg, s, d, rows, k + 1)
            == t.(store := AfterAck(t.store, cfg.exporters[d], rows[k].rowid),
                  published := t.published[d := t.published[d] + [rows[k]]])
  {
    assert rows[..k + 1] == rows[..k] + [rows[k]];
    assert s.published[d] + rows[..k] + [rows[k]] == s.published[d] + (rows[..k] + [rows[k]]);
  }

  lemma {:induction false} DeliverFirst(cfg: Config, s: Sys, d: nat, rows: seq<Row>, k: nat)
    returns (actions: seq<Action>)
    requires d < |cfg.exporters| && |s.published| == |cfg.exporters| && k <= |rows| && rows != []
    ensures Steps(cfg, s.(drain := Draining(d, rows, false)), actions)
            == Delivered(cfg, s, d, rows, k).(drain := if rows[k..] == [] then Idle else Draining(d, rows[k..], false))
  {
    if k == 0 {
      actions := [];
      assert rows[..0] == [] && rows[0..] == rows && s.published[d] + [] == s.published[d];
      assert s.published[d := s.published[d]] == s.published;
    } else {
      var first := DeliverFirst(cfg, s, d, rows, k - 1);
      assert rows[k - 1..][1..] == rows[k..] && rows[k - 1..] != [] && rows[k - 1..][0] == rows[k - 1];
      DeliverOne(cfg, Delivered(cfg, s, d, rows, k - 1), d, rows[k - 1..]);
      DeliveredNext(cfg, s, d, rows, k - 1);
      StepsConcat(cfg, s.(drain := Draining(d, rows, false)), first, [Publish, Acknowledge]);
      actions := first + [Publish, Acknowledge];
    }
  }

  // A drain that delivers the first `k` rows past the cursor, however it is cut into batches, and
  // ends, with or without a failure, leaves what these steps lead to.
  lemma DrainIsARun(cfg: Config, s: Sys, d: nat, k: nat) returns (actions: seq<Action>)
    requires s.drain == Idle && d < |cfg.exporters| && |s.published| == |cfg.exporters|
    requires k <= |Undelivered(s.store, cfg.exporters[d])|
    ensures Steps(cfg, s, actions) == Delivered(cfg, s, d, Undelivered(s.store, cfg.exporters[d]), k)
  {
    var rows := Undelivered(s.store, cfg.exporters[d]);
    if rows == [] {
      actions := [];
      assert s.published[d] + rows[..0] == s.published[d] && s.published[d := s.published[d]] == s.published;
    } else {
      var fetch := Fetch(d, -1);
      var deliver := DeliverFirst(cfg, s, d, rows, k);
      actions := [fetch] + deliver + [Abort];
      StepsConcat(cfg, s, [fetch] + deliver, [Abort]);
      StepsConcat(cfg, s, [fetch], deliver);
      var t := Steps(cfg, s, [fetch] + deliver);
      assert [fetch][1..] == [] && [Abort][1..] == [];
      assert Steps(cfg, s, [fetch]) == Steps(cfg, Step(cfg, s, fetch), []);
      assert Steps(cfg, t, [Abort]) == Steps(cfg, Step(cfg, t, Abort), []);
    }
  }
}
