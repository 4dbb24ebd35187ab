/** Delivery over every run: what was buffered is given to every destination or still waits for it. */
module PipelineDelivery {
  import opened Wrappers
  import opened Envelopes
  import opened Stores
  import opened Engines
  import opened Pipeline

  function CursorOf(cfg: Config, s: Sys, d: nat): int
    requires d < |cfg.exporters|
  {
    Cursor(s.store, cfg.exporters[d])
  }

  // Rows are numbered 1, 2, ... in the order of appending, for good: also when all of them are pruned.
  ghost predicate RowsNumbered(s: Sys) {
    && s.store.lastRowid == |s.appended|
    && (forall i | 0 <= i < |s.appended| :: s.appended[i].rowid == i + 1)
    && Ascending(s.store.buffer)
    && (forall r | r in s.store.buffer :: 1 <= r.rowid <= |s.appended| && s.appended[r.rowid - 1] == r)
  }

  // A row leaves the buffer only once every cursor has passed it.
  ghost predicate KeptUntilPassed(cfg: Config, s: Sys) {
    && (forall d | 0 <= d < |cfg.exporters| :: 0 <= CursorOf(cfg, s, d) <= |s.appended|)
    && (forall i | 0 <= i < |s.appended| ::
          s.appended[i] in s.store.buffer || PassedByAll(cfg, s, i))
  }

  ghost predicate PassedByAll(cfg: Config, s: Sys, i: nat) {
    forall d | 0 <= d < |cfg.exporters| :: i < CursorOf(cfg, s, d)
  }

  // A cursor passes only rows that its destination was given.
  ghost predicate PassedOnlyIfGiven(cfg: Config, s: Sys) {
    && |s.published| == |s.received| == |cfg.exporters|
    && (forall d, i | 0 <= d < |cfg.exporters| && 0 <= i < |s.appended| && i < CursorOf(cfg, s, d) ::
          s.appended[i] in s.published[d])
    && (forall d | 0 <= d < |s.published| :: forall r | r in s.published[d] :: r in s.appended)
    && (forall d | 0 <= d < |s.published| :: forall r | r in s.received[d] :: r in s.published[d])
  }

  // A batch under way is the part of the rows that comes next after its cursor.
  ghost predicate DrainFollowsCursor(cfg: Config, s: Sys) {
    s.drain != Idle ==>
      var d, todo := s.drain.destination, s.drain.todo;
      && d < |cfg.exporters| == |s.published| && todo != []
      && 0 <= CursorOf(cfg, s, d) && CursorOf(cfg, s, d) + |todo| <= |s.appended|
      && (forall i | 0 <= i < |todo| :: todo[i] == s.appended[CursorOf(cfg, s, d) + i])
      && (s.drain.handedOver ==> todo[0] in s.published[d])
  }

  ghost predicate Delivering(cfg: Config, s: Sys) {
    RowsNumbered(s) && KeptUntilPassed(cfg, s) && PassedOnlyIfGiven(cfg, s) && DrainFollowsCursor(cfg, s)
  }

  // ---- steps ---------------------------------------------------------------------

  lemma StartDelivers(cfg: Config)
    ensures Delivering(cfg, Start(cfg))
  {}

  // Deliveries stand where cursors, rows and hand-overs do; the drain may be dropped.
  lemma SameDeliveries(cfg: Config, s: Sys, t: Sys)
    requires PassedOnlyIfGiven(cfg, s) && DrainFollowsCursor(cfg, s)
    requires t.store.cursors == s.store.cursors && t.appended == s.appended
    requires t.published == s.published && t.received == s.received
    requires t.drain == s.drain || t.drain == Idle
    ensures PassedOnlyIfGiven(cfg, t) && DrainFollowsCursor(cfg, t)
  {
    assert forall d | 0 <= d < |cfg.exporters| :: CursorOf(cfg, t, d) == CursorOf(cfg, s, d);
  }

  lemma SameRows(cfg: Config, s: Sys, t: Sys)
    requires RowsNumbered(s) && KeptUntilPassed(cfg, s)
    requires t.store.buffer == s.store.buffer && t.store.lastRowid == s.store.lastRowid && t.appended == s.appended
    requires t.store.cursors == s.store.cursors
    ensures RowsNumbered(t) && KeptUntilPassed(cfg, t)
  {
    assert forall d | 0 <= d < |cfg.exporters| :: CursorOf(cfg, t, d) == CursorOf(cfg, s, d);
    forall i | 0 <= i < |t.appended| && PassedByAll(cfg, s, i) ensures PassedByAll(cfg, t, i) {}
  }

  lemma AppendKeepsRows(cfg: Config, s: Sys, t: Sys, row: Row)
    requires RowsNumbered(s) && KeptUntilPassed(cfg, s) && row.rowid == s.store.lastRowid + 1
    requires t.store.cursors == s.store.cursors && t.store.lastRowid == row.rowid
    requires t.store.buffer == s.store.buffer + [row] && t.appended == s.appended + [row]
    ensures RowsNumbered(t) && KeptUntilPassed(cfg, t)
  {
    assert forall r :: r in t.store.buffer <==> r in s.store.buffer || r == row;
    assert forall d | 0 <= d < |cfg.exporters| :: CursorOf(cfg, t, d) == CursorOf(cfg, s, d);
    forall i | 0 <= i < |t.appended| ensures t.appended[i] in t.store.buffer || PassedByAll(cfg, t, i) {
      if i < |s.appended| {
        assert t.appended[i] == s.appended[i];
        assert PassedByAll(cfg, s, i) ==> PassedByAll(cfg, t, i);
      }
    }
  }

  lemma AppendKeepsDeliveries(cfg: Config, s: Sys, t: Sys, row: Row)
    requires PassedOnlyIfGiven(cfg, s) && DrainFollowsCursor(cfg, s) && KeptUntilPassed(cfg, s)
    requires t.store.cursors == s.store.cursors && t.appended == s.appended + [row]
    requires t.drain == s.drain && t.published == s.published && t.received == s.received
    ensures PassedOnlyIfGiven(cfg, t) && DrainFollowsCursor(cfg, t)
  {
    assert forall d | 0 <= d < |cfg.exporters| :: CursorOf(cfg, t, d) == CursorOf(cfg, s, d);
    assert forall r | r in s.appended :: r in t.appended;
  }

  lemma PublishedGrows(cfg: Config, s: Sys, t: Sys, d: nat, row: Row)
    requires PassedOnlyIfGiven(cfg, s) && d < |s.published| && row in s.appended
    requires t.store == s.store && t.appended == s.appended && t.received == s.received
    requires t.published == s.published[d := s.published[d] + [row]]
    ensures PassedOnlyIfGiven(cfg, t)
  {
    assert forall r :: r in t.published[d] <==> r in s.published[d] || r == row;
    assert forall e | 0 <= e < |s.published| && e != d :: t.published[e] == s.published[e];
    assert forall e | 0 <= e < |cfg.exporters| :: CursorOf(cfg, t, e) == CursorOf(cfg, s, e);
  }

  lemma PublishKeepsDelivering(cfg: Config, s: Sys, t: Sys, d: nat)
    requires Delivering(cfg, s) && s.drain != Idle && s.drain.destination == d && d < |s.published|
    requires t.store == s.store && t.appended == s.appended && t.received == s.received
    requires t.drain == s.drain.(handedOver := true)
    requires t.published == s.published[d := s.published[d] + [s.drain.todo[0]]]
    ensures Delivering(cfg, t)
  {
    SameRows(cfg, s, t);
    var row := s.drain.todo[0];
    assert row == s.appended[CursorOf(cfg, s, d)];
    PublishedGrows(cfg, s, t, d, row);
    assert row in t.published[d] && CursorOf(cfg, t, d) == CursorOf(cfg, s, d);
  }

  lemma AcknowledgeKeepsRows(cfg: Config, s: Sys, t: Sys)
    requires RowsNumbered(s) && KeptUntilPassed(cfg, s)
    requires t.store.buffer == s.store.buffer && t.store.lastRowid == s.store.lastRowid && t.appended == s.appended
    requires forall e | 0 <= e < |cfg.exporters| :: CursorOf(cfg, s, e) <= CursorOf(cfg, t, e) <= |s.appended|
    ensures RowsNumbered(t) && KeptUntilPassed(cfg, t)
  {
    forall i | 0 <= i < |t.appended| && PassedByAll(cfg, s, i) ensures PassedByAll(cfg, t, i) {}
  }

  lemma AcknowledgeKeepsDelivering(cfg: Config, s: Sys, t: Sys, d: nat)
    requires Delivering(cfg, s) && DistinctNames(cfg)
    requires s.drain != Idle && s.drain.handedOver && s.drain.destination == d && d < |cfg.exporters|
    requires t.store == AfterAck(s.store, cfg.exporters[d], s.drain.todo[0].rowid)
    requires t.appended == s.appended && t.published == s.published && t.received == s.received
    requires t.drain == if s.drain.todo[1..] == [] then Idle else Draining(d, s.drain.todo[1..], false)
    ensures Delivering(cfg, t)
  {
    var cursor := CursorOf(cfg, s, d);
    assert s.drain.todo[0] == s.appended[cursor];
    assert CursorOf(cfg, t, d) == cursor + 1;
    forall e | 0 <= e < |cfg.exporters| && e != d ensures CursorOf(cfg, t, e) == CursorOf(cfg, s, e) {
      assert cfg.exporters[e] != cfg.exporters[d];
    }
    AcknowledgeKeepsRows(cfg, s, t);
    AcknowledgeKeepsDeliveries(cfg, s, t, d);
    RestFollowsCursor(cfg, s, t, d);
  }

  lemma AcknowledgeKeepsDeliveries(cfg: Config, s: Sys, t: Sys, d: nat)
    requires PassedOnlyIfGiven(cfg, s) && d < |cfg.exporters|
    requires t.appended == s.appended && t.published == s.published && t.received == s.received
    requires 0 <= CursorOf(cfg, s, d) < |s.appended| && s.appended[CursorOf(cfg, s, d)] in s.published[d]
    requires CursorOf(cfg, t, d) == CursorOf(cfg, s, d) + 1
    requires forall e | 0 <= e < |cfg.exporters| && e != d :: CursorOf(cfg, t, e) == CursorOf(cfg, s, e)
    ensures PassedOnlyIfGiven(cfg, t)
  {}

  lemma RestFollowsCursor(cfg: Config, s: Sys, t: Sys, d: nat)
    requires DrainFollowsCursor(cfg, s) && s.drain != Idle && s.drain.destination == d && d < |cfg.exporters|
    requires t.appended == s.appended && t.published == s.published
    requires t.drain == if s.drain.todo[1..] == [] then Idle else Draining(d, s.drain.todo[1..], false)
    requires CursorOf(cfg, t, d) == CursorOf(cfg, s, d) + 1
    ensures DrainFollowsCursor(cfg, t)
  {
    var rest := s.drain.todo[1..];
    assert forall i | 0 <= i < |rest| :: rest[i] == s.drain.todo[i + 1];
  }

  lemma PruneKeepsDelivering(cfg: Config, s: Sys, t: Sys, now: int, cutoff: int, diskOver: bool)
    requires Delivering(cfg, s) && Consistent(s.store)
    requires t == s.(store := AfterPrune(s.store, cfg.exporters, now, cutoff, diskOver))
    ensures Delivering(cfg, t)
  {
    PruneExactly(s.store, cfg.exporters, now, cutoff, diskOver);
    assert t.store.cursors == s.store.cursors && t.store.lastRowid == s.store.lastRowid;
    SameDeliveries(cfg, s, t);
    PruneKeepsRows(cfg, s, t, cutoff, diskOver);
  }

  lemma PruneKeepsRows(cfg: Config, s: Sys, t: Sys, cutoff: int, diskOver: bool)
    requires RowsNumbered(s) && KeptUntilPassed(cfg, s)
    requires t.store.cursors == s.store.cursors && t.store.lastRowid == s.store.lastRowid && t.appended == s.appended
    requires Ascending(t.store.buffer)
    requires forall r :: r in t.store.buffer <==>
               r in s.store.buffer && !Deletable(s.store, cfg.exporters, r, cutoff, diskOver)
    ensures RowsNumbered(t) && KeptUntilPassed(cfg, t)
  {
    assert forall d | 0 <= d < |cfg.exporters| :: CursorOf(cfg, t, d) == CursorOf(cfg, s, d);
    forall i | 0 <= i < |t.appended| ensures t.appended[i] in t.store.buffer || PassedByAll(cfg, t, i) {
      if Deletable(s.store, cfg.exporters, s.appended[i], cutoff, diskOver) {
        assert forall d | 0 <= d < |cfg.exporters| :: cfg.exporters[d] in cfg.exporters;
      } else if s.appended[i] !in s.store.buffer {
        assert PassedByAll(cfg, s, i);
      }
    }
  }

  // Ascending lists with the same rows are the same list.
  lemma {:induction false} AscendingRowsUnique(a: seq<Row>, b: seq<Row>)
    requires Ascending(a) && Ascending(b) && forall r :: r in a <==> r in b
    ensures a == b
  {
    assert b != [] ==> b[0] in b;
    if a != [] {
      assert a[0] in a;
      var i :| 0 <= i < |b| && b[i] == a[0];
      assert a == [a[0]] + a[1..] && b == [a[0]] + b[1..];
      assert a[0] !in a[1..] && a[0] !in b[1..];
      assert forall r :: (r in a <==> r == a[0] || r in a[1..]) && (r in b <==> r == a[0] || r in b[1..]);
      AscendingRowsUnique(a[1..], b[1..]);
    }
  }

  // What a destination has yet to get is all that was appended past its cursor, in that order.
  lemma UndeliveredIsTail(cfg: Config, s: Sys, d: nat)
    requires RowsNumbered(s) && KeptUntilPassed(cfg, s) && d < |cfg.exporters|
    ensures 0 <= CursorOf(cfg, s, d) <= |s.appended|
    ensures Undelivered(s.store, cfg.exporters[d]) == s.appended[CursorOf(cfg, s, d)..]
  {
    var cursor := CursorOf(cfg, s, d);
    var rows, tail := Undelivered(s.store, cfg.exporters[d]), s.appended[cursor..];
    RowsAfterMeaning(s.store.buffer, cursor);
    assert forall i | 0 <= i < |tail| :: tail[i] == s.appended[cursor + i];
    forall r ensures r in rows <==> r in tail {
      if r in rows {
        assert tail[r.rowid - 1 - cursor] == r;
      }
      if r in tail {
        var i :| 0 <= i < |tail| && tail[i] == r;
        assert !PassedByAll(cfg, s, cursor + i);
        assert s.appended[cursor + i] in s.store.buffer;
      }
    }
    AscendingRowsUnique(rows, tail);
  }

  lemma FetchKeepsDelivering(cfg: Config, s: Sys, t: Sys, d: nat, batch: int)
    requires Delivering(cfg, s) && d < |cfg.exporters|
    requires Pending(s.store, cfg.exporters[d], batch) != []
    requires t == s.(drain := Draining(d, Pending(s.store, cfg.exporters[d], batch), false))
    ensures Delivering(cfg, t)
  {
    UndeliveredIsTail(cfg, s, d);
    var cursor := CursorOf(cfg, s, d);
    PendingIsNext(cfg, s, d, batch);
    SameDeliveries(cfg, s, t.(drain := Idle));
    SameRows(cfg, s, t);
    assert forall e | 0 <= e < |cfg.exporters| :: CursorOf(cfg, t, e) == CursorOf(cfg, s, e);
    assert PassedOnlyIfGiven(cfg, t) && DrainFollowsCursor(cfg, t);
  }

  lemma PendingIsNext(cfg: Config, s: Sys, d: nat, batch: int)
    requires RowsNumbered(s) && KeptUntilPassed(cfg, s) && d < |cfg.exporters|
    ensures var rows, cursor := Pending(s.store, cfg.exporters[d], batch), CursorOf(cfg, s, d);
      0 <= cursor && cursor + |rows| <= |s.appended|
      && forall i | 0 <= i < |rows| :: rows[i] == s.appended[cursor + i]
  {
    UndeliveredIsTail(cfg, s, d);
  }

  lemma ArriveKeepsDelivering(cfg: Config, s: Sys, t: Sys, d: nat, row: Row)
    requires Delivering(cfg, s) && d < |s.published| && row in s.published[d]
    requires t == s.(received := s.received[d := s.received[d] + [row]])
    ensures Delivering(cfg, t)
  {
    SameRows(cfg, s, t);
    assert forall r :: r in t.received[d] <==> r in s.received[d] || r == row;
    assert forall e | 0 <= e < |s.received| && e != d :: t.received[e] == s.received[e];
    ReceivedApart(cfg, s, t);
  }

  // What a consumer received does not bear on the drain.
  lemma ReceivedApart(cfg: Config, s: Sys, t: Sys)
    requires PassedOnlyIfGiven(cfg, s) && DrainFollowsCursor(cfg, s)
    requires t.(received := s.received) == s && |t.received| == |s.received|
    requires forall d | 0 <= d < |t.received| :: forall r | r in t.received[d] :: r in t.published[d]
    ensures PassedOnlyIfGiven(cfg, t) && DrainFollowsCursor(cfg, t)
  {
    assert forall e | 0 <= e < |cfg.exporters| :: CursorOf(cfg, t, e) == CursorOf(cfg, s, e);
    if t.drain != Idle {
      assert CursorOf(cfg, t, t.drain.destination) == CursorOf(cfg, s, s.drain.destination);
    }
  }

  // Steps that touch neither rows nor cursors nor hand-overs, or that only drop the drain.
  lemma OthersKeepDelivering(cfg: Config, s: Sys, t: Sys)
    requires Delivering(cfg, s)
    requires t.store.buffer == s.store.buffer && t.store.cursors == s.store.cursors
    requires t.store.lastRowid == s.store.lastRowid && t.appended == s.appended
    requires t.published == s.published && t.received == s.received
    requires t.drain == s.drain || t.drain == Idle
    ensures Delivering(cfg, t)
  {
    SameDeliveries(cfg, s, t);
    SameRows(cfg, s, t);
  }

  lemma FinishKeepsDelivering(cfg: Config, s: Sys, c: Call, storedAt: int)
    requires Delivering(cfg, s)
    ensures Delivering(cfg, FinishCall(cfg, s, c, storedAt))
  {
    var t := FinishCall(cfg, s, c, storedAt);
    match Judge(cfg.gateway, c.machineId, c.body, c.seqNo, c.ts) {
      case Ok(e) =>
        AppendKeepsRows(cfg, s, t, Row(s.store.lastRowid + 1, e, Some(storedAt)));
        AppendKeepsDeliveries(cfg, s, t, Row(s.store.lastRowid + 1, e, Some(storedAt)));
      case Err(_) => OthersKeepDelivering(cfg, s, t);
    }
  }

  lemma StepKeepsDelivering(cfg: Config, s: Sys, a: Action)
    requires Delivering(cfg, s) && Consistent(s.store) && DistinctNames(cfg)
    ensures Delivering(cfg, Step(cfg, s, a))
  {
    var t := Step(cfg, s, a);
    if t != s {
      match a {
        case Finish(c, storedAt) => FinishKeepsDelivering(cfg, s, c, storedAt);
        case Fetch(d, batch) => FetchKeepsDelivering(cfg, s, t, d, batch);
        case Publish => PublishKeepsDelivering(cfg, s, t, s.drain.destination);
        case Acknowledge => AcknowledgeKeepsDelivering(cfg, s, t, s.drain.destination);
        case Prune(now, retention, diskOver) => PruneKeepsDelivering(cfg, s, t, now, now - retention, diskOver);
        case Arrive(d, i) => ArriveKeepsDelivering(cfg, s, t, d, s.published[d][i]);
        case _ => OthersKeepDelivering(cfg, s, t);
      }
    }
  }
}
