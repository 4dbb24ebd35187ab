/** The results about every run of the pipeline: no loss, and exactly once at the consumer. */
module PipelineSafety {
  import opened Wrappers
  import opened Text
  import opened Envelopes
  import opened Validation
  import opened Stores
  import opened Engines
  import opened Consumers
  import opened ConsumerTables
  import opened Pipeline
  import opened PipelineNumbers
  import opened PipelineDelivery

  // Every row ever buffered is still there or counted in the prune log.
  ghost predicate PrunesLogged(s: Sys) {
    |s.appended| == |s.store.buffer| + LoggedRows(s.store.pruneLog)
  }

  // Only valid envelopes of this gateway are ever buffered.
  ghost predicate OnlyValidBuffered(cfg: Config, s: Sys) {
    forall r | r in s.appended ::
      r.envelope.gatewayId == cfg.gateway.gatewayId && ValidateEnvelope(r.envelope, cfg.gateway.spec, false) == []
  }

  ghost predicate Sound(cfg: Config, s: Sys) {
    && NumbersAccounted(s) && Consistent(s.store) && Delivering(cfg, s)
    && PrunesLogged(s) && OnlyValidBuffered(cfg, s)
  }

  // A call in flight has a number that no buffered row has: the UNIQUE constraint never refuses it.
  lemma NumbersNeverCollide(cfg: Config, s: Sys, c: Call, e: Envelope)
    requires NumbersAccounted(s) && RowsNumbered(s) && c in s.calls
    requires e.machineId == c.machineId && e.seqNo == c.seqNo
    ensures !SlotTaken(s.store, e)
  {
    assert InFlight(s, SlotOfCall(c));
    forall r | r in s.store.buffer ensures !SameSlot(r.envelope, e) {
      assert r in s.appended;
      assert WasAppended(s, SlotOfRow(r));
    }
  }

  lemma StepKeepsConsistent(cfg: Config, s: Sys, a: Action)
    requires NumbersAccounted(s) && RowsNumbered(s) && Consistent(s.store)
    ensures Consistent(Step(cfg, s, a).store)
  {
    BlocksKeepConsistent(s.store);
    if a.Finish? && a.call in s.calls {
      var c := a.call;
      match Judge(cfg.gateway, c.machineId, c.body, c.seqNo, c.ts) {
        case Ok(e) => NumbersNeverCollide(cfg, s, c, e);
        case Err(_) =>
      }
    }
  }

  lemma StepKeepsPrunesLogged(cfg: Config, s: Sys, a: Action)
    requires PrunesLogged(s) && Consistent(s.store)
    ensures PrunesLogged(Step(cfg, s, a))
  {
    if a.Prune? {
      PruneExactly(s.store, cfg.exporters, a.pruneNow, a.pruneNow - a.retention, a.diskOver);
    }
  }

  lemma StepKeepsValid(cfg: Config, s: Sys, a: Action)
    requires OnlyValidBuffered(cfg, s)
    ensures OnlyValidBuffered(cfg, Step(cfg, s, a))
  {
    var t := Step(cfg, s, a);
    if t.appended != s.appended {
      var row := t.appended[|s.appended|];
      assert forall r | r in t.appended :: r in s.appended || r == row;
    }
  }

  lemma {:induction false} EveryRunIsSound(cfg: Config, actions: seq<Action>)
    requires DistinctNames(cfg)
    ensures Sound(cfg, Run(cfg, actions))
  {
    EveryNumberIsAccounted(cfg, actions);
    if actions == [] {
      StartDelivers(cfg);
    } else {
      var init, a := actions[..|actions| - 1], actions[|actions| - 1];
      var s := Run(cfg, init);
      EveryRunIsSound(cfg, init);
      StepKeepsConsistent(cfg, s, a);
      StepKeepsDelivering(cfg, s, a);
      StepKeepsPrunesLogged(cfg, s, a);
      StepKeepsValid(cfg, s, a);
    }
  }

  // ---- no loss -----------------------------------------------------------------------

  // Each row ever buffered was given to the destination, or waits in the buffer past its cursor.
  ghost predicate NothingLost(cfg: Config, s: Sys) {
    && |s.published| == |cfg.exporters|
    && forall d, r | 0 <= d < |cfg.exporters| && r in s.appended ::
         r in s.published[d] || (r in s.store.buffer && CursorOf(cfg, s, d) < r.rowid)
  }

  // Whatever appends, hand-overs, acknowledgements, failures, prunes and crashes come in whatever
  // order, nothing is lost to any destination, the next row id is above every cursor, and what was
  // buffered is still there or in the prune log.
  lemma NoLossOverEveryRun(cfg: Config, actions: seq<Action>)
    requires DistinctNames(cfg)
    ensures var s := Run(cfg, actions);
      && NothingLost(cfg, s)
      && (forall d | 0 <= d < |cfg.exporters| :: CursorOf(cfg, s, d) < s.store.lastRowid + 1)
      && |s.appended| == |s.store.buffer| + LoggedRows(s.store.pruneLog)
  {
    var s := Run(cfg, actions);
    EveryRunIsSound(cfg, actions);
    forall d, r | 0 <= d < |cfg.exporters| && r in s.appended
      ensures r in s.published[d] || (r in s.store.buffer && CursorOf(cfg, s, d) < r.rowid)
    {
      var i :| 0 <= i < |s.appended| && s.appended[i] == r;
      if i >= CursorOf(cfg, s, d) {
        assert !PassedByAll(cfg, s, i);
      }
    }
  }

  // In every reachable state no pass of retention takes a row that is pending for some exporter, ...
  lemma PruneKeepsPending(cfg: Config, actions: seq<Action>, store: StoreState, now: int, cutoff: int, diskOver: bool,
                          d: nat, r: Row)
    requires DistinctNames(cfg) && d < |cfg.exporters| && store == Run(cfg, actions).store
    requires r in Undelivered(store, cfg.exporters[d])
    ensures r in AfterPrune(store, cfg.exporters, now, cutoff, diskOver).buffer
  {
    RunIsConsistent(cfg, actions);
    PendingStays(store, cfg.exporters, d, now, cutoff, diskOver, r);
  }

  lemma RunIsConsistent(cfg: Config, actions: seq<Action>)
    requires DistinctNames(cfg)
    ensures Consistent(Run(cfg, actions).store)
  {
    EveryRunIsSound(cfg, actions);
  }

  lemma PendingStays(s: StoreState, exporters: seq<string>, d: nat, now: int, cutoff: int, diskOver: bool, r: Row)
    requires Consistent(s) && d < |exporters| && r in Undelivered(s, exporters[d])
    ensures r in AfterPrune(s, exporters, now, cutoff, diskOver).buffer
  {
    PruneExactly(s, exporters, now, cutoff, diskOver);
    RowsAfterMeaning(s.buffer, Cursor(s, exporters[d]));
    assert exporters[d] in exporters;
  }

  // ... nor, with the disk within its bound, one that was stored within the time of retention.
  lemma PruneKeepsYoung(cfg: Config, actions: seq<Action>, store: StoreState, now: int, retention: int, r: Row)
    requires DistinctNames(cfg) && store == Run(cfg, actions).store && r in store.buffer
    requires r.storedAt.None? || r.storedAt.value >= now - retention
    ensures r in AfterPrune(store, cfg.exporters, now, now - retention, false).buffer
  {
    RunIsConsistent(cfg, actions);
    GoesIff(store, cfg.exporters, now, now - retention, r);
  }

  // A destination with nothing pending was given everything.
  lemma DrainedMeansGiven(cfg: Config, actions: seq<Action>, d: nat)
    requires DistinctNames(cfg) && d < |cfg.exporters|
    requires Undelivered(Run(cfg, actions).store, cfg.exporters[d]) == []
    ensures var s := Run(cfg, actions);
            |s.published| == |cfg.exporters| && forall r | r in s.appended :: r in s.published[d]
  {
    var s := Run(cfg, actions);
    EveryRunIsSound(cfg, actions);
    UndeliveredIsTail(cfg, s, d);
    assert CursorOf(cfg, s, d) == |s.appended|;
    forall r | r in s.appended ensures r in s.published[d] {
      var i :| 0 <= i < |s.appended| && s.appended[i] == r;
    }
  }

  // ---- exporters that share a name -----------------------------------------------------

  // The system with one row buffered and nothing delivered yet.
  function OneBuffered(cfg: Config, row: Row): Sys {
    var store := StoreState(map[row.envelope.machineId := 1], 1, [row], map[], [], []);
    Start(cfg).(store := store, appended := [row])
  }

  lemma BufferOne(cfg: Config, machineId: string, body: Body, now: string) returns (row: Row, finish: Action)
    requires Judge(cfg.gateway, machineId, body, 1, Timestamp(body, now)).Ok?
    ensures Run(cfg, [Begin(machineId, body, now), finish]) == OneBuffered(cfg, row)
    ensures row.rowid == 1
  {
    var ts := Timestamp(body, now);
    var call := Call(machineId, body, 1, ts);
    row := Row(1, Judge(cfg.gateway, machineId, body, 1, ts).value, Some(0));
    finish := Finish(call, 0);
    RunSnoc(cfg, [], Begin(machineId, body, now));
    RunSnoc(cfg, [Begin(machineId, body, now)], finish);
    var s1 := Step(cfg, Start(cfg), Begin(machineId, body, now));
    assert s1.calls == {call};
    assert Step(cfg, s1, finish).calls == {};
  }

  lemma TakeOne(cfg: Config, i: nat, row: Row)
    requires i < |cfg.exporters| && row.rowid == 1
    ensures var s := Step(cfg, OneBuffered(cfg, row), Fetch(i, 1));
            s == OneBuffered(cfg, row).(drain := Draining(i, [row], false))
    ensures var s := OneBuffered(cfg, row).(drain := Draining(i, [row], false));
            var t := Step(cfg, Step(cfg, s, Publish), Acknowledge);
            && t.appended == [row] && Cursor(t.store, cfg.exporters[i]) == 1
            && |t.published| == |cfg.exporters|
            && forall k | 0 <= k < |cfg.exporters| && k != i :: t.published[k] == []
  {
    assert RowsAfter([row], 0) == [row];
  }

  // Two destinations under one name share a cursor, and the second never gets what the first took.
  lemma SharedNameLoses(cfg: Config, i: nat, k: nat, machineId: string, body: Body, now: string)
    returns (actions: seq<Action>)
    requires i < |cfg.exporters| && k < |cfg.exporters| && i != k && cfg.exporters[i] == cfg.exporters[k]
    requires Judge(cfg.gateway, machineId, body, 1, Timestamp(body, now)).Ok?
    ensures !NothingLost(cfg, Run(cfg, actions))
  {
    var row, finish := BufferOne(cfg, machineId, body, now);
    var first := [Begin(machineId, body, now), finish];
    TakeOne(cfg, i, row);
    RunSnoc(cfg, first, Fetch(i, 1));
    RunSnoc(cfg, first + [Fetch(i, 1)], Publish);
    RunSnoc(cfg, first + [Fetch(i, 1)] + [Publish], Acknowledge);
    actions := first + [Fetch(i, 1)] + [Publish] + [Acknowledge];
    var s := Run(cfg, actions);
    assert s == Step(cfg, Step(cfg, OneBuffered(cfg, row).(drain := Draining(i, [row], false)), Publish), Acknowledge);
    assert row in s.appended && row !in s.published[k] && CursorOf(cfg, s, k) == 1;
  }

  lemma RunSnoc(cfg: Config, actions: seq<Action>, a: Action)
    ensures Run(cfg, actions + [a]) == Step(cfg, Run(cfg, actions), a)
  {
    assert (actions + [a])[..|actions|] == actions;
  }

  // A gateway that can buffer anything loses nothing on any run exactly when its exporters have
  // distinct names.
  lemma NoLossIffDistinctNames(cfg: Config, machineId: string, body: Body, now: string)
    requires Judge(cfg.gateway, machineId, body, 1, Timestamp(body, now)).Ok?
    ensures DistinctNames(cfg) <==> forall actions :: NothingLost(cfg, Run(cfg, actions))
  {
    if DistinctNames(cfg) {
      forall actions ensures NothingLost(cfg, Run(cfg, actions)) {
        NoLossOverEveryRun(cfg, actions);
      }
    } else {
      var i, k :| 0 <= i < k < |cfg.exporters| && cfg.exporters[i] == cfg.exporters[k];
      var actions := SharedNameLoses(cfg, i, k, machineId, body, now);
    }
  }

  // ---- exactly once at the consumer --------------------------------------------------------

  // The consumer validates with the gateway's spec, and reads back what an exporter writes for
  // the envelopes of these rows.
  ghost predicate Understands(cfg: Config, reader: Reader, render: Envelope -> string, rows: seq<Row>) {
    reader.spec == cfg.gateway.spec && ReadsBack(reader, render, rows)
  }

  ghost predicate ReadsBack(reader: Reader, render: Envelope -> string, rows: seq<Row>) {
    forall r | r in rows :: render(r.envelope) != "" && reader.parse(render(r.envelope)) == Shaped(r.envelope)
  }

  function ReceivedAt(s: Sys, d: nat): seq<Row> {
    if d < |s.received| then s.received[d] else []
  }

  function Place(rows: seq<Row>, e: Envelope): nat {
    if rows == [] || rows[0].envelope == e then 0 else 1 + Place(rows[1..], e)
  }

  lemma {:induction false} PlaceIs(rows: seq<Row>, r: Row)
    requires r in rows
    ensures Place(rows, r.envelope) < |rows| && rows[Place(rows, r.envelope)].envelope == r.envelope
  {
    if rows[0].envelope != r.envelope {
      assert rows == [rows[0]] + rows[1..];
      PlaceIs(rows[1..], r);
    }
  }

  // For whatever rows there is a consumer and a way to write that understand each other.
  lemma UnderstandingExists(cfg: Config, rows: seq<Row>) returns (reader: Reader, render: Envelope -> string)
    ensures Understands(cfg, reader, render, rows)
  {
    render := e => NatText(Place(rows, e));
    reader := Reader(cfg.gateway.spec,
                     text => if AllDigits(text) && NatOf(text) < |rows| then Shaped(rows[NatOf(text)].envelope)
                             else NotParsed(text));
    forall r | r in rows ensures render(r.envelope) != "" && reader.parse(render(r.envelope)) == Shaped(r.envelope) {
      PlaceIs(rows, r);
      NatTextRoundTrip(Place(rows, r.envelope));
    }
  }

  function Lines(render: Envelope -> string, rows: seq<Row>): seq<string> {
    if rows == [] then [] else Lines(render, rows[..|rows| - 1]) + [render(rows[|rows| - 1].envelope)]
  }

  function EnvelopesIn(rows: seq<Row>): seq<Envelope> {
    if rows == [] then [] else EnvelopesIn(rows[..|rows| - 1]) + [rows[|rows| - 1].envelope]
  }

  lemma {:induction false} EnvelopesInMeaning(rows: seq<Row>)
    ensures |EnvelopesIn(rows)| == |rows|
    ensures forall e :: e in EnvelopesIn(rows) <==> exists r :: r in rows && r.envelope == e
  {
    if rows != [] {
      var init, last := rows[..|rows| - 1], rows[|rows| - 1];
      EnvelopesInMeaning(init);
      assert rows == init + [last];
      forall e ensures e in EnvelopesIn(rows) <==> exists r :: r in rows && r.envelope == e {
        if r :| r in init && r.envelope == e {
          assert r in rows;
        }
        if e == last.envelope {
          assert last in rows;
        }
      }
    }
  }

  // Every line of a valid row is accepted as the row's envelope.
  lemma {:induction false} LinesAreAccepted(reader: Reader, render: Envelope -> string, rows: seq<Row>)
    requires ReadsBack(reader, render, rows)
    requires forall r | r in rows :: ValidateEnvelope(r.envelope, reader.spec, false) == []
    ensures AcceptedOf(reader, Lines(render, rows)) == EnvelopesIn(rows)
    ensures NonBlank(Lines(render, rows)) == |rows|
  {
    if rows != [] {
      var init, e := rows[..|rows| - 1], rows[|rows| - 1].envelope;
      LinesAreAccepted(reader, render, init);
      assert rows[|rows| - 1] in rows;
      ConsumerAcceptsIff(e, reader.spec);
      assert Accepted(reader, render(e)) == Some(e);
      var lines := Lines(render, rows);
      assert lines[..|lines| - 1] == Lines(render, init) && lines[|lines| - 1] == render(e);
    }
  }

  ghost predicate OwnKeys(rows: seq<Row>) {
    forall r, t | r in rows && t in rows && KeyOf(r.envelope) == KeyOf(t.envelope) :: r == t
  }

  lemma KeysOfRows(rows: seq<Row>)
    requires OwnKeys(rows)
    ensures KeyDetermines(EnvelopesIn(rows))
  {
    EnvelopesInMeaning(rows);
  }

  // What a consumer holds that received these rows' lines.
  ghost predicate HoldsExactly(c: ConsumerState, rows: seq<Row>) {
    && c.quarantine == [] && c.alarms == []
    && (forall r | r in rows :: KeyOf(r.envelope) in c.raw && c.raw[KeyOf(r.envelope)] == Stored(r.envelope, true))
    && (forall k | k in c.raw :: exists r :: r in rows && KeyOf(r.envelope) == k)
    && |c.raw| == |set r | r in rows|
  }

  lemma OneKeyPerRow(raw: map<Key, Stored>, rows: seq<Row>)
    requires forall r, t | r in rows && t in rows && KeyOf(r.envelope) == KeyOf(t.envelope) :: r == t
    requires forall k :: k in raw <==> exists r :: r in rows && KeyOf(r.envelope) == k
    ensures |raw| == |set r | r in rows|
  {
    SameSize((set r | r in rows), raw.Keys);
  }

  lemma {:induction false} SameSize(rows: set<Row>, keys: set<Key>)
    requires forall r, t | r in rows && t in rows && KeyOf(r.envelope) == KeyOf(t.envelope) :: r == t
    requires forall k :: k in keys <==> exists r :: r in rows && KeyOf(r.envelope) == k
    ensures |keys| == |rows|
    decreases |rows|
  {
    if rows == {} {
      assert keys == {};
    } else {
      var r :| r in rows;
      var k := KeyOf(r.envelope);
      assert k in keys;
      forall x ensures x in keys - {k} <==> exists t :: t in rows - {r} && KeyOf(t.envelope) == x {
        if x in keys - {k} {
          var t :| t in rows && KeyOf(t.envelope) == x;
          assert t in rows - {r};
        }
      }
      SameSize(rows - {r}, keys - {k});
    }
  }

  // Whatever the order and number of the lines, a consumer holds the rows that it can read.
  lemma ReadRowsAreHeld(reader: Reader, render: Envelope -> string, rows: seq<Row>)
    requires ReadsBack(reader, render, rows) && OwnKeys(rows)
    requires forall r | r in rows :: ValidateEnvelope(r.envelope, reader.spec, false) == []
    ensures HoldsExactly(IngestAll(reader, EMPTY_CONSUMER, Lines(render, rows)), rows)
  {
    var lines, es := Lines(render, rows), EnvelopesIn(rows);
    var c := IngestAll(reader, EMPTY_CONSUMER, lines);
    LinesAreAccepted(reader, render, rows);
    EnvelopesInMeaning(rows);
    KeysOfRows(rows);
    TablesFollowAccepted(reader, lines);
    LinesAreAccounted(reader, lines);
    AlarmIffConflict(es);
    forall r | r in rows ensures KeyOf(r.envelope) in c.raw && c.raw[KeyOf(r.envelope)] == Stored(r.envelope, true) {
      RawOfMembers(es, KeyOf(r.envelope), r.envelope);
    }
    forall k | k in c.raw ensures exists r :: r in rows && KeyOf(r.envelope) == k {
      RawOfMembers(es, k, TablesOf(es).raw[k]);
    }
    OneKeyPerRow(c.raw, rows);
  }

  // One destination of one gateway, at some point of some run.
  datatype Feed = Feed(cfg: Config, actions: seq<Action>, destination: nat)

  function Fed(f: Feed): seq<Row> {
    ReceivedAt(Run(f.cfg, f.actions), f.destination)
  }

  // Gateways have ids of their own; feeds of one gateway are destinations of one run.
  ghost predicate OwnIds(feeds: seq<Feed>) {
    forall f, g | f in feeds && g in feeds && f.cfg.gateway.gatewayId == g.cfg.gateway.gatewayId ::
      f.cfg == g.cfg && f.actions == g.actions
  }

  ghost predicate FeedsReader(f: Feed, reader: Reader) {
    DistinctNames(f.cfg) && f.destination < |f.cfg.exporters| && f.cfg.gateway.spec == reader.spec
  }

  ghost predicate Arrived(feeds: seq<Feed>, r: Row) {
    exists f | f in feeds :: r in Fed(f)
  }

  // What has arrived was buffered by its gateway, and is valid.
  lemma FedRow(f: Feed, reader: Reader, r: Row)
    requires FeedsReader(f, reader) && r in Fed(f)
    ensures r in Run(f.cfg, f.actions).appended && DistinctSlots(Run(f.cfg, f.actions))
    ensures r.envelope.gatewayId == f.cfg.gateway.gatewayId
    ensures ValidateEnvelope(r.envelope, reader.spec, false) == []
  {
    var s := Run(f.cfg, f.actions);
    EveryRunIsSound(f.cfg, f.actions);
    assert r in s.published[f.destination] && r in s.appended;
  }

  lemma FedRowsHaveOwnKeys(feeds: seq<Feed>, reader: Reader, rows: seq<Row>)
    requires OwnIds(feeds) && forall f | f in feeds :: FeedsReader(f, reader)
    requires forall r | r in rows :: Arrived(feeds, r)
    ensures OwnKeys(rows)
  {
    forall r, t | r in rows && t in rows && KeyOf(r.envelope) == KeyOf(t.envelope) ensures r == t {
      assert Arrived(feeds, r) && Arrived(feeds, t);
      var f :| f in feeds && r in Fed(f);
      var g :| g in feeds && t in Fed(g);
      FedRow(f, reader, r);
      FedRow(g, reader, t);
      SlotDeterminesRow(Run(f.cfg, f.actions), r, t);
    }
  }

  // At any point of any runs of any number of gateways, whatever lines of theirs have arrived, in
  // whatever order and how often, the consumer holds each envelope exactly once, has quarantined
  // nothing and raised no alarm.
  lemma ExactlyOnceFromSeveral(reader: Reader, render: Envelope -> string, feeds: seq<Feed>, rows: seq<Row>)
    requires OwnIds(feeds) && forall f | f in feeds :: FeedsReader(f, reader)
    requires forall r | r in rows :: Arrived(feeds, r)
    requires ReadsBack(reader, render, rows)
    ensures HoldsExactly(IngestAll(reader, EMPTY_CONSUMER, Lines(render, rows)), rows)
  {
    FedRowsHaveOwnKeys(feeds, reader, rows);
    forall r | r in rows ensures ValidateEnvelope(r.envelope, reader.spec, false) == [] {
      assert Arrived(feeds, r);
      var f :| f in feeds && r in Fed(f);
      FedRow(f, reader, r);
    }
    ReadRowsAreHeld(reader, render, rows);
  }

  // At any point of any run, with crashes between handing over and acknowledging and a channel that
  // reorders and repeats, the consumer of a destination holds each received envelope exactly once,
  // has quarantined nothing and raised no alarm.
  lemma ExactlyOnceAtConsumer(cfg: Config, reader: Reader, render: Envelope -> string, actions: seq<Action>, d: nat)
    requires DistinctNames(cfg) && d < |cfg.exporters|
    requires Understands(cfg, reader, render, ReceivedAt(Run(cfg, actions), d))
    ensures d < |Run(cfg, actions).received|
    ensures var rows := Run(cfg, actions).received[d];
            HoldsExactly(IngestAll(reader, EMPTY_CONSUMER, Lines(render, rows)), rows)
  {
    EveryRunIsSound(cfg, actions);
    var feed := Feed(cfg, actions, d);
    assert forall r | r in Fed(feed) :: Arrived([feed], r);
    ExactlyOnceFromSeveral(reader, render, [feed], Fed(feed));
  }

  lemma HoldsAll(c: ConsumerState, received: seq<Row>, appended: seq<Row>)
    requires HoldsExactly(c, received) && forall r :: r in received <==> r in appended
    requires |set r | r in appended| == |appended|
    ensures |c.raw| == |appended|
    ensures forall r | r in appended :: KeyOf(r.envelope) in c.raw && c.raw[KeyOf(r.envelope)].envelope == r.envelope
  {
    assert (set r | r in received) == (set r | r in appended);
  }

  // Once everything given to the destination has arrived and nothing is pending for it, the consumer
  // holds every envelope ever buffered, once each.
  lemma CompleteDelivery(cfg: Config, reader: Reader, render: Envelope -> string, actions: seq<Action>, d: nat)
    requires DistinctNames(cfg) && d < |cfg.exporters|
    requires Understands(cfg, reader, render, ReceivedAt(Run(cfg, actions), d))
    requires Undelivered(Run(cfg, actions).store, cfg.exporters[d]) == []
    requires var s := Run(cfg, actions);
             d < |s.received| && d < |s.published| && forall r | r in s.published[d] :: r in s.received[d]
    ensures var s := Run(cfg, actions);
            var c := IngestAll(reader, EMPTY_CONSUMER, Lines(render, s.received[d]));
            && |c.raw| == |s.appended|
            && forall r | r in s.appended ::
                 KeyOf(r.envelope) in c.raw && c.raw[KeyOf(r.envelope)].envelope == r.envelope
  {
    var s := Run(cfg, actions);
    EveryRunIsSound(cfg, actions);
    ExactlyOnceAtConsumer(cfg, reader, render, actions, d);
    DrainedMeansGiven(cfg, actions, d);
    DistinctRowsCount(s.appended);
    assert forall r | r in s.received[d] :: r in s.published[d] && r in s.appended;
    HoldsAll(IngestAll(reader, EMPTY_CONSUMER, Lines(render, s.received[d])), s.received[d], s.appended);
  }

  lemma {:induction false} DistinctRowsCount(rows: seq<Row>)
    requires forall i | 0 <= i < |rows| :: rows[i].rowid == i + 1
    ensures |set r | r in rows| == |rows|
  {
    if rows != [] {
      var init, last := rows[..|rows| - 1], rows[|rows| - 1];
      DistinctRowsCount(init);
      assert rows == init + [last];
      assert last !in init;
      assert (set r | r in rows) == (set r | r in init) + {last};
    }
  }

  // A row of this number was buffered and has not arrived.
  ghost predicate NotReceived(s: Sys, d: nat, x: Slot) {
    exists r | r in s.appended :: r !in ReceivedAt(s, d) && SlotOfRow(r) == x
  }

  // The consumer reports a number missing exactly when it holds a higher one of the machine and the
  // number was refused, lost to a crash, is in flight, or was buffered and has not arrived.
  lemma GapsIff(cfg: Config, reader: Reader, render: Envelope -> string, actions: seq<Action>, d: nat,
                machineId: string, n: int)
    requires DistinctNames(cfg) && d < |cfg.exporters| && d < |Run(cfg, actions).received|
    requires Understands(cfg, reader, render, ReceivedAt(Run(cfg, actions), d))
    ensures var s := Run(cfg, actions);
            var x := Slot(machineId, n);
            Missing(IngestAll(reader, EMPTY_CONSUMER, Lines(render, s.received[d])).raw,
                    cfg.gateway.gatewayId, machineId, n)
            <==> (exists r | r in s.received[d] :: r.envelope.machineId == machineId && n < r.envelope.seqNo)
                 && (x in s.refused || x in s.lost || InFlight(s, x) || NotReceived(s, d, x))
  {
    var s := Run(cfg, actions);
    EveryRunIsSound(cfg, actions);
    ExactlyOnceAtConsumer(cfg, reader, render, actions, d);
    assert forall r | r in s.received[d] :: r in s.published[d] && r in s.appended;
    var c := IngestAll(reader, EMPTY_CONSUMER, Lines(render, s.received[d]));
    forall m ensures Key(cfg.gateway.gatewayId, machineId, m) in c.raw
                     <==> exists r | r in s.received[d] :: SlotOfRow(r) == Slot(machineId, m)
    {
      HeldIff(cfg, s, c, s.received[d], Slot(machineId, m));
    }
    MissingIff(cfg, s, d, c.raw, machineId, n);
  }

  lemma HeldIff(cfg: Config, s: Sys, c: ConsumerState, rows: seq<Row>, x: Slot)
    requires OnlyValidBuffered(cfg, s) && HoldsExactly(c, rows) && forall r | r in rows :: r in s.appended
    ensures Key(cfg.gateway.gatewayId, x.machineId, x.seqNo) in c.raw
            <==> exists r | r in rows :: SlotOfRow(r) == x
  {
    var k := Key(cfg.gateway.gatewayId, x.machineId, x.seqNo);
    if k in c.raw {
      var r :| r in rows && KeyOf(r.envelope) == k;
      assert SlotOfRow(r) == x;
    }
    if r :| r in rows && SlotOfRow(r) == x {
      assert r in s.appended && KeyOf(r.envelope) == k;
    }
  }

  // A number up to one that was handed out is without a received row exactly when it is accounted
  // for otherwise.
  lemma NotHeldIff(s: Sys, d: nat, x: Slot)
    requires NumbersAccounted(s) && HandedOut(s.store, x) && forall r | r in ReceivedAt(s, d) :: r in s.appended
    ensures (forall r | r in ReceivedAt(s, d) :: SlotOfRow(r) != x)
            <==> x in s.refused || x in s.lost || InFlight(s, x) || NotReceived(s, d, x)
  {
    if r :| r in ReceivedAt(s, d) && SlotOfRow(r) == x {
      assert WasAppended(s, x);
      if NotReceived(s, d, x) {
        var t :| t in s.appended && t !in ReceivedAt(s, d) && SlotOfRow(t) == x;
        SlotDeterminesRow(s, r, t);
      }
    } else if WasAppended(s, x) {
      var t :| t in s.appended && SlotOfRow(t) == x;
      assert NotReceived(s, d, x);
    }
  }

  lemma SlotDeterminesRow(s: Sys, r: Row, t: Row)
    requires DistinctSlots(s) && r in s.appended && t in s.appended && SlotOfRow(r) == SlotOfRow(t)
    ensures r == t
  {
    var i :| 0 <= i < |s.appended| && s.appended[i] == r;
    var k :| 0 <= k < |s.appended| && s.appended[k] == t;
  }

  lemma MissingIff(cfg: Config, s: Sys, d: nat, raw: map<Key, Stored>, machineId: string, n: int)
    requires NumbersAccounted(s) && forall r | r in ReceivedAt(s, d) :: r in s.appended
    requires forall m :: Key(cfg.gateway.gatewayId, machineId, m) in raw
                         <==> exists r | r in ReceivedAt(s, d) :: SlotOfRow(r) == Slot(machineId, m)
    ensures var x := Slot(machineId, n);
            Missing(raw, cfg.gateway.gatewayId, machineId, n)
            <==> (exists r | r in ReceivedAt(s, d) :: r.envelope.machineId == machineId && n < r.envelope.seqNo)
                 && (x in s.refused || x in s.lost || InFlight(s, x) || NotReceived(s, d, x))
  {
    var x, gw := Slot(machineId, n), cfg.gateway.gatewayId;
    if r :| r in ReceivedAt(s, d) && r.envelope.machineId == machineId && n < r.envelope.seqNo {
      assert WasAppended(s, SlotOfRow(r)) && HandedOut(s.store, SlotOfRow(r));
      assert SlotOfRow(r) == Slot(machineId, r.envelope.seqNo);
      assert Key(gw, machineId, r.envelope.seqNo) in raw;
      if 1 <= n {
        assert HandedOut(s.store, x);
        NotHeldIff(s, d, x);
      } else {
        assert !HandedOut(s.store, x) && (NotReceived(s, d, x) ==> WasAppended(s, x));
      }
    } else {
      assert forall m | n < m :: Key(gw, machineId, m) !in raw;
    }
  }
}
