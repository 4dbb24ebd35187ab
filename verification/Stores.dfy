/** gateway/omp/core/store.py: the durable tables of the gateway and the atomic blocks on them.

    Each block is a function on `StoreState`; class `Store` performs the source's statements
    and is proved against these functions. */
module Stores {
  import opened Wrappers
  import opened JsonModel
  import opened Envelopes
  import opened Validation

  datatype Row = Row(rowid: int, envelope: Envelope, storedAt: Option<int>)

  datatype PruneEntry = PruneEntry(prunedAt: int, rows: nat, byAge: bool, byDisk: bool)

  datatype DeadLetter = DeadLetter(machineId: string, receivedTs: string, body: Json, error: Refusal)

  // `lastRowid` is the largest row id ever given out, which AUTOINCREMENT remembers.
  datatype StoreState = StoreState(
    counters: map<string, int>,
    lastRowid: int,
    buffer: seq<Row>,
    cursors: map<string, int>,
    pruneLog: seq<PruneEntry>,
    deadLetters: seq<DeadLetter>)

  const EMPTY_STORE := StoreState(map[], 0, [], map[], [], [])

  ghost predicate Ascending(rows: seq<Row>) {
    forall i, k | 0 <= i < k < |rows| :: rows[i].rowid < rows[k].rowid
  }

  // What the schema guarantees: rows in row id order, ids given out once, UNIQUE (machine_id, seq).
  ghost predicate Consistent(s: StoreState) {
    && Ascending(s.buffer)
    && (forall r | r in s.buffer :: 1 <= r.rowid <= s.lastRowid)
    && 0 <= s.lastRowid
    && (forall r, t | r in s.buffer && t in s.buffer && SameSlot(r.envelope, t.envelope) :: r == t)
  }

  predicate SameSlot(a: Envelope, b: Envelope) {
    a.machineId == b.machineId && a.seqNo == b.seqNo
  }

  // ---- sequence numbers and the buffer -------------------------------------

  function LastSeq(s: StoreState, machineId: string): int {
    if machineId in s.counters then s.counters[machineId] else 0
  }

  function AfterNextSeq(s: StoreState, machineId: string): StoreState {
    s.(counters := s.counters[machineId := LastSeq(s, machineId) + 1])
  }

  predicate SlotTaken(s: StoreState, e: Envelope) {
    exists r | r in s.buffer :: SameSlot(r.envelope, e)
  }

  function AfterAppend(s: StoreState, e: Envelope, storedAt: int): StoreState {
    s.(lastRowid := s.lastRowid + 1,
       buffer := s.buffer + [Row(s.lastRowid + 1, e, Some(storedAt))])
  }

  function AfterDeadLetter(s: StoreState, letter: DeadLetter): StoreState {
    s.(deadLetters := s.deadLetters + [letter])
  }

  // ---- delivery --------------------------------------------------------------

  function Cursor(s: StoreState, exporter: string): int {
    if exporter in s.cursors then s.cursors[exporter] else 0
  }

  function RowsAfter(rows: seq<Row>, rowid: int): seq<Row> {
    if rows == [] then []
    else (if rows[0].rowid > rowid then [rows[0]] else []) + RowsAfter(rows[1..], rowid)
  }

  // Everything past the exporter's cursor, oldest first.
  function Undelivered(s: StoreState, exporter: string): seq<Row> {
    RowsAfter(s.buffer, Cursor(s, exporter))
  }

  // At most `limit` of them; SQLite reads a negative LIMIT as none.
  function Pending(s: StoreState, exporter: string, limit: int): seq<Row> {
    var rows := Undelivered(s, exporter);
    if 0 <= limit < |rows| then rows[..limit] else rows
  }

  // A prefix of them, of the length that is asked for where there are more.
  lemma PendingIs(s: StoreState, exporter: string, limit: int)
    ensures var all, rows := RowsAfter(s.buffer, if exporter in s.cursors then s.cursors[exporter] else 0),
                             Pending(s, exporter, limit);
            rows <= all && |rows| == if limit < 0 || |all| <= limit then |all| else limit
  {
  }

  function AfterAck(s: StoreState, exporter: string, rowid: int): StoreState {
    s.(cursors := s.cursors[exporter := rowid])
  }

  lemma {:induction false} RowsAfterMeaning(rows: seq<Row>, rowid: int)
    requires Ascending(rows)
    ensures forall r :: r in RowsAfter(rows, rowid) <==> r in rows && r.rowid > rowid
    ensures Ascending(RowsAfter(rows, rowid))
  {
    if rows != [] {
      RowsAfterMeaning(rows[1..], rowid);
      assert rows == [rows[0]] + rows[1..];
      var rest := RowsAfter(rows[1..], rowid);
      forall i | 0 <= i < |rest| ensures rows[0].rowid < rest[i].rowid {
        assert rest[i] in rows[1..];
      }
    }
  }

  // Rows past a later one of the rows past a cursor are the rest of them.
  lemma {:induction false} RowsAfterAck(rows: seq<Row>, rowid: int)
    requires Ascending(rows) && RowsAfter(rows, rowid) != []
    ensures RowsAfter(rows, RowsAfter(rows, rowid)[0].rowid) == RowsAfter(rows, rowid)[1..]
  {
    if rows[0].rowid > rowid {
      RowsAfterNone(rows[1..], rowid, rows[0].rowid);
    } else {
      RowsAfterAck(rows[1..], rowid);
      RowsAfterMeaning(rows[1..], rowid);
      assert RowsAfter(rows[1..], rowid)[0] in rows[1..];
    }
  }

  lemma {:induction false} RowsAfterNone(rows: seq<Row>, low: int, high: int)
    requires low <= high && forall r | r in rows :: r.rowid > high
    ensures RowsAfter(rows, low) == RowsAfter(rows, high) == rows
  {
    if rows != [] {
      RowsAfterNone(rows[1..], low, high);
      assert rows == [rows[0]] + rows[1..];
    }
  }

  // ---- retention ---------------------------------------------------------------

  function Min(a: int, b: int): int {
    if a < b then a else b
  }

  // The smallest cursor of the named exporters; one that never drained sits at 0.
  function SafeUpto(s: StoreState, exporters: seq<string>): int
    requires exporters != []
  {
    if |exporters| == 1 then Cursor(s, exporters[0])
    else Min(Cursor(s, exporters[0]), SafeUpto(s, exporters[1..]))
  }

  lemma {:induction false} SafeUptoMeaning(s: StoreState, exporters: seq<string>)
    requires exporters != []
    ensures forall e | e in exporters :: SafeUpto(s, exporters) <= Cursor(s, e)
    ensures exists e :: e in exporters && SafeUpto(s, exporters) == Cursor(s, e)
  {
    assert exporters == [exporters[0]] + exporters[1..];
    if |exporters| > 1 {
      SafeUptoMeaning(s, exporters[1..]);
      var e :| e in exporters[1..] && SafeUpto(s, exporters[1..]) == Cursor(s, e);
      assert e in exporters && exporters[0] in exporters;
    } else {
      assert exporters[0] in exporters;
    }
  }

  predicate Aged(r: Row, cutoff: int) {
    r.storedAt.Some? && r.storedAt.value < cutoff
  }

  // Rows that one pass deletes: delivered to every exporter, and over age unless the disk is full.
  predicate Expired(r: Row, safeUpto: int, cutoff: int, diskOver: bool) {
    r.rowid <= safeUpto && (diskOver || Aged(r, cutoff))
  }

  function Unexpired(rows: seq<Row>, safeUpto: int, cutoff: int, diskOver: bool): seq<Row> {
    if rows == [] then []
    else (if Expired(rows[0], safeUpto, cutoff, diskOver) then [] else [rows[0]])
         + Unexpired(rows[1..], safeUpto, cutoff, diskOver)
  }

  datatype PruneOutcome = NoExporters | NothingDelivered | Pruned(rows: nat)

  function PruneOutcomeOf(s: StoreState, exporters: seq<string>, cutoff: int, diskOver: bool): PruneOutcome {
    if exporters == [] then NoExporters
    else if SafeUpto(s, exporters) <= 0 then NothingDelivered
    else
      UnexpiredSize(s.buffer, SafeUpto(s, exporters), cutoff, diskOver);
      Pruned(|s.buffer| - |Unexpired(s.buffer, SafeUpto(s, exporters), cutoff, diskOver)|)
  }

  function AfterPrune(s: StoreState, exporters: seq<string>, now: int, cutoff: int, diskOver: bool): StoreState {
    match PruneOutcomeOf(s, exporters, cutoff, diskOver)
    case Pruned(rows) =>
      if rows == 0 then s else AfterDeletion(s, SafeUpto(s, exporters), now, cutoff, diskOver, rows)
    case _ => s
  }

  function AfterDeletion(s: StoreState, safeUpto: int, now: int, cutoff: int, diskOver: bool, rows: nat): StoreState {
    var aged := |Unexpired(s.buffer, safeUpto, cutoff, false)|;
    s.(buffer := Unexpired(s.buffer, safeUpto, cutoff, diskOver),
       pruneLog := s.pruneLog
                   + [PruneEntry(now, rows, aged < |s.buffer|, diskOver && |s.buffer| - rows < aged)])
  }

  ghost predicate OlderThan(r: Row, cutoff: int) {
    match r.storedAt
    case Some(t) => t < cutoff
    case None => false
  }

  // What stays is past the bound or, while the disk is within its own, not older than the cutoff.
  lemma {:induction false} UnexpiredMeaning(rows: seq<Row>, safeUpto: int, cutoff: int, diskOver: bool)
    ensures forall r :: r in Unexpired(rows, safeUpto, cutoff, diskOver)
                        <==> r in rows && !(r.rowid <= safeUpto && (diskOver || OlderThan(r, cutoff)))
  {
    if rows != [] {
      UnexpiredMeaning(rows[1..], safeUpto, cutoff, diskOver);
      assert rows == [rows[0]] + rows[1..];
    }
  }

  lemma {:induction false} UnexpiredOrder(rows: seq<Row>, safeUpto: int, cutoff: int, diskOver: bool)
    requires Ascending(rows)
    ensures Ascending(Unexpired(rows, safeUpto, cutoff, diskOver))
  {
    if rows != [] {
      UnexpiredOrder(rows[1..], safeUpto, cutoff, diskOver);
      UnexpiredMeaning(rows[1..], safeUpto, cutoff, diskOver);
      var rest := Unexpired(rows[1..], safeUpto, cutoff, diskOver);
      forall i | 0 <= i < |rest| ensures rows[0].rowid < rest[i].rowid {
        assert rest[i] in rows[1..];
      }
    }
  }

  // Nothing is added, and where nothing went the rows are the same.
  lemma {:induction false} UnexpiredSize(rows: seq<Row>, safeUpto: int, cutoff: int, diskOver: bool)
    ensures |Unexpired(rows, safeUpto, cutoff, diskOver)| <= |rows|
    ensures |Unexpired(rows, safeUpto, cutoff, diskOver)| == |rows|
            ==> Unexpired(rows, safeUpto, cutoff, diskOver) == rows
  {
    if rows != [] {
      UnexpiredSize(rows[1..], safeUpto, cutoff, diskOver);
      assert rows == [rows[0]] + rows[1..];
    }
  }

  // Deleting the over-age rows and then every delivered row deletes what the disk rule names.
  lemma {:induction false} AgeThenDisk(rows: seq<Row>, safeUpto: int, cutoff: int)
    ensures Unexpired(Unexpired(rows, safeUpto, cutoff, false), safeUpto, cutoff, true)
            == Unexpired(rows, safeUpto, cutoff, true)
  {
    if rows != [] {
      AgeThenDisk(rows[1..], safeUpto, cutoff);
      var rest := Unexpired(rows[1..], safeUpto, cutoff, false);
      if Expired(rows[0], safeUpto, cutoff, false) {
        assert Unexpired(rows, safeUpto, cutoff, false) == rest;
      } else {
        var kept := [rows[0]] + rest;
        assert Unexpired(rows, safeUpto, cutoff, false) == kept && kept[1..] == rest;
      }
    }
  }

  // ---- what pruning does -----------------------------------------------------------

  ghost predicate Deletable(s: StoreState, exporters: seq<string>, r: Row, cutoff: int, diskOver: bool) {
    && exporters != []
    && (forall e | e in exporters :: e in s.cursors && r.rowid <= s.cursors[e])
    && (diskOver || OlderThan(r, cutoff))
  }

  // A row stays unless every named exporter has it behind its cursor and it is over age or the disk
  // is over its bound; the order stays; the log grows by exactly the rows that went.
  lemma PruneExactly(s: StoreState, exporters: seq<string>, now: int, cutoff: int, diskOver: bool)
    requires Consistent(s)
    ensures var t := AfterPrune(s, exporters, now, cutoff, diskOver);
      && Consistent(t)
      && t.(buffer := s.buffer, pruneLog := s.pruneLog) == s
      && (forall r :: r in t.buffer <==> r in s.buffer && !Deletable(s, exporters, r, cutoff, diskOver))
      && |s.buffer| + LoggedRows(s.pruneLog) == |t.buffer| + LoggedRows(t.pruneLog)
  {
    if exporters != [] {
      var safeUpto := SafeUpto(s, exporters);
      SafeUptoMeaning(s, exporters);
      UnexpiredMeaning(s.buffer, safeUpto, cutoff, diskOver);
      UnexpiredOrder(s.buffer, safeUpto, cutoff, diskOver);
      UnexpiredSize(s.buffer, safeUpto, cutoff, diskOver);
      var t := AfterPrune(s, exporters, now, cutoff, diskOver);
      if t.pruneLog != s.pruneLog {
        assert t.pruneLog[..|s.pruneLog|] == s.pruneLog;
      }
    }
  }

  // What the call answers: the number of rows that went, where each named exporter has delivered.
  lemma PruneOutcomeIff(s: StoreState, exporters: seq<string>, now: int, cutoff: int, diskOver: bool)
    ensures PruneOutcomeOf(s, exporters, cutoff, diskOver)
            == if exporters == [] then NoExporters
               else if exists e :: e in exporters && (e in s.cursors ==> s.cursors[e] <= 0) then NothingDelivered
               else Pruned(|s.buffer| - |AfterPrune(s, exporters, now, cutoff, diskOver).buffer|)
  {
    if exporters != [] {
      SafeUptoMeaning(s, exporters);
      UnexpiredSize(s.buffer, SafeUpto(s, exporters), cutoff, diskOver);
    }
  }

  // The log says when, how many and by which rule, if anything went.
  lemma PruneIsLogged(s: StoreState, exporters: seq<string>, now: int, cutoff: int, diskOver: bool)
    requires Consistent(s)
    ensures var t := AfterPrune(s, exporters, now, cutoff, diskOver);
            var n := |s.buffer| - |t.buffer|;
            if n == 0 then t == s
            else && |t.pruneLog| == |s.pruneLog| + 1 && s.pruneLog <= t.pruneLog
                 && var entry := t.pruneLog[|s.pruneLog|];
                    && entry.prunedAt == now && entry.rows == n
                    && (entry.byAge <==> exists r :: r in s.buffer && Deletable(s, exporters, r, cutoff, false))
                    && (entry.byDisk <==> exists r :: r in s.buffer && Deletable(s, exporters, r, cutoff, diskOver)
                                                      && !OlderThan(r, cutoff))
  {
    if exporters != [] {
      var safeUpto := SafeUpto(s, exporters);
      SafeUptoMeaning(s, exporters);
      if safeUpto > 0 {
        var young := Unexpired(s.buffer, safeUpto, cutoff, false);
        DeletableIff(s, exporters, cutoff);
        SomeExpired(s.buffer, safeUpto, cutoff, false);
        SomeExpired(s.buffer, safeUpto, cutoff, diskOver);
        SomeExpired(young, safeUpto, cutoff, true);
        UnexpiredMeaning(s.buffer, safeUpto, cutoff, false);
        AgeThenDisk(s.buffer, safeUpto, cutoff);
      }
    }
  }

  // With a positive bound, what a pass deletes is what every named exporter has behind its cursor.
  lemma DeletableIff(s: StoreState, exporters: seq<string>, cutoff: int)
    requires exporters != [] && Consistent(s)
    ensures forall r, diskOver | r in s.buffer ::
              Expired(r, SafeUpto(s, exporters), cutoff, diskOver) <==> Deletable(s, exporters, r, cutoff, diskOver)
  {
    SafeUptoMeaning(s, exporters);
  }

  lemma SomeExpired(rows: seq<Row>, safeUpto: int, cutoff: int, diskOver: bool)
    ensures |Unexpired(rows, safeUpto, cutoff, diskOver)| < |rows|
            <==> exists r :: r in rows && Expired(r, safeUpto, cutoff, diskOver)
  {
    UnexpiredSize(rows, safeUpto, cutoff, diskOver);
    UnexpiredMeaning(rows, safeUpto, cutoff, diskOver);
    if forall r | r in rows :: !Expired(r, safeUpto, cutoff, diskOver) {
      AllStay(rows, safeUpto, cutoff, diskOver);
    }
  }

  lemma {:induction false} AllStay(rows: seq<Row>, safeUpto: int, cutoff: int, diskOver: bool)
    requires forall r | r in rows :: !Expired(r, safeUpto, cutoff, diskOver)
    ensures Unexpired(rows, safeUpto, cutoff, diskOver) == rows
  {
    if rows != [] {
      AllStay(rows[1..], safeUpto, cutoff, diskOver);
      assert rows == [rows[0]] + rows[1..];
    }
  }

  // While the disk is within its bound nothing stored in the time of retention goes, nor anything
  // without a time; and what is older than a row that goes, and delivered as far, goes with it.
  lemma RetentionIsKept(s: StoreState, exporters: seq<string>, now: int, retention: int, r: Row)
    requires Consistent(s) && r in s.buffer
    ensures var t := AfterPrune(s, exporters, now, now - retention, false);
      && (r.storedAt.None? ==> r in t.buffer)
      && (r.storedAt.Some? && r.storedAt.value >= now - retention ==> r in t.buffer)
      && (r !in t.buffer ==>
            forall q | q in s.buffer && q.storedAt.Some? && q.storedAt.value <= r.storedAt.value
                       && q.rowid <= r.rowid ::
              q !in t.buffer)
  {
    GoesIff(s, exporters, now, now - retention, r);
    forall q | q in s.buffer && r !in AfterPrune(s, exporters, now, now - retention, false).buffer
               && q.storedAt.Some? && q.storedAt.value <= r.storedAt.value && q.rowid <= r.rowid
      ensures q !in AfterPrune(s, exporters, now, now - retention, false).buffer
    {
      GoesIff(s, exporters, now, now - retention, q);
    }
  }

  lemma GoesIff(s: StoreState, exporters: seq<string>, now: int, cutoff: int, r: Row)
    requires Consistent(s) && r in s.buffer
    ensures r !in AfterPrune(s, exporters, now, cutoff, false).buffer <==> Deletable(s, exporters, r, cutoff, false)
  {
    PruneExactly(s, exporters, now, cutoff, false);
  }

  function LoggedRows(log: seq<PruneEntry>): nat {
    if log == [] then 0 else LoggedRows(log[..|log| - 1]) + log[|log| - 1].rows
  }

  // Cursors of exporters that are not named, such as removed ones, do not count.
  lemma {:induction false} PruneIgnoresOthers(s: StoreState, cursors: map<string, int>, exporters: seq<string>,
                                              cutoff: int, diskOver: bool)
    requires forall e | e in exporters :: Cursor(s, e) == Cursor(s.(cursors := cursors), e)
    ensures PruneOutcomeOf(s, exporters, cutoff, diskOver)
            == PruneOutcomeOf(s.(cursors := cursors), exporters, cutoff, diskOver)
  {
    if exporters != [] {
      SameSafeUpto(s, s.(cursors := cursors), exporters);
    }
  }

  lemma {:induction false} SameSafeUpto(s: StoreState, t: StoreState, exporters: seq<string>)
    requires exporters != [] && forall e | e in exporters :: Cursor(s, e) == Cursor(t, e)
    ensures SafeUpto(s, exporters) == SafeUpto(t, exporters)
  {
    if |exporters| > 1 {
      SameSafeUpto(s, t, exporters[1..]);
    }
  }

  lemma AppendKeepsConsistent(s: StoreState, e: Envelope, storedAt: int)
    requires Consistent(s) && !SlotTaken(s, e)
    ensures Consistent(AfterAppend(s, e, storedAt))
  {
    var row := Row(s.lastRowid + 1, e, Some(storedAt));
    assert forall r | r in s.buffer :: !SameSlot(r.envelope, e);
    assert forall r | r in s.buffer + [row] :: r in s.buffer || r == row;
  }

  // Every block leaves the tables as the schema wants them.
  lemma BlocksKeepConsistent(s: StoreState)
    requires Consistent(s)
    ensures Consistent(EMPTY_STORE)
    ensures forall m :: Consistent(AfterNextSeq(s, m))
    ensures forall letter :: Consistent(AfterDeadLetter(s, letter))
    ensures forall exporter, rowid :: Consistent(AfterAck(s, exporter, rowid))
    ensures forall e, storedAt | !SlotTaken(s, e) :: Consistent(AfterAppend(s, e, storedAt))
    ensures forall exporters, now, cutoff, diskOver :: Consistent(AfterPrune(s, exporters, now, cutoff, diskOver))
  {
    forall e, storedAt | !SlotTaken(s, e) ensures Consistent(AfterAppend(s, e, storedAt)) {
      AppendKeepsConsistent(s, e, storedAt);
    }
    forall exporters, now, cutoff, diskOver ensures Consistent(AfterPrune(s, exporters, now, cutoff, diskOver)) {
      PruneExactly(s, exporters, now, cutoff, diskOver);
    }
  }

  // ---- the store itself ----------------------------------------------------------

  class Store {
    var counters: map<string, int>
    var lastRowid: int
    var buffer: seq<Row>
    var cursors: map<string, int>
    var pruneLog: seq<PruneEntry>
    var deadLetters: seq<DeadLetter>

    function State(): StoreState
      reads this
    {
      StoreState(counters, lastRowid, buffer, cursors, pruneLog, deadLetters)
    }

    constructor ()
      ensures State() == EMPTY_STORE
    {
      counters, lastRowid, buffer, cursors, pruneLog, deadLetters := map[], 0, [], map[], [], [];
    }

    method NextSeq(machineId: string) returns (seqNo: int)
      modifies this`counters
      ensures State() == AfterNextSeq(old(State()), machineId)
      ensures seqNo == LastSeq(old(State()), machineId) + 1
    {
      var last := 0;
      if machineId in counters {
        last := counters[machineId];
      }
      seqNo := last + 1;
      counters := counters[machineId := seqNo];
    }

    // Fails, and changes nothing, when the machine already has a row with that number.
    method Append(e: Envelope, storedAt: int) returns (ok: bool)
      modifies this`buffer, this`lastRowid
      ensures ok <==> !SlotTaken(old(State()), e)
      ensures State() == if ok then AfterAppend(old(State()), e, storedAt) else old(State())
    {
      if SlotTaken(State(), e) {
        return false;
      }
      lastRowid := lastRowid + 1;
      buffer := buffer + [Row(lastRowid, e, Some(storedAt))];
      ok := true;
    }

    method ReadPending(exporter: string, limit: int) returns (rows: seq<Row>)
      ensures rows == Pending(State(), exporter, limit)
    {
      var after := 0;
      if exporter in cursors {
        after := cursors[exporter];
      }
      rows := RowsAfter(buffer, after);
      if 0 <= limit < |rows| {
        rows := rows[..limit];
      }
    }

    method Ack(exporter: string, rowid: int)
      modifies this`cursors
      ensures State() == AfterAck(old(State()), exporter, rowid)
    {
      cursors := cursors[exporter := rowid];
    }

    method RecordDeadLetter(machineId: string, receivedTs: string, body: Json, error: Refusal)
      modifies this`deadLetters
      ensures State() == AfterDeadLetter(old(State()), DeadLetter(machineId, receivedTs, body, error))
    {
      deadLetters := deadLetters + [DeadLetter(machineId, receivedTs, body, error)];
    }

    // Counts the expired rows and deletes them if there are any.
    method DeleteExpired(safeUpto: int, cutoff: int, diskOver: bool) returns (n: nat)
      modifies this`buffer
      ensures buffer == Unexpired(old(buffer), safeUpto, cutoff, diskOver)
      ensures n == |old(buffer)| - |buffer|
    {
      UnexpiredSize(buffer, safeUpto, cutoff, diskOver);
      var kept := Unexpired(buffer, safeUpto, cutoff, diskOver);
      n := |buffer| - |kept|;
      if n > 0 {
        buffer := kept;
      }
    }

    // `diskOver`: the database is over `max_bytes` when the pass looks, after the age rule.
    method Prune(exporters: seq<string>, now: int, retention: int, diskOver: bool) returns (outcome: PruneOutcome)
      modifies this
      ensures outcome == PruneOutcomeOf(old(State()), exporters, now - retention, diskOver)
      ensures State() == AfterPrune(old(State()), exporters, now, now - retention, diskOver)
    {
      if exporters == [] {
        return NoExporters;
      }
      var safeUpto := SafeUpto(State(), exporters);
      if safeUpto <= 0 {
        return NothingDelivered;
      }
      ghost var before := State();
      var cutoff := now - retention;
      var deleted, extra: nat := 0, 0;
      deleted := DeleteExpired(safeUpto, cutoff, false);
      var byAge := deleted > 0;
      if diskOver {
        extra := DeleteExpired(safeUpto, cutoff, true);
        deleted := deleted + extra;
        AgeThenDisk(before.buffer, safeUpto, cutoff);
      }
      if deleted > 0 {
        pruneLog := pruneLog + [PruneEntry(now, deleted, byAge, extra > 0)];
        assert State() == AfterDeletion(before, safeUpto, now, cutoff, diskOver, deleted);
      } else {
        UnexpiredSize(before.buffer, safeUpto, cutoff, diskOver);
        assert State() == before;
      }
      outcome := Pruned(deleted);
    }
  }
}
