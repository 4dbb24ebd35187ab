/** gateway/omp/exporters/base.py: draining the buffer through the exporter's own cursor. */
module Exporters {
  import opened Wrappers
  import opened Envelopes
  import opened Stores

  datatype PublishError = ExporterClosed

  // The envelopes of the first `k` rows.
  function EnvelopesOf(rows: seq<Row>, k: nat): (es: seq<Envelope>)
    requires k <= |rows|
    ensures |es| == k && forall i | 0 <= i < k :: es[i] == rows[i].envelope
  {
    if k == 0 then [] else EnvelopesOf(rows, k - 1) + [rows[k - 1].envelope]
  }

  // The store once the first `k` of the exporter's undelivered rows are acknowledged.
  function AfterDeliveries(s: StoreState, exporter: string, rows: seq<Row>, k: nat): StoreState
    requires k <= |rows|
  {
    if k == 0 then s else AfterAck(s, exporter, rows[k - 1].rowid)
  }

  // What stays undelivered is the rest: nothing is skipped and nothing comes twice.
  lemma {:induction false} RestAfterDeliveries(s: StoreState, exporter: string, k: nat)
    requires Ascending(s.buffer) && k <= |Undelivered(s, exporter)|
    ensures var rows := Undelivered(s, exporter);
            Undelivered(AfterDeliveries(s, exporter, rows, k), exporter) == rows[k..]
  {
    var rows := Undelivered(s, exporter);
    if k > 0 {
      var t := AfterDeliveries(s, exporter, rows, k - 1);
      RestAfterDeliveries(s, exporter, k - 1);
      assert rows[k - 1..][0] == rows[k - 1] && rows[k - 1..][1..] == rows[k..];
      RowsAfterAck(s.buffer, Cursor(t, exporter));
    }
  }

  // How many rows are delivered when the call `failing` raises, if it is made.
  function Deliverable(rows: seq<Row>, failing: Option<nat>): (k: nat)
    ensures k <= |rows|
  {
    if failing.Some? && failing.value < |rows| then failing.value else |rows|
  }

  function Later(failing: Option<nat>, sent: nat): Option<nat>
    requires failing.Some? ==> sent <= failing.value
  {
    match failing
    case Some(n) => Some(n - sent)
    case None => None
  }

  // What a drain sets out to deliver: all that is past the cursor, in row order, whatever the size
  // of a batch, unless a batch holds nothing.
  function Backlog(s: StoreState, exporter: string, batch: int): seq<Row> {
    if batch == 0 then [] else Undelivered(s, exporter)
  }

  predicate PartOf(rows: seq<Row>, all: seq<Row>, start: nat) {
    start + |rows| <= |all| && forall i | 0 <= i < |rows| :: rows[i] == all[start + i]
  }

  // The batch read after `sent` deliveries is the next part of the backlog.
  lemma NextBatch(s: StoreState, exporter: string, batch: int, sent: nat)
    requires Ascending(s.buffer) && sent <= |Backlog(s, exporter, batch)|
    ensures var all := Backlog(s, exporter, batch);
            var rows := Pending(AfterDeliveries(s, exporter, all, sent), exporter, batch);
            PartOf(rows, all, sent) && (rows == [] ==> sent == |all|)
  {
    if batch != 0 {
      RestAfterDeliveries(s, exporter, sent);
    }
  }

  // Delivering the next part carries on where the last one stopped.
  lemma DeliverPart(s: StoreState, exporter: string, all: seq<Row>, sent: nat, rows: seq<Row>,
                    failing: Option<nat>, start: seq<Envelope>)
    requires PartOf(rows, all, sent) && sent <= Deliverable(all, failing)
    ensures var n := Deliverable(rows, Later(failing, sent));
      && sent + n <= Deliverable(all, failing)
      && (n < |rows| ==> sent + n == Deliverable(all, failing) < |all|)
      && AfterDeliveries(AfterDeliveries(s, exporter, all, sent), exporter, rows, n)
         == AfterDeliveries(s, exporter, all, sent + n)
      && start + EnvelopesOf(all, sent) + EnvelopesOf(rows, n) == start + EnvelopesOf(all, sent + n)
  {}

  class Exporter {
    const name: string
    var published: seq<Envelope>

    constructor (name: string)
      ensures this.name == name && published == []
    {
      this.name := name;
      published := [];
    }

    method Publish(e: Envelope, fails: bool) returns (ok: bool)
      modifies this`published
      ensures ok == !fails
      ensures published == if fails then old(published) else old(published) + [e]
    {
      if !fails {
        published := published + [e];
      }
      ok := !fails;
    }

    // Publishes and acknowledges one batch, row by row; the call `failing` raises, if it is made.
    method DeliverBatch(store: Store, rows: seq<Row>, failing: Option<nat>) returns (sent: nat)
      modifies this`published, store`cursors
      ensures sent == Deliverable(rows, failing)
      ensures published == old(published) + EnvelopesOf(rows, sent)
      ensures store.State() == AfterDeliveries(old(store.State()), name, rows, sent)
    {
      for i := 0 to |rows|
        invariant failing.Some? ==> i <= failing.value
        invariant published == old(published) + EnvelopesOf(rows, i)
        invariant store.State() == AfterDeliveries(old(store.State()), name, rows, i)
      {
        var ok := Publish(rows[i].envelope, failing == Some(i));
        if !ok {
          return i;
        }
        store.Ack(name, rows[i].rowid);
      }
      return |rows|;
    }

    // `failing`: which of the publish calls of this drain raises, if one does; it delivers nothing.
    // Then the rows before that call are delivered and acknowledged, and no others.
    method Drain(store: Store, batch: int, failing: Option<nat>) returns (result: Result<nat, PublishError>)
      requires Ascending(store.buffer)
      modifies this`published, store`cursors
      ensures var all := Backlog(old(store.State()), name, batch);
              var k := Deliverable(all, failing);
              && result == (if k < |all| then Err(ExporterClosed) else Ok(k))
              && published == old(published) + EnvelopesOf(all, k)
              && store.State() == AfterDeliveries(old(store.State()), name, all, k)
    {
      ghost var before, start := store.State(), published;
      ghost var all := Backlog(before, name, batch);
      var sent: nat := 0;
      while true
        invariant sent <= Deliverable(all, failing)
        invariant store.State() == AfterDeliveries(before, name, all, sent)
        invariant published == start + EnvelopesOf(all, sent)
        decreases |all| - sent
      {
        NextBatch(before, name, batch, sent);
        var rows := store.ReadPending(name, batch);
        if rows == [] {
          return Ok(sent);
        }
        var newlySent := DeliverBatch(store, rows, Later(failing, sent));
        DeliverPart(before, name, all, sent, rows, failing, start);
        sent := sent + newlySent;
        if newlySent < |rows| {
          return Err(ExporterClosed);
        }
      }
    }
  }
}
