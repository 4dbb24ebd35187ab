/** What a stream of lines leaves in the consumer's tables, whatever its order and repetitions. */
module ConsumerTables {
  import opened Wrappers
  import opened JsonModel
  import opened Envelopes
  import opened Validation
  import opened Consumers

  // ---- the accepted envelopes decide the tables --------------------------------

  // The accepted envelopes of a stream, in order of arrival.
  function AcceptedOf(reader: Reader, texts: seq<string>): seq<Envelope> {
    if texts == [] then []
    else
      AcceptedOf(reader, texts[..|texts| - 1]) +
      match Accepted(reader, texts[|texts| - 1])
      case Some(e) => [e]
      case None => []
  }

  lemma {:induction false} AcceptedOfMeaning(reader: Reader, texts: seq<string>)
    ensures forall e :: e in AcceptedOf(reader, texts) <==> exists t :: t in texts && Accepted(reader, t) == Some(e)
  {
    if texts != [] {
      var init, last := texts[..|texts| - 1], texts[|texts| - 1];
      AcceptedOfMeaning(reader, init);
      assert texts == init + [last];
      forall e ensures e in AcceptedOf(reader, texts) <==> exists t :: t in texts && Accepted(reader, t) == Some(e) {
        if e in AcceptedOf(reader, init) {
          var t :| t in init && Accepted(reader, t) == Some(e);
          assert t in texts;
        }
        if Accepted(reader, last) == Some(e) {
          assert last in texts;
        }
      }
    }
  }

  // The tables that accepted envelopes feed.
  datatype Tables = Tables(
    raw: map<Key, Envelope>,
    alarms: seq<Alarm>,
    machines: map<Key, Json>,
    runs: map<RunKey, RunRow>)

  const EMPTY_TABLES := Tables(map[], [], map[], map[])

  function After(t: Tables, e: Envelope): Tables {
    if KeyOf(e) in t.raw then
      if t.raw[KeyOf(e)].checksum == e.checksum then t
      else t.(alarms := t.alarms + [Alarm(KeyOf(e), t.raw[KeyOf(e)], e)])
    else
      t.(raw := t.raw[KeyOf(e) := e],
         machines := if e.schema == "machine" && KeyOf(e) !in t.machines then t.machines[KeyOf(e) := e.body]
                     else t.machines,
         runs := if e.schema == "process_run" then t.runs[RunKeyOf(e) := RunRowOf(e)] else t.runs)
  }

  function TablesOf(es: seq<Envelope>): Tables {
    if es == [] then EMPTY_TABLES else After(TablesOf(es[..|es| - 1]), es[|es| - 1])
  }

  ghost predicate Shows(s: ConsumerState, t: Tables) {
    && s.raw.Keys == t.raw.Keys
    && (forall k | k in s.raw :: s.raw[k] == Stored(t.raw[k], true))
    && s.alarms == t.alarms && s.machines == t.machines && s.runs == t.runs
  }

  lemma StoringShows(spec: Spec, s: ConsumerState, t: Tables, e: Envelope)
    requires Shows(s, t) && Checksum(e.body, spec.hash) == Ok(e.checksum)
    ensures Shows(Deduplicated(spec, s, e), After(t, e))
  {}

  lemma OneLineShows(reader: Reader, s: ConsumerState, t: Tables, text: string)
    requires Shows(s, t)
    ensures Shows(Ingest(reader, s, text),
                  match Accepted(reader, text)
                  case Some(e) => After(t, e)
                  case None => t)
  {
    match Accepted(reader, text) {
      case Some(e) =>
        ValidChecksum(e, reader.spec, true);
        StoringShows(reader.spec, Noted(reader.spec, s, e), t, e);
      case None =>
    }
  }

  // After a stream, the consumer's tables are those that its accepted envelopes decide, and every
  // stored checksum was verified.
  lemma {:induction false} TablesFollowAccepted(reader: Reader, texts: seq<string>)
    ensures Shows(IngestAll(reader, EMPTY_CONSUMER, texts), TablesOf(AcceptedOf(reader, texts)))
  {
    if texts != [] {
      var init, last := texts[..|texts| - 1], texts[|texts| - 1];
      TablesFollowAccepted(reader, init);
      var es := AcceptedOf(reader, init);
      OneLineShows(reader, IngestAll(reader, EMPTY_CONSUMER, init), TablesOf(es), last);
      match Accepted(reader, last) {
        case Some(e) => assert (es + [e])[..|es|] == es;
        case None => assert es + [] == es;
      }
    }
  }

  // ---- accounting ----------------------------------------------------------------

  function NonBlank(texts: seq<string>): nat {
    if texts == [] then 0
    else NonBlank(texts[..|texts| - 1]) + (if texts[|texts| - 1] == "" then 0 else 1)
  }

  ghost predicate Balanced(s: ConsumerState, lines: nat, accepted: nat) {
    && s.stats.stored == |s.raw| && s.stats.alarms == |s.alarms| && s.stats.quarantined == |s.quarantine|
    && s.stats.stored + s.stats.duplicates + s.stats.alarms == accepted
    && accepted + s.stats.quarantined == lines
  }

  lemma StoringBalances(spec: Spec, s: ConsumerState, e: Envelope, lines: nat, accepted: nat)
    requires Balanced(s, lines, accepted)
    ensures Balanced(Deduplicated(spec, s, e), lines + 1, accepted + 1)
  {
    RawGrows(s.raw, KeyOf(e), Stored(e, Checksum(e.body, spec.hash) == Ok(e.checksum)));
  }

  lemma RawGrows(raw: map<Key, Stored>, key: Key, stored: Stored)
    ensures |raw[key := stored]| == |raw| + if key in raw then 0 else 1
  {
    assert raw[key := stored].Keys == raw.Keys + {key};
  }

  // Every line that is not blank is stored, a duplicate, an alarm or quarantined; the counters are
  // the sizes of the tables.
  lemma {:induction false} LinesAreAccounted(reader: Reader, texts: seq<string>)
    ensures Balanced(IngestAll(reader, EMPTY_CONSUMER, texts), NonBlank(texts), |AcceptedOf(reader, texts)|)
  {
    if texts != [] {
      var init, last := texts[..|texts| - 1], texts[|texts| - 1];
      LinesAreAccounted(reader, init);
      var s := IngestAll(reader, EMPTY_CONSUMER, init);
      match Accepted(reader, last) {
        case Some(e) =>
          StoringBalances(reader.spec, Noted(reader.spec, s, e), e, NonBlank(init), |AcceptedOf(reader, init)|);
        case None =>
      }
    }
  }

  // Whatever the consumer holds, no line changes a stored envelope.
  lemma {:induction false} StoredIsNeverOverwritten(reader: Reader, s: ConsumerState, texts: seq<string>)
    ensures forall k | k in s.raw ::
              k in IngestAll(reader, s, texts).raw && IngestAll(reader, s, texts).raw[k] == s.raw[k]
  {
    if texts != [] {
      StoredIsNeverOverwritten(reader, s, texts[..|texts| - 1]);
      var t, text := IngestAll(reader, s, texts[..|texts| - 1]), texts[|texts| - 1];
      if Accepted(reader, text).Some? {
        StoringKeepsRaw(reader.spec, Noted(reader.spec, t, Accepted(reader, text).value), Accepted(reader, text).value);
      }
    }
  }

  lemma StoringKeepsRaw(spec: Spec, s: ConsumerState, e: Envelope)
    ensures forall k | k in s.raw :: k in Deduplicated(spec, s, e).raw && Deduplicated(spec, s, e).raw[k] == s.raw[k]
  {}

  // ---- the raw store -----------------------------------------------------------------

  ghost predicate HoldsKey(es: seq<Envelope>, k: Key) {
    exists e :: e in es && KeyOf(e) == k
  }

  // The earliest envelope with its key.
  ghost predicate FirstWithKey(es: seq<Envelope>, e: Envelope) {
    exists i | 0 <= i < |es| :: es[i] == e && forall k | 0 <= k < i :: KeyOf(es[k]) != KeyOf(e)
  }

  lemma FirstStays(es: seq<Envelope>, e: Envelope, next: Envelope)
    requires FirstWithKey(es, e)
    ensures FirstWithKey(es + [next], e)
  {
    var i :| 0 <= i < |es| && es[i] == e && forall k | 0 <= k < i :: KeyOf(es[k]) != KeyOf(e);
    assert (es + [next])[i] == e && forall k | 0 <= k < i :: KeyOf((es + [next])[k]) != KeyOf(e);
  }

  lemma NewIsFirst(es: seq<Envelope>, next: Envelope)
    requires !HoldsKey(es, KeyOf(next))
    ensures FirstWithKey(es + [next], next)
  {
    assert forall k | 0 <= k < |es| :: es[k] in es;
    assert (es + [next])[|es|] == next;
  }

  lemma HoldsKeyExtends(es: seq<Envelope>, next: Envelope)
    ensures forall k :: HoldsKey(es + [next], k) <==> HoldsKey(es, k) || k == KeyOf(next)
  {
    assert forall x :: x in es + [next] <==> x in es || x == next;
  }

  // The raw store holds exactly the keys that arrived, each with the envelope that came first.
  lemma {:induction false} RawIsFirstArrivals(es: seq<Envelope>)
    ensures forall k :: k in TablesOf(es).raw <==> HoldsKey(es, k)
    ensures forall k | k in TablesOf(es).raw ::
              KeyOf(TablesOf(es).raw[k]) == k && FirstWithKey(es, TablesOf(es).raw[k])
  {
    if es != [] {
      var init, e := es[..|es| - 1], es[|es| - 1];
      RawIsFirstArrivals(init);
      HoldsKeyExtends(init, e);
      assert es == init + [e];
      var raw, raw' := TablesOf(init).raw, TablesOf(es).raw;
      forall k | k in raw' ensures KeyOf(raw'[k]) == k && FirstWithKey(es, raw'[k]) {
        if k in raw {
          FirstStays(init, raw[k], e);
        } else {
          NewIsFirst(init, e);
        }
      }
    }
  }

  // ---- alarms --------------------------------------------------------------------------

  ghost predicate AlarmIsReal(es: seq<Envelope>, raw: map<Key, Envelope>, a: Alarm) {
    && a.key in raw && raw[a.key] == a.first
    && a.second in es && KeyOf(a.second) == a.key && a.second.checksum != a.first.checksum
  }

  // An alarm shows the stored envelope of a key beside another of that key with another checksum,
  // and every accepted envelope that disagrees with the stored one has raised an alarm.
  lemma {:induction false} AlarmsShowDisagreement(es: seq<Envelope>)
    ensures var t := TablesOf(es);
      && (forall a | a in t.alarms :: AlarmIsReal(es, t.raw, a))
      && (forall e | e in es :: KeyOf(e) in t.raw
                              && (t.raw[KeyOf(e)].checksum == e.checksum
                                  || Alarm(KeyOf(e), t.raw[KeyOf(e)], e) in t.alarms))
  {
    if es != [] {
      var init, last := es[..|es| - 1], es[|es| - 1];
      AlarmsShowDisagreement(init);
      assert es == init + [last];
      var t, t' := TablesOf(init), TablesOf(es);
      forall a | a in t'.alarms ensures AlarmIsReal(es, t'.raw, a) {
        assert a in t.alarms ==> AlarmIsReal(init, t.raw, a);
      }
      forall e | e in es
        ensures KeyOf(e) in t'.raw
                && (t'.raw[KeyOf(e)].checksum == e.checksum || Alarm(KeyOf(e), t'.raw[KeyOf(e)], e) in t'.alarms)
      {
        assert e in init || e == last;
      }
    }
  }

  ghost predicate SameKeySameChecksum(es: seq<Envelope>) {
    forall e, f | e in es && f in es && KeyOf(e) == KeyOf(f) :: e.checksum == f.checksum
  }

  // An integrity alarm is raised exactly when two accepted envelopes share a key and not a checksum.
  lemma AlarmIffConflict(es: seq<Envelope>)
    ensures TablesOf(es).alarms == [] <==> SameKeySameChecksum(es)
  {
    var t := TablesOf(es);
    AlarmsShowDisagreement(es);
    RawIsFirstArrivals(es);
    if t.alarms != [] {
      var a := t.alarms[0];
      assert AlarmIsReal(es, t.raw, a) && FirstWithKey(es, t.raw[a.key]);
    }
  }

  // ---- projections -----------------------------------------------------------------------

  // `r` is the row of a stored run summary.
  ghost predicate RunStored(raw: map<Key, Envelope>, rk: RunKey, r: RunRow) {
    exists k | k in raw :: raw[k].schema == "process_run" && RunKeyOf(raw[k]) == rk && RunRowOf(raw[k]) == r
  }

  // The machines table is that of the stored announcements; a run has a row exactly when one of its
  // summaries is stored, and the row is that of one of them.
  ghost predicate ProjectionsHold(t: Tables) {
    && (forall k :: k in t.machines <==> k in t.raw && t.raw[k].schema == "machine")
    && (forall k | k in t.machines :: t.machines[k] == t.raw[k].body)
    && (forall rk | rk in t.runs :: RunStored(t.raw, rk, t.runs[rk]))
    && (forall rk, r | RunStored(t.raw, rk, r) :: rk in t.runs)
  }

  lemma RunStoredExtends(raw: map<Key, Envelope>, e: Envelope)
    requires KeyOf(e) !in raw
    ensures forall rk, r :: RunStored(raw[KeyOf(e) := e], rk, r) <==>
              RunStored(raw, rk, r) || (e.schema == "process_run" && rk == RunKeyOf(e) && r == RunRowOf(e))
  {
    var raw' := raw[KeyOf(e) := e];
    forall rk, r ensures RunStored(raw', rk, r) <==>
        RunStored(raw, rk, r) || (e.schema == "process_run" && rk == RunKeyOf(e) && r == RunRowOf(e))
    {
      if k :| k in raw && raw[k].schema == "process_run" && RunKeyOf(raw[k]) == rk && RunRowOf(raw[k]) == r {
        assert raw'[k] == raw[k];
      }
      if k :| k in raw' && raw'[k].schema == "process_run" && RunKeyOf(raw'[k]) == rk && RunRowOf(raw'[k]) == r {
        assert k == KeyOf(e) || raw'[k] == raw[k];
      }
      assert raw'[KeyOf(e)] == e;
    }
  }

  lemma AfterKeepsProjections(t: Tables, e: Envelope)
    requires ProjectionsHold(t)
    ensures ProjectionsHold(After(t, e))
  {
    if KeyOf(e) !in t.raw {
      RunStoredExtends(t.raw, e);
      var u := After(t, e);
      assert u.raw == t.raw[KeyOf(e) := e];
      forall rk | rk in u.runs ensures RunStored(u.raw, rk, u.runs[rk]) {
        if e.schema == "process_run" && rk == RunKeyOf(e) {
          assert u.raw[KeyOf(e)] == e && u.runs[rk] == RunRowOf(e);
          assert KeyOf(e) in u.raw;
        } else {
          assert RunStored(t.raw, rk, t.runs[rk]) && u.runs[rk] == t.runs[rk];
        }
      }
      forall rk, r | RunStored(u.raw, rk, r) ensures rk in u.runs {
        assert RunStored(t.raw, rk, r) ==> rk in t.runs;
      }
    }
  }

  lemma {:induction false} ProjectionsFollowRaw(es: seq<Envelope>)
    ensures ProjectionsHold(TablesOf(es))
  {
    if es != [] {
      ProjectionsFollowRaw(es[..|es| - 1]);
      AfterKeepsProjections(TablesOf(es[..|es| - 1]), es[|es| - 1]);
    }
  }

  // The machines table can be rebuilt from the raw store.
  lemma MachinesFromRaw(t: Tables, u: Tables)
    requires ProjectionsHold(t) && ProjectionsHold(u) && t.raw == u.raw
    ensures t.machines == u.machines
  {
    assert t.machines.Keys == u.machines.Keys;
  }

  // So can the runs table, when the stored summaries of a run agree.
  lemma RunsFromRaw(t: Tables, u: Tables)
    requires ProjectionsHold(t) && ProjectionsHold(u) && t.raw == u.raw
    requires forall rk, r, r' | RunStored(t.raw, rk, r) && RunStored(t.raw, rk, r') :: r == r'
    ensures t.runs == u.runs
  {
    assert forall rk | rk in t.runs :: RunStored(t.raw, rk, t.runs[rk]);
    assert forall rk | rk in u.runs :: RunStored(t.raw, rk, u.runs[rk]);
    assert t.runs.Keys == u.runs.Keys;
  }

  // ---- order and repetition -----------------------------------------------------------------

  // The key determines the envelope, as for what gateways emit.
  ghost predicate KeyDetermines(es: seq<Envelope>) {
    forall e, f | e in es && f in es && KeyOf(e) == KeyOf(f) :: e == f
  }

  // No two different summaries claim one run of a machine.
  ghost predicate RunsAgree(es: seq<Envelope>) {
    forall e, f | e in es && f in es && e.schema == "process_run" && f.schema == "process_run"
                  && RunKeyOf(e) == RunKeyOf(f) :: RunRowOf(e) == RunRowOf(f)
  }

  ghost predicate SameMembers(es: seq<Envelope>, fs: seq<Envelope>) {
    forall e :: e in es <==> e in fs
  }

  lemma RawOfMembers(es: seq<Envelope>, k: Key, e: Envelope)
    requires KeyDetermines(es)
    ensures k in TablesOf(es).raw && TablesOf(es).raw[k] == e <==> e in es && KeyOf(e) == k
  {
    RawIsFirstArrivals(es);
    if e in es && KeyOf(e) == k {
      assert HoldsKey(es, k);
    }
  }

  lemma SameRaw(es: seq<Envelope>, fs: seq<Envelope>)
    requires SameMembers(es, fs) && KeyDetermines(es)
    ensures TablesOf(es).raw == TablesOf(fs).raw
  {
    var a, b := TablesOf(es).raw, TablesOf(fs).raw;
    forall k | k in a ensures k in b && b[k] == a[k] {
      RawOfMembers(es, k, a[k]);
      RawOfMembers(fs, k, a[k]);
    }
    forall k | k in b ensures k in a {
      RawOfMembers(fs, k, b[k]);
      RawOfMembers(es, k, b[k]);
    }
  }

  // Reordering and repeating envelopes changes neither the stored envelopes nor the machines table,
  // and raises no alarm.
  lemma RawIsConfluent(es: seq<Envelope>, fs: seq<Envelope>)
    requires SameMembers(es, fs) && KeyDetermines(es)
    ensures TablesOf(es).raw == TablesOf(fs).raw
    ensures TablesOf(es).machines == TablesOf(fs).machines
    ensures TablesOf(es).alarms == TablesOf(fs).alarms == []
  {
    SameRaw(es, fs);
    ProjectionsFollowRaw(es);
    ProjectionsFollowRaw(fs);
    MachinesFromRaw(TablesOf(es), TablesOf(fs));
    AlarmIffConflict(es);
    AlarmIffConflict(fs);
  }

  // With summaries that agree, the same holds of the runs table.
  lemma RunsAreConfluent(es: seq<Envelope>, fs: seq<Envelope>)
    requires SameMembers(es, fs) && KeyDetermines(es) && RunsAgree(es)
    ensures TablesOf(es).runs == TablesOf(fs).runs
  {
    var raw := TablesOf(es).raw;
    SameRaw(es, fs);
    ProjectionsFollowRaw(es);
    ProjectionsFollowRaw(fs);
    forall k | k in raw ensures raw[k] in es {
      RawOfMembers(es, k, raw[k]);
    }
    RunsFromRaw(TablesOf(es), TablesOf(fs));
  }

  // ---- conflicting summaries ---------------------------------------------------------------------

  // Envelopes that are stored already change nothing.
  lemma {:induction false} TablesOfConcat(es: seq<Envelope>, fs: seq<Envelope>)
    requires forall e | e in fs :: KeyOf(e) in TablesOf(es).raw && TablesOf(es).raw[KeyOf(e)] == e
    ensures TablesOf(es + fs) == TablesOf(es)
  {
    if fs == [] {
      assert es + fs == es;
    } else {
      var init, last := fs[..|fs| - 1], fs[|fs| - 1];
      assert fs == init + [last] && es + fs == (es + init) + [last];
      assert last in fs;
      TablesOfConcat(es, init);
      TablesOfAppend(es + init, last);
    }
  }

  lemma TablesOfAppend(es: seq<Envelope>, e: Envelope)
    ensures TablesOf(es + [e]) == After(TablesOf(es), e)
  {
    assert (es + [e])[..|es|] == es;
  }

  function Others(es: seq<Envelope>, e: Envelope, f: Envelope): seq<Envelope> {
    if es == [] then []
    else Others(es[..|es| - 1], e, f) + (if es[|es| - 1] == e || es[|es| - 1] == f then [] else [es[|es| - 1]])
  }

  lemma {:induction false} OthersMeaning(es: seq<Envelope>, e: Envelope, f: Envelope)
    ensures forall x :: x in Others(es, e, f) <==> x in es && x != e && x != f
  {
    if es != [] {
      OthersMeaning(es[..|es| - 1], e, f);
      assert es == es[..|es| - 1] + [es[|es| - 1]];
    }
  }

  // An order of arrival after which the row of a run is that of `f`.
  lemma LastSummaryWins(es: seq<Envelope>, e: Envelope, f: Envelope) returns (fs: seq<Envelope>)
    requires KeyDetermines(es) && e in es && f in es && e != f
    requires f.schema == "process_run"
    ensures SameMembers(es, fs)
    ensures RunKeyOf(f) in TablesOf(fs).runs && TablesOf(fs).runs[RunKeyOf(f)] == RunRowOf(f)
  {
    var others := Others(es, e, f);
    OthersMeaning(es, e, f);
    var head := others + [e] + [f];
    fs := head + es;
    assert SameMembers(es, fs);
    RawIsFirstArrivals(others);
    assert !HoldsKey(others, KeyOf(e)) && !HoldsKey(others, KeyOf(f));
    TablesOfAppend(others, e);
    TablesOfAppend(others + [e], f);
    RawIsFirstArrivals(head);
    forall x | x in es ensures KeyOf(x) in TablesOf(head).raw && TablesOf(head).raw[KeyOf(x)] == x {
      assert x in head;
      assert HoldsKey(head, KeyOf(x));
    }
    TablesOfConcat(head, es);
  }

  // The runs table is independent of order and repetition exactly when summaries agree: it keeps the
  // summary that was stored last.
  lemma RunsConfluentIffAgree(es: seq<Envelope>)
    requires KeyDetermines(es)
    ensures RunsAgree(es) <==> forall fs | SameMembers(es, fs) :: TablesOf(fs).runs == TablesOf(es).runs
  {
    if RunsAgree(es) {
      forall fs | SameMembers(es, fs) ensures TablesOf(fs).runs == TablesOf(es).runs {
        RunsAreConfluent(es, fs);
      }
    } else {
      var e, f :| e in es && f in es && e.schema == "process_run" && f.schema == "process_run"
                  && RunKeyOf(e) == RunKeyOf(f) && RunRowOf(e) != RunRowOf(f);
      var fs := LastSummaryWins(es, e, f);
      var gs := LastSummaryWins(es, f, e);
      assert TablesOf(fs).runs != TablesOf(gs).runs;
    }
  }

  // ---- runs, read from the bodies ----------------------------------------------------------------

  // A summary of this run of this machine.
  ghost predicate Summarises(e: Envelope, gatewayId: string, machineId: string, runId: string) {
    && e.schema == "process_run" && e.gatewayId == gatewayId && e.machineId == machineId
    && Get(e.body, "run_id") == Some(Str(runId))
  }

  ghost predicate ShowsSummary(r: RunRow, e: Envelope) {
    r.body == e.body && forall o :: r.outcome == Some(o) <==> Get(e.body, "outcome") == Some(Str(o))
  }

  ghost predicate SummaryHeld(s: ConsumerState, gatewayId: string, machineId: string, runId: string, k: Key) {
    k in s.raw && Summarises(s.raw[k].envelope, gatewayId, machineId, runId)
  }

  // After any stream each run of each machine has a row of its own exactly when a summary of it is
  // stored, and the row shows one of its summaries.
  lemma RunsTableIff(reader: Reader, texts: seq<string>, gatewayId: string, machineId: string, runId: string)
    ensures var s := IngestAll(reader, EMPTY_CONSUMER, texts);
            var rk := RunKey(gatewayId, machineId, Some(runId));
      && (rk in s.runs <==> exists k :: SummaryHeld(s, gatewayId, machineId, runId, k))
      && (rk in s.runs ==> exists k :: SummaryHeld(s, gatewayId, machineId, runId, k)
                                       && ShowsSummary(s.runs[rk], s.raw[k].envelope))
  {
    var s, t := IngestAll(reader, EMPTY_CONSUMER, texts), TablesOf(AcceptedOf(reader, texts));
    var rk := RunKey(gatewayId, machineId, Some(runId));
    TablesFollowAccepted(reader, texts);
    ProjectionsFollowRaw(AcceptedOf(reader, texts));
    if rk in s.runs {
      assert RunStored(t.raw, rk, t.runs[rk]);
      var k :| k in t.raw && t.raw[k].schema == "process_run" && RunKeyOf(t.raw[k]) == rk
               && RunRowOf(t.raw[k]) == t.runs[rk];
      assert s.raw[k].envelope == t.raw[k];
      assert SummaryHeld(s, gatewayId, machineId, runId, k) && ShowsSummary(s.runs[rk], s.raw[k].envelope);
    }
    if k :| SummaryHeld(s, gatewayId, machineId, runId, k) {
      assert s.raw[k].envelope == t.raw[k];
      assert RunStored(t.raw, rk, RunRowOf(t.raw[k]));
    }
  }

  // Every summary names its run, and two that name one run have one body.
  ghost predicate OneSummaryPerRun(es: seq<Envelope>) {
    && (forall e | e in es && e.schema == "process_run" ::
          exists id :: Summarises(e, e.gatewayId, e.machineId, id))
    && (forall e, f, id | e in es && f in es && Summarises(e, e.gatewayId, e.machineId, id)
                          && Summarises(f, e.gatewayId, e.machineId, id) :: e.body == f.body)
  }

  lemma OneSummaryAgrees(es: seq<Envelope>)
    requires OneSummaryPerRun(es)
    ensures RunsAgree(es)
  {
    forall e, f | e in es && f in es && e.schema == "process_run" && f.schema == "process_run"
                  && RunKeyOf(e) == RunKeyOf(f)
      ensures RunRowOf(e) == RunRowOf(f)
    {
      var id :| Summarises(e, e.gatewayId, e.machineId, id);
      var id' :| Summarises(f, f.gatewayId, f.machineId, id');
      assert Summarises(f, e.gatewayId, e.machineId, id);
    }
  }

  // ---- the consumer ---------------------------------------------------------------------------------

  ghost predicate SameLines(a: seq<string>, b: seq<string>) {
    forall t :: t in a <==> t in b
  }

  // A consumer that receives the same lines in another order, some of them again, holds the same
  // envelopes and machines, reports the same gaps and, where summaries agree, shows the same runs.
  lemma ConsumerIsConfluent(reader: Reader, a: seq<string>, b: seq<string>,
                            gapsA: map<(string, string), seq<int>>, gapsB: map<(string, string), seq<int>>)
    requires SameLines(a, b) && KeyDetermines(AcceptedOf(reader, a))
    requires IsGapReport(IngestAll(reader, EMPTY_CONSUMER, a).raw, gapsA)
    requires IsGapReport(IngestAll(reader, EMPTY_CONSUMER, b).raw, gapsB)
    ensures IngestAll(reader, EMPTY_CONSUMER, a).raw == IngestAll(reader, EMPTY_CONSUMER, b).raw
    ensures IngestAll(reader, EMPTY_CONSUMER, a).machines == IngestAll(reader, EMPTY_CONSUMER, b).machines
    ensures gapsA == gapsB
    ensures RunsAgree(AcceptedOf(reader, a)) || OneSummaryPerRun(AcceptedOf(reader, a)) ==>
              IngestAll(reader, EMPTY_CONSUMER, a).runs == IngestAll(reader, EMPTY_CONSUMER, b).runs
  {
    var es, fs := AcceptedOf(reader, a), AcceptedOf(reader, b);
    var s, t := IngestAll(reader, EMPTY_CONSUMER, a), IngestAll(reader, EMPTY_CONSUMER, b);
    AcceptedOfMeaning(reader, a);
    AcceptedOfMeaning(reader, b);
    assert SameMembers(es, fs);
    RawIsConfluent(es, fs);
    TablesFollowAccepted(reader, a);
    TablesFollowAccepted(reader, b);
    SameShown(s, t, TablesOf(es), TablesOf(fs));
    GapReportUnique(s.raw, gapsA, gapsB);
    if OneSummaryPerRun(es) {
      OneSummaryAgrees(es);
    }
    if RunsAgree(es) {
      RunsAreConfluent(es, fs);
    }
  }

  lemma SameShown(s: ConsumerState, s': ConsumerState, t: Tables, t': Tables)
    requires Shows(s, t) && Shows(s', t') && t.raw == t'.raw
    ensures s.raw == s'.raw
  {}
}
