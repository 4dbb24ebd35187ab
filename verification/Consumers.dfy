/** examples/platform-ingest-reference/ingest.py: the consumer's six stages and its tables. */
module Consumers {
  import opened Wrappers
  import opened JsonModel
  import opened Envelopes
  import opened Validation

  // What json.loads and the shape of an envelope make of a line.
  datatype Parsed =
    | NotParsed(message: string)      // not JSON, or not an object
    | Misshapen(message: string)      // an object without the fields of an envelope
    | Shaped(envelope: Envelope)

  datatype Reader = Reader(spec: Spec, parse: string -> Parsed)

  datatype Reason = ParseReason(message: string) | SchemaReason(message: string) | InvalidReason(violation: Violation)

  datatype Stored = Stored(envelope: Envelope, checksumValid: bool)

  datatype Alarm = Alarm(key: Key, first: Envelope, second: Envelope)

  datatype RunKey = RunKey(gatewayId: string, machineId: string, runId: Option<string>)

  datatype RunRow = RunRow(outcome: Option<string>, body: Json)

  datatype Stats = Stats(stored: nat, duplicates: nat, quarantined: nat, alarms: nat, unknownEventTypes: nat)

  datatype ConsumerState = ConsumerState(
    raw: map<Key, Stored>,
    quarantine: seq<(string, Reason)>,
    alarms: seq<Alarm>,
    machines: map<Key, Json>,
    runs: map<RunKey, RunRow>,
    stats: Stats,
    unknownTypes: set<(string, Option<string>)>)

  const EMPTY_CONSUMER := ConsumerState(map[], [], [], map[], map[], Stats(0, 0, 0, 0, 0), {})

  // ---- one line through the stages -------------------------------------------

  function RunKeyOf(e: Envelope): RunKey {
    RunKey(e.gatewayId, e.machineId, TextOf(Get(e.body, "run_id")))
  }

  function RunRowOf(e: Envelope): RunRow {
    RunRow(TextOf(Get(e.body, "outcome")), e.body)
  }

  function Quarantined(s: ConsumerState, text: string, reason: Reason): ConsumerState {
    s.(quarantine := s.quarantine + [(text, reason)],
       stats := s.stats.(quarantined := s.stats.quarantined + 1))
  }

  predicate UnknownToProfile(spec: Spec, e: Envelope) {
    && e.schema == "event"
    && ProfileName(e) in spec.profiles
    && var eventType := TextOf(Get(e.body, "event_type"));
       eventType.None? || (eventType.value !in CORE_EVENT_TYPES
                           && eventType.value !in spec.profiles[ProfileName(e)].events)
  }

  function Noted(spec: Spec, s: ConsumerState, e: Envelope): ConsumerState {
    if !UnknownToProfile(spec, e) then s
    else s.(stats := s.stats.(unknownEventTypes := s.stats.unknownEventTypes + 1),
            unknownTypes := s.unknownTypes + {(ProfileName(e), TextOf(Get(e.body, "event_type")))})
  }

  function Projected(s: ConsumerState, e: Envelope): ConsumerState {
    if e.schema == "machine" then
      if KeyOf(e) in s.machines then s else s.(machines := s.machines[KeyOf(e) := e.body])
    else if e.schema == "process_run" then
      s.(runs := s.runs[RunKeyOf(e) := RunRowOf(e)])
    else s
  }

  function Deduplicated(spec: Spec, s: ConsumerState, e: Envelope): ConsumerState {
    if KeyOf(e) in s.raw then
      var prior := s.raw[KeyOf(e)].envelope;
      if prior.checksum == e.checksum then
        s.(stats := s.stats.(duplicates := s.stats.duplicates + 1))
      else
        s.(alarms := s.alarms + [Alarm(KeyOf(e), prior, e)], stats := s.stats.(alarms := s.stats.alarms + 1))
    else
      var checksOk := Checksum(e.body, spec.hash) == Ok(e.checksum);
      Projected(s.(raw := s.raw[KeyOf(e) := Stored(e, checksOk)],
                   stats := s.stats.(stored := s.stats.stored + 1)), e)
  }

  // The envelope of an acceptable line.
  function Accepted(reader: Reader, text: string): Option<Envelope> {
    if text == "" then None
    else match reader.parse(text)
      case Shaped(e) => if ValidateEnvelope(e, reader.spec, true) == [] then Some(e) else None
      case _ => None
  }

  function RejectionOf(reader: Reader, text: string): Reason
    requires text != "" && Accepted(reader, text) == None
  {
    match reader.parse(text)
    case NotParsed(message) => ParseReason(message)
    case Misshapen(message) => SchemaReason(message)
    case Shaped(e) =>
      InvalidReason(ValidateEnvelope(e, reader.spec, true)[0])
  }

  // The consumer after one line; `text` is the line without surrounding white space.
  function Ingest(reader: Reader, s: ConsumerState, text: string): ConsumerState {
    if text == "" then s
    else match Accepted(reader, text)
      case None => Quarantined(s, text, RejectionOf(reader, text))
      case Some(e) => Deduplicated(reader.spec, Noted(reader.spec, s, e), e)
  }

  function IngestAll(reader: Reader, s: ConsumerState, texts: seq<string>): ConsumerState {
    if texts == [] then s
    else Ingest(reader, IngestAll(reader, s, texts[..|texts| - 1]), texts[|texts| - 1])
  }

  // ---- gaps --------------------------------------------------------------------

  // A number that the consumer does not hold, below one that it holds.
  ghost predicate Missing(raw: map<Key, Stored>, gatewayId: string, machineId: string, n: int) {
    && 1 <= n
    && Key(gatewayId, machineId, n) !in raw
    && exists m :: n < m && Key(gatewayId, machineId, m) in raw
  }

  ghost predicate StrictlyAscending(s: seq<int>) {
    forall i, k | 0 <= i < k < |s| :: s[i] < s[k]
  }

  // `out` lists, per machine and in order, exactly the missing numbers, and names only machines
  // that miss some.
  ghost predicate IsGapReport(raw: map<Key, Stored>, out: map<(string, string), seq<int>>) {
    forall g, m ::
      && ((g, m) in out <==> exists n :: Missing(raw, g, m, n))
      && ((g, m) in out ==> StrictlyAscending(out[(g, m)])
                            && forall n :: n in out[(g, m)] <==> Missing(raw, g, m, n))
  }

  lemma {:induction false} AscendingUnique(s: seq<int>, t: seq<int>)
    requires StrictlyAscending(s) && StrictlyAscending(t) && forall n :: n in s <==> n in t
    ensures s == t
  {
    assert t != [] ==> t[0] in t;
    if s != [] {
      assert s[0] in s;
      var i :| 0 <= i < |t| && t[i] == s[0];
      assert s == [s[0]] + s[1..] && t == [s[0]] + t[1..];
      assert s[0] !in s[1..] && s[0] !in t[1..];
      assert forall x :: (x in s <==> x == s[0] || x in s[1..]) && (x in t <==> x == s[0] || x in t[1..]);
      AscendingUnique(s[1..], t[1..]);
    }
  }

  // The stored envelopes determine the report.
  lemma GapReportUnique(raw: map<Key, Stored>, a: map<(string, string), seq<int>>, b: map<(string, string), seq<int>>)
    requires IsGapReport(raw, a) && IsGapReport(raw, b)
    ensures a == b
  {
    forall p ensures p in a <==> p in b {
      var (g, m) := p;
      assert (g, m) == p;
    }
    forall p | p in a ensures a[p] == b[p] {
      var (g, m) := p;
      assert (g, m) == p;
      AscendingUnique(a[p], b[p]);
    }
    assert a.Keys == b.Keys;
  }

  // ---- the consumer itself ---------------------------------------------------------

  class Consumer {
    const reader: Reader
    var raw: map<Key, Stored>
    var quarantine: seq<(string, Reason)>
    var alarms: seq<Alarm>
    var machines: map<Key, Json>
    var runs: map<RunKey, RunRow>
    var stats: Stats
    var unknownTypes: set<(string, Option<string>)>

    function State(): ConsumerState
      reads this
    {
      ConsumerState(raw, quarantine, alarms, machines, runs, stats, unknownTypes)
    }

    constructor (reader: Reader)
      ensures this.reader == reader && State() == EMPTY_CONSUMER
    {
      this.reader := reader;
      raw, quarantine, alarms, machines, runs := map[], [], [], map[], map[];
      stats, unknownTypes := Stats(0, 0, 0, 0, 0), {};
    }

    method Quarantine(text: string, reason: Reason)
      modifies this
      ensures State() == Quarantined(old(State()), text, reason)
    {
      quarantine := quarantine + [(text, reason)];
      stats := stats.(quarantined := stats.quarantined + 1);
    }

    method NoteUnknownVocabulary(e: Envelope)
      modifies this
      ensures State() == Noted(reader.spec, old(State()), e)
    {
      if e.schema != "event" {
        return;
      }
      var name := ProfileName(e);
      if name !in reader.spec.profiles {
        return;
      }
      var eventType := TextOf(Get(e.body, "event_type"));
      if eventType.None? || (eventType.value !in CORE_EVENT_TYPES
                             && eventType.value !in reader.spec.profiles[name].events) {
        stats := stats.(unknownEventTypes := stats.unknownEventTypes + 1);
        unknownTypes := unknownTypes + {(name, eventType)};
      }
    }

    method Project(e: Envelope)
      modifies this
      ensures State() == Projected(old(State()), e)
    {
      if e.schema == "machine" {
        if KeyOf(e) !in machines {
          machines := machines[KeyOf(e) := e.body];
        }
      } else if e.schema == "process_run" {
        runs := runs[RunKeyOf(e) := RunRowOf(e)];
      }
    }

    method IngestLine(text: string)
      modifies this
      ensures State() == Ingest(reader, old(State()), text)
    {
      if text == "" {
        return;
      }
      match reader.parse(text) {
        case NotParsed(message) => Quarantine(text, ParseReason(message));
        case Misshapen(message) => Quarantine(text, SchemaReason(message));
        case Shaped(e) =>
          var violations := ValidateEnvelope(e, reader.spec, true);
          if violations != [] {
            Quarantine(text, InvalidReason(violations[0]));
            return;
          }
          NoteUnknownVocabulary(e);
          if KeyOf(e) in raw {
            var prior := raw[KeyOf(e)].envelope;
            if prior.checksum == e.checksum {
              stats := stats.(duplicates := stats.duplicates + 1);
            } else {
              alarms := alarms + [Alarm(KeyOf(e), prior, e)];
              stats := stats.(alarms := stats.alarms + 1);
            }
            return;
          }
          var checksOk := Checksum(e.body, reader.spec.hash) == Ok(e.checksum);
          raw := raw[KeyOf(e) := Stored(e, checksOk)];
          stats := stats.(stored := stats.stored + 1);
          Project(e);
      }
    }

    // Numbers 1 up to the largest held, less those held, in order.
    method MissingOf(gatewayId: string, machineId: string, held: seq<int>) returns (missing: seq<int>)
      requires held != []
      requires forall n :: n in held <==> Key(gatewayId, machineId, n) in raw
      ensures StrictlyAscending(missing)
      ensures forall n :: n in missing <==> Missing(raw, gatewayId, machineId, n)
    {
      var top := held[0];
      for i := 1 to |held|
        invariant top in held && forall k | 0 <= k < i :: held[k] <= top
      {
        if held[i] > top {
          top := held[i];
        }
      }
      missing := [];
      var n := 1;
      while n <= top
        invariant 1 <= n && (n <= top + 1 || missing == [])
        invariant StrictlyAscending(missing)
        invariant forall i | 0 <= i < |missing| :: missing[i] < n
        invariant forall m :: m in missing <==> 1 <= m < n && m <= top && m !in held
      {
        if n !in held {
          missing := missing + [n];
        }
        n := n + 1;
      }
      forall m ensures m in missing <==> Missing(raw, gatewayId, machineId, m) {
        if m in missing {
          assert Key(gatewayId, machineId, top) in raw;
        }
        if Missing(raw, gatewayId, machineId, m) {
          var k :| m < k && Key(gatewayId, machineId, k) in raw;
          assert k in held;
        }
      }
    }

    method Gaps() returns (out: map<(string, string), seq<int>>)
      ensures IsGapReport(raw, out)
    {
      var rows := raw.Keys;
      var seen: map<(string, string), seq<int>> := map[];
      while rows != {}
        invariant rows <= raw.Keys
        invariant forall g, m :: (g, m) in seen ==> seen[(g, m)] != []
        invariant forall g, m, n :: ((g, m) in seen && n in seen[(g, m)]) <==> Key(g, m, n) in raw.Keys - rows
        decreases |rows|
      {
        var k :| k in rows;
        var pair := (k.gatewayId, k.machineId);
        seen := seen[pair := (if pair in seen then seen[pair] else []) + [k.seqNo]];
        rows := rows - {k};
      }
      out := map[];
      var pairs := seen.Keys;
      while pairs != {}
        invariant pairs <= seen.Keys
        invariant forall p | p in out :: p in seen.Keys - pairs
        invariant forall g, m | (g, m) in seen.Keys - pairs ::
            && ((g, m) in out <==> exists n :: Missing(raw, g, m, n))
            && ((g, m) in out ==> StrictlyAscending(out[(g, m)])
                                  && forall n :: n in out[(g, m)] <==> Missing(raw, g, m, n))
        decreases |pairs|
      {
        var p :| p in pairs;
        var (g, m) := p;
        assert forall n :: n in seen[(g, m)] <==> Key(g, m, n) in raw;
        var missing := MissingOf(g, m, seen[p]);
        if missing != [] {
          assert missing[0] in missing;
          out := out[p := missing];
        }
        pairs := pairs - {p};
      }
      forall g, m | (g, m) !in seen ensures !exists n :: Missing(raw, g, m, n) {
        assert forall n :: Key(g, m, n) !in raw.Keys;
      }
    }
  }
}
