/** What the consumer accepts, quarantines and counts, read from the lines and bodies themselves. */
module ConsumerMeaning {
  import opened Wrappers
  import opened JsonModel
  import opened Envelopes
  import opened Validation
  import opened Consumers
  import opened ConsumerTables

  // ---- what is accepted ------------------------------------------------------------------

  // A line is accepted exactly when it is an envelope that both schemas accept, with the checksum of
  // its body, and that fits its profile but for vocabulary that the profile does not know.
  lemma AcceptedIff(reader: Reader, text: string, e: Envelope)
    ensures Accepted(reader, text) == Some(e)
            <==> && text != "" && reader.parse(text) == Shaped(e)
                 && reader.spec.envelopeSchema(e) == [] && reader.spec.bodySchema(e.schema, e.body) == []
                 && Checksum(e.body, reader.spec.hash) == Ok(e.checksum)
                 && forall name | name in reader.spec.profiles && Declares(e, name) ::
                      FitsProfile(e, reader.spec.profiles[name], true)
  {
    ValidIff(e, reader.spec, true);
  }

  // ---- what is quarantined ---------------------------------------------------------------

  // The reason names what is wrong with the line.
  ghost predicate IsReason(reader: Reader, text: string, reason: Reason) {
    match reader.parse(text)
    case NotParsed(message) => reason == ParseReason(message)
    case Misshapen(message) => reason == SchemaReason(message)
    case Shaped(e) => reason.InvalidReason? && Genuine(reason.violation, e, reader.spec)
  }

  lemma RejectionIsReason(reader: Reader, text: string)
    requires text != "" && Accepted(reader, text) == None
    ensures IsReason(reader, text, RejectionOf(reader, text))
  {
    match reader.parse(text) {
      case Shaped(e) =>
        var violations := ValidateEnvelope(e, reader.spec, true);
        ViolationsAreGenuine(e, reader.spec, true, violations[0]);
      case _ =>
    }
  }

  ghost predicate QuarantineShows(reader: Reader, texts: seq<string>, quarantine: seq<(string, Reason)>) {
    && (forall q | q in quarantine ::
          q.0 in texts && q.0 != "" && Accepted(reader, q.0) == None && IsReason(reader, q.0, q.1))
    && (forall t | t in texts && t != "" && Accepted(reader, t) == None :: IsQuarantined(quarantine, t))
  }

  ghost predicate IsQuarantined(quarantine: seq<(string, Reason)>, text: string) {
    exists q :: q in quarantine && q.0 == text
  }

  // The quarantine holds exactly the lines that were not accepted, as they came, each with a reason
  // that is true of it.
  lemma {:induction false} QuarantineIs(reader: Reader, texts: seq<string>)
    ensures QuarantineShows(reader, texts, IngestAll(reader, EMPTY_CONSUMER, texts).quarantine)
  {
    if texts != [] {
      var init, last := texts[..|texts| - 1], texts[|texts| - 1];
      QuarantineIs(reader, init);
      assert texts == init + [last];
      var before, after := IngestAll(reader, EMPTY_CONSUMER, init), IngestAll(reader, EMPTY_CONSUMER, texts);
      if last != "" && Accepted(reader, last) == None {
        RejectionIsReason(reader, last);
        var entry := (last, RejectionOf(reader, last));
        assert after.quarantine == before.quarantine + [entry];
        QuarantineGrows(reader, init, last, before.quarantine, entry);
      } else {
        SameQuarantine(reader, before, last);
      }
    }
  }

  lemma SameQuarantine(reader: Reader, s: ConsumerState, text: string)
    requires text == "" || Accepted(reader, text).Some?
    ensures Ingest(reader, s, text).quarantine == s.quarantine
  {
    if text != "" {
      var e := Accepted(reader, text).value;
      var noted := Noted(reader.spec, s, e);
      assert noted.quarantine == s.quarantine;
      OnlyStores(reader.spec, noted, e);
    }
  }

  // Storing leaves the quarantine and the vocabulary as they are.
  lemma OnlyStores(spec: Spec, s: ConsumerState, e: Envelope)
    ensures var t := Deduplicated(spec, s, e);
            t.quarantine == s.quarantine && t.unknownTypes == s.unknownTypes
            && t.stats.unknownEventTypes == s.stats.unknownEventTypes
  {
  }

  lemma QuarantineGrows(reader: Reader, texts: seq<string>, last: string, quarantine: seq<(string, Reason)>,
                        entry: (string, Reason))
    requires QuarantineShows(reader, texts, quarantine) && last != "" && Accepted(reader, last) == None
    requires entry.0 == last && IsReason(reader, last, entry.1)
    ensures QuarantineShows(reader, texts + [last], quarantine + [entry])
  {
    var grown := quarantine + [entry];
    assert entry in grown && forall q | q in quarantine :: q in grown;
    forall t | t in texts + [last] && t != "" && Accepted(reader, t) == None ensures IsQuarantined(grown, t) {
      if t != last {
        var q :| q in quarantine && q.0 == t;
        assert q in grown;
      }
    }
  }

  // ---- what is counted as unknown vocabulary ------------------------------------------------

  // An event whose type is neither in the core nor in the profile that it declares.
  ghost predicate IsUnknown(spec: Spec, e: Envelope, name: string, eventType: Option<string>) {
    && e.schema == "event" && name in spec.profiles && Declares(e, name)
    && match eventType
       case Some(t) =>
         && Get(e.body, "event_type") == Some(Str(t)) && t !in spec.profiles[name].events
         && t !in {"run_start", "run_end", "cycle_complete", "start", "stop", "error", "alarm", "state_change",
                   "maintenance_flag"}
       case None => forall t :: Get(e.body, "event_type") != Some(Str(t))
  }

  ghost predicate HasUnknown(spec: Spec, e: Envelope) {
    exists name, eventType :: IsUnknown(spec, e, name, eventType)
  }

  ghost function UnknownCount(spec: Spec, es: seq<Envelope>): nat {
    if es == [] then 0
    else UnknownCount(spec, es[..|es| - 1]) + if HasUnknown(spec, es[|es| - 1]) then 1 else 0
  }

  lemma NotedIs(spec: Spec, s: ConsumerState, e: Envelope)
    ensures var t := Noted(spec, s, e);
      && t.stats.unknownEventTypes == s.stats.unknownEventTypes + (if HasUnknown(spec, e) then 1 else 0)
      && forall name, eventType :: (name, eventType) in t.unknownTypes
           <==> (name, eventType) in s.unknownTypes || IsUnknown(spec, e, name, eventType)
  {
    var own, eventType := ProfileName(e), TextOf(Get(e.body, "event_type"));
    forall name, x ensures IsUnknown(spec, e, name, x) <==> UnknownToProfile(spec, e) && name == own && x == eventType {
      DeclaresIff(e, name);
    }
    if UnknownToProfile(spec, e) {
      assert IsUnknown(spec, e, own, eventType);
    }
  }

  // The counter is the number of accepted events of unknown types, and the set names exactly these
  // types with their profiles.
  lemma {:induction false} VocabularyIsCounted(reader: Reader, texts: seq<string>)
    ensures var s, es := IngestAll(reader, EMPTY_CONSUMER, texts), AcceptedOf(reader, texts);
      && s.stats.unknownEventTypes == UnknownCount(reader.spec, es)
      && forall name, eventType :: (name, eventType) in s.unknownTypes
           <==> exists e :: e in es && IsUnknown(reader.spec, e, name, eventType)
  {
    if texts != [] {
      var init, last := texts[..|texts| - 1], texts[|texts| - 1];
      VocabularyIsCounted(reader, init);
      var s, es := IngestAll(reader, EMPTY_CONSUMER, init), AcceptedOf(reader, init);
      match Accepted(reader, last) {
        case Some(e) =>
          NotedIs(reader.spec, s, e);
          OnlyStores(reader.spec, Noted(reader.spec, s, e), e);
          assert (es + [e])[..|es|] == es && AcceptedOf(reader, texts) == es + [e];
          assert forall x :: x in es + [e] <==> x in es || x == e;
        case None =>
          assert AcceptedOf(reader, texts) == es;
      }
    }
  }
}
