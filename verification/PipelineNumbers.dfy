/** Sequence numbers over every run: none is reused, none is unaccounted for. */
module PipelineNumbers {
  import opened Wrappers
  import opened Envelopes
  import opened Stores
  import opened Engines
  import opened Pipeline

  ghost predicate WasAppended(s: Sys, x: Slot) {
    exists r | r in s.appended :: SlotOfRow(r) == x
  }

  ghost predicate InFlight(s: Sys, x: Slot) {
    exists c | c in s.calls :: SlotOfCall(c) == x
  }

  predicate HandedOut(s: StoreState, x: Slot) {
    1 <= x.seqNo <= LastSeq(s, x.machineId)
  }

  // The numbers handed out to a machine are 1 up to its counter, and each is in exactly one place.
  ghost predicate NumbersAccounted(s: Sys) {
    && (forall m :: 0 <= LastSeq(s.store, m))
    && (forall x :: HandedOut(s.store, x) <==> WasAppended(s, x) || InFlight(s, x) || x in s.refused || x in s.lost)
    && (forall x :: WasAppended(s, x) ==> !InFlight(s, x) && x !in s.refused && x !in s.lost)
    && (forall x :: InFlight(s, x) ==> x !in s.refused && x !in s.lost)
    && s.refused !! s.lost
    && DistinctSlots(s)
  }

  ghost predicate DistinctSlots(s: Sys) {
    && (forall i, k | 0 <= i < k < |s.appended| :: SlotOfRow(s.appended[i]) != SlotOfRow(s.appended[k]))
    && (forall c, d | c in s.calls && d in s.calls && SlotOfCall(c) == SlotOfCall(d) :: c == d)
  }

  lemma BeginKeepsNumbers(s: Sys, c: Call)
    requires NumbersAccounted(s) && c.seqNo == LastSeq(s.store, c.machineId) + 1
    ensures NumbersAccounted(s.(store := AfterNextSeq(s.store, c.machineId), calls := s.calls + {c}))
  {
    var t := s.(store := AfterNextSeq(s.store, c.machineId), calls := s.calls + {c});
    var slot := SlotOfCall(c);
    assert !HandedOut(s.store, slot);
    forall x ensures HandedOut(t.store, x) <==> HandedOut(s.store, x) || x == slot {}
    forall x ensures WasAppended(t, x) <==> WasAppended(s, x) {}
    forall x ensures InFlight(t, x) <==> InFlight(s, x) || x == slot {
      assert c in t.calls;
    }
    assert !InFlight(s, slot) && !WasAppended(s, slot) && slot !in s.refused && slot !in s.lost;
    assert forall d | d in s.calls :: InFlight(s, SlotOfCall(d));
    assert forall m :: LastSeq(t.store, m) == LastSeq(s.store, m) + if m == c.machineId then 1 else 0;
  }

  lemma FinishMovesCall(s: Sys, t: Sys, c: Call)
    requires DistinctSlots(s) && c in s.calls && t.calls == s.calls - {c}
    ensures forall x :: InFlight(t, x) <==> InFlight(s, x) && x != SlotOfCall(c)
    ensures InFlight(s, SlotOfCall(c))
  {
    forall x ensures InFlight(t, x) <==> InFlight(s, x) && x != SlotOfCall(c) {
      if InFlight(s, x) && x != SlotOfCall(c) {
        var d :| d in s.calls && SlotOfCall(d) == x;
        assert d in t.calls;
      }
    }
  }

  lemma FinishKeepsNumbers(cfg: Config, s: Sys, c: Call, storedAt: int)
    requires NumbersAccounted(s) && c in s.calls
    ensures NumbersAccounted(FinishCall(cfg, s, c, storedAt))
  {
    var t := FinishCall(cfg, s, c, storedAt);
    var slot := SlotOfCall(c);
    FinishMovesCall(s, t, c);
    match Judge(cfg.gateway, c.machineId, c.body, c.seqNo, c.ts) {
      case Ok(e) =>
        var row := Row(s.store.lastRowid + 1, e, Some(storedAt));
        assert KeyOf(e).machineId == c.machineId && SlotOfRow(row) == slot;
        AppendedGrows(s, t, row);
        assert forall i | 0 <= i < |s.appended| :: WasAppended(s, SlotOfRow(s.appended[i]));
      case Err(_) =>
        forall x ensures WasAppended(t, x) <==> WasAppended(s, x) {}
    }
    assert t.store.counters == s.store.counters;
    forall x ensures HandedOut(t.store, x) <==> HandedOut(s.store, x) {}
    assert forall m :: LastSeq(t.store, m) == LastSeq(s.store, m);
  }

  lemma AppendedGrows(s: Sys, t: Sys, row: Row)
    requires t.appended == s.appended + [row]
    ensures forall x :: WasAppended(t, x) <==> WasAppended(s, x) || x == SlotOfRow(row)
  {
    assert forall r :: r in t.appended <==> r in s.appended || r == row;
  }

  lemma CrashKeepsNumbers(cfg: Config, s: Sys)
    requires NumbersAccounted(s)
    ensures NumbersAccounted(Step(cfg, s, Crash))
  {
    var t := Step(cfg, s, Crash);
    forall x ensures x in t.lost <==> x in s.lost || InFlight(s, x) {
      if InFlight(s, x) {
        var c :| c in s.calls && SlotOfCall(c) == x;
      }
    }
    forall x ensures WasAppended(t, x) <==> WasAppended(s, x) {}
    forall x ensures !InFlight(t, x) {}
  }

  // The other steps leave numbers alone.
  lemma OthersKeepNumbers(s: Sys, t: Sys)
    requires NumbersAccounted(s)
    requires t.store.counters == s.store.counters && t.calls == s.calls && t.appended == s.appended
    requires t.refused == s.refused && t.lost == s.lost
    ensures NumbersAccounted(t)
  {
    forall x ensures HandedOut(t.store, x) <==> HandedOut(s.store, x) {}
    forall x ensures WasAppended(t, x) <==> WasAppended(s, x) {}
    forall x ensures InFlight(t, x) <==> InFlight(s, x) {}
    assert forall m :: LastSeq(t.store, m) == LastSeq(s.store, m);
  }

  lemma StepKeepsNumbers(cfg: Config, s: Sys, a: Action)
    requires NumbersAccounted(s)
    ensures NumbersAccounted(Step(cfg, s, a))
  {
    match a {
      case Begin(m, body, now) => BeginKeepsNumbers(s, Call(m, body, LastSeq(s.store, m) + 1, Timestamp(body, now)));
      case Finish(c, storedAt) => if c in s.calls { FinishKeepsNumbers(cfg, s, c, storedAt); }
      case Crash => CrashKeepsNumbers(cfg, s);
      case _ => OthersKeepNumbers(s, Step(cfg, s, a));
    }
  }

  // Over every run the numbers handed out to a machine are exactly 1 up to its counter; each was
  // appended, refused, lost to a crash or is in flight, only one of these, and only once.
  lemma {:induction false} EveryNumberIsAccounted(cfg: Config, actions: seq<Action>)
    ensures NumbersAccounted(Run(cfg, actions))
  {
    if actions != [] {
      EveryNumberIsAccounted(cfg, actions[..|actions| - 1]);
      StepKeepsNumbers(cfg, Run(cfg, actions[..|actions| - 1]), actions[|actions| - 1]);
    }
  }

  // Counters survive crashes and never go back, so a number once handed out is never handed out again.
  lemma CountersNeverGoBack(cfg: Config, s: Sys, a: Action, machineId: string)
    ensures LastSeq(s.store, machineId) <= LastSeq(Step(cfg, s, a).store, machineId)
            <= LastSeq(s.store, machineId) + 1
    ensures LastSeq(Step(cfg, s, a).store, machineId) != LastSeq(s.store, machineId) ==>
              a.Begin? && a.machineId == machineId
  {}
}
