/** Windowed statistics: adapters/generic-serial/protocol.py and the copy in
    adapters/generic-modbus/adapter.py, both against one account of which samples a block covers. */
module StatsWindows {
  import opened Wrappers

  datatype Sample = Sample(channel: string, unit: string, value: real, ts: string, mono: real)

  datatype Block = Block(
    channel: string, unit: string, startTs: string, endTs: string, min: real, max: real, avg: int, count: nat)

  datatype Acc = Acc(unit: string, startTs: string, startMono: real, min: real, max: real, sum: real, count: nat)

  // ---- numbers ------------------------------------------------------------------------

  function Min(a: real, b: real): real {
    if b < a then b else a
  }

  function Max(a: real, b: real): real {
    if b > a then b else a
  }

  // Python's int() cuts off the fraction.
  function Trunc(x: real): int {
    if x >= 0.0 then x.Floor else -((-x).Floor)
  }

  // ---- a segment: the samples that one block covers --------------------------------------

  function Least(seg: seq<Sample>): real
    requires seg != []
  {
    if |seg| == 1 then seg[0].value else Min(Least(seg[..|seg| - 1]), seg[|seg| - 1].value)
  }

  function Greatest(seg: seq<Sample>): real
    requires seg != []
  {
    if |seg| == 1 then seg[0].value else Max(Greatest(seg[..|seg| - 1]), seg[|seg| - 1].value)
  }

  predicate HasValue(seg: seq<Sample>, x: real) {
    exists i | 0 <= i < |seg| :: seg[i].value == x
  }

  // The extremes are readings, and no reading is beyond them.
  lemma {:induction false} ExtremesAreExact(seg: seq<Sample>)
    requires seg != []
    ensures HasValue(seg, Least(seg)) && HasValue(seg, Greatest(seg))
    ensures forall i | 0 <= i < |seg| :: Least(seg) <= seg[i].value <= Greatest(seg)
  {
    var n := |seg| - 1;
    if n > 0 {
      var front := seg[..n];
      ExtremesAreExact(front);
      var i :| 0 <= i < n && front[i].value == Least(front);
      var k :| 0 <= k < n && front[k].value == Greatest(front);
      assert seg[i].value == Least(front) && seg[k].value == Greatest(front) && seg[n].value == seg[n].value;
      assert forall m | 0 <= m < n :: seg[m] == front[m];
    }
  }

  function Sum(seg: seq<Sample>): real {
    if seg == [] then 0.0 else Sum(seg[..|seg| - 1]) + seg[|seg| - 1].value
  }

  function AccOf(seg: seq<Sample>): Acc
    requires seg != []
  {
    Acc(seg[0].unit, seg[0].ts, seg[0].mono, Least(seg), Greatest(seg), Sum(seg), |seg|)
  }

  function BlockOf(seg: seq<Sample>, endTs: string): Block
    requires seg != []
  {
    Block(seg[0].channel, seg[0].unit, seg[0].ts, endTs, Least(seg), Greatest(seg),
          Trunc(Sum(seg) / |seg| as real), |seg|)
  }

  // The window closes with the first sample that is not within it; one sample never closes it.
  predicate Closes(windowS: real, seg: seq<Sample>) {
    |seg| >= 2 && seg[|seg| - 1].mono - seg[0].mono >= windowS
  }

  function Times(x: real, n: nat): real {
    x * n as real
  }

  lemma TimesNext(x: real, n: nat)
    ensures Times(x, n + 1) == Times(x, n) + x
  {
    assert (n + 1) as real == n as real + 1.0;
  }

  lemma {:induction false} SumBetween(seg: seq<Sample>, lo: real, hi: real)
    requires forall i | 0 <= i < |seg| :: lo <= seg[i].value <= hi
    ensures Times(lo, |seg|) <= Sum(seg) <= Times(hi, |seg|)
  {
    if seg != [] {
      var n := |seg| - 1;
      SumBetween(seg[..n], lo, hi);
      TimesNext(lo, n);
      TimesNext(hi, n);
    }
  }

  lemma QuotientBetween(sum: real, n: nat, lo: real, hi: real)
    requires n > 0 && Times(lo, n) <= sum <= Times(hi, n)
    ensures lo <= sum / n as real <= hi
  {
    var q := sum / n as real;
    assert q * n as real == sum;
    assert q < lo ==> q * n as real < lo * n as real;
    assert hi < q ==> hi * n as real < q * n as real;
  }

  lemma TruncMonotone(x: real, y: real)
    requires x <= y
    ensures Trunc(x) <= Trunc(y)
  {
  }

  lemma MeanBetween(seg: seq<Sample>)
    requires seg != []
    ensures Least(seg) <= Sum(seg) / |seg| as real <= Greatest(seg)
  {
    var lo, hi := Least(seg), Greatest(seg);
    ExtremesAreExact(seg);
    SumBetween(seg, lo, hi);
    QuotientBetween(Sum(seg), |seg|, lo, hi);
  }

  predicate LiesIn(n: int, lo: real, hi: real) {
    lo <= n as real <= hi
  }

  ghost predicate HasWhole(lo: real, hi: real) {
    exists n: int :: LiesIn(n, lo, hi)
  }

  lemma HasWholeBelow(lo: real, hi: real)
    ensures HasWhole(lo, hi) <==> lo <= hi.Floor as real
  {
    if n :| LiesIn(n, lo, hi) {
      assert n <= hi.Floor;
    }
    if lo <= hi.Floor as real {
      assert LiesIn(hi.Floor, lo, hi);
    }
  }

  lemma HasWholeAbove(lo: real, hi: real)
    ensures HasWhole(lo, hi) <==> (-((-lo).Floor)) as real <= hi
  {
    var up := -((-lo).Floor);
    if n :| LiesIn(n, lo, hi) {
      assert up <= n;
    }
    if up as real <= hi {
      assert LiesIn(up, lo, hi);
    }
  }

  function Mean(seg: seq<Sample>): real
    requires seg != []
  {
    Sum(seg) / |seg| as real
  }

  // The average lies between the extremes exactly when a whole number lies between the least
  // reading and the mean or, for a mean below zero, between the mean and the greatest.
  lemma AverageWithinIff(seg: seq<Sample>, endTs: string)
    requires seg != []
    ensures var b := BlockOf(seg, endTs);
            b.min <= b.avg as real <= b.max
            <==> if Mean(seg) >= 0.0 then HasWhole(Least(seg), Mean(seg)) else HasWhole(Mean(seg), Greatest(seg))
  {
    MeanBetween(seg);
    HasWholeBelow(Least(seg), Mean(seg));
    HasWholeAbove(Mean(seg), Greatest(seg));
  }

  // So it does for integer readings; and in any case between the extremes cut to integers.
  lemma AverageBetween(seg: seq<Sample>, endTs: string)
    requires seg != []
    ensures var b := BlockOf(seg, endTs);
            Trunc(b.min) <= b.avg <= Trunc(b.max)
    ensures (forall i | 0 <= i < |seg| :: seg[i].value.Floor as real == seg[i].value)
            ==> var b := BlockOf(seg, endTs); b.min <= b.avg as real <= b.max
  {
    var lo, hi, mean := Least(seg), Greatest(seg), Sum(seg) / |seg| as real;
    MeanBetween(seg);
    ExtremesAreExact(seg);
    TruncMonotone(lo, mean);
    TruncMonotone(mean, hi);
    if forall i | 0 <= i < |seg| :: seg[i].value.Floor as real == seg[i].value {
      AverageWithinIff(seg, endTs);
      assert LiesIn(lo.Floor, lo, mean) && LiesIn(hi.Floor, mean, hi);
    }
  }

  // Fractional readings can have an average below all of them.
  lemma FractionsEscape()
    ensures exists seg: seq<Sample> | seg != [] :: (BlockOf(seg, "").avg as real) < BlockOf(seg, "").min
  {
    var seg := [Sample("c", "u", 0.5, "", 0.0)];
    assert seg[..0] == [];
    assert Sum(seg) == Sum(seg[..0]) + 0.5;
    assert (BlockOf(seg, "").avg as real) < BlockOf(seg, "").min;
  }

  // ---- all channels -------------------------------------------------------------------------

  // The channels with an open segment in order of opening, their segments, and the segments of
  // the blocks handed out so far.
  datatype Windows = Windows(order: seq<string>, open: map<string, seq<Sample>>, closed: seq<seq<Sample>>)

  const NO_WINDOWS := Windows([], map[], [])

  function Without(order: seq<string>, channel: string): seq<string> {
    if order == [] then []
    else if order[0] == channel then Without(order[1..], channel)
    else [order[0]] + Without(order[1..], channel)
  }

  function OpenSegment(w: Windows, channel: string): seq<Sample> {
    if channel in w.open then w.open[channel] else []
  }

  function Extended(w: Windows, s: Sample): Windows {
    Windows(if s.channel in w.open then w.order else w.order + [s.channel],
            w.open[s.channel := OpenSegment(w, s.channel) + [s]],
            w.closed)
  }

  function ClosedAt(w: Windows, channel: string): Windows
    requires channel in w.open
  {
    Windows(Without(w.order, channel), w.open - {channel}, w.closed + [w.open[channel]])
  }

  function AfterSample(windowS: real, w: Windows, s: Sample): Windows {
    if Closes(windowS, OpenSegment(w, s.channel) + [s]) then ClosedAt(Extended(w, s), s.channel) else Extended(w, s)
  }

  function AfterSamples(windowS: real, samples: seq<Sample>): Windows {
    if samples == [] then NO_WINDOWS
    else AfterSample(windowS, AfterSamples(windowS, samples[..|samples| - 1]), samples[|samples| - 1])
  }

  // Closing what is open, in order.
  function Flushed(w: Windows, n: nat): seq<seq<Sample>>
    requires n <= |w.order|
  {
    if n == 0 then [] else Flushed(w, n - 1) + [OpenSegment(w, w.order[n - 1])]
  }

  // ---- invariants ------------------------------------------------------------------------------

  predicate WellOpened(windowS: real, channel: string, seg: seq<Sample>) {
    && seg != []
    && (forall i | 0 <= i < |seg| :: seg[i].channel == channel)
    && (forall i | 0 < i < |seg| :: seg[i].mono - seg[0].mono < windowS)
  }

  predicate Distinct(order: seq<string>) {
    forall i, k | 0 <= i < k < |order| :: order[i] != order[k]
  }

  ghost predicate Sound(windowS: real, w: Windows) {
    && (forall c :: c in w.open <==> c in w.order)
    && Distinct(w.order)
    && (forall c | c in w.open :: WellOpened(windowS, c, w.open[c]))
  }

  lemma {:induction false} WithoutIs(order: seq<string>, channel: string)
    ensures forall c :: c in Without(order, channel) <==> c in order && c != channel
    ensures Distinct(order) ==> Distinct(Without(order, channel))
  {
    if order != [] {
      var head, rest := order[0], order[1..];
      WithoutIs(rest, channel);
      assert order == [head] + rest;
      if Distinct(order) {
        assert forall i | 0 <= i < |rest| :: rest[i] == order[i + 1];
        assert head !in rest;
        assert Distinct([head] + Without(rest, channel));
      }
    }
  }

  lemma SoundAfterSample(windowS: real, w: Windows, s: Sample)
    requires Sound(windowS, w)
    ensures Sound(windowS, AfterSample(windowS, w, s))
  {
    WithoutIs(w.order, s.channel);
    var seg := OpenSegment(w, s.channel) + [s];
    if !Closes(windowS, seg) {
      assert WellOpened(windowS, s.channel, seg);
    }
  }

  lemma {:induction false} SoundAlways(windowS: real, samples: seq<Sample>)
    ensures Sound(windowS, AfterSamples(windowS, samples))
  {
    if samples != [] {
      SoundAlways(windowS, samples[..|samples| - 1]);
      SoundAfterSample(windowS, AfterSamples(windowS, samples[..|samples| - 1]), samples[|samples| - 1]);
    }
  }

  // ---- blocks partition the samples ----------------------------------------------------------

  function Of(samples: seq<Sample>, channel: string): seq<Sample> {
    if samples == [] then []
    else
      var n := |samples| - 1;
      Of(samples[..n], channel) + if samples[n].channel == channel then [samples[n]] else []
  }

  // The segments of one channel, end to end.
  function Joined(segments: seq<seq<Sample>>, channel: string): seq<Sample> {
    if segments == [] then []
    else
      var n := |segments| - 1;
      Joined(segments[..n], channel) + Of(segments[n], channel)
  }

  lemma {:induction false} OfSegment(seg: seq<Sample>, own: string, channel: string)
    requires forall i | 0 <= i < |seg| :: seg[i].channel == own
    ensures Of(seg, channel) == if own == channel then seg else []
  {
    if seg != [] {
      OfSegment(seg[..|seg| - 1], own, channel);
      assert seg == seg[..|seg| - 1] + [seg[|seg| - 1]];
    }
  }

  lemma JoinedSnoc(segments: seq<seq<Sample>>, seg: seq<Sample>, channel: string)
    ensures Joined(segments + [seg], channel) == Joined(segments, channel) + Of(seg, channel)
  {
    assert (segments + [seg])[..|segments|] == segments;
  }

  lemma AfterSampleParts(windowS: real, w: Windows, s: Sample, channel: string)
    ensures var seg, t := OpenSegment(w, s.channel) + [s], AfterSample(windowS, w, s);
            && t.closed == (if Closes(windowS, seg) then w.closed + [seg] else w.closed)
            && OpenSegment(t, channel)
               == (if channel != s.channel then OpenSegment(w, channel) else if Closes(windowS, seg) then [] else seg)
  {
  }

  lemma ExtendedIsOwn(windowS: real, w: Windows, s: Sample, channel: string)
    requires Sound(windowS, w)
    ensures var seg := OpenSegment(w, s.channel) + [s];
            Of(seg, channel) == if s.channel == channel then seg else []
  {
    assert s.channel in w.open ==> WellOpened(windowS, s.channel, w.open[s.channel]);
    OfSegment(OpenSegment(w, s.channel) + [s], s.channel, channel);
  }

  // Moving on by one sample, given what was open before and what is open after.
  lemma NextIsNotLost(closed: seq<seq<Sample>>, later: seq<seq<Sample>>, own: seq<Sample>, s: Sample, closes: bool,
                      channel: string, open: seq<Sample>, openAfter: seq<Sample>)
    requires later == if closes then closed + [own + [s]] else closed
    requires Of(own + [s], channel) == if s.channel == channel then own + [s] else []
    requires s.channel == channel ==> open == own && openAfter == if closes then [] else own + [s]
    requires s.channel != channel ==> openAfter == open
    ensures Joined(later, channel) + openAfter
            == Joined(closed, channel) + open + if s.channel == channel then [s] else []
  {
    JoinedSnoc(closed, own + [s], channel);
    var joined := Joined(closed, channel);
    SeqFacts(joined, own, s, open);
  }

  lemma SeqFacts(a: seq<Sample>, b: seq<Sample>, s: Sample, c: seq<Sample>)
    ensures a + (b + [s]) == a + b + [s] && a + (b + [s]) + [] == a + b + [s]
    ensures a + [] + c == a + c && a + c + [] == a + c
  {
  }

  // What has been handed out and what is open are, channel by channel, the samples so far.
  lemma {:induction false} NothingIsLost(windowS: real, samples: seq<Sample>, channel: string)
    ensures var w := AfterSamples(windowS, samples);
            Joined(w.closed, channel) + OpenSegment(w, channel) == Of(samples, channel)
  {
    if samples != [] {
      var n := |samples| - 1;
      var w, t, s := AfterSamples(windowS, samples[..n]), AfterSamples(windowS, samples), samples[n];
      NothingIsLost(windowS, samples[..n], channel);
      SoundAlways(windowS, samples[..n]);
      ExtendedIsOwn(windowS, w, s, channel);
      AfterSampleParts(windowS, w, s, channel);
      var own := OpenSegment(w, s.channel);
      NextIsNotLost(w.closed, t.closed, own, s, Closes(windowS, own + [s]), channel,
                    OpenSegment(w, channel), OpenSegment(t, channel));
    }
  }

  lemma {:induction false} JoinedFlushed(w: Windows, n: nat, windowS: real, channel: string)
    requires Sound(windowS, w) && n <= |w.order|
    ensures Joined(Flushed(w, n), channel) == if channel in w.order[..n] then w.open[channel] else []
  {
    if n > 0 {
      var last := w.order[n - 1];
      var before := w.order[..n - 1];
      assert w.order[..n] == before + [last];
      assert last !in before && (channel in w.order[..n] <==> channel in before || channel == last);
      JoinedFlushed(w, n - 1, windowS, channel);
      JoinedSnoc(Flushed(w, n - 1), w.open[last], channel);
      OpenIsOwn(windowS, w, last, channel);
    }
  }

  lemma OpenIsOwn(windowS: real, w: Windows, own: string, channel: string)
    requires Sound(windowS, w) && own in w.order
    ensures Of(w.open[own], channel) == if own == channel then w.open[own] else []
  {
    assert WellOpened(windowS, own, w.open[own]);
    OfSegment(w.open[own], own, channel);
  }

  lemma {:induction false} JoinedConcat(a: seq<seq<Sample>>, b: seq<seq<Sample>>, channel: string)
    ensures Joined(a + b, channel) == Joined(a, channel) + Joined(b, channel)
  {
    if b == [] {
      assert a + b == a;
    } else {
      var n := |b| - 1;
      assert a + b == (a + b[..n]) + [b[n]];
      JoinedSnoc(a + b[..n], b[n], channel);
      JoinedConcat(a, b[..n], channel);
    }
  }

  // All blocks, the last of them from the flush.
  function Segments(windowS: real, samples: seq<Sample>): seq<seq<Sample>> {
    var w := AfterSamples(windowS, samples);
    w.closed + Flushed(w, |w.order|)
  }

  // After a flush, every channel's blocks are its samples, each once and in order.
  lemma BlocksPartitionSamples(windowS: real, samples: seq<Sample>, channel: string)
    ensures Joined(Segments(windowS, samples), channel) == Of(samples, channel)
  {
    var w := AfterSamples(windowS, samples);
    var flushed := Flushed(w, |w.order|);
    SoundAlways(windowS, samples);
    assert w.order[..|w.order|] == w.order && (channel in w.open <==> channel in w.order);
    JoinedFlushed(w, |w.order|, windowS, channel);
    assert Joined(flushed, channel) == OpenSegment(w, channel);
    JoinedConcat(w.closed, flushed, channel);
    NothingIsLost(windowS, samples, channel);
  }

  // The counts of a channel's blocks.
  function CountFor(segments: seq<seq<Sample>>, channel: string): nat {
    if segments == [] then 0
    else
      var n := |segments| - 1;
      CountFor(segments[..n], channel) +
      if segments[n] != [] && segments[n][0].channel == channel then |segments[n]| else 0
  }

  // A block that a sample closed: within the window up to the sample that closes it.
  predicate WellClosed(windowS: real, seg: seq<Sample>) {
    && |seg| >= 2 && WellOpened(windowS, seg[0].channel, seg[..|seg| - 1])
    && seg[|seg| - 1].channel == seg[0].channel && seg[|seg| - 1].mono - seg[0].mono >= windowS
  }

  predicate AllWellClosed(windowS: real, closed: seq<seq<Sample>>) {
    forall i | 0 <= i < |closed| :: WellClosed(windowS, closed[i])
  }

  lemma ClosesWell(windowS: real, before: seq<Sample>, s: Sample)
    requires WellOpened(windowS, s.channel, before) && Closes(windowS, before + [s])
    ensures WellClosed(windowS, before + [s])
  {
    assert (before + [s])[..|before|] == before;
  }

  // Every block that a sample closed covers the samples within the window of its first, and the
  // one that is not.
  lemma {:induction false} ClosedIsWellClosed(windowS: real, samples: seq<Sample>)
    ensures AllWellClosed(windowS, AfterSamples(windowS, samples).closed)
  {
    if samples != [] {
      var n := |samples| - 1;
      var w, s := AfterSamples(windowS, samples[..n]), samples[n];
      ClosedIsWellClosed(windowS, samples[..n]);
      SoundAlways(windowS, samples[..n]);
      var before := OpenSegment(w, s.channel);
      if Closes(windowS, before + [s]) {
        ClosesWell(windowS, before, s);
      }
    }
  }

  predicate OneChannel(segments: seq<seq<Sample>>) {
    forall i | 0 <= i < |segments| :: segments[i] != [] && SameChannel(segments[i])
  }

  predicate SameChannel(seg: seq<Sample>) {
    forall i | 0 <= i < |seg| :: seg[i].channel == seg[0].channel
  }

  lemma {:induction false} CountIsLength(segments: seq<seq<Sample>>, channel: string)
    requires OneChannel(segments)
    ensures CountFor(segments, channel) == |Joined(segments, channel)|
  {
    if segments != [] {
      var n := |segments| - 1;
      CountIsLength(segments[..n], channel);
      OfSegment(segments[n], segments[n][0].channel, channel);
    }
  }

  lemma SegmentsAreOneChannel(windowS: real, samples: seq<Sample>)
    ensures OneChannel(Segments(windowS, samples))
  {
    var w := AfterSamples(windowS, samples);
    SoundAlways(windowS, samples);
    ClosedIsWellClosed(windowS, samples);
    forall i | 0 <= i < |w.closed| ensures w.closed[i] != [] && SameChannel(w.closed[i]) {
      var seg := w.closed[i];
      assert WellClosed(windowS, seg);
      forall k | 0 <= k < |seg| ensures seg[k].channel == seg[0].channel {
        assert k < |seg| - 1 ==> seg[..|seg| - 1][k] == seg[k];
      }
    }
    FlushedIsOneChannel(windowS, w, |w.order|);
  }

  lemma {:induction false} FlushedIsOneChannel(windowS: real, w: Windows, n: nat)
    requires Sound(windowS, w) && n <= |w.order|
    ensures OneChannel(Flushed(w, n))
  {
    if n > 0 {
      FlushedIsOneChannel(windowS, w, n - 1);
      assert WellOpened(windowS, w.order[n - 1], w.open[w.order[n - 1]]);
    }
  }

  // The counts of a channel's blocks add up to the number of its samples.
  lemma CountsAddUp(windowS: real, samples: seq<Sample>, channel: string)
    ensures CountFor(Segments(windowS, samples), channel) == |Of(samples, channel)|
  {
    BlocksPartitionSamples(windowS, samples, channel);
    SegmentsAreOneChannel(windowS, samples);
    CountIsLength(Segments(windowS, samples), channel);
  }

  // ---- the two implementations -----------------------------------------------------------------

  lemma LeastSnoc(seg: seq<Sample>, s: Sample)
    requires seg != []
    ensures Least(seg + [s]) == Min(Least(seg), s.value) && Greatest(seg + [s]) == Max(Greatest(seg), s.value)
  {
    assert (seg + [s])[..|seg|] == seg;
  }

  lemma SumSnoc(seg: seq<Sample>, s: Sample)
    ensures Sum(seg + [s]) == Sum(seg) + s.value
  {
    assert (seg + [s])[..|seg|] == seg;
  }

  lemma {:induction false} WithoutFirst(order: seq<string>)
    requires order != [] && Distinct(order)
    ensures Without(order, order[0]) == order[1..]
  {
    NothingWithout(order[1..], order[0]);
  }

  lemma {:induction false} NothingWithout(order: seq<string>, channel: string)
    requires channel !in order
    ensures Without(order, channel) == order
  {
    if order != [] {
      NothingWithout(order[1..], channel);
      assert order == [order[0]] + order[1..];
    }
  }

  // The running values are those of the open segments.
  ghost predicate Tracks(acc: map<string, Acc>, order: seq<string>, w: Windows) {
    order == w.order && forall c :: TracksAt(acc, w, c)
  }

  ghost predicate TracksAt(acc: map<string, Acc>, w: Windows, c: string) {
    (c in acc <==> c in w.open) && (c in acc ==> TracksOne(acc[c], c, w.open[c]))
  }

  ghost predicate TracksOne(a: Acc, channel: string, seg: seq<Sample>) {
    seg != [] && seg[0].channel == channel && a == AccOf(seg)
  }

  lemma FirstTracked(s: Sample)
    ensures TracksOne(Acc(s.unit, s.ts, s.mono, s.value, s.value, s.value, 1), s.channel, [s])
  {
    SumSnoc([], s);
    assert [] + [s] == [s];
  }

  lemma NextTracked(a: Acc, seg: seq<Sample>, s: Sample)
    requires TracksOne(a, s.channel, seg)
    ensures TracksOne(a.(min := Min(a.min, s.value), max := Max(a.max, s.value),
                          sum := a.sum + s.value, count := a.count + 1),
                      s.channel, seg + [s])
  {
    LeastSnoc(seg, s);
    SumSnoc(seg, s);
  }

  lemma TracksExtended(acc: map<string, Acc>, order: seq<string>, w: Windows, s: Sample, a: Acc)
    requires Tracks(acc, order, w) && TracksOne(a, s.channel, OpenSegment(w, s.channel) + [s])
    ensures Tracks(acc[s.channel := a], if s.channel in acc then order else order + [s.channel], Extended(w, s))
  {
    var grown, t := acc[s.channel := a], Extended(w, s);
    assert TracksAt(acc, w, s.channel);
    forall c ensures TracksAt(grown, t, c) {
      ExtendedAt(w, s, c);
      if c == s.channel {
        assert grown[c] == a;
      } else {
        assert TracksAt(acc, w, c) && (c in grown <==> c in acc);
      }
    }
  }

  lemma ExtendedAt(w: Windows, s: Sample, c: string)
    ensures c in Extended(w, s).open <==> c in w.open || c == s.channel
    ensures c in Extended(w, s).open ==>
              Extended(w, s).open[c] == if c == s.channel then OpenSegment(w, c) + [s] else w.open[c]
  {
  }

  lemma TracksClosed(acc: map<string, Acc>, order: seq<string>, w: Windows, channel: string)
    requires Tracks(acc, order, w) && channel in w.open
    ensures Tracks(acc - {channel}, Without(order, channel), ClosedAt(w, channel))
  {
    var rest, t := acc - {channel}, ClosedAt(w, channel);
    forall c ensures TracksAt(rest, t, c) {
      assert TracksAt(acc, w, c);
    }
  }

  // After closing the first `n` channels in order.
  ghost predicate ClosedFirst(w: Windows, n: nat, t: Windows)
    requires n <= |w.order|
  {
    t.order == w.order[n..] && t.closed == w.closed + Flushed(w, n) && forall c :: StillOpen(w, t, c)
  }

  ghost predicate StillOpen(w: Windows, t: Windows, c: string) {
    (c in t.open <==> c in t.order) && (c in t.open ==> c in w.open && t.open[c] == w.open[c])
  }

  // The blocks of the first open channels, in order.
  ghost predicate BlocksOf(w: Windows, blocks: seq<Block>, endTs: string) {
    |blocks| <= |w.order| && forall i | 0 <= i < |blocks| :: IsBlockOf(w, w.order[i], blocks[i], endTs)
  }

  ghost predicate IsBlockOf(w: Windows, channel: string, block: Block, endTs: string) {
    channel in w.open && w.open[channel] != [] && block == BlockOf(w.open[channel], endTs)
  }

  lemma BlocksGrow(w: Windows, blocks: seq<Block>, endTs: string, block: Block)
    requires BlocksOf(w, blocks, endTs) && |blocks| < |w.order|
    requires IsBlockOf(w, w.order[|blocks|], block, endTs)
    ensures BlocksOf(w, blocks + [block], endTs)
  {
  }

  lemma ClosedNone(w: Windows, windowS: real)
    requires Sound(windowS, w)
    ensures ClosedFirst(w, 0, w)
  {
    assert w.order[0..] == w.order;
  }

  lemma ClosedNext(w: Windows, n: nat, t: Windows, windowS: real)
    requires Sound(windowS, w) && n < |w.order| && ClosedFirst(w, n, t)
    ensures w.order[n] in t.open && t.open[w.order[n]] == w.open[w.order[n]]
    ensures ClosedFirst(w, n + 1, ClosedAt(t, w.order[n]))
  {
    var channel := w.order[n];
    assert t.order[0] == channel && StillOpen(w, t, channel);
    assert Distinct(t.order) by {
      assert forall i | 0 <= i < |t.order| :: t.order[i] == w.order[n + i];
    }
    WithoutFirst(t.order);
    assert t.order[1..] == w.order[n + 1..];
    WithoutIs(t.order, channel);
    forall c ensures StillOpen(w, ClosedAt(t, channel), c) {
      assert StillOpen(w, t, c);
    }
  }

  lemma ClosedAll(w: Windows, t: Windows)
    requires ClosedFirst(w, |w.order|, t)
    ensures t.order == [] && t.open == map[]
    ensures forall windowS :: Sound(windowS, t)
  {
    forall c ensures c !in t.open {
      assert StillOpen(w, t, c);
    }
  }

  // adapters/generic-serial/protocol.py
  class StatsAggregator {
    const windowS: real
    var acc: map<string, Acc>
    var order: seq<string>
    ghost var windows: Windows

    ghost predicate Valid()
      reads this
    {
      Sound(windowS, windows) && Tracks(acc, order, windows)
    }

    constructor (windowS: real)
      ensures Valid() && this.windowS == windowS && windows == NO_WINDOWS
    {
      this.windowS := windowS;
      acc, order, windows := map[], [], NO_WINDOWS;
    }

    // A sample counts towards its channel's segment, and a block comes back exactly when it closes.
    method Add(s: Sample) returns (done: Option<Block>)
      requires Valid()
      modifies this
      ensures Valid() && windows == AfterSample(windowS, old(windows), s)
      ensures var seg := OpenSegment(old(windows), s.channel) + [s];
              done == if Closes(windowS, seg) then Some(BlockOf(seg, s.ts)) else None
    {
      SoundAfterSample(windowS, windows, s);
      assert TracksAt(acc, windows, s.channel);
      done := None;
      if s.channel !in acc {
        FirstTracked(s);
        TracksExtended(acc, order, windows, s, Acc(s.unit, s.ts, s.mono, s.value, s.value, s.value, 1));
        acc := acc[s.channel := Acc(s.unit, s.ts, s.mono, s.value, s.value, s.value, 1)];
        order := order + [s.channel];
        windows := Extended(windows, s);
        return;
      }
      NextTracked(acc[s.channel], windows.open[s.channel], s);
      var a := acc[s.channel];
      a := a.(min := Min(a.min, s.value));
      a := a.(max := Max(a.max, s.value));
      a := a.(sum := a.sum + s.value);
      a := a.(count := a.count + 1);
      TracksExtended(acc, order, windows, s, a);
      acc := acc[s.channel := a];
      windows := Extended(windows, s);
      if s.mono - a.startMono >= windowS {
        var block := Close(s.channel, s.ts);
        done := Some(block);
      }
    }

    method Close(channel: string, endTs: string) returns (block: Block)
      requires channel in windows.open && Tracks(acc, order, windows)
      modifies this
      ensures Tracks(acc, order, windows) && windows == ClosedAt(old(windows), channel)
      ensures old(windows).open[channel] != [] && block == BlockOf(old(windows).open[channel], endTs)
    {
      assert TracksAt(acc, windows, channel);
      TracksClosed(acc, order, windows, channel);
      var a := acc[channel];
      acc := acc - {channel};
      order := Without(order, channel);
      block := Block(channel, a.unit, a.startTs, endTs, a.min, a.max, Trunc(a.sum / a.count as real), a.count);
      windows := ClosedAt(windows, channel);
    }

    // What is open comes back as blocks, in order of opening, and nothing stays open.
    method Flush(endTs: string) returns (blocks: seq<Block>)
      requires Valid()
      modifies this
      ensures Valid() && windows.order == [] && windows.open == map[]
      ensures windows.closed == old(windows).closed + Flushed(old(windows), |old(order)|)
      ensures |blocks| == |old(order)| && BlocksOf(old(windows), blocks, endTs)
    {
      var channels := order;
      blocks := [];
      ClosedNone(windows, windowS);
      for i := 0 to |channels|
        invariant Tracks(acc, order, windows) && ClosedFirst(old(windows), i, windows)
        invariant |blocks| == i && BlocksOf(old(windows), blocks, endTs)
      {
        ClosedNext(old(windows), i, windows, windowS);
        var block := Close(channels[i], endTs);
        BlocksGrow(old(windows), blocks, endTs, block);
        blocks := blocks + [block];
      }
      ClosedAll(old(windows), windows);
    }
  }

  // adapters/generic-modbus/adapter.py: the same account, so the same blocks for the same samples.
  class ModbusStats {
    const windowS: real
    var acc: map<string, Acc>
    var order: seq<string>
    ghost var windows: Windows

    ghost predicate Valid()
      reads this
    {
      Sound(windowS, windows) && Tracks(acc, order, windows)
    }

    constructor (windowS: real)
      ensures Valid() && this.windowS == windowS && windows == NO_WINDOWS
    {
      this.windowS := windowS;
      acc, order, windows := map[], [], NO_WINDOWS;
    }

    method Add(s: Sample) returns (done: Option<Block>)
      requires Valid()
      modifies this
      ensures Valid() && windows == AfterSample(windowS, old(windows), s)
      ensures var seg := OpenSegment(old(windows), s.channel) + [s];
              done == if Closes(windowS, seg) then Some(BlockOf(seg, s.ts)) else None
    {
      SoundAfterSample(windowS, windows, s);
      assert TracksAt(acc, windows, s.channel);
      if s.channel !in acc {
        FirstTracked(s);
        TracksExtended(acc, order, windows, s, Acc(s.unit, s.ts, s.mono, s.value, s.value, s.value, 1));
        acc := acc[s.channel := Acc(s.unit, s.ts, s.mono, s.value, s.value, s.value, 1)];
        order := order + [s.channel];
        windows := Extended(windows, s);
        return None;
      }
      var a := acc[s.channel];
      NextTracked(a, windows.open[s.channel], s);
      TracksExtended(acc, order, windows, s, a.(min := Min(a.min, s.value), max := Max(a.max, s.value),
                                                sum := a.sum + s.value, count := a.count + 1));
      acc := acc[s.channel := a.(min := Min(a.min, s.value), max := Max(a.max, s.value),
                                 sum := a.sum + s.value, count := a.count + 1)];
      windows := Extended(windows, s);
      if s.mono - a.startMono >= windowS {
        var block := Close(s.channel, s.ts);
        return Some(block);
      }
      return None;
    }

    method Close(channel: string, endTs: string) returns (block: Block)
      requires channel in windows.open && Tracks(acc, order, windows)
      modifies this
      ensures Tracks(acc, order, windows) && windows == ClosedAt(old(windows), channel)
      ensures old(windows).open[channel] != [] && block == BlockOf(old(windows).open[channel], endTs)
    {
      assert TracksAt(acc, windows, channel);
      TracksClosed(acc, order, windows, channel);
      var a := acc[channel];
      acc, order := acc - {channel}, Without(order, channel);
      block := Block(channel, a.unit, a.startTs, endTs, a.min, a.max, Trunc(a.sum / a.count as real), a.count);
      windows := ClosedAt(windows, channel);
    }

    method Flush(endTs: string) returns (blocks: seq<Block>)
      requires Valid()
      modifies this
      ensures Valid() && windows.order == [] && windows.open == map[]
      ensures windows.closed == old(windows).closed + Flushed(old(windows), |old(order)|)
      ensures |blocks| == |old(order)| && BlocksOf(old(windows), blocks, endTs)
    {
      var channels := order;
      blocks := [];
      ClosedNone(windows, windowS);
      for i := 0 to |channels|
        invariant Tracks(acc, order, windows) && ClosedFirst(old(windows), i, windows)
        invariant |blocks| == i && BlocksOf(old(windows), blocks, endTs)
      {
        ClosedNext(old(windows), i, windows, windowS);
        var block := Close(channels[i], endTs);
        BlocksGrow(old(windows), blocks, endTs, block);
        blocks := blocks + [block];
      }
      ClosedAll(old(windows), windows);
    }
  }
}
