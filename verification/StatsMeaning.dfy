/** What a statistics block says of the samples that it covers, and in which order channels are flushed. */
module StatsMeaning {
  import opened Wrappers
  import opened StatsWindows

  // ---- one block --------------------------------------------------------------------------

  // The readings added up from the first on.
  ghost predicate AddUpTo(seg: seq<Sample>, total: real) {
    if seg == [] then total == 0.0 else AddUpTo(seg[1..], total - seg[0].value)
  }

  lemma {:induction false} SumFromFront(seg: seq<Sample>)
    requires seg != []
    ensures Sum(seg) == seg[0].value + Sum(seg[1..])
  {
    var n := |seg| - 1;
    if n > 0 {
      SumFromFront(seg[..n]);
      assert seg[..n][1..] == seg[1..][..n - 1];
    } else {
      assert seg[..0] == seg[1..] == [];
    }
  }

  lemma {:induction false} SumAddsUp(seg: seq<Sample>)
    ensures AddUpTo(seg, Sum(seg))
  {
    if seg != [] {
      SumFromFront(seg);
      SumAddsUp(seg[1..]);
    }
  }

  // The mean of `n` numbers that add up to `total`, its fraction cut off.
  ghost predicate IsCutMean(avg: int, total: real, n: nat) {
    if total >= 0.0 then avg >= 0 && Times(avg as real, n) <= total < Times((avg + 1) as real, n)
    else avg <= 0 && Times((avg - 1) as real, n) < total <= Times(avg as real, n)
  }

  lemma QuotientTimes(total: real, n: nat, x: real)
    requires n > 0
    ensures x <= total / n as real <==> Times(x, n) <= total
    ensures x < total / n as real <==> Times(x, n) < total
  {
    var q, m := total / n as real, n as real;
    assert q * m == total;
    assert (q - x) * m == q * m - x * m;
    SignOfProduct(q - x, m);
  }

  lemma SignOfProduct(d: real, m: real)
    requires m > 0.0
    ensures d >= 0.0 <==> d * m >= 0.0
    ensures d > 0.0 <==> d * m > 0.0
  {
    if d < 0.0 {
      assert (-d) * m > 0.0;
    }
  }

  lemma CutMean(total: real, n: nat)
    requires n > 0
    ensures IsCutMean(Trunc(total / n as real), total, n)
  {
    var avg := Trunc(total / n as real);
    QuotientTimes(total, n, 0.0);
    QuotientTimes(total, n, avg as real);
    QuotientTimes(total, n, (avg + 1) as real);
    QuotientTimes(total, n, (avg - 1) as real);
    assert Times(0.0, n) == 0.0;
  }

  // A block names the channel and unit of its samples, begins with the first of them, counts them,
  // and gives their least, their greatest and their cut mean.
  lemma BlockIs(seg: seq<Sample>, endTs: string)
    requires seg != []
    ensures var b := BlockOf(seg, endTs);
      && b.channel == seg[0].channel && b.unit == seg[0].unit && b.startTs == seg[0].ts && b.endTs == endTs
      && b.count == |seg|
      && (exists i | 0 <= i < |seg| :: seg[i].value == b.min) && (exists i | 0 <= i < |seg| :: seg[i].value == b.max)
      && (forall i | 0 <= i < |seg| :: b.min <= seg[i].value <= b.max)
      && exists total :: AddUpTo(seg, total) && IsCutMean(b.avg, total, |seg|)
  {
    ExtremesAreExact(seg);
    SumAddsUp(seg);
    CutMean(Sum(seg), |seg|);
    assert HasValue(seg, Least(seg)) && HasValue(seg, Greatest(seg));
  }

  // ---- the order of flushing ----------------------------------------------------------------

  ghost predicate IsOpen(windowS: real, samples: seq<Sample>, channel: string) {
    channel in AfterSamples(windowS, samples).open
  }

  // The sample with which the open segment of a channel began.
  ghost function OpenedAt(windowS: real, samples: seq<Sample>, channel: string): (i: nat)
    requires IsOpen(windowS, samples, channel)
    ensures i < |samples|
    decreases |samples|
  {
    var n := |samples| - 1;
    if samples[n].channel == channel && !IsOpen(windowS, samples[..n], channel) then n
    else OpenedAt(windowS, samples[..n], channel)
  }

  // It is of that channel, and the open segment begins with it.
  lemma {:induction false} OpenedWith(windowS: real, samples: seq<Sample>, channel: string)
    requires IsOpen(windowS, samples, channel)
    ensures var i := OpenedAt(windowS, samples, channel);
      && samples[i].channel == channel
      && AfterSamples(windowS, samples).open[channel] != []
      && AfterSamples(windowS, samples).open[channel][0] == samples[i]
  {
    var n := |samples| - 1;
    SoundAlways(windowS, samples[..n]);
    if IsOpen(windowS, samples[..n], channel) {
      OpenedWith(windowS, samples[..n], channel);
    }
  }

  ghost predicate OpenedInOrder(windowS: real, samples: seq<Sample>, order: seq<string>) {
    && (forall c | c in order :: IsOpen(windowS, samples, c))
    && forall i, k | 0 <= i < k < |order| ::
         OpenedAt(windowS, samples, order[i]) < OpenedAt(windowS, samples, order[k])
  }

  lemma {:induction false} WithoutKeepsOrder(windowS: real, samples: seq<Sample>, order: seq<string>, channel: string)
    requires OpenedInOrder(windowS, samples, order)
    ensures OpenedInOrder(windowS, samples, Without(order, channel))
  {
    if order != [] {
      var head, rest := order[0], order[1..];
      assert order == [head] + rest;
      assert forall i | 0 <= i < |rest| :: rest[i] == order[i + 1];
      WithoutKeepsOrder(windowS, samples, rest, channel);
      WithoutIs(rest, channel);
      var kept := Without(rest, channel);
      forall i | 0 <= i < |kept| ensures OpenedAt(windowS, samples, head) < OpenedAt(windowS, samples, kept[i]) {
        assert kept[i] in kept && kept[i] in rest;
        var k :| 0 <= k < |rest| && rest[k] == kept[i];
        assert order[k + 1] == kept[i];
      }
    }
  }

  // Channels stay in the order in which their open segments began, so a flush hands them out in it.
  lemma {:induction false} ChannelsInOrderOfOpening(windowS: real, samples: seq<Sample>)
    ensures OpenedInOrder(windowS, samples, AfterSamples(windowS, samples).order)
  {
    if samples != [] {
      var n := |samples| - 1;
      var front, s := samples[..n], samples[n];
      var w, t := AfterSamples(windowS, front), AfterSamples(windowS, samples);
      ChannelsInOrderOfOpening(windowS, front);
      SoundAlways(windowS, front);
      SoundAlways(windowS, samples);
      WithoutKeepsOrder(windowS, front, w.order, s.channel);
      StillOpened(windowS, samples);
      OrderAfter(windowS, w, s);
      WithoutIs(w.order, s.channel);
    }
  }

  // Channels other than the sample's, and its own if it goes on, were opened when they were.
  lemma StillOpened(windowS: real, samples: seq<Sample>)
    requires samples != []
    ensures var n := |samples| - 1;
            forall c | IsOpen(windowS, samples, c) ::
              OpenedAt(windowS, samples, c)
              == if IsOpen(windowS, samples[..n], c) then OpenedAt(windowS, samples[..n], c) else n
  {
  }

  lemma OrderAfter(windowS: real, w: Windows, s: Sample)
    requires Sound(windowS, w)
    ensures var t := AfterSample(windowS, w, s);
            t.order == if s.channel !in w.open then w.order + [s.channel]
                       else if Closes(windowS, w.open[s.channel] + [s]) then Without(w.order, s.channel)
                       else w.order
  {
  }
}
