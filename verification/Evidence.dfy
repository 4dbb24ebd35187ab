/** What signatures and evidence hashes commit to: gateway/omp/core/keys.py and records_hash of
    tools/omp_tools/audit.py, before any cryptography. */
module Evidence {
  import opened Text
  import opened JsonModel
  import opened Envelopes

  // ---- the signed message ---------------------------------------------------------------

  datatype Signed = Signed(gatewayId: string, machineId: string, seqNo: int, checksum: string)

  function SigInput(s: Signed): string {
    s.gatewayId + "\n" + s.machineId + "\n" + IntText(s.seqNo) + "\n" + s.checksum
  }

  predicate OneLine(s: string) {
    '\n' !in s
  }

  predicate PlainIds(s: Signed) {
    OneLine(s.gatewayId) && OneLine(s.machineId)
  }

  lemma {:induction false} NatTextIsOneLine(n: nat)
    ensures OneLine(NatText(n))
  {
    if n >= 10 {
      NatTextIsOneLine(n / 10);
    }
  }

  lemma IntTextIsOneLine(n: int)
    ensures OneLine(IntText(n))
  {
    NatTextIsOneLine(if n < 0 then -n else n);
  }

  // Reading a message back, line by line.
  function ReadSigInput(text: string): (string, string, string, string) {
    var (gatewayId, a) := SplitFirst(text, '\n');
    var (machineId, b) := SplitFirst(a, '\n');
    var (number, checksum) := SplitFirst(b, '\n');
    (gatewayId, machineId, number, checksum)
  }

  lemma SigInputReadsBack(s: Signed)
    requires PlainIds(s)
    ensures ReadSigInput(SigInput(s)) == (s.gatewayId, s.machineId, IntText(s.seqNo), s.checksum)
  {
    var number := IntText(s.seqNo);
    IntTextIsOneLine(s.seqNo);
    var c := number + ['\n'] + s.checksum;
    var b := s.machineId + ['\n'] + c;
    assert SigInput(s) == s.gatewayId + ['\n'] + b;
    SplitFirstOfJoin(s.gatewayId, '\n', b);
    SplitFirstOfJoin(s.machineId, '\n', c);
    SplitFirstOfJoin(number, '\n', s.checksum);
  }

  // With identities of one line each, different facts are different messages.
  lemma SigInputInjective(s: Signed, t: Signed)
    requires PlainIds(s) && PlainIds(t) && SigInput(s) == SigInput(t)
    ensures s == t
  {
    SigInputReadsBack(s);
    SigInputReadsBack(t);
    IntTextInjective(s.seqNo, t.seqNo);
  }

  predicate Ambiguous(s: Signed, t: Signed) {
    s != t && SigInput(s) == SigInput(t)
  }

  // An identity with a line break always leaves the message ambiguous.
  lemma LineBreakIsAmbiguous(s: Signed) returns (t: Signed)
    requires !PlainIds(s)
    ensures Ambiguous(s, t)
  {
    if !OneLine(s.gatewayId) {
      var (head, tail) := Broken(s.gatewayId);
      t := s.(gatewayId := head, machineId := tail + "\n" + s.machineId);
      assert SigInput(t) == SigInput(s);
      assert |t.gatewayId| < |s.gatewayId|;
    } else {
      var (head, tail) := Broken(s.machineId);
      t := s.(gatewayId := s.gatewayId + "\n" + head, machineId := tail);
      assert SigInput(t) == SigInput(s);
      assert |t.machineId| < |s.machineId|;
    }
  }

  function Breaks(s: string): nat {
    if s == "" then 0 else (if s[0] == '\n' then 1 else 0) + Breaks(s[1..])
  }

  lemma {:induction false} BreaksOfJoined(a: string, b: string)
    ensures Breaks(a + b) == Breaks(a) + Breaks(b)
  {
    if a == "" {
      assert a + b == b;
    } else {
      assert (a + b)[1..] == a[1..] + b;
      BreaksOfJoined(a[1..], b);
    }
  }

  lemma {:induction false} OneLineIff(s: string)
    ensures OneLine(s) <==> Breaks(s) == 0
  {
    if s != "" {
      OneLineIff(s[1..]);
      assert s == [s[0]] + s[1..];
    }
  }

  lemma SigInputBreaks(s: Signed)
    ensures Breaks(SigInput(s)) == 3 + Breaks(s.gatewayId) + Breaks(s.machineId) + Breaks(s.checksum)
  {
    var number := IntText(s.seqNo);
    IntTextIsOneLine(s.seqNo);
    OneLineIff(number);
    assert Breaks("\n") == 1;
    BreaksOfJoined(s.gatewayId, "\n");
    BreaksOfJoined(s.gatewayId + "\n", s.machineId);
    BreaksOfJoined(s.gatewayId + "\n" + s.machineId, "\n");
    BreaksOfJoined(s.gatewayId + "\n" + s.machineId + "\n", number);
    BreaksOfJoined(s.gatewayId + "\n" + s.machineId + "\n" + number, "\n");
    BreaksOfJoined(s.gatewayId + "\n" + s.machineId + "\n" + number + "\n", s.checksum);
  }

  // With a checksum of one line, which hexadecimal digits are, other facts have the same message
  // exactly when an identity holds a line break.
  lemma AmbiguousIff(s: Signed)
    requires OneLine(s.checksum)
    ensures (exists t :: Ambiguous(s, t)) <==> !PlainIds(s)
  {
    if !PlainIds(s) {
      var t := LineBreakIsAmbiguous(s);
    }
    if t :| Ambiguous(s, t) {
      SigInputBreaks(s);
      SigInputBreaks(t);
      OneLineIff(s.gatewayId);
      OneLineIff(s.machineId);
      OneLineIff(s.checksum);
      OneLineIff(t.gatewayId);
      OneLineIff(t.machineId);
      if PlainIds(s) {
        SigInputInjective(s, t);
      }
    }
  }

  // Two parts around a line break.
  function Broken(s: string): (parts: (string, string))
    requires !OneLine(s)
    ensures s == parts.0 + "\n" + parts.1
  {
    if s[0] == '\n' then ("", s[1..])
    else
      var (head, tail) := Broken(s[1..]);
      ([s[0]] + head, tail)
  }

  // ---- the text that the evidence hash covers ---------------------------------------------

  // Stable: after everything with a number up to its own.
  function Insert(sorted: seq<Envelope>, e: Envelope): seq<Envelope> {
    if sorted == [] || sorted[|sorted| - 1].seqNo <= e.seqNo then sorted + [e]
    else Insert(sorted[..|sorted| - 1], e) + [sorted[|sorted| - 1]]
  }

  function SortBySeq(envs: seq<Envelope>): seq<Envelope> {
    if envs == [] then [] else Insert(SortBySeq(envs[..|envs| - 1]), envs[|envs| - 1])
  }

  function Checksums(envs: seq<Envelope>): (sums: seq<string>)
    ensures |sums| == |envs| && forall i | 0 <= i < |envs| :: sums[i] == envs[i].checksum
  {
    seq(|envs|, i requires 0 <= i < |envs| => envs[i].checksum)
  }

  function Joined(texts: seq<string>): string {
    if texts == [] then "" else texts[0] + Joined(texts[1..])
  }

  function RecordsText(envs: seq<Envelope>): string {
    Joined(Checksums(SortBySeq(envs)))
  }

  ghost predicate Sorted(envs: seq<Envelope>) {
    forall i, k | 0 <= i < k < |envs| :: envs[i].seqNo <= envs[k].seqNo
  }

  function OfSeq(envs: seq<Envelope>, n: int): seq<Envelope> {
    if envs == [] then []
    else OfSeq(envs[..|envs| - 1], n) + if envs[|envs| - 1].seqNo == n then [envs[|envs| - 1]] else []
  }

  lemma OfSeqSnoc(envs: seq<Envelope>, e: Envelope, n: int)
    ensures OfSeq(envs + [e], n) == OfSeq(envs, n) + if e.seqNo == n then [e] else []
  {
    assert (envs + [e])[..|envs|] == envs;
  }

  lemma {:induction false} OfSeqAbove(envs: seq<Envelope>, n: int)
    requires forall i | 0 <= i < |envs| :: envs[i].seqNo < n
    ensures OfSeq(envs, n) == []
  {
    if envs != [] {
      OfSeqAbove(envs[..|envs| - 1], n);
    }
  }

  lemma InsertBeforeLast(front: seq<Envelope>, last: Envelope, inserted: seq<Envelope>, e: Envelope)
    requires Sorted(front + [last]) && Sorted(inserted) && multiset(inserted) == multiset(front) + multiset{e}
    requires e.seqNo < last.seqNo
    ensures Sorted(inserted + [last])
    ensures multiset(inserted + [last]) == multiset(front + [last]) + multiset{e}
  {
    forall i | 0 <= i < |inserted| ensures inserted[i].seqNo <= last.seqNo {
      assert inserted[i] in multiset(front) + multiset{e};
      if inserted[i] in front {
        var k :| 0 <= k < |front| && front[k] == inserted[i];
        assert (front + [last])[k].seqNo <= (front + [last])[|front|].seqNo;
      }
    }
  }

  lemma OfSeqInserted(front: seq<Envelope>, last: Envelope, inserted: seq<Envelope>, e: Envelope, n: int)
    requires OfSeq(inserted, n) == OfSeq(front + [e], n) && e.seqNo < last.seqNo
    ensures OfSeq(inserted + [last], n) == OfSeq(front + [last] + [e], n)
  {
    OfSeqSnoc(inserted, last, n);
    OfSeqSnoc(front, e, n);
    OfSeqSnoc(front, last, n);
    OfSeqSnoc(front + [last], e, n);
  }

  // Inserting keeps the order, adds exactly the new envelope, and puts it last among its equals.
  lemma {:induction false} InsertIs(sorted: seq<Envelope>, e: Envelope)
    requires Sorted(sorted)
    ensures Sorted(Insert(sorted, e))
    ensures multiset(Insert(sorted, e)) == multiset(sorted) + multiset{e}
    ensures forall n :: OfSeq(Insert(sorted, e), n) == OfSeq(sorted + [e], n)
  {
    if sorted != [] && sorted[|sorted| - 1].seqNo > e.seqNo {
      var front, last := sorted[..|sorted| - 1], sorted[|sorted| - 1];
      assert sorted == front + [last];
      InsertIs(front, e);
      InsertBeforeLast(front, last, Insert(front, e), e);
      forall n ensures OfSeq(Insert(sorted, e), n) == OfSeq(sorted + [e], n) {
        OfSeqInserted(front, last, Insert(front, e), e, n);
      }
    }
  }

  // Sorting keeps the envelopes, and those of one number in the order in which they came.
  lemma {:induction false} SortIs(envs: seq<Envelope>)
    ensures Sorted(SortBySeq(envs))
    ensures multiset(SortBySeq(envs)) == multiset(envs)
    ensures forall n :: OfSeq(SortBySeq(envs), n) == OfSeq(envs, n)
  {
    if envs != [] {
      var front, last := envs[..|envs| - 1], envs[|envs| - 1];
      assert envs == front + [last];
      SortIs(front);
      InsertIs(SortBySeq(front), last);
      forall n ensures OfSeq(SortBySeq(envs), n) == OfSeq(envs, n) {
        OfSeqSnoc(SortBySeq(front), last, n);
        OfSeqSnoc(front, last, n);
      }
    }
  }

  // ---- order of the bundle -----------------------------------------------------------------

  // Envelopes with one number carry one checksum.
  ghost predicate OneChecksumPerSeq(envs: seq<Envelope>) {
    forall a, b | a in envs && b in envs && a.seqNo == b.seqNo :: a.checksum == b.checksum
  }

  // All but the i-th.
  function Omit(envs: seq<Envelope>, i: nat): (rest: seq<Envelope>)
    requires i < |envs|
    ensures |rest| == |envs| - 1
    ensures forall k | 0 <= k < |rest| :: rest[k] == if k < i then envs[k] else envs[k + 1]
  {
    envs[..i] + envs[i + 1..]
  }

  lemma OmitIs(envs: seq<Envelope>, i: nat)
    requires i < |envs|
    ensures multiset(envs) == multiset(Omit(envs, i)) + multiset{envs[i]}
    ensures Sorted(envs) ==> Sorted(Omit(envs, i))
  {
    assert envs == envs[..i] + [envs[i]] + envs[i + 1..];
  }

  lemma Cancel(a: multiset<Envelope>, b: multiset<Envelope>, e: Envelope)
    requires a + multiset{e} == b + multiset{e}
    ensures a == b
  {
    assert a == a + multiset{e} - multiset{e} && b == b + multiset{e} - multiset{e};
  }

  // Sorted arrangements of the same envelopes agree, number by number.
  lemma {:induction false} SortedNumbersAgree(a: seq<Envelope>, b: seq<Envelope>)
    requires Sorted(a) && Sorted(b) && multiset(a) == multiset(b)
    ensures |a| == |b| && forall i | 0 <= i < |a| :: a[i].seqNo == b[i].seqNo
  {
    SameSize(a, b);
    if a != [] {
      var i := LastIn(a, b);
      OmitIs(a, |a| - 1);
      OmitIs(b, i);
      SortedNumbersAgree(Omit(a, |a| - 1), Omit(b, i));
      NumbersStay(a, b, i);
    }
  }

  lemma LastIn(a: seq<Envelope>, b: seq<Envelope>) returns (i: nat)
    requires Sorted(a) && Sorted(b) && multiset(a) == multiset(b) && |a| == |b| > 0
    ensures i < |b| && b[i] == a[|a| - 1] && a[|a| - 1].seqNo == b[|b| - 1].seqNo
    ensures multiset(Omit(a, |a| - 1)) == multiset(Omit(b, i))
  {
    var n := |a| - 1;
    LastIsGreatest(a, b);
    LastIsGreatest(b, a);
    assert a[n] in multiset(b);
    i :| 0 <= i < |b| && b[i] == a[n];
    OmitIs(a, n);
    OmitIs(b, i);
    Cancel(multiset(Omit(a, n)), multiset(Omit(b, i)), a[n]);
  }

  // The greatest number may stand at several places.
  lemma NumbersStay(a: seq<Envelope>, b: seq<Envelope>, i: nat)
    requires |a| == |b| > 0 && Sorted(b) && i < |b| && b[i] == a[|a| - 1]
    requires a[|a| - 1].seqNo == b[|b| - 1].seqNo
    requires forall k | 0 <= k < |a| - 1 :: Omit(a, |a| - 1)[k].seqNo == Omit(b, i)[k].seqNo
    ensures forall k | 0 <= k < |a| :: a[k].seqNo == b[k].seqNo
  {
    var n := |a| - 1;
    forall k | 0 <= k < n ensures a[k].seqNo == b[k].seqNo {
      assert Omit(a, n)[k].seqNo == Omit(b, i)[k].seqNo && Omit(a, n)[k] == a[k];
      if k < i {
        assert Omit(b, i)[k] == b[k];
      } else {
        assert Omit(b, i)[k] == b[k + 1];
        assert b[i].seqNo <= b[k].seqNo <= b[k + 1].seqNo <= b[n].seqNo;
      }
    }
  }

  lemma SameSize(a: seq<Envelope>, b: seq<Envelope>)
    requires multiset(a) == multiset(b)
    ensures |a| == |b|
  {
    assert |multiset(a)| == |a| && |multiset(b)| == |b|;
  }

  lemma LastIsGreatest(a: seq<Envelope>, b: seq<Envelope>)
    requires Sorted(b) && multiset(a) == multiset(b) && a != [] && |a| == |b|
    ensures a[|a| - 1].seqNo <= b[|b| - 1].seqNo
  {
    assert a[|a| - 1] in multiset(b);
  }

  // ---- what the text determines ---------------------------------------------------------------

  // Checksums are written as 64 hexadecimal digits.
  predicate FixedWidth(envs: seq<Envelope>) {
    forall i | 0 <= i < |envs| :: |envs[i].checksum| == 64
  }

  lemma {:induction false} JoinedInjective(a: seq<string>, b: seq<string>)
    requires (forall i | 0 <= i < |a| :: |a[i]| == 64) && (forall i | 0 <= i < |b| :: |b[i]| == 64)
    requires Joined(a) == Joined(b)
    ensures a == b
  {
    if a != [] && b != [] {
      assert a[0] == Joined(a)[..64] && b[0] == Joined(b)[..64];
      assert Joined(a[1..]) == Joined(a)[64..] && Joined(b[1..]) == Joined(b)[64..];
      JoinedInjective(a[1..], b[1..]);
      assert a == [a[0]] + a[1..] && b == [b[0]] + b[1..];
    }
  }

  lemma SortedIsFixedWidth(envs: seq<Envelope>)
    requires FixedWidth(envs)
    ensures FixedWidth(SortBySeq(envs))
  {
    SortIs(envs);
    var sorted := SortBySeq(envs);
    forall i | 0 <= i < |sorted| ensures |sorted[i].checksum| == 64 {
      assert sorted[i] in multiset(envs);
    }
  }

  // Different ordered lists of checksums are hashed from different texts.
  lemma RecordsTextInjective(a: seq<Envelope>, b: seq<Envelope>)
    requires FixedWidth(a) && FixedWidth(b)
    ensures RecordsText(a) == RecordsText(b) <==> Checksums(SortBySeq(a)) == Checksums(SortBySeq(b))
  {
    SortedIsFixedWidth(a);
    SortedIsFixedWidth(b);
    if RecordsText(a) == RecordsText(b) {
      JoinedInjective(Checksums(SortBySeq(a)), Checksums(SortBySeq(b)));
    }
  }

  // The order of the bundle does not matter where a number has one checksum.
  lemma OrderDoesNotMatter(a: seq<Envelope>, b: seq<Envelope>)
    requires multiset(a) == multiset(b) && OneChecksumPerSeq(a)
    ensures RecordsText(a) == RecordsText(b)
  {
    SortIs(a);
    SortIs(b);
    var x, y := SortBySeq(a), SortBySeq(b);
    SortedNumbersAgree(x, y);
    forall i | 0 <= i < |x| ensures x[i].checksum == y[i].checksum {
      assert x[i] in multiset(a) && y[i] in multiset(b);
    }
    assert Checksums(x) == Checksums(y);
  }

  // Where it has two, some order of the same envelopes gives another text.
  lemma OrderMatters(envs: seq<Envelope>) returns (a: seq<Envelope>, b: seq<Envelope>)
    requires FixedWidth(envs) && !OneChecksumPerSeq(envs)
    ensures multiset(a) == multiset(envs) && multiset(b) == multiset(envs)
    ensures RecordsText(a) != RecordsText(b)
  {
    var x, y :| x in envs && y in envs && x.seqNo == y.seqNo && x.checksum != y.checksum;
    var rest := RestAfter(envs, x, y);
    a, b := [x, y] + rest, [y, x] + rest;
    assert multiset(a) == multiset(b);
    SameWidth(envs, a);
    SameWidth(envs, b);
    if RecordsText(a) == RecordsText(b) {
      RecordsTextInjective(a, b);
      SortIs(a);
      SortIs(b);
      SortedNumbersAgree(SortBySeq(a), SortBySeq(b));
      FirstOfSeq(SortBySeq(a), SortBySeq(b), x.seqNo);
      FirstInOrder(x, y, rest);
      FirstInOrder(y, x, rest);
      assert false;
    }
  }

  lemma SameWidth(envs: seq<Envelope>, other: seq<Envelope>)
    requires FixedWidth(envs) && multiset(other) == multiset(envs)
    ensures FixedWidth(other)
  {
    forall i | 0 <= i < |other| ensures |other[i].checksum| == 64 {
      assert other[i] in multiset(envs);
    }
  }

  lemma RestAfter(envs: seq<Envelope>, x: Envelope, y: Envelope) returns (rest: seq<Envelope>)
    requires x in envs && y in envs && x != y
    ensures multiset([x, y] + rest) == multiset(envs)
  {
    var i :| 0 <= i < |envs| && envs[i] == x;
    var less := Omit(envs, i);
    OmitIs(envs, i);
    assert y in multiset(less) + multiset{x};
    var k :| 0 <= k < |less| && less[k] == y;
    OmitIs(less, k);
    rest := Omit(less, k);
    TwoBefore(x, y, rest);
  }

  lemma TwoBefore(x: Envelope, y: Envelope, rest: seq<Envelope>)
    ensures multiset([x, y] + rest) == multiset(rest) + multiset{y} + multiset{x}
  {
  }

  // The first envelope of a number, in the order in which the bundle has them.
  lemma {:induction false} FirstInOrder(x: Envelope, y: Envelope, rest: seq<Envelope>)
    requires x.seqNo == y.seqNo
    ensures OfSeq([x, y] + rest, x.seqNo) != [] && OfSeq([x, y] + rest, x.seqNo)[0] == x
  {
    if rest == [] {
      assert [x, y] + rest == [] + [x] + [y];
      OfSeqSnoc([] + [x], y, x.seqNo);
      OfSeqSnoc([], x, x.seqNo);
    } else {
      var n := |rest| - 1;
      assert [x, y] + rest == ([x, y] + rest[..n]) + [rest[n]];
      FirstInOrder(x, y, rest[..n]);
      OfSeqSnoc([x, y] + rest[..n], rest[n], x.seqNo);
    }
  }

  // Lists that agree in numbers and checksums agree in the checksums of each number.
  lemma {:induction false} FirstOfSeq(a: seq<Envelope>, b: seq<Envelope>, n: int)
    requires |a| == |b| && Checksums(a) == Checksums(b)
    requires forall i | 0 <= i < |a| :: a[i].seqNo == b[i].seqNo
    ensures |OfSeq(a, n)| == |OfSeq(b, n)|
    ensures forall i | 0 <= i < |OfSeq(a, n)| :: OfSeq(a, n)[i].checksum == OfSeq(b, n)[i].checksum
  {
    if a != [] {
      var k := |a| - 1;
      assert Checksums(a)[k] == Checksums(b)[k];
      assert Checksums(a[..k]) == Checksums(a)[..k] && Checksums(b[..k]) == Checksums(b)[..k];
      FirstOfSeq(a[..k], b[..k], n);
    }
  }

  // Each checksum stands in its place, in the order of numbers, with nothing between.
  lemma {:induction false} JoinedSlices(texts: seq<string>, i: nat)
    requires i < |texts| && forall k | 0 <= k < |texts| :: |texts[k]| == 64
    ensures |Joined(texts)| == 64 * |texts| && Joined(texts)[64 * i..64 * (i + 1)] == texts[i]
  {
    var rest := texts[1..];
    if rest == [] {
      assert Joined(rest) == "" && texts[0] + "" == texts[0];
    } else {
      JoinedSlices(rest, if i == 0 then 0 else i - 1);
      if i > 0 {
        assert Joined(texts)[64 * i..64 * (i + 1)] == Joined(rest)[64 * (i - 1)..64 * i];
      }
    }
  }

  lemma RecordsTextSlices(envs: seq<Envelope>, i: nat)
    requires FixedWidth(envs) && i < |envs|
    ensures |SortBySeq(envs)| == |envs| && |RecordsText(envs)| == 64 * |envs|
    ensures RecordsText(envs)[64 * i..64 * (i + 1)] == SortBySeq(envs)[i].checksum
  {
    SortIs(envs);
    SameSize(SortBySeq(envs), envs);
    SortedIsFixedWidth(envs);
    JoinedSlices(Checksums(SortBySeq(envs)), i);
  }

  // The message of a gateway, a machine, a number and a checksum, written out.
  lemma SigInputExample()
    ensures SigInput(Signed("gw-1", "press-01", 42, "ab")) == "gw-1\npress-01\n42\nab"
  {
    assert NatText(4) == "4" && NatText(42) == NatText(4) + "2";
  }
}
