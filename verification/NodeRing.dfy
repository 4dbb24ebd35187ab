/** retrofit/esp32-ct-clamp/firmware/src/main.cpp: the node's ring of messages that could not be
    sent, and what becomes of every message that the node emits. */
module NodeRing {

  const CAPACITY: nat := 64
  const UINT32: nat := 0x1_0000_0000

  // What a node has done with its messages: those in the ring, oldest first; those that the broker
  // took, in order; those that the ring dropped, in order; and all of them, in order.
  datatype Node<M> = Node(ring: seq<M>, delivered: seq<M>, lost: seq<M>, emitted: seq<M>)

  // One emission: `drained` messages leave the ring first, and then the new one is sent or kept.
  datatype Emission<M> = Emission(msg: M, drained: nat, sent: bool)

  function Pushed<M>(n: Node<M>, msg: M): Node<M> {
    if |n.ring| >= CAPACITY then n.(ring := n.ring[1..] + [msg], lost := n.lost + [n.ring[0]])
    else n.(ring := n.ring + [msg])
  }

  function Drained<M>(n: Node<M>, k: nat): Node<M> {
    var k := if k <= |n.ring| then k else |n.ring|;
    n.(ring := n.ring[k..], delivered := n.delivered + n.ring[..k])
  }

  function AfterEmission<M>(n: Node<M>, e: Emission<M>): Node<M> {
    var d := Drained(n, e.drained).(emitted := n.emitted + [e.msg]);
    if e.sent then d.(delivered := d.delivered + [e.msg]) else Pushed(d, e.msg)
  }

  function AfterEmissions<M>(n: Node<M>, es: seq<Emission<M>>): Node<M> {
    if es == [] then n else AfterEmission(AfterEmissions(n, es[..|es| - 1]), es[|es| - 1])
  }

  function Fresh<M>(): Node<M> {
    Node([], [], [], [])
  }

  // ---- nothing vanishes -----------------------------------------------------------------

  ghost predicate Conserved<M>(n: Node<M>) {
    && |n.ring| <= CAPACITY
    && multiset(n.emitted) == multiset(n.delivered) + multiset(n.lost) + multiset(n.ring)
  }

  lemma PushConserves<M>(n: Node<M>, msg: M)
    requires |n.ring| <= CAPACITY
    ensures |Pushed(n, msg).ring| <= CAPACITY
    ensures multiset(Pushed(n, msg).lost) + multiset(Pushed(n, msg).ring)
            == multiset(n.lost) + multiset(n.ring) + multiset{msg}
  {
    if |n.ring| >= CAPACITY {
      assert n.ring == [n.ring[0]] + n.ring[1..];
    }
  }

  lemma DrainConserves<M>(n: Node<M>, k: nat)
    ensures multiset(Drained(n, k).delivered) + multiset(Drained(n, k).ring)
            == multiset(n.delivered) + multiset(n.ring)
  {
    var k := if k <= |n.ring| then k else |n.ring|;
    assert n.ring == n.ring[..k] + n.ring[k..];
  }

  lemma EmissionConserves<M>(n: Node<M>, e: Emission<M>)
    requires Conserved(n)
    ensures Conserved(AfterEmission(n, e))
  {
    var d := Drained(n, e.drained);
    DrainConserves(n, e.drained);
    Regroup(multiset(d.delivered), multiset(d.lost), multiset(d.ring));
    Regroup(multiset(n.delivered), multiset(n.lost), multiset(n.ring));
    assert multiset(n.emitted + [e.msg]) == multiset(n.emitted) + multiset{e.msg};
    if e.sent {
      Regroup(multiset(d.delivered) + multiset{e.msg}, multiset(d.lost), multiset(d.ring));
      assert multiset(d.delivered + [e.msg]) == multiset(d.delivered) + multiset{e.msg};
    } else {
      var before := d.(emitted := n.emitted + [e.msg]);
      var t := Pushed(before, e.msg);
      PushConserves(before, e.msg);
      Gather(multiset(d.delivered), multiset(d.lost), multiset(d.ring), multiset{e.msg});
      Gather(multiset(d.delivered), multiset(t.lost), multiset(t.ring), multiset{});
      assert t.delivered == d.delivered && t.emitted == n.emitted + [e.msg];
    }
  }

  lemma Regroup<M>(a: multiset<M>, b: multiset<M>, c: multiset<M>)
    ensures a + b + c == (a + c) + b
  {
  }

  lemma Gather<M>(a: multiset<M>, b: multiset<M>, c: multiset<M>, d: multiset<M>)
    ensures a + b + c + d == a + (b + c + d)
    ensures a + b + c == a + (b + c)
  {
  }

  // Over every run, each message was delivered, is still in the ring, or was dropped: and no
  // message twice.
  lemma {:induction false} RunConserves<M>(es: seq<Emission<M>>)
    ensures Conserved(AfterEmissions(Fresh(), es))
  {
    if es != [] {
      RunConserves(es[..|es| - 1]);
      EmissionConserves(AfterEmissions(Fresh(), es[..|es| - 1]), es[|es| - 1]);
    }
  }

  // ---- what the ring keeps ------------------------------------------------------------------

  predicate Offline<M>(es: seq<Emission<M>>) {
    forall i | 0 <= i < |es| :: es[i].drained == 0 && !es[i].sent
  }

  // While the link is down the ring holds the newest messages, as many as fit, and what it dropped
  // are the oldest.
  lemma {:induction false} OfflineKeepsNewest<M>(es: seq<Emission<M>>)
    requires Offline(es)
    ensures var n := AfterEmissions(Fresh(), es);
            && n.emitted == n.lost + n.ring && |n.emitted| == |es|
            && |n.ring| == if |es| <= 64 then |es| else 64
  {
    if es != [] {
      var front, e := es[..|es| - 1], es[|es| - 1];
      assert Offline(front);
      OfflineKeepsNewest(front);
      var n := AfterEmissions(Fresh(), front);
      assert n.ring[0..] == n.ring && n.delivered + n.ring[..0] == n.delivered;
      if |n.ring| >= CAPACITY {
        assert n.ring == [n.ring[0]] + n.ring[1..];
        assert n.lost + n.ring + [e.msg] == (n.lost + [n.ring[0]]) + (n.ring[1..] + [e.msg]);
      } else {
        assert n.lost + n.ring + [e.msg] == n.lost + (n.ring + [e.msg]);
      }
    }
  }

  // The messages that went into the ring, in order.
  function PushedBy<M>(es: seq<Emission<M>>): seq<M> {
    if es == [] then []
    else
      var n := |es| - 1;
      PushedBy(es[..n]) + if es[n].sent then [] else [es[n].msg]
  }

  ghost predicate IsSuffix<M>(s: seq<M>, whole: seq<M>) {
    |s| <= |whole| && s == whole[|whole| - |s|..]
  }

  lemma SuffixShrinks<M>(s: seq<M>, whole: seq<M>, k: nat)
    requires IsSuffix(s, whole) && k <= |s|
    ensures IsSuffix(s[k..], whole)
  {
  }

  lemma SuffixGrows<M>(s: seq<M>, whole: seq<M>, m: M)
    requires IsSuffix(s, whole)
    ensures IsSuffix(s + [m], whole + [m])
  {
  }

  // Over every run, with whatever drains and drops, the ring holds the messages pushed last, in the
  // order in which they were pushed.
  lemma {:induction false} RingIsSuffix<M>(es: seq<Emission<M>>)
    ensures IsSuffix(AfterEmissions(Fresh(), es).ring, PushedBy(es))
  {
    if es != [] {
      var front, e := es[..|es| - 1], es[|es| - 1];
      var n := AfterEmissions(Fresh(), front);
      var d := Drained(n, e.drained);
      RingIsSuffix(front);
      SuffixShrinks(n.ring, PushedBy(front), |n.ring| - |d.ring|);
      if !e.sent {
        if |d.ring| >= CAPACITY {
          SuffixShrinks(d.ring, PushedBy(front), 1);
          SuffixGrows(d.ring[1..], PushedBy(front), e.msg);
        } else {
          SuffixGrows(d.ring, PushedBy(front), e.msg);
        }
      }
    }
  }

  // ---- order of delivery, for messages that carry their place in the order of emission ----------

  ghost predicate Ascending(s: seq<nat>) {
    forall i, k | 0 <= i < k < |s| :: s[i] < s[k]
  }

  // What was delivered and what is still to come are in the order of emission.
  ghost predicate InOrder(n: Node<nat>) {
    Ascending(n.delivered + n.ring) && forall m | m in n.delivered + n.ring :: m < |n.emitted|
  }

  // The new message overtakes the ring.
  predicate Overtakes<M>(n: Node<M>, e: Emission<M>) {
    e.sent && Drained(n, e.drained).ring != []
  }

  lemma DrainKeepsSequence(n: Node<nat>, k: nat)
    ensures Drained(n, k).delivered + Drained(n, k).ring == n.delivered + n.ring
  {
    var k := if k <= |n.ring| then k else |n.ring|;
    assert n.ring == n.ring[..k] + n.ring[k..];
  }

  lemma AscendingSnoc(s: seq<nat>, m: nat)
    requires Ascending(s) && forall x | x in s :: x < m
    ensures Ascending(s + [m])
  {
    assert forall i | 0 <= i < |s| :: s[i] in s;
  }

  lemma AscendingWithout(a: seq<nat>, m: nat, b: seq<nat>)
    requires Ascending(a + [m] + b)
    ensures Ascending(a + b)
  {
    var s, t := a + [m] + b, a + b;
    forall i, k | 0 <= i < k < |t| ensures t[i] < t[k] {
      assert t[i] == s[if i < |a| then i else i + 1] && t[k] == s[if k < |a| then k else k + 1];
    }
  }

  // An emission keeps the order exactly when the new message does not overtake the ring.
  lemma OrderKeptIff(n: Node<nat>, e: Emission<nat>)
    requires InOrder(n) && e.msg == |n.emitted|
    ensures InOrder(AfterEmission(n, e)) <==> !Overtakes(n, e)
  {
    var d, t := Drained(n, e.drained), AfterEmission(n, e);
    DrainKeepsSequence(n, e.drained);
    if e.sent && d.ring != [] {
      OvertakingBreaksOrder(n, e);
    } else {
      var whole := n.delivered + n.ring;
      AscendingSnoc(whole, e.msg);
      if !e.sent && |d.ring| >= CAPACITY {
        assert whole + [e.msg] == d.delivered + [d.ring[0]] + (d.ring[1..] + [e.msg]);
        AscendingWithout(d.delivered, d.ring[0], d.ring[1..] + [e.msg]);
        assert forall m | m in t.delivered + t.ring :: m in whole + [e.msg];
      } else {
        assert t.delivered + t.ring == whole + [e.msg];
      }
    }
  }

  lemma OvertakingBreaksOrder(n: Node<nat>, e: Emission<nat>)
    requires InOrder(n) && e.msg == |n.emitted| && Overtakes(n, e)
    ensures !InOrder(AfterEmission(n, e))
  {
    var d, t := Drained(n, e.drained), AfterEmission(n, e);
    DrainKeepsSequence(n, e.drained);
    var all, i := t.delivered + t.ring, |d.delivered|;
    assert d.ring[0] in d.delivered + d.ring;
    assert all[i] == e.msg && all[i + 1] == d.ring[0];
  }

  // A link that fails for the ring and then takes the new message delivers out of order.
  lemma OrderIsNotKept() returns (es: seq<Emission<nat>>)
    ensures |es| == 3 && es[0].msg == 0 && es[1].msg == 1 && es[2].msg == 2
    ensures AfterEmissions(Fresh(), es).delivered == [1, 0, 2]
  {
    es := [Emission(0, 0, false), Emission(1, 0, true), Emission(2, 1, true)];
    var n := ThreeEmissions(es);
    Kept(es[0]);
    Overtaking(Node([0], [], [], [0]), es[1]);
    Overtaken(Node([0], [1], [], [0, 1]), es[2]);
  }

  lemma ThreeEmissions(es: seq<Emission<nat>>) returns (n: Node<nat>)
    requires |es| == 3
    ensures n == AfterEmissions(Fresh(), es)
    ensures n == AfterEmission(AfterEmission(AfterEmission(Fresh(), es[0]), es[1]), es[2])
  {
    var one, two := es[..1], es[..2];
    assert one[..0] == [] && two[..1] == one;
    n := AfterEmissions(Fresh(), es);
    assert AfterEmissions(Fresh(), two) == AfterEmission(AfterEmissions(Fresh(), one), es[1]);
    assert AfterEmissions(Fresh(), one) == AfterEmission(AfterEmissions(Fresh(), one[..0]), es[0]);
  }

  lemma Kept(e: Emission<nat>)
    requires e == Emission(0, 0, false)
    ensures AfterEmission(Fresh(), e) == Node([0], [], [], [0])
  {
    var n: Node<nat> := Fresh();
    DrainedNone(n);
  }

  lemma Overtaking(n: Node<nat>, e: Emission<nat>)
    requires n == Node([0], [], [], [0]) && e == Emission(1, 0, true)
    ensures AfterEmission(n, e) == Node([0], [1], [], [0, 1])
  {
    DrainedNone(n);
  }

  lemma Overtaken(n: Node<nat>, e: Emission<nat>)
    requires n == Node([0], [1], [], [0, 1]) && e == Emission(2, 1, true)
    ensures AfterEmission(n, e).delivered == [1, 0, 2]
  {
    assert n.ring[..1] == [0];
  }

  // ---- the firmware -----------------------------------------------------------------------------

  // The messages in a circular array.
  function View(slots: seq<string>, head: nat, count: nat): (s: seq<string>)
    requires |slots| == CAPACITY
    ensures |s| == count
  {
    seq(count, i requires 0 <= i < count => slots[(head + i) % CAPACITY])
  }

  lemma ViewPop(slots: seq<string>, head: nat, count: nat)
    requires |slots| == CAPACITY && head < CAPACITY && count > 0
    ensures View(slots, (head + 1) % CAPACITY, count - 1) == View(slots, head, count)[1..]
  {
    var after, before := View(slots, (head + 1) % CAPACITY, count - 1), View(slots, head, count);
    forall i | 0 <= i < count - 1 ensures after[i] == before[i + 1] {
      assert ((head + 1) % CAPACITY + i) % CAPACITY == (head + (i + 1)) % CAPACITY;
    }
  }

  lemma ViewPush(slots: seq<string>, head: nat, count: nat, msg: string)
    requires |slots| == CAPACITY && head < CAPACITY && count < CAPACITY
    ensures View(slots[(head + count) % CAPACITY := msg], head, count + 1) == View(slots, head, count) + [msg]
  {
  }

  lemma ViewPushes(slots: seq<string>, head: nat, count: nat, h: nat, c: nat, msg: string)
    requires |slots| == CAPACITY && head < CAPACITY && count <= CAPACITY
    requires if count == CAPACITY then h == (head + 1) % CAPACITY && c == count - 1 else h == head && c == count
    ensures View(slots[(h + c) % CAPACITY := msg], h, c + 1)
            == (if count == CAPACITY then View(slots, head, count)[1..] else View(slots, head, count)) + [msg]
  {
    if count == CAPACITY {
      ViewPop(slots, head, count);
    }
    ViewPush(slots, h, c, msg);
  }

  lemma DrainedNone<M>(n: Node<M>)
    ensures Drained(n, 0) == n
  {
    assert n.ring[0..] == n.ring && n.delivered + n.ring[..0] == n.delivered;
  }

  lemma DrainedOneMore<M>(n: Node<M>, k: nat)
    requires k < |n.ring|
    ensures Drained(Drained(n, k), 1) == Drained(n, k + 1)
  {
    assert n.ring[k..][..1] == [n.ring[k]] && n.ring[..k] + [n.ring[k]] == n.ring[..k + 1];
    assert n.delivered + n.ring[..k] + [n.ring[k]] == n.delivered + (n.ring[..k] + [n.ring[k]]);
  }

  class Firmware {
    const ring: array<string>
    var ringHead: nat
    var ringCount: nat
    var dropped: nat
    var hellos: seq<nat>
    ghost var node: Node<string>

    ghost predicate Valid()
      reads this, ring
    {
      && ring.Length == CAPACITY && ringHead < CAPACITY && ringCount <= CAPACITY
      && node.ring == View(ring[..], ringHead, ringCount)
      && dropped == |node.lost| % UINT32
    }

    constructor ()
      ensures Valid() && node == Fresh() && fresh(ring) && hellos == []
    {
      ring := new string[CAPACITY](i => "");
      ringHead, ringCount, dropped, hellos, node := 0, 0, 0, [], Fresh();
    }

    method RingPush(msg: string)
      requires Valid()
      modifies this, ring
      ensures Valid() && node == Pushed(old(node), msg) && hellos == old(hellos)
    {
      if ringCount == CAPACITY {
        ringHead := (ringHead + 1) % CAPACITY;
        ringCount := ringCount - 1;
        dropped := (dropped + 1) % UINT32;
      }
      ViewPushes(old(ring[..]), old(ringHead), old(ringCount), ringHead, ringCount, msg);
      ring[(ringHead + ringCount) % CAPACITY] := msg;
      assert ring[..] == old(ring[..])[(ringHead + ringCount) % CAPACITY := msg];
      ringCount := ringCount + 1;
      node := Pushed(node, msg);
    }

    // Connects if need be, says hello with the count of drops, and drains the ring oldest first
    // for as long as the link lasts.
    method MqttEnsure() returns (connected: bool, ghost drained: nat)
      requires Valid()
      modifies this
      ensures Valid() && drained <= |old(node).ring| && node == Drained(old(node), drained)
      ensures dropped == old(dropped)
      ensures hellos == old(hellos) || hellos == old(hellos) + [|node.lost| % 0x1_0000_0000]
      ensures hellos == old(hellos) ==> drained == 0
    {
      drained := 0;
      DrainedNone(node);
      connected := *;
      if connected {
        return;
      }
      var wifiUp, brokerUp: bool := *, *;
      if !wifiUp || !brokerUp {
        return;
      }
      hellos := hellos + [dropped];
      drained := Replay();
      connected := *;
    }

    // Oldest first, until the ring is empty, the link is gone, or a message is refused.
    method Replay() returns (ghost drained: nat)
      requires Valid()
      modifies this
      ensures Valid() && drained <= |old(node).ring| && node == Drained(old(node), drained)
      ensures dropped == old(dropped) && hellos == old(hellos)
    {
      drained := 0;
      var connected: bool := *;
      DrainedNone(node);
      while ringCount > 0 && connected
        invariant Valid() && drained <= |old(node).ring| && node == Drained(old(node), drained)
        invariant dropped == old(dropped) && hellos == old(hellos)
        decreases ringCount
      {
        var published: bool := *;
        if !published {
          break;
        }
        PopOldest();
        DrainedOneMore(old(node), drained);
        drained := drained + 1;
        connected := *;
      }
    }

    method PopOldest()
      requires Valid() && ringCount > 0
      modifies this
      ensures Valid() && node == Drained(old(node), 1)
      ensures dropped == old(dropped) && hellos == old(hellos) && ringCount == old(ringCount) - 1
    {
      ViewPop(ring[..], ringHead, ringCount);
      node := Drained(node, 1);
      ringHead := (ringHead + 1) % CAPACITY;
      ringCount := ringCount - 1;
    }

    method EmitOrBuffer(msg: string) returns (ghost e: Emission<string>)
      requires Valid()
      modifies this, ring
      ensures Valid() && e.msg == msg && node == AfterEmission(old(node), e)
      ensures hellos == old(hellos) ==> e.drained == 0
    {
      var connected, drained := MqttEnsure();
      var published: bool := *;
      node := node.(emitted := node.emitted + [msg]);
      if connected && published {
        node := node.(delivered := node.delivered + [msg]);
      } else {
        RingPush(msg);
      }
      e := Emission(msg, drained, connected && published);
    }
  }
}
