/**
 Why a seen window must hold every hash in play: on three nodes that know each
 other, messages that take turns come back to a node just after their hash has left
 its window, and so go round for ever.
 */
module GossipRing {
  import opened Results
  import opened Sequences
  import opened Division
  import opened Gossip
  import opened GossipNetwork

  function RingPeers(n: PeerId): map<PeerId, Peer> {
    map[(n + 1) % 3 := Peer(0, true), (n + 2) % 3 := Peer(0, true)]
  }

  function Ids(msgs: seq<Message>): seq<Hash>
    requires forall m :: m in msgs ==> m.IsFlooded()
  {
    seq(|msgs|, i requires 0 <= i < |msgs| => msgs[i].Id())
  }

  // More messages than a window of size w can hold, with different hashes.
  ghost predicate TooMany(msgs: seq<Message>, w: nat) {
    (forall m :: m in msgs ==> m.IsFlooded()) && |msgs| > w && NoDuplicates(Ids(msgs))
  }

  // The log of a node that has accepted c messages, taking them in turn.
  function Turns(ids: seq<Hash>, c: nat): seq<Hash>
    requires ids != []
  {
    seq(c, i requires 0 <= i < c => ids[i % |ids|])
  }

  lemma SameMod(k: nat, q: nat, r: nat)
    requires r < k
    ensures (q * k + r) % k == r
  {
    QuotientIs(k, q, r);
    DivBounds(k, q * k + r);
  }

  // Numbers less than k apart differ modulo k; numbers k apart do not.
  lemma ModDiffer(e: nat, c: nat, k: nat)
    requires e < c < e + k
    ensures e % k != c % k
  {
    var q, r, d := e / k, e % k, c - e;
    DivBounds(k, e);
    if r + d < k {
      SameMod(k, q, r + d);
    } else {
      assert (q + 1) * k == q * k + k;
      SameMod(k, q + 1, r + d - k);
    }
  }

  lemma ModShift(k: nat, t: nat)
    requires k > 0
    ensures (k + t) % k == t % k
  {
    DivBounds(k, t);
    assert (t / k + 1) * k == (t / k) * k + k;
    SameMod(k, t / k + 1, t % k);
  }

  /** The message whose turn it is has left the window. */
  lemma TurnUnseen(ids: seq<Hash>, c: nat, w: nat)
    requires NoDuplicates(ids) && |ids| > w
    ensures ids[c % |ids|] !in LastN(Turns(ids, c), w)
  {
    var window := LastN(Turns(ids, c), w);
    forall j | 0 <= j < |window| ensures window[j] != ids[c % |ids|] {
      var e := c - |window| + j;
      assert window[j] == ids[e % |ids|];
      ModDiffer(e, c, |ids|);
    }
  }

  lemma TurnTaken(ids: seq<Hash>, c: nat, w: nat)
    requires ids != []
    ensures LastN(LastN(Turns(ids, c), w) + [ids[c % |ids|]], w) == LastN(Turns(ids, c + 1), w)
  {
    hide LastN;
    LastNSnoc(Turns(ids, c), w, ids[c % |ids|]);
    assert Turns(ids, c) + [ids[c % |ids|]] == Turns(ids, c + 1);
  }

  // Three nodes that know each other, after the given numbers of turns.
  ghost predicate Ring(net: Network, msgs: seq<Message>, w: nat, turns: seq<nat>)
    requires TooMany(msgs, w)
  {
    && |turns| == 3 && net.nodes.Keys == {0, 1, 2}
    && forall n :: n in net.nodes ==>
         && net.nodes[n].peers == RingPeers(n) && net.nodes[n].maxSeen == w
         && net.nodes[n].seenOrder == LastN(Turns(Ids(msgs), turns[n]), w)
  }

  lemma RingChoice(n: PeerId)
    requires n < 3
    ensures ValidChoice(RingPeers(n), [(n + 1) % 3, (n + 2) % 3])
  {
    assert (n + 1) % 3 in [(n + 1) % 3, (n + 2) % 3];
  }

  lemma IdAt(msgs: seq<Message>, k: nat)
    requires k < |msgs| && forall m :: m in msgs ==> m.IsFlooded()
    ensures msgs[k].IsFlooded() && |Ids(msgs)| == |msgs| && Ids(msgs)[k] == msgs[k].Id()
  {}

  lemma RingAccept(s: NodeState, ids: seq<Hash>, w: nat, c: nat)
    requires NoDuplicates(ids) && |ids| > w && s.maxSeen == w && s.seenOrder == LastN(Turns(ids, c), w)
    ensures var h := ids[c % |ids|];
      && h !in s.seenOrder && Accept(s, h).peers == s.peers && Accept(s, h).maxSeen == w
      && Accept(s, h).seenOrder == LastN(Turns(ids, c + 1), w)
  {
    hide Turns, LastN, NoDuplicates;
    TurnUnseen(ids, c, w);
    TurnTaken(ids, c, w);
  }

  // A node takes the message whose turn it is.
  lemma RingHandle(net: Network, msgs: seq<Message>, w: nat, turns: seq<nat>, n: PeerId, from: Option<PeerId>,
                   choice: seq<PeerId>)
    requires TooMany(msgs, w) && Ring(net, msgs, w, turns) && n < 3
    ensures var m := msgs[turns[n] % |msgs|];
      && m.IsFlooded() && Ring(Handle(net, n, from, m, choice), msgs, w, turns[n := turns[n] + 1])
      && Handle(net, n, from, m, choice).flight == net.flight + Packets(n, Sends(choice, from, m))
      && Handle(net, n, from, m, choice).sent == net.sent + |Sends(choice, from, m)|
  {
    hide Turns, LastN, RingPeers, Sends, Packets, NoDuplicates, Ids, Accept;
    IdAt(msgs, turns[n] % |msgs|);
    assert n in net.nodes;
    RingAccept(net.nodes[n], Ids(msgs), w, turns[n]);
  }

  // What a node sends to one of its two peers and to the other, unless that is the source.
  lemma RingSends(to: PeerId, back: PeerId, from: Option<PeerId>, msg: Message, src: PeerId)
    requires Some(to) != from
    ensures Sends([to, back], from, msg) == if Some(back) == from then [(to, msg)] else [(to, msg), (back, msg)]
    ensures Packet(src, to, msg) in Packets(src, Sends([to, back], from, msg))
  {
    hide Sends, Packets;
    var one := [(to, msg)];
    SendsSnoc([], to, from, msg);
    assert [] + [to] == [to] && [] + one == one;
    SendsSnoc([to], back, from, msg);
    assert [to] + [back] == [to, back] && one + [] == one;
    PacketsSnoc(src, [], (to, msg));
    PacketsSnoc(src, one, (back, msg));
  }

  lemma SendsSnoc(choice: seq<PeerId>, p: PeerId, from: Option<PeerId>, msg: Message)
    ensures Sends(choice + [p], from, msg) == Sends(choice, from, msg) + if Some(p) == from then [] else [(p, msg)]
    ensures Sends([], from, msg) == []
  {
    assert (choice + [p])[..|choice|] == choice;
  }

  lemma PacketsSnoc(src: PeerId, sends: seq<(PeerId, Message)>, s: (PeerId, Message))
    ensures Packets(src, sends + [s]) == Packets(src, sends) + multiset{Packet(src, s.0, s.1)}
  {
    assert (sends + [s])[..|sends|] == sends;
  }

  // A packet whose turn it is moves on to the next node; one more message is sent.
  lemma RingStep(net: Network, msgs: seq<Message>, w: nat, turns: seq<nat>, src: PeerId, m: Message) returns (e: Event)
    requires TooMany(msgs, w) && Ring(net, msgs, w, turns) && src < 3
    requires m == msgs[turns[(src + 1) % 3] % |msgs|] && Packet(src, (src + 1) % 3, m) in net.flight
    ensures var n := (src + 1) % 3;
      && Enabled(net, e) && !e.Originate? && Ring(After(net, e), msgs, w, turns[n := turns[n] + 1])
      && After(net, e).sent == net.sent + 1 && Packet(n, (src + 2) % 3, m) in After(net, e).flight
      && forall q :: q in net.flight && q != Packet(src, n, m) ==> q in After(net, e).flight
  {
    hide ValidChoice, Sends, Packets, RingPeers, Turns, LastN, Handle;
    var n, next := (src + 1) % 3, (src + 2) % 3;
    assert (n + 1) % 3 == next && (n + 2) % 3 == src;
    assert n in net.nodes && m in msgs;
    RingChoice(n);
    e := Deliver(Packet(src, n, m), [next, src]);
    RingHandle(Take(net, e.packet), msgs, w, turns, n, Some(src), [next, src]);
    RingSends(next, src, Some(src), m, n);
  }

  // Node 0 puts the message whose turn it is on its way.
  lemma RingOriginate(net: Network, msgs: seq<Message>, w: nat, turns: seq<nat>, m: Message) returns (e: Event)
    requires TooMany(msgs, w) && Ring(net, msgs, w, turns) && m == msgs[turns[0] % |msgs|]
    ensures Enabled(net, e) && e.Originate? && e.msg == m && Ring(After(net, e), msgs, w, turns[0 := turns[0] + 1])
    ensures Packet(0, 1, m) in After(net, e).flight && forall q :: q in net.flight ==> q in After(net, e).flight
  {
    hide ValidChoice, Sends, Packets, RingPeers, Turns, LastN, Handle;
    assert 0 in net.nodes && m in msgs;
    RingChoice(0);
    e := Originate(0, m, [1, 2]);
    RingHandle(net, msgs, w, turns, 0, None, [1, 2]);
    RingSends(1, 2, None, m, 0);
  }

  // ----- runs -----

  lemma RunSnoc(states: seq<Network>, events: seq<Event>, hashes: set<Hash>, e: Event)
    requires IsRun(states, events, hashes) && Enabled(states[|events|], e) && (e.Originate? ==> e.msg.Id() in hashes)
    ensures IsRun(states + [After(states[|events|], e)], events + [e], hashes)
  {
    hide Enabled, After, Initial;
  }

  ghost predicate WindowsAre(net: Network, w: nat) {
    forall n :: n in net.nodes ==> net.nodes[n].maxSeen == w
  }

  function RingStart(w: nat): Network {
    Network(map n | n in {0, 1, 2} :: NodeState(RingPeers(n), [], w, []), multiset{}, {}, 0, 0)
  }

  // A run on the ring, its end, and the first k messages waiting for node 1 there.
  ghost predicate RingRun(states: seq<Network>, events: seq<Event>, hashes: set<Hash>, msgs: seq<Message>, w: nat,
                          turns: seq<nat>, k: nat)
    requires TooMany(msgs, w) && k <= |msgs|
  {
    && IsRun(states, events, hashes) && states[0] == RingStart(w) && Ring(states[|events|], msgs, w, turns)
    && forall i :: 0 <= i < k ==> Packet(0, 1, msgs[i]) in states[|events|].flight
  }

  lemma NoOwnPeer()
    ensures forall n :: n in {0, 1, 2} ==> n !in RingPeers(n)
  {}

  lemma StartIsRing(msgs: seq<Message>, w: nat, hashes: set<Hash>)
    requires TooMany(msgs, w)
    ensures RingRun([RingStart(w)], [], hashes, msgs, w, [0, 0, 0], 0)
    ensures WindowsAre(RingStart(w), w) && |RingStart(w).nodes| == 3
  {
    hide RingPeers, Enabled, After;
    var net := RingStart(w);
    assert net.nodes.Keys == {0, 1, 2};
    assert |net.nodes| == |net.nodes.Keys|;
    assert Turns(Ids(msgs), 0) == [];
    NoOwnPeer();
  }

  // Node 0 originates the messages one after the other.
  lemma {:induction false} Filled(hashes: set<Hash>, msgs: seq<Message>, w: nat, k: nat)
      returns (states: seq<Network>, events: seq<Event>)
    requires TooMany(msgs, w) && k <= |msgs| && forall m :: m in msgs ==> m.Id() in hashes
    ensures RingRun(states, events, hashes, msgs, w, [k, 0, 0], k)
  {
    hide Ring, After, Enabled, RingStart;
    if k == 0 {
      states, events := [RingStart(w)], [];
      StartIsRing(msgs, w, hashes);
    } else {
      states, events := Filled(hashes, msgs, w, k - 1);
      assert msgs[k - 1] in msgs && (k - 1) % |msgs| == k - 1;
      var net := states[|events|];
      var e := RingOriginate(net, msgs, w, [k - 1, 0, 0], msgs[k - 1]);
      RunSnoc(states, events, hashes, e);
      assert [k - 1, 0, 0][0 := k] == [k, 0, 0];
      states, events := states + [After(net, e)], events + [e];
    }
  }

  // One message goes round once.
  lemma Lap(hashes: set<Hash>, states: seq<Network>, events: seq<Event>, msgs: seq<Message>, w: nat, t: nat)
      returns (states': seq<Network>, events': seq<Event>)
    requires TooMany(msgs, w) && RingRun(states, events, hashes, msgs, w, [|msgs| + t, t, t], |msgs|)
    ensures RingRun(states', events', hashes, msgs, w, [|msgs| + (t + 1), t + 1, t + 1], |msgs|)
    ensures states'[|events'|].sent == states[|events|].sent + 3
  {
    hide Ring, After, Enabled, IsRun, RingStart;
    var k := |msgs|;
    var m := msgs[t % k];
    ModShift(k, t);
    assert m in msgs;
    RunLength(states, events, hashes);
    var net := states[|events|];
    var e0 := RingStep(net, msgs, w, [k + t, t, t], 0, m);
    var net0 := After(net, e0);
    assert [k + t, t, t][1 := t + 1] == [k + t, t + 1, t];
    var e1 := RingStep(net0, msgs, w, [k + t, t + 1, t], 1, m);
    var net1 := After(net0, e1);
    assert [k + t, t + 1, t][2 := t + 1] == [k + t, t + 1, t + 1];
    var e2 := RingStep(net1, msgs, w, [k + t, t + 1, t + 1], 2, m);
    var net2 := After(net1, e2);
    assert [k + t, t + 1, t + 1][0 := k + (t + 1)] == [k + (t + 1), t + 1, t + 1];
    RunSnoc(states, events, hashes, e0);
    RunSnoc(states + [net0], events + [e0], hashes, e1);
    RunSnoc(states + [net0] + [net1], events + [e0] + [e1], hashes, e2);
    states', events' := states + [net0] + [net1] + [net2], events + [e0] + [e1] + [e2];
    forall i | 0 <= i < k ensures Packet(0, 1, msgs[i]) in net2.flight {
      assert Packet(0, 1, msgs[i]) in net.flight;
    }
  }

  lemma RunLength(states: seq<Network>, events: seq<Event>, hashes: set<Hash>)
    requires IsRun(states, events, hashes)
    ensures |states| == |events| + 1
  {}

  lemma {:induction false} Laps(hashes: set<Hash>, msgs: seq<Message>, w: nat, t: nat)
      returns (states: seq<Network>, events: seq<Event>)
    requires TooMany(msgs, w) && forall m :: m in msgs ==> m.Id() in hashes
    ensures RingRun(states, events, hashes, msgs, w, [|msgs| + t, t, t], |msgs|) && states[|events|].sent >= 3 * t
  {
    hide Ring, After, Enabled, Initial, RingStart;
    if t == 0 {
      states, events := Filled(hashes, msgs, w, |msgs|);
      assert [|msgs| + 0, 0, 0] == [|msgs|, 0, 0];
      var net := states[|events|];
      assert net.sent >= 0;
    } else {
      states, events := Laps(hashes, msgs, w, t - 1);
      states, events := Lap(hashes, states, events, msgs, w, t - 1);
    }
  }

  // A message for each hash.
  lemma {:induction false} MessagesFor(hashes: set<Hash>) returns (msgs: seq<Message>)
    ensures |msgs| == |hashes| && (forall m :: m in msgs ==> m.IsFlooded() && m.Id() in hashes)
    ensures NoDuplicates(Ids(msgs))
    decreases |hashes|
  {
    if hashes == {} {
      msgs := [];
    } else {
      var h :| h in hashes;
      var rest := MessagesFor(hashes - {h});
      msgs := rest + [NewBlock(BlockHeader(0, h, 0, 0, 0, 0, 0))];
      forall i | 0 <= i < |rest| ensures Ids(msgs)[i] == Ids(rest)[i] != h {
        assert rest[i] in rest;
      }
    }
  }

  /**
   Whatever the window, with more hashes than it holds there is a network of three
   nodes and a run over those hashes that sends more messages than any bound.
   */
  lemma SmallWindowFloodsForever(hashes: set<Hash>, w: nat, bound: nat)
      returns (states: seq<Network>, events: seq<Event>)
    requires w < |hashes|
    ensures IsRun(states, events, hashes) && WindowsAre(states[0], w) && |states[0].nodes| == 3
    ensures states[|events|].sent > bound
  {
    hide IsRun, RingStart, Ring;
    var msgs := MessagesFor(hashes);
    states, events := Laps(hashes, msgs, w, bound + 1);
    StartIsRing(msgs, w, hashes);
  }

  // Every run over these hashes, in every network with windows of this size, keeps the bound.
  ghost predicate FloodsBounded(hashes: set<Hash>, w: nat) {
    forall states: seq<Network>, events: seq<Event> :: IsRun(states, events, hashes) && WindowsAre(states[0], w) ==>
      states[|events|].sent <= 3 * (|states[0].nodes| * |hashes|)
  }

  /** The flood is bounded exactly when a window holds all the hashes in play. */
  lemma FloodBoundedExactlyWhen(hashes: set<Hash>, w: nat)
    ensures FloodsBounded(hashes, w) <==> w >= |hashes|
  {
    hide Initial, Enabled, After;
    if w >= |hashes| {
      forall states: seq<Network>, events: seq<Event> | IsRun(states, events, hashes) && WindowsAre(states[0], w)
        ensures states[|events|].sent <= 3 * (|states[0].nodes| * |hashes|)
      {
        FloodIsBounded(states, events, hashes);
      }
    } else {
      var states, events := SmallWindowFloodsForever(hashes, w, 3 * (3 * |hashes|));
    }
  }
}
