/**
 How far a flood gets: where no node has more than three connected peers, no packet is
 lost and windows hold every hash, a hash that has come to rest has reached every peer of
 every node it reached.
 */
module GossipCoverage {
  import opened Results
  import opened Sequences
  import opened Gossip
  import opened GossipNetwork

  ghost function Connected(peers: map<PeerId, Peer>): set<PeerId> { set p | p in peers && peers[p].connected }

  ghost predicate FewPeers(net: Network) {
    forall n :: n in net.nodes ==> |Connected(net.nodes[n].peers)| <= 3
  }

  // A packet for p with the given hash is under way.
  ghost predicate Coming(net: Network, p: PeerId, h: Hash) {
    exists q :: q in net.flight && q.dst == p && q.msg.IsFlooded() && q.msg.Id() == h
  }

  // Every connected peer of a node that accepted a hash has accepted it, or will be told.
  ghost predicate Covered(net: Network) {
    forall n, p, h ::
      (&& n in net.nodes && p in net.nodes && p in Connected(net.nodes[n].peers) && (n, h) in net.accepted) ==>
        (p, h) in net.accepted || Coming(net, p, h)
  }

  // Packets come from nodes that have accepted what they send.
  ghost predicate SendersKnow(net: Network) {
    forall q :: q in net.flight ==> q.msg.IsFlooded() && (q.src, q.msg.Id()) in net.accepted
  }

  lemma {:induction false} ListSize(s: seq<PeerId>)
    requires NoDuplicates(s)
    ensures |Elements(s)| == |s|
    decreases |s|
  {
    if s != [] {
      var before, p := s[..|s| - 1], s[|s| - 1];
      ListSize(before);
      assert s == before + [p];
      assert p !in Elements(before);
      assert Elements(s) == Elements(before) + {p};
    }
  }

  // With at most three connected peers all of them are chosen.
  lemma AllChosen(peers: map<PeerId, Peer>, choice: seq<PeerId>, p: PeerId)
    requires ValidChoice(peers, choice) && |Connected(peers)| <= 3 && p in Connected(peers)
    ensures p in choice
  {
    if |choice| == 3 {
      ListSize(choice);
      assert Elements(choice) <= Connected(peers);
      SubsetFull(Elements(choice), Connected(peers));
    }
  }

  lemma SubsetFull(a: set<PeerId>, b: set<PeerId>)
    requires a <= b && |b| <= |a|
    ensures a == b
  {
    assert |b - a| == |b| - |a|;
  }

  lemma {:induction false} PacketsHold(src: PeerId, sends: seq<(PeerId, Message)>, s: (PeerId, Message))
    requires s in sends
    ensures Packet(src, s.0, s.1) in Packets(src, sends)
    decreases |sends|
  {
    if s != sends[|sends| - 1] {
      PacketsHold(src, sends[..|sends| - 1], s);
    }
  }

  // A peer that is told, or is the one who told.
  lemma PeerIsTold(net: Network, n: PeerId, from: Option<PeerId>, msg: Message, choice: seq<PeerId>, p: PeerId)
    requires n in net.nodes && msg.IsFlooded() && msg.Id() !in net.nodes[n].seenOrder
    requires ValidChoice(net.nodes[n].peers, choice) && |Connected(net.nodes[n].peers)| <= 3
    requires p in Connected(net.nodes[n].peers) && Some(p) != from
    ensures Coming(Handle(net, n, from, msg, choice), p, msg.Id())
  {
    hide ValidChoice, Sends, Packets, Accept, Connected;
    AllChosen(net.nodes[n].peers, choice, p);
    SendsExactly(choice, from, msg);
    PacketsHold(n, Sends(choice, from, msg), (p, msg));
    assert Packet(n, p, msg) in Handle(net, n, from, msg, choice).flight;
  }

  // What handling adds, and that it takes nothing away.
  lemma HandleGrows(net: Network, n: PeerId, from: Option<PeerId>, msg: Message, choice: seq<PeerId>)
    requires msg.IsFlooded()
    ensures var after := Handle(net, n, from, msg, choice);
      && net.accepted <= after.accepted && net.flight <= after.flight && after.nodes.Keys == net.nodes.Keys
      && (forall k :: k in net.nodes ==> after.nodes[k].peers == net.nodes[k].peers)
      && (forall x :: x in after.accepted ==> x in net.accepted || x == (n, msg.Id()))
      && (forall q :: q in after.flight && q !in net.flight ==>
            q.src == n && q.msg == msg && (n, msg.Id()) in after.accepted)
      && (n in net.nodes && msg.Id() !in net.nodes[n].seenOrder ==> (n, msg.Id()) in after.accepted)
  {
    hide Sends, Packets;
    PacketsSize(n, Sends(choice, from, msg));
    SendsExactly(choice, from, msg);
  }

  lemma StillComing(net: Network, after: Network, p: PeerId, h: Hash)
    requires Coming(net, p, h) && net.flight <= after.flight
    ensures Coming(after, p, h)
  {
    var q :| q in net.flight && q.dst == p && q.msg.IsFlooded() && q.msg.Id() == h;
    assert q in after.flight;
  }

  // Handling keeps the coverage, if whoever told is known to have accepted.
  lemma HandleCovers(net: Network, n: PeerId, from: Option<PeerId>, msg: Message, choice: seq<PeerId>)
    requires Covered(net) && FewPeers(net) && msg.IsFlooded()
    requires n in net.nodes ==> ValidChoice(net.nodes[n].peers, choice)
    requires from.Some? ==> (from.value, msg.Id()) in net.accepted
    ensures Covered(Handle(net, n, from, msg, choice)) && FewPeers(Handle(net, n, from, msg, choice))
  {
    hide Handle, ValidChoice, Coming, Connected;
    var after := Handle(net, n, from, msg, choice);
    HandleGrows(net, n, from, msg, choice);
    forall k, p, h |
      && k in after.nodes && p in after.nodes && p in Connected(after.nodes[k].peers) && (k, h) in after.accepted
      ensures (p, h) in after.accepted || Coming(after, p, h)
    {
      if (k, h) in net.accepted {
        if (p, h) !in net.accepted {
          StillComing(net, after, p, h);
        }
      } else if Some(p) != from {
        HandleUnseen(net, n, from, msg, choice);
        PeerIsTold(net, n, from, msg, choice, p);
      }
    }
  }

  lemma HandleUnseen(net: Network, n: PeerId, from: Option<PeerId>, msg: Message, choice: seq<PeerId>)
    requires msg.IsFlooded() && Handle(net, n, from, msg, choice).accepted != net.accepted
    ensures n in net.nodes && msg.Id() !in net.nodes[n].seenOrder
  {}

  // Events that neither lose packets nor change peers.
  predicate Reliable(e: Event) { e.Originate? || e.Deliver? }

  lemma StepCovers(net: Network, hashes: set<Hash>, e: Event)
    requires Inv(net, hashes) && Covered(net) && FewPeers(net) && SendersKnow(net)
    requires Enabled(net, e) && Reliable(e) && (e.Originate? ==> e.msg.Id() in hashes)
    ensures Covered(After(net, e)) && FewPeers(After(net, e)) && SendersKnow(After(net, e))
  {
    hide Handle, ValidChoice, Covered, FewPeers, Inv;
    match e
    case Originate(n, msg, choice) =>
      HandleGrows(net, n, None, msg, choice);
      HandleCovers(net, n, None, msg, choice);
    case Deliver(q, choice) =>
      DeliverCovers(net, hashes, q, choice);
  }

  // A delivery: the packet is gone, but its destination has accepted the hash.
  lemma DeliverCovers(net: Network, hashes: set<Hash>, q: Packet, choice: seq<PeerId>)
    requires Inv(net, hashes) && Covered(net) && FewPeers(net) && SendersKnow(net)
    requires q in net.flight && q.msg.IsFlooded()
    requires q.dst in net.nodes ==> ValidChoice(net.nodes[q.dst].peers, choice)
    ensures var after := Handle(Take(net, q), q.dst, Some(q.src), q.msg, choice);
      Covered(after) && FewPeers(after) && SendersKnow(after)
  {
    hide Handle, ValidChoice, Inv, FewPeers, Covered;
    // one more copy of the packet would make no difference
    var after := Handle(Take(net, q), q.dst, Some(q.src), q.msg, choice);
    var kept := Handle(net, q.dst, Some(q.src), q.msg, choice);
    HandleCovers(net, q.dst, Some(q.src), q.msg, choice);
    HandleGrows(net, q.dst, Some(q.src), q.msg, choice);
    TakenCopy(net, q, choice);
    DestinationAccepts(net, hashes, q, choice);
    WithoutPacket(kept, after, q);
  }

  lemma TakenCopy(net: Network, q: Packet, choice: seq<PeerId>)
    requires q in net.flight && q.msg.IsFlooded()
    ensures var after := Handle(Take(net, q), q.dst, Some(q.src), q.msg, choice);
      var kept := Handle(net, q.dst, Some(q.src), q.msg, choice);
      after.nodes == kept.nodes && after.accepted == kept.accepted && after.flight == kept.flight - multiset{q}
  {
    hide Sends, Packets, Accept;
    if q.dst in net.nodes && q.msg.Id() !in net.nodes[q.dst].seenOrder {
      TakeFirst(net.flight, Packets(q.dst, Sends(choice, Some(q.src), q.msg)), q);
    }
  }

  lemma TakeFirst(a: multiset<Packet>, b: multiset<Packet>, q: Packet)
    requires q in a
    ensures a - multiset{q} + b == a + b - multiset{q}
  {}

  lemma DestinationAccepts(net: Network, hashes: set<Hash>, q: Packet, choice: seq<PeerId>)
    requires Inv(net, hashes) && q in net.flight && q.msg.IsFlooded()
    ensures q.dst in net.nodes ==> (q.dst, q.msg.Id()) in Handle(net, q.dst, Some(q.src), q.msg, choice).accepted
  {
    hide Sends, Packets, Accept;
  }

  // Taking a packet away whose destination has accepted keeps the coverage.
  lemma WithoutPacket(kept: Network, after: Network, q: Packet)
    requires Covered(kept) && FewPeers(kept) && q.msg.IsFlooded()
    requires after.nodes == kept.nodes && after.accepted == kept.accepted && after.flight == kept.flight - multiset{q}
    requires q.dst in kept.nodes ==> (q.dst, q.msg.Id()) in kept.accepted
    requires forall r :: r in kept.flight ==> r.msg.IsFlooded() && (r.src, r.msg.Id()) in kept.accepted
    ensures Covered(after) && FewPeers(after) && SendersKnow(after)
  {
    hide Connected;
    forall n, p, h |
      && n in after.nodes && p in after.nodes && p in Connected(after.nodes[n].peers) && (n, h) in after.accepted
      && (p, h) !in after.accepted
      ensures Coming(after, p, h)
    {
      assert Coming(kept, p, h);
      var r :| r in kept.flight && r.dst == p && r.msg.IsFlooded() && r.msg.Id() == h;
      assert r != q;
      assert r in after.flight;
    }
  }

  lemma {:induction false} RunCovers(states: seq<Network>, events: seq<Event>, hashes: set<Hash>, k: nat)
    requires IsRun(states, events, hashes) && WindowsFit(states[0], hashes) && FewPeers(states[0]) && k < |states|
    requires forall i :: 0 <= i < |events| ==> Reliable(events[i])
    ensures Covered(states[k]) && FewPeers(states[k]) && SendersKnow(states[k])
    decreases k
  {
    hide Inv, After, FewPeers, Covered, Enabled;
    if k == 0 {
      InitiallyCovered(states[0]);
    } else {
      RunCovers(states, events, hashes, k - 1);
      RunKeeps(states, events, hashes, k - 1);
      StepCovers(states[k - 1], hashes, events[k - 1]);
    }
  }

  lemma InitiallyCovered(net: Network)
    requires Initial(net)
    ensures Covered(net) && SendersKnow(net)
  {}

  /**
   At rest the flood is complete: in every run of a network whose nodes have at most three
   connected peers, without losses and with windows that fit, once nothing is under way
   every connected peer of a node that accepted a hash has accepted it too.
   */
  lemma FloodIsComplete(states: seq<Network>, events: seq<Event>, hashes: set<Hash>, n: PeerId, p: PeerId, h: Hash)
    requires IsRun(states, events, hashes) && WindowsFit(states[0], hashes) && FewPeers(states[0])
    requires forall i :: 0 <= i < |events| ==> Reliable(events[i])
    requires states[|events|].flight == multiset{}
    requires var net := states[|events|];
      n in net.nodes && p in net.nodes && p in Connected(net.nodes[n].peers) && (n, h) in net.accepted
    ensures (p, h) in states[|events|].accepted
  {
    hide Initial, Enabled, After, FewPeers, Connected;
    RunCovers(states, events, hashes, |events|);
  }
}
