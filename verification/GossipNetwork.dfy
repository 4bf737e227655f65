/**
 A network of gossiping nodes as a step system: originating, delivering, losing
 messages and changing peers, in any order, with every choice of peers.
 */
module GossipNetwork {
  import opened Results
  import opened Sequences
  import opened Gossip

  datatype NodeState = NodeState(peers: map<PeerId, Peer>, seenOrder: seq<Hash>, maxSeen: nat, log: seq<Hash>)

  datatype Packet = Packet(src: PeerId, dst: PeerId, msg: Message)

  // The nodes, the packets queued or under way, and the history the bounds speak of.
  datatype Network = Network(
    nodes: map<PeerId, NodeState>,
    flight: multiset<Packet>,
    accepted: set<(PeerId, Hash)>,
    sent: nat,
    taken: nat)

  datatype Event =
    | Originate(node: PeerId, msg: Message, choice: seq<PeerId>)
    | Deliver(packet: Packet, choice: seq<PeerId>)
    | Lose(packet: Packet)
    | ChangePeers(node: PeerId, peers: map<PeerId, Peer>)

  // A node accepting an unseen message, as GossipLayer does.
  function Accept(s: NodeState, h: Hash): NodeState {
    s.(seenOrder := LastN(s.seenOrder + [h], s.maxSeen), log := s.log + [h])
  }

  function Packets(src: PeerId, sends: seq<(PeerId, Message)>): multiset<Packet> {
    if sends == [] then multiset{}
    else Packets(src, sends[..|sends| - 1]) + multiset{Packet(src, sends[|sends| - 1].0, sends[|sends| - 1].1)}
  }

  lemma {:induction false} PacketsSize(src: PeerId, sends: seq<(PeerId, Message)>)
    ensures |Packets(src, sends)| == |sends|
    ensures forall p :: p in Packets(src, sends) ==> p.src == src && (p.dst, p.msg) in sends
    decreases |sends|
  {
    if sends != [] {
      PacketsSize(src, sends[..|sends| - 1]);
    }
  }

  // Node n handles a flooded message that came from the given peer, or originates it.
  function Handle(net: Network, n: PeerId, from: Option<PeerId>, msg: Message, choice: seq<PeerId>): Network
    requires msg.IsFlooded()
  {
    if n !in net.nodes || msg.Id() in net.nodes[n].seenOrder then net
    else
      var sends := Sends(choice, from, msg);
      net.(nodes := net.nodes[n := Accept(net.nodes[n], msg.Id())],
           flight := net.flight + Packets(n, sends),
           accepted := net.accepted + {(n, msg.Id())},
           sent := net.sent + |sends|)
  }

  function Take(net: Network, p: Packet): Network {
    net.(flight := net.flight - multiset{p}, taken := net.taken + 1)
  }

  ghost predicate Enabled(net: Network, e: Event) {
    match e
    case Originate(n, msg, choice) => n in net.nodes && msg.IsFlooded() && ValidChoice(net.nodes[n].peers, choice)
    case Deliver(p, choice) =>
      p in net.flight && p.msg.IsFlooded() && (p.dst in net.nodes ==> ValidChoice(net.nodes[p.dst].peers, choice))
    case Lose(p) => p in net.flight
    case ChangePeers(n, peers) => n in net.nodes && n !in peers
  }

  function After(net: Network, e: Event): Network
    requires Enabled(net, e)
  {
    match e
    case Originate(n, msg, choice) => Handle(net, n, None, msg, choice)
    case Deliver(p, choice) => Handle(Take(net, p), p.dst, Some(p.src), p.msg, choice)
    case Lose(p) => Take(net, p)
    case ChangePeers(n, peers) => net.(nodes := net.nodes[n := net.nodes[n].(peers := peers)])
  }

  ghost predicate Initial(net: Network) {
    && net.flight == multiset{} && net.accepted == {} && net.sent == 0 && net.taken == 0
    && forall n :: n in net.nodes ==> n !in net.nodes[n].peers && net.nodes[n].seenOrder == [] && net.nodes[n].log == []
  }

  // A run: states linked by enabled events that only originate messages with hashes in `hashes`.
  ghost predicate IsRun(states: seq<Network>, events: seq<Event>, hashes: set<Hash>) {
    && |states| == |events| + 1 && Initial(states[0])
    && forall k :: 0 <= k < |events| ==>
         && Enabled(states[k], events[k]) && states[k + 1] == After(states[k], events[k])
         && (events[k].Originate? ==> events[k].msg.Id() in hashes)
  }

  // What every step keeps, when every window can hold all hashes in play.
  ghost predicate Inv(net: Network, hashes: set<Hash>) {
    && NodesOk(net.nodes, hashes) && AcceptedOk(net.nodes, net.accepted, hashes) && FlightOk(net.flight, hashes)
    && net.sent <= 3 * |net.accepted|
    && net.sent == net.taken + |net.flight|
  }

  // No node is its own peer, and no window has dropped anything.
  ghost predicate NodesOk(nodes: map<PeerId, NodeState>, hashes: set<Hash>) {
    forall n :: n in nodes ==>
      && n !in nodes[n].peers && nodes[n].maxSeen >= |hashes|
      && nodes[n].seenOrder == nodes[n].log && NoDuplicates(nodes[n].log)
  }

  // The history is what the logs say.
  ghost predicate AcceptedOk(nodes: map<PeerId, NodeState>, accepted: set<(PeerId, Hash)>, hashes: set<Hash>) {
    forall n, h :: ((n, h) in accepted <==> n in nodes && h in nodes[n].log) && ((n, h) in accepted ==> h in hashes)
  }

  ghost predicate FlightOk(flight: multiset<Packet>, hashes: set<Hash>) {
    forall p :: p in flight ==> p.src != p.dst && p.msg.IsFlooded() && p.msg.Id() in hashes
  }

  // A duplicate-free list within a set is no longer than the set.
  lemma {:induction false} NoDuplicatesFits(s: seq<Hash>, hashes: set<Hash>)
    requires NoDuplicates(s) && forall h :: h in s ==> h in hashes
    ensures |s| <= |hashes|
    decreases |s|
  {
    if s != [] {
      var rest := s[..|s| - 1];
      assert forall i :: 0 <= i < |rest| ==> rest[i] in s;
      NoDuplicatesFits(rest, hashes - {s[|s| - 1]});
    }
  }

  // Accepting a new hash does not overflow the window.
  lemma AcceptKeepsNodes(net: Network, hashes: set<Hash>, n: PeerId, h: Hash)
    requires NodesOk(net.nodes, hashes) && AcceptedOk(net.nodes, net.accepted, hashes)
    requires n in net.nodes && h !in net.nodes[n].log && h in hashes
    ensures NodesOk(net.nodes[n := Accept(net.nodes[n], h)], hashes)
  {
    var s := net.nodes[n];
    forall g | g in s.log + [h] ensures g in hashes {
      if g in s.log {
        assert (n, g) in net.accepted;
      }
    }
    NoDuplicatesFits(s.log + [h], hashes);
    assert Accept(s, h).seenOrder == s.log + [h];
  }

  lemma AcceptKeepsHistory(net: Network, hashes: set<Hash>, n: PeerId, h: Hash)
    requires AcceptedOk(net.nodes, net.accepted, hashes)
    requires n in net.nodes && h !in net.nodes[n].log && h in hashes
    ensures AcceptedOk(net.nodes[n := Accept(net.nodes[n], h)], net.accepted + {(n, h)}, hashes)
    ensures (n, h) !in net.accepted && |net.accepted + {(n, h)}| == |net.accepted| + 1
  {
    assert (n, h) !in net.accepted;
  }

  lemma SendsKeepFlight(net: Network, hashes: set<Hash>, n: PeerId, from: Option<PeerId>, msg: Message,
                        choice: seq<PeerId>)
    requires NodesOk(net.nodes, hashes) && FlightOk(net.flight, hashes)
    requires n in net.nodes && msg.IsFlooded() && msg.Id() in hashes && ValidChoice(net.nodes[n].peers, choice)
    ensures FlightOk(net.flight + Packets(n, Sends(choice, from, msg)), hashes)
    ensures |Packets(n, Sends(choice, from, msg))| == |Sends(choice, from, msg)| <= 3
  {
    SendsBound(choice, from, msg);
    PacketsSize(n, Sends(choice, from, msg));
  }

  lemma HandleKeeps(net: Network, hashes: set<Hash>, n: PeerId, from: Option<PeerId>, msg: Message, choice: seq<PeerId>)
    requires Inv(net, hashes) && msg.IsFlooded() && msg.Id() in hashes
    requires n in net.nodes ==> ValidChoice(net.nodes[n].peers, choice)
    ensures Inv(Handle(net, n, from, msg, choice), hashes)
  {
    hide NodesOk, AcceptedOk, FlightOk, Packets, Sends, Accept, ValidChoice;
    if n in net.nodes && msg.Id() !in net.nodes[n].seenOrder {
      OrderIsLog(net, hashes, n);
      AcceptKeepsNodes(net, hashes, n, msg.Id());
      AcceptKeepsHistory(net, hashes, n, msg.Id());
      SendsKeepFlight(net, hashes, n, from, msg, choice);
    }
  }

  lemma OrderIsLog(net: Network, hashes: set<Hash>, n: PeerId)
    requires NodesOk(net.nodes, hashes) && n in net.nodes
    ensures net.nodes[n].seenOrder == net.nodes[n].log
  {}

  lemma TakeKeeps(net: Network, hashes: set<Hash>, p: Packet)
    requires Inv(net, hashes) && p in net.flight
    ensures Inv(Take(net, p), hashes)
  {
    hide NodesOk, AcceptedOk;
    assert |net.flight - multiset{p}| == |net.flight| - 1;
  }

  lemma PeersKeep(net: Network, hashes: set<Hash>, n: PeerId, peers: map<PeerId, Peer>)
    requires Inv(net, hashes) && n in net.nodes && n !in peers
    ensures Inv(net.(nodes := net.nodes[n := net.nodes[n].(peers := peers)]), hashes)
  {}

  lemma StepKeeps(net: Network, hashes: set<Hash>, e: Event)
    requires Inv(net, hashes) && Enabled(net, e) && (e.Originate? ==> e.msg.Id() in hashes)
    ensures Inv(After(net, e), hashes) && After(net, e).nodes.Keys == net.nodes.Keys
  {
    hide Inv;
    match e
    case Originate(n, msg, choice) =>
      HandleKeeps(net, hashes, n, None, msg, choice);
    case Deliver(p, choice) =>
      TakeKeeps(net, hashes, p);
      FlightHashes(net, hashes, p);
      HandleKeeps(Take(net, p), hashes, p.dst, Some(p.src), p.msg, choice);
    case Lose(p) =>
      TakeKeeps(net, hashes, p);
    case ChangePeers(n, peers) =>
      PeersKeep(net, hashes, n, peers);
  }

  lemma FlightHashes(net: Network, hashes: set<Hash>, p: Packet)
    requires Inv(net, hashes) && p in net.flight
    ensures p.msg.IsFlooded() && p.msg.Id() in hashes
  {}

  // Every window of the network can hold all hashes in play.
  ghost predicate WindowsFit(net: Network, hashes: set<Hash>) {
    forall n :: n in net.nodes ==> net.nodes[n].maxSeen >= |hashes|
  }

  lemma {:induction false} RunKeeps(states: seq<Network>, events: seq<Event>, hashes: set<Hash>, k: nat)
    requires IsRun(states, events, hashes) && WindowsFit(states[0], hashes) && k < |states|
    ensures Inv(states[k], hashes) && states[k].nodes.Keys == states[0].nodes.Keys
    decreases k
  {
    hide Inv, After;
    if k == 0 {
      InitialInv(states[0], hashes);
    } else {
      RunKeeps(states, events, hashes, k - 1);
      StepKeeps(states[k - 1], hashes, events[k - 1]);
    }
  }

  lemma InitialInv(net: Network, hashes: set<Hash>)
    requires Initial(net) && WindowsFit(net, hashes)
    ensures Inv(net, hashes)
  {}

  // ----- counting accepted pairs -----

  lemma {:induction false} RowBound(pairs: set<(PeerId, Hash)>, n: PeerId, hashes: set<Hash>)
    requires forall x :: x in pairs ==> x.0 == n && x.1 in hashes
    ensures |pairs| <= |hashes|
    decreases |pairs|
  {
    if pairs != {} {
      var x :| x in pairs;
      RowBound(pairs - {x}, n, hashes - {x.1});
    }
  }

  lemma {:induction false} PairsBound(pairs: set<(PeerId, Hash)>, nodes: set<PeerId>, hashes: set<Hash>)
    requires forall x :: x in pairs ==> x.0 in nodes && x.1 in hashes
    ensures |pairs| <= |nodes| * |hashes|
    decreases |nodes|
  {
    if pairs != {} {
      var x :| x in pairs;
      var n := x.0;
      var row := set y | y in pairs && y.0 == n;
      RowBound(row, n, hashes);
      PairsBound(pairs - row, nodes - {n}, hashes);
      assert |pairs| == |row| + |pairs - row|;
      assert |nodes - {n}| == |nodes| - 1;
      assert (|nodes| - 1) * |hashes| + |hashes| == |nodes| * |hashes|;
    }
  }

  // Deliveries and losses among the first k events.
  function Takes(events: seq<Event>, k: nat): nat
    requires k <= |events|
  {
    if k == 0 then 0 else Takes(events, k - 1) + if events[k - 1].Deliver? || events[k - 1].Lose? then 1 else 0
  }

  lemma {:induction false} TakenCounts(states: seq<Network>, events: seq<Event>, hashes: set<Hash>, k: nat)
    requires IsRun(states, events, hashes) && k < |states|
    ensures states[k].taken == Takes(events, k)
    decreases k
  {
    if k > 0 {
      TakenCounts(states, events, hashes, k - 1);
    }
  }

  /**
   The flood is bounded: with N nodes, K hashes in play and windows of at least K,
   every run sends at most 3*N*K block and transaction messages, and so delivers or
   loses at most that many.
   */
  lemma FloodIsBounded(states: seq<Network>, events: seq<Event>, hashes: set<Hash>)
    requires IsRun(states, events, hashes) && WindowsFit(states[0], hashes)
    ensures states[|events|].sent <= 3 * (|states[0].nodes| * |hashes|)
    ensures Takes(events, |events|) + |states[|events|].flight| == states[|events|].sent
  {
    RunKeeps(states, events, hashes, |events|);
    TakenCounts(states, events, hashes, |events|);
    var net := states[|events|];
    PairsBound(net.accepted, net.nodes.Keys, hashes);
  }

  lemma {:induction false} AcceptedForever(states: seq<Network>, events: seq<Event>, hashes: set<Hash>, k: nat, l: nat)
    requires IsRun(states, events, hashes) && k <= l < |states|
    ensures states[k].accepted <= states[l].accepted
    decreases l
  {
    if k < l {
      AcceptedForever(states, events, hashes, k, l - 1);
    }
  }

  // The step puts q on its way.
  ghost predicate PutsOut(before: Network, after: Network, q: Packet) {
    after.flight[q] > before.flight[q]
  }

  /**
   A step puts a packet out only when its sender accepts the hash for the first
   time, never towards the sender itself, and on a delivery never back to where the
   delivered packet came from.
   */
  lemma PutOutOnAcceptance(net: Network, hashes: set<Hash>, e: Event, q: Packet)
    requires Inv(net, hashes) && Enabled(net, e) && PutsOut(net, After(net, e), q)
    ensures q.msg.IsFlooded() && q.src != q.dst
    ensures (q.src, q.msg.Id()) !in net.accepted && (q.src, q.msg.Id()) in After(net, e).accepted
    ensures e.Deliver? ==> q.src == e.packet.dst && q.msg == e.packet.msg && q.dst != e.packet.src
  {
    hide Sends, Packets, FlightOk, ValidChoice;
    match e
    case Originate(n, msg, choice) =>
      NewPackets(net, hashes, n, None, msg, choice, q);
    case Deliver(p, choice) =>
      NewPackets(net, hashes, p.dst, Some(p.src), p.msg, choice, q);
    case Lose(p) =>
    case ChangePeers(n, peers) =>
  }

  // The packets a node puts out for a message.
  lemma NewPackets(net: Network, hashes: set<Hash>, n: PeerId, from: Option<PeerId>, msg: Message, choice: seq<PeerId>,
                   q: Packet)
    requires NodesOk(net.nodes, hashes) && AcceptedOk(net.nodes, net.accepted, hashes) && msg.IsFlooded()
    requires n in net.nodes ==> ValidChoice(net.nodes[n].peers, choice)
    ensures n in net.nodes && q in Packets(n, Sends(choice, from, msg)) ==>
              q.src == n && q.msg == msg && q.dst != n && Some(q.dst) != from
    ensures n in net.nodes && msg.Id() !in net.nodes[n].seenOrder ==> (n, msg.Id()) !in net.accepted
  {
    SendsBound(choice, from, msg);
    PacketsSize(n, Sends(choice, from, msg));
  }

  /** No node sends a hash out in two different steps of a run. */
  lemma ForwardsOnce(states: seq<Network>, events: seq<Event>, hashes: set<Hash>, k: nat, l: nat, q: Packet, r: Packet)
    requires IsRun(states, events, hashes) && WindowsFit(states[0], hashes) && k < l < |events|
    requires PutsOut(states[k], states[k + 1], q) && q.msg.IsFlooded()
    requires r.src == q.src && r.msg.IsFlooded() && r.msg.Id() == q.msg.Id()
    ensures !PutsOut(states[l], states[l + 1], r)
  {
    hide Inv, After, PutsOut;
    RunKeeps(states, events, hashes, k);
    RunKeeps(states, events, hashes, l);
    PutOutOnAcceptance(states[k], hashes, events[k], q);
    AcceptedForever(states, events, hashes, k + 1, l);
    if PutsOut(states[l], states[l + 1], r) {
      PutOutOnAcceptance(states[l], hashes, events[l], r);
    }
  }
}
