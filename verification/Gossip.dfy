/**
 Gossip: what one node does with a message, and the bounded window of hashes it
 remembers.
 */
module Gossip {
  import opened Results
  import opened Sequences

  type Hash = nat
  type PeerId = nat

  datatype BlockHeader = BlockHeader(height: nat, hash: Hash, parentHash: Hash, timestamp: nat, validatorId: nat,
                                     txCount: nat, stateRoot: Hash)
  datatype WireTx = WireTx(hash: Hash, kind: nat, sender: nat, recipient: nat, oikosAmount: nat, koinAmount: int,
                           gasLimit: nat, nonce: nat, parentHashes: seq<Hash>, timestamp: nat)

  datatype Message =
    | NewBlock(header: BlockHeader)
    | NewTransaction(tx: WireTx)
    | Ping(nodeId: PeerId, height: nat)
    | Pong(nodeId: PeerId, height: nat)
    | Handshake(chainId: nat, nodeId: PeerId, version: nat)
    | HandshakeAck(chainId: nat, nodeId: PeerId, bestHeight: nat)
    | Ignored
  {
    predicate IsFlooded() { NewBlock? || NewTransaction? }

    function Id(): Hash
      requires IsFlooded()
    {
      if NewBlock? then header.hash else tx.hash
    }
  }

  datatype Peer = Peer(bestHeight: nat, connected: bool)

  // ----- the seen window -----

  function LastN(s: seq<Hash>, n: nat): seq<Hash> {
    if |s| > n then s[|s| - n..] else s
  }

  // Equal entries of the log are more than n apart.
  ghost predicate Spaced(log: seq<Hash>, n: nat) {
    forall i, j :: 0 <= i < j < |log| && log[i] == log[j] ==> j - i > n
  }

  function Elements(s: seq<Hash>): set<Hash> { set h | h in s }

  // The window is the end of the log of accepted marks.
  ghost predicate WindowOk(seenSet: set<Hash>, seenOrder: seq<Hash>, maxSeen: nat, log: seq<Hash>) {
    && seenOrder == LastN(log, maxSeen)
    && seenSet == Elements(seenOrder)
    && NoDuplicates(seenOrder) && Spaced(log, maxSeen)
  }

  lemma LastNSnoc(log: seq<Hash>, n: nat, h: Hash)
    ensures LastN(log + [h], n) == LastN(LastN(log, n) + [h], n)
  {}

  /**
   An unseen hash appended to the log keeps the window law: the window is the end
   of the log, without repetition, and a hash is accepted again only after more
   than maxSeen positions, that is, after at least maxSeen other accepted marks.
   */
  lemma AcceptKeepsWindow(seenOrder: seq<Hash>, maxSeen: nat, log: seq<Hash>, h: Hash)
    requires WindowOk(Elements(seenOrder), seenOrder, maxSeen, log) && h !in seenOrder
    ensures var order := LastN(seenOrder + [h], maxSeen);
      WindowOk(Elements(order), order, maxSeen, log + [h])
  {
    hide LastN, NoDuplicates, Spaced, Elements;
    LastNSnoc(log, maxSeen, h);
    SpacedSnoc(seenOrder, maxSeen, log, h);
    FreshSnoc(seenOrder, maxSeen, h);
  }

  lemma SpacedSnoc(seenOrder: seq<Hash>, maxSeen: nat, log: seq<Hash>, h: Hash)
    requires seenOrder == LastN(log, maxSeen) && Spaced(log, maxSeen) && h !in seenOrder
    ensures Spaced(log + [h], maxSeen)
  {
    var shift := |log| - |seenOrder|;
    assert forall k :: shift <= k < |log| ==> log[k] == seenOrder[k - shift];
  }

  lemma FreshSnoc(seenOrder: seq<Hash>, maxSeen: nat, h: Hash)
    requires NoDuplicates(seenOrder) && h !in seenOrder
    ensures NoDuplicates(LastN(seenOrder + [h], maxSeen))
  {
    assert NoDuplicates(seenOrder + [h]);
  }

  // ----- one node -----

  // The choice of peers: distinct, connected, three of them or all there are.
  ghost predicate ValidChoice(peers: map<PeerId, Peer>, choice: seq<PeerId>) {
    && (forall p :: p in choice ==> p in peers && peers[p].connected)
    && NoDuplicates(choice)
    && |choice| <= 3
    && (|choice| < 3 ==> forall p :: p in peers && peers[p].connected ==> p in choice)
  }

  // The sends a flooded message causes: to the chosen peers, except where it came from.
  function Sends(choice: seq<PeerId>, from: Option<PeerId>, msg: Message): seq<(PeerId, Message)> {
    if choice == [] then []
    else
      var before := Sends(choice[..|choice| - 1], from, msg);
      var p := choice[|choice| - 1];
      if Some(p) == from then before else before + [(p, msg)]
  }

  lemma {:induction false} SendsMembers(choice: seq<PeerId>, from: Option<PeerId>, msg: Message, p: PeerId)
    ensures (p, msg) in Sends(choice, from, msg) <==> p in choice && Some(p) != from
    ensures forall s :: s in Sends(choice, from, msg) ==> s.1 == msg
    decreases |choice|
  {
    if choice != [] {
      var before, last := choice[..|choice| - 1], choice[|choice| - 1];
      SendsMembers(before, from, msg, p);
      assert choice == before + [last];
    }
  }

  lemma {:induction false} SendsCount(choice: seq<PeerId>, from: Option<PeerId>, msg: Message)
    ensures |Sends(choice, from, msg)| <= |choice|
    ensures NoDuplicates(choice) ==>
              |Sends(choice, from, msg)| == |choice| - if from.Some? && from.value in choice then 1 else 0
    decreases |choice|
  {
    if choice != [] {
      var before, last := choice[..|choice| - 1], choice[|choice| - 1];
      SendsCount(before, from, msg);
      assert choice == before + [last];
      assert NoDuplicates(choice) ==> NoDuplicates(before) && last !in before;
    }
  }

  /** The message goes to every chosen peer except its source, once each, and to nobody else. */
  lemma SendsExactly(choice: seq<PeerId>, from: Option<PeerId>, msg: Message)
    ensures forall p :: (p, msg) in Sends(choice, from, msg) <==> p in choice && Some(p) != from
    ensures forall s :: s in Sends(choice, from, msg) ==> s.1 == msg
    ensures |Sends(choice, from, msg)| <= |choice|
    ensures NoDuplicates(choice) ==>
              |Sends(choice, from, msg)| == |choice| - if from.Some? && from.value in choice then 1 else 0
  {
    hide Sends, NoDuplicates;
    SendsCount(choice, from, msg);
    SendsMembers(choice, from, msg, 0);
    forall p ensures (p, msg) in Sends(choice, from, msg) <==> p in choice && Some(p) != from {
      SendsMembers(choice, from, msg, p);
    }
  }

  lemma SendsBound(choice: seq<PeerId>, from: Option<PeerId>, msg: Message)
    ensures |Sends(choice, from, msg)| <= |choice|
    ensures forall s :: s in Sends(choice, from, msg) ==> s.0 in choice && Some(s.0) != from && s.1 == msg
  {
    hide Sends;
    SendsExactly(choice, from, msg);
    forall s | s in Sends(choice, from, msg) ensures s.0 in choice && Some(s.0) != from {
      assert s == (s.0, msg);
    }
  }

  // The peers after one of them has told its height.
  function Heard(peers: map<PeerId, Peer>, id: PeerId, height: nat): map<PeerId, Peer> {
    if id in peers then peers[id := peers[id].(bestHeight := height)] else peers
  }

  class PeerManager {
    var peers: map<PeerId, Peer>
    var maxPeers: nat
    var myId: PeerId

    ghost predicate Valid() reads this { myId !in peers }

    constructor (id: PeerId, max: nat)
      ensures Valid() && peers == map[] && myId == id && maxPeers == max
    {
      peers, maxPeers, myId := map[], max, id;
    }

    /** Refuses the node itself and, when full, anyone new; so a node is never its own peer. */
    method AddPeer(id: PeerId) returns (ok: bool)
      requires Valid()
      modifies this`peers
      ensures Valid()
      ensures ok <==> id != myId && (|old(peers)| < maxPeers || id in old(peers))
      ensures peers == if ok then old(peers)[id := Peer(0, true)] else old(peers)
    {
      if id == myId {
        return false;
      }
      if |peers| >= maxPeers && id !in peers {
        return false;
      }
      peers := peers[id := Peer(0, true)];
      return true;
    }

    method UpdateHeight(id: PeerId, height: nat)
      requires Valid()
      modifies this`peers
      ensures Valid() && peers.Keys == old(peers).Keys
      ensures forall p :: p in peers ==> peers[p].connected == old(peers)[p].connected
      ensures peers == Heard(old(peers), id, height)
    {
      if id in peers {
        peers := peers[id := peers[id].(bestHeight := height)];
      }
    }

    /** Up to three connected peers, in an order and choice left open. */
    method GetRandomPeers() returns (choice: seq<PeerId>)
      ensures ValidChoice(peers, choice)
    {
      var connected := set p | p in peers && peers[p].connected;
      var rest := connected;
      choice := [];
      while rest != {} && |choice| < 3
        invariant rest <= connected && |choice| <= 3
        invariant forall p :: p in choice ==> p in connected && p !in rest
        invariant forall p :: p in connected && p !in rest ==> p in choice
        invariant NoDuplicates(choice)
        decreases |rest|
      {
        var p :| p in rest;
        choice := choice + [p];
        rest := rest - {p};
      }
    }
  }

  class GossipLayer {
    const peerManager: PeerManager
    var messageQueue: seq<(PeerId, Message)>
    var seenSet: set<Hash>
    var seenOrder: seq<Hash>
    const maxSeen: nat
    ghost var log: seq<Hash>

    ghost predicate Valid()
      reads this, peerManager
    {
      WindowOk(seenSet, seenOrder, maxSeen, log) && peerManager.Valid()
    }

    constructor (pm: PeerManager, max: nat)
      requires pm.Valid()
      ensures Valid() && peerManager == pm && maxSeen == max && log == [] && messageQueue == []
    {
      peerManager, maxSeen := pm, max;
      messageQueue, seenSet, seenOrder, log := [], {}, [], [];
    }

    /** The pruning loop drops the oldest entries until the window fits. */
    method PruneSeen()
      requires seenSet == Elements(seenOrder) && NoDuplicates(seenOrder)
      modifies this`seenSet, this`seenOrder
      ensures seenOrder == LastN(old(seenOrder), maxSeen)
      ensures seenSet == Elements(seenOrder)
    {
      while |seenOrder| > maxSeen
        invariant LastN(seenOrder, maxSeen) == LastN(old(seenOrder), maxSeen)
        invariant seenSet == Elements(seenOrder) && NoDuplicates(seenOrder)
      {
        var oldest := seenOrder[0];
        var rest := seenOrder[1..];
        assert forall h :: h in seenOrder <==> h == oldest || h in rest;
        seenOrder := rest;
        seenSet := seenSet - {oldest};
      }
    }

    /** Marking: an unseen hash joins the log and the window, a seen one changes nothing. */
    method MarkSeen(hash: Hash)
      requires Valid()
      modifies this`seenSet, this`seenOrder, this`log
      ensures Valid()
      ensures log == if hash in old(seenSet) then old(log) else old(log) + [hash]
      ensures seenOrder == if hash in old(seenSet) then old(seenOrder) else LastN(old(seenOrder) + [hash], maxSeen)
    {
      if hash !in seenSet {
        AcceptKeepsWindow(seenOrder, maxSeen, log, hash);
        seenSet := seenSet + {hash};
        seenOrder := seenOrder + [hash];
        log := log + [hash];
        PruneSeen();
      }
    }

    // The common part of originating and relaying a flooded message.
    method Flood(msg: Message, from: Option<PeerId>) returns (ghost choice: seq<PeerId>)
      requires Valid() && msg.IsFlooded()
      modifies this`messageQueue, this`seenSet, this`seenOrder, this`log
      ensures Valid()
      ensures log == if msg.Id() in old(seenSet) then old(log) else old(log) + [msg.Id()]
      ensures messageQueue == if msg.Id() in old(seenSet) then old(messageQueue)
                              else old(messageQueue) + Sends(choice, from, msg)
      ensures ValidChoice(peerManager.peers, choice) || msg.Id() in old(seenSet)
    {
      hide WindowOk, Sends;
      choice := [];
      if msg.Id() in seenSet {
        return;
      }
      MarkSeen(msg.Id());
      var peers := peerManager.GetRandomPeers();
      choice := peers;
      Enqueue(peers, from, msg);
    }

    method Enqueue(peers: seq<PeerId>, from: Option<PeerId>, msg: Message)
      modifies this`messageQueue
      ensures messageQueue == old(messageQueue) + Sends(peers, from, msg)
    {
      assert peers[..0] == [];
      for i := 0 to |peers|
        invariant messageQueue == old(messageQueue) + Sends(peers[..i], from, msg)
      {
        assert peers[..i + 1][..i] == peers[..i];
        if Some(peers[i]) != from {
          messageQueue := messageQueue + [(peers[i], msg)];
        }
      }
      assert peers[..|peers|] == peers;
    }

    /** Originating a block: flooded once, to at most three peers. */
    method GossipBlock(header: BlockHeader) returns (ghost choice: seq<PeerId>)
      requires Valid()
      modifies this`messageQueue, this`seenSet, this`seenOrder, this`log
      ensures Valid()
      ensures log == if header.hash in old(seenSet) then old(log) else old(log) + [header.hash]
      ensures messageQueue == if header.hash in old(seenSet) then old(messageQueue)
                              else old(messageQueue) + Sends(choice, None, NewBlock(header))
      ensures ValidChoice(peerManager.peers, choice) || header.hash in old(seenSet)
    {
      choice := Flood(NewBlock(header), None);
    }

    /** Originating a transaction. */
    method GossipTransaction(tx: WireTx) returns (ghost choice: seq<PeerId>)
      requires Valid()
      modifies this`messageQueue, this`seenSet, this`seenOrder, this`log
      ensures Valid()
      ensures log == if tx.hash in old(seenSet) then old(log) else old(log) + [tx.hash]
      ensures messageQueue == if tx.hash in old(seenSet) then old(messageQueue)
                              else old(messageQueue) + Sends(choice, None, NewTransaction(tx))
      ensures ValidChoice(peerManager.peers, choice) || tx.hash in old(seenSet)
    {
      choice := Flood(NewTransaction(tx), None);
    }

    /** Handling a message: relay a new block or transaction, answer pings and handshakes. */
    method HandleMessage(from: PeerId, msg: Message, myHeight: nat)
        returns (responses: seq<Message>, ghost choice: seq<PeerId>)
      requires Valid()
      modifies this`messageQueue, this`seenSet, this`seenOrder, this`log, peerManager`peers
      ensures Valid() && peerManager.peers.Keys == old(peerManager.peers).Keys
      ensures msg.IsFlooded() && msg.Id() !in old(seenSet) ==>
                && log == old(log) + [msg.Id()] && ValidChoice(peerManager.peers, choice)
                && messageQueue == old(messageQueue) + Sends(choice, Some(from), msg)
      ensures !(msg.IsFlooded() && msg.Id() !in old(seenSet)) ==> log == old(log) && messageQueue == old(messageQueue)
      ensures peerManager.peers == match msg
                                   case Ping(_, height) => Heard(old(peerManager.peers), from, height)
                                   case Pong(_, height) => Heard(old(peerManager.peers), from, height)
                                   case HandshakeAck(_, _, height) => Heard(old(peerManager.peers), from, height)
                                   case _ => old(peerManager.peers)
      ensures responses == match msg
                           case Ping(_, _) => [Pong(peerManager.myId, myHeight)]
                           case Handshake(chainId, _, _) => [HandshakeAck(chainId, peerManager.myId, myHeight)]
                           case _ => []
    {
      responses, choice := [], [];
      match msg
      case NewBlock(_) =>
        choice := Flood(msg, Some(from));
      case NewTransaction(_) =>
        choice := Flood(msg, Some(from));
      case Ping(_, height) =>
        peerManager.UpdateHeight(from, height);
        responses := [Pong(peerManager.myId, myHeight)];
      case Pong(_, height) =>
        peerManager.UpdateHeight(from, height);
      case Handshake(chainId, _, _) =>
        responses := [HandshakeAck(chainId, peerManager.myId, myHeight)];
      case HandshakeAck(_, _, bestHeight) =>
        peerManager.UpdateHeight(from, bestHeight);
      case Ignored =>
    }

    method GetPendingMessages() returns (pending: seq<(PeerId, Message)>)
      modifies this`messageQueue
      ensures pending == old(messageQueue) && messageQueue == []
    {
      pending := messageQueue;
      messageQueue := [];
    }
  }
}
