/**
 The settlement DAG: transactions that name their parents, inserted one at a
 time, and the levels of transactions that can be settled in parallel.
 */
module Dag {
  import opened Results
  import opened Sequences
  import opened Graph

  datatype TxKind =
    | TransferOikos | TransferKoin | MintKoin | BurnKoin
    | EscrowCreate | EscrowRelease | EscrowCancel
    | StreamStart | StreamStop | RfpPublish | RfpRespond | MandateCreate | MandateSpend

  datatype TxStatus = Pending | Settled | Failed | Conflict

  datatype Transaction = Transaction(
    hash: TxHash, kind: TxKind, sender: nat, recipient: nat, oikosAmount: nat, koinAmount: int,
    gasLimit: nat, nonce: nat, parentHashes: seq<TxHash>, timestamp: nat)
  {
    predicate ConflictsWith(other: Transaction) { sender == other.sender && nonce == other.nonce }
  }

  datatype DagNode = DagNode(tx: Transaction, status: TxStatus, children: seq<TxHash>)

  type Nodes = map<TxHash, DagNode>

  datatype DagError = MissingParent(parent: TxHash) | AlreadyExists(hash: TxHash)

  datatype InsertResult = Inserted | Refused(error: DagError)

  function ParentsOf(nodes: Nodes): Parents {
    map h | h in nodes :: nodes[h].tx.parentHashes
  }

  // The child pushed once onto each listed parent's child list.
  function Linked(nodes: Nodes, parents: seq<TxHash>, child: TxHash): Nodes {
    if parents == [] then nodes
    else
      var before := Linked(nodes, parents[..|parents| - 1], child);
      var p := parents[|parents| - 1];
      if p in before then before[p := before[p].(children := before[p].children + [child])] else before
  }

  lemma {:induction false} LinkedKeeps(nodes: Nodes, parents: seq<TxHash>, child: TxHash)
    ensures Linked(nodes, parents, child).Keys == nodes.Keys
    ensures forall h :: h in nodes ==>
              && Linked(nodes, parents, child)[h].tx == nodes[h].tx
              && Linked(nodes, parents, child)[h].status == nodes[h].status
    decreases |parents|
  {
    if parents != [] {
      LinkedKeeps(nodes, parents[..|parents| - 1], child);
    }
  }

  // How often c is listed as a child of h.
  function Listed(nodes: Nodes, h: TxHash, c: TxHash): nat
    requires h in nodes
  {
    multiset(nodes[h].children)[c]
  }

  lemma {:induction false} LinkedChildren(nodes: Nodes, parents: seq<TxHash>, child: TxHash, h: TxHash, c: TxHash)
    requires h in nodes
    ensures h in Linked(nodes, parents, child)
    ensures Listed(Linked(nodes, parents, child), h, c)
         == Listed(nodes, h, c) + if c == child then multiset(parents)[h] else 0
    decreases |parents|
  {
    if parents != [] {
      var n := |parents| - 1;
      LinkedChildren(nodes, parents[..n], child, h, c);
      assert parents == parents[..n] + [parents[n]];
    }
  }

  // The state after inserting a transaction that is new and whose parents are present.
  function WithNode(nodes: Nodes, tx: Transaction): Nodes {
    Linked(nodes, tx.parentHashes, tx.hash)[tx.hash := DagNode(tx, Pending, [])]
  }

  predicate CanInsert(nodes: Nodes, tx: Transaction) {
    tx.hash !in nodes && forall p :: p in tx.parentHashes ==> p in nodes
  }

  // p is the first listed parent that is absent.
  ghost predicate FirstMissing(nodes: Nodes, parents: seq<TxHash>, p: TxHash) {
    exists i :: 0 <= i < |parents| && parents[i] == p && p !in nodes && forall j :: 0 <= j < i ==> parents[j] in nodes
  }

  // Child lists mirror parent lists, with multiplicity.
  ghost predicate ChildrenMirrorParents(nodes: Nodes) {
    forall p, c :: p in nodes ==>
      Listed(nodes, p, c) == if c in nodes then multiset(nodes[c].tx.parentHashes)[p] else 0
  }

  ghost predicate HashesMatch(nodes: Nodes) {
    forall h :: h in nodes ==> nodes[h].tx.hash == h
  }

  // What insertion keeps, whatever happens to statuses.
  ghost predicate WellFormed(nodes: Nodes, rank: map<TxHash, nat>) {
    && Ranked(ParentsOf(nodes), rank) && HashesMatch(nodes) && ChildrenMirrorParents(nodes)
    && forall h :: h in nodes ==> rank[h] < |nodes|
  }

  lemma WithNodeFields(nodes: Nodes, tx: Transaction)
    requires CanInsert(nodes, tx)
    ensures WithNode(nodes, tx).Keys == nodes.Keys + {tx.hash} && |WithNode(nodes, tx)| == |nodes| + 1
    ensures ParentsOf(WithNode(nodes, tx)) == ParentsOf(nodes)[tx.hash := tx.parentHashes]
    ensures WithNode(nodes, tx)[tx.hash] == DagNode(tx, Pending, [])
    ensures forall h :: h in nodes ==>
              WithNode(nodes, tx)[h].tx == nodes[h].tx && WithNode(nodes, tx)[h].status == nodes[h].status
  {
    hide Linked;
    LinkedKeeps(nodes, tx.parentHashes, tx.hash);
    var after := WithNode(nodes, tx);
    assert after.Keys == nodes.Keys + {tx.hash};
    assert |after.Keys| == |nodes.Keys| + 1;
  }

  lemma WithNodeDef(nodes: Nodes, tx: Transaction)
    requires CanInsert(nodes, tx)
    ensures WithNode(nodes, tx) == Linked(nodes, tx.parentHashes, tx.hash)[tx.hash := DagNode(tx, Pending, [])]
    ensures WithNode(nodes, tx).Keys == nodes.Keys + {tx.hash}
  {
    hide Linked;
    LinkedKeeps(nodes, tx.parentHashes, tx.hash);
  }

  lemma WithNodeMirrors(nodes: Nodes, tx: Transaction, p: TxHash, c: TxHash)
    requires CanInsert(nodes, tx) && p in WithNode(nodes, tx)
    requires p in nodes ==> Listed(nodes, p, tx.hash) == 0
    requires p in nodes ==> Listed(nodes, p, c) == if c in nodes then multiset(nodes[c].tx.parentHashes)[p] else 0
    requires c in nodes ==> tx.hash !in nodes[c].tx.parentHashes
    ensures Listed(WithNode(nodes, tx), p, c)
         == if c in WithNode(nodes, tx) then multiset(WithNode(nodes, tx)[c].tx.parentHashes)[p] else 0
  {
    hide Linked, CanInsert, ParentsOf;
    assert tx.hash !in tx.parentHashes && tx.hash !in nodes by { NotOwnParent(nodes, tx); }
    WithNodeFields(nodes, tx);
    if p != tx.hash {
      LinkedChildren(nodes, tx.parentHashes, tx.hash, p, c);
    }
  }

  lemma NotOwnParent(nodes: Nodes, tx: Transaction)
    requires CanInsert(nodes, tx)
    ensures tx.hash !in tx.parentHashes && tx.hash !in nodes
  {}

  /** Insertion keeps the DAG well formed; the new node ranks above all others. */
  lemma WithNodeWellFormed(nodes: Nodes, rank: map<TxHash, nat>, tx: Transaction)
    requires WellFormed(nodes, rank) && CanInsert(nodes, tx)
    ensures WellFormed(WithNode(nodes, tx), rank[tx.hash := |nodes|])
  {
    hide WithNode, Ranked, ChildrenMirrorParents, CanInsert, ParentsOf;
    WithNodeFields(nodes, tx);
    RankedKeys(nodes, rank);
    WithNodeRanked(nodes, rank, tx);
    NotOwnParent(nodes, tx);
    NewHashUnlisted(nodes, rank, tx);
    WithNodeChildren(nodes, tx);
  }

  lemma RankedKeys(nodes: Nodes, rank: map<TxHash, nat>)
    requires Ranked(ParentsOf(nodes), rank)
    ensures forall h :: h in nodes ==> h in rank
  {
    forall h | h in nodes ensures h in rank {
      assert h in ParentsOf(nodes).Keys;
    }
  }

  lemma WithNodeRanked(nodes: Nodes, rank: map<TxHash, nat>, tx: Transaction)
    requires Ranked(ParentsOf(nodes), rank) && CanInsert(nodes, tx)
    requires forall h :: h in nodes ==> h in rank && rank[h] < |nodes|
    ensures Ranked(ParentsOf(WithNode(nodes, tx)), rank[tx.hash := |nodes|])
  {
    hide WithNode, Ranked;
    WithNodeFields(nodes, tx);
    RankedExtend(ParentsOf(nodes), rank, tx.hash, tx.parentHashes, |nodes|);
  }

  lemma WithNodeChildren(nodes: Nodes, tx: Transaction)
    requires ChildrenMirrorParents(nodes) && CanInsert(nodes, tx)
    requires forall c :: c in nodes ==> tx.hash !in nodes[c].tx.parentHashes
    ensures ChildrenMirrorParents(WithNode(nodes, tx))
  {
    hide WithNode, Listed;
    var after := WithNode(nodes, tx);
    forall p, c | p in after
      ensures Listed(after, p, c) == if c in after then multiset(after[c].tx.parentHashes)[p] else 0
    {
      WithNodeMirrors(nodes, tx, p, c);
    }
  }

  lemma NewHashUnlisted(nodes: Nodes, rank: map<TxHash, nat>, tx: Transaction)
    requires Ranked(ParentsOf(nodes), rank) && tx.hash !in nodes
    ensures forall c :: c in nodes ==> tx.hash !in nodes[c].tx.parentHashes
  {
    forall c | c in nodes ensures tx.hash !in nodes[c].tx.parentHashes {
      var g := ParentsOf(nodes);
      assert forall p :: p in g[c] ==> p in g;
    }
  }

  // Every depth recorded so far is right.
  ghost predicate MemoOk(g: Parents, depths: map<TxHash, nat>) {
    forall h :: h in depths ==> h in g && IsDepth(g, h, depths[h])
  }

  lemma MemoAt(g: Parents, depths: map<TxHash, nat>, h: TxHash)
    requires MemoOk(g, depths) && h in depths
    ensures h in g && IsDepth(g, h, depths[h])
  {}

  lemma MemoExtend(g: Parents, depths: map<TxHash, nat>, h: TxHash, d: nat)
    requires MemoOk(g, depths) && h in g && IsDepth(g, h, d)
    ensures MemoOk(g, depths[h := d])
    ensures h in depths ==> depths[h] == d
  {
    hide IsDepth;
    if h in depths {
      DepthUnique(g, h, depths[h], d);
    }
  }

  class DagState {
    var nodes: Nodes
    var tipSet: set<TxHash>
    ghost var rank: map<TxHash, nat>

    ghost predicate Valid()
      reads this
    {
      WellFormed(nodes, rank) && tipSet == nodes.Keys
    }

    constructor ()
      ensures Valid() && nodes == map[]
    {
      nodes := map[];
      tipSet := {};
      rank := map[];
    }

    /**
     Insertion.  Refuses a known hash, then the first absent parent; otherwise
     links the node below its parents.  Nothing ever leaves the tip set, so it
     stays equal to the set of all inserted hashes.
     */
    method Insert(tx: Transaction) returns (r: InsertResult)
      requires Valid()
      modifies this
      ensures Valid()
      ensures r.Inserted? <==> CanInsert(old(nodes), tx)
      ensures r.Inserted? ==> nodes == WithNode(old(nodes), tx)
      ensures r.Refused? ==> nodes == old(nodes) && tipSet == old(tipSet)
      ensures r.Refused? && tx.hash in old(nodes) ==> r.error == AlreadyExists(tx.hash)
      ensures r.Refused? && tx.hash !in old(nodes) ==>
                r.error.MissingParent? && FirstMissing(old(nodes), tx.parentHashes, r.error.parent)
    {
      hide WellFormed, Linked, WithNode, ParentsOf, FirstMissing;
      if tx.hash in nodes {
        return Refused(AlreadyExists(tx.hash));
      }
      var missing := AbsentParent(tx.parentHashes);
      if missing.Some? {
        return Refused(MissingParent(missing.value));
      }
      WithNodeWellFormed(nodes, rank, tx);
      WithNodeDef(nodes, tx);
      var node := DagNode(tx, Pending, []);
      tipSet := tipSet - {tx.hash};
      LinkParents(tx);
      nodes := nodes[tx.hash := node];
      tipSet := tipSet + {tx.hash};
      rank := rank[tx.hash := |old(nodes)|];
      return Inserted;
    }

    method AbsentParent(parents: seq<TxHash>) returns (r: Option<TxHash>)
      ensures r.None? <==> forall p :: p in parents ==> p in nodes
      ensures r.Some? ==> FirstMissing(nodes, parents, r.value)
    {
      for i := 0 to |parents|
        invariant forall j :: 0 <= j < i ==> parents[j] in nodes
      {
        if parents[i] !in nodes {
          return Some(parents[i]);
        }
      }
      return None;
    }

    method LinkParents(tx: Transaction)
      modifies this`nodes
      ensures nodes == Linked(old(nodes), tx.parentHashes, tx.hash)
    {
      var ps := tx.parentHashes;
      assert ps[..0] == [];
      for i := 0 to |ps|
        invariant nodes == Linked(old(nodes), ps[..i], tx.hash)
      {
        var p := ps[i];
        assert ps[..i + 1][..i] == ps[..i];
        if p in nodes {
          nodes := nodes[p := nodes[p].(children := nodes[p].children + [tx.hash])];
        }
      }
      assert ps[..|ps|] == ps;
    }

    /** Memoised depth of one node: fills in the node and its ancestors, overwriting nothing. */
    method ComputeDepth(hash: TxHash, memo: map<TxHash, nat>) returns (depths: map<TxHash, nat>)
      requires Valid() && hash in nodes && MemoOk(ParentsOf(nodes), memo)
      ensures MemoOk(ParentsOf(nodes), depths) && hash in depths
      ensures forall h :: h in memo ==> h in depths && depths[h] == memo[h]
      decreases rank[hash]
    {
      hide IsDepth, ChildrenMirrorParents, HashesMatch, MemoOk;
      depths := memo;
      if hash in depths {
        return;
      }
      var ps := nodes[hash].tx.parentHashes;
      assert ps == ParentsOf(nodes)[hash];
      var maxParentDepth := 0;
      for i := 0 to |ps|
        invariant MemoOk(ParentsOf(nodes), depths)
        invariant forall h :: h in memo ==> h in depths && depths[h] == memo[h]
        invariant forall j :: 0 <= j < i ==> ps[j] in depths && depths[ps[j]] + 1 <= maxParentDepth
        invariant if i == 0 then maxParentDepth == 0 else exists j :: 0 <= j < i && maxParentDepth == depths[ps[j]] + 1
      {
        ghost var seen := depths;
        depths := ComputeDepth(ps[i], depths);
        assert forall j :: 0 <= j < i ==> ps[j] in seen;
        if maxParentDepth < depths[ps[i]] + 1 {
          maxParentDepth := depths[ps[i]] + 1;
        }
      }
      ghost var g := ParentsOf(nodes);
      forall p | p in g[hash] ensures p in g && p in depths && IsDepth(g, p, depths[p]) {
        MemoAt(g, depths, p);
      }
      DepthFromParents(g, hash, depths, maxParentDepth);
      MemoExtend(g, depths, hash, maxParentDepth);
      depths := depths[hash := maxParentDepth];
    }

    /** All depths, whatever the order in which the map is walked. */
    method ComputeDepths() returns (depths: map<TxHash, nat>)
      requires Valid()
      ensures MemoOk(ParentsOf(nodes), depths) && depths.Keys == nodes.Keys
    {
      hide IsDepth, WellFormed;
      depths := map[];
      var rest := nodes.Keys;
      while rest != {}
        invariant rest <= nodes.Keys && MemoOk(ParentsOf(nodes), depths)
        invariant forall h :: h in nodes && h !in rest ==> h in depths
        decreases |rest|
      {
        var h :| h in rest;
        depths := ComputeDepth(h, depths);
        rest := rest - {h};
      }
    }

    /** The levels: group k is exactly the depth-k nodes. */
    method ParallelizableGroups() returns (groups: seq<seq<TxHash>>)
      requires Valid()
      ensures IsLevelling(ParentsOf(nodes), groups)
    {
      hide IsDepth, HashesMatch, ChildrenMirrorParents, IsLevelling, ListsGroups, SortedByKey;
      var depths := ComputeDepths();
      var byDepth := GroupByDepth(depths);
      GroupsDiffer(byDepth, depths);
      var collected := CollectGroups(byDepth);
      groups := SortByDepth(collected, depths);
      SameListing(collected, groups, byDepth);
      SortedGroupsAreLevels(ParentsOf(nodes), rank, depths, byDepth, groups);
    }
  }

  lemma GroupsDiffer(byDepth: map<nat, seq<TxHash>>, depths: map<TxHash, nat>)
    requires GroupsOf(byDepth, depths, depths.Keys)
    ensures GroupsDistinct(byDepth)
  {
    forall d, e | d in byDepth && e in byDepth && d != e ensures byDepth[d] != byDepth[e] {
      GroupKey(byDepth, depths, d);
      GroupKey(byDepth, depths, e);
    }
  }

  lemma SameListing(collected: seq<seq<TxHash>>, groups: seq<seq<TxHash>>, byDepth: map<nat, seq<TxHash>>)
    requires ListsGroups(collected, byDepth, byDepth.Keys) && multiset(groups) == multiset(collected)
    ensures ListsGroups(groups, byDepth, byDepth.Keys)
  {}

  // Which hashes each depth's group holds.
  ghost predicate GroupsOf(byDepth: map<nat, seq<TxHash>>, depths: map<TxHash, nat>, done: set<TxHash>) {
    && (forall d :: d in byDepth ==> byDepth[d] != [] && NoDuplicates(byDepth[d]))
    && (forall d, h :: d in byDepth && h in byDepth[d] ==> h in done && h in depths && depths[h] == d)
    && (forall h :: h in done && h in depths ==> depths[h] in byDepth && h in byDepth[depths[h]])
  }

  method GroupByDepth(depths: map<TxHash, nat>) returns (byDepth: map<nat, seq<TxHash>>)
    ensures GroupsOf(byDepth, depths, depths.Keys)
  {
    byDepth := map[];
    var rest := depths.Keys;
    while rest != {}
      invariant rest <= depths.Keys && GroupsOf(byDepth, depths, depths.Keys - rest)
      decreases |rest|
    {
      var h :| h in rest;
      var d := depths[h];
      byDepth := byDepth[d := (if d in byDepth then byDepth[d] else []) + [h]];
      rest := rest - {h};
    }
    assert depths.Keys - {} == depths.Keys;
  }

  // The groups in some order.
  method CollectGroups(byDepth: map<nat, seq<TxHash>>) returns (groups: seq<seq<TxHash>>)
    requires GroupsDistinct(byDepth)
    ensures ListsGroups(groups, byDepth, byDepth.Keys)
  {
    hide ListsGroups, GroupsDistinct;
    groups := [];
    var done := {};
    ListsNone(byDepth);
    while byDepth.Keys - done != {}
      invariant done <= byDepth.Keys && ListsGroups(groups, byDepth, done)
      decreases byDepth.Keys - done
    {
      var d :| d in byDepth.Keys - done;
      ListsOneMore(groups, byDepth, done, d);
      groups := groups + [byDepth[d]];
      done := done + {d};
    }
    assert done == byDepth.Keys;
  }

  ghost predicate GroupsDistinct(byDepth: map<nat, seq<TxHash>>) {
    forall d, e :: d in byDepth && e in byDepth && d != e ==> byDepth[d] != byDepth[e]
  }

  // The groups of the given depths, each listed once.
  ghost predicate ListsGroups(groups: seq<seq<TxHash>>, byDepth: map<nat, seq<TxHash>>, done: set<nat>)
    requires done <= byDepth.Keys
  {
    && (forall x :: multiset(groups)[x] <= 1)
    && (forall d :: d in done ==> byDepth[d] in multiset(groups))
    && (forall x :: x in multiset(groups) ==> exists d :: d in done && x == byDepth[d])
  }

  lemma ListsNone(byDepth: map<nat, seq<TxHash>>)
    ensures ListsGroups([], byDepth, {})
  {}

  lemma ListsOneMore(groups: seq<seq<TxHash>>, byDepth: map<nat, seq<TxHash>>, done: set<nat>, d: nat)
    requires done <= byDepth.Keys && ListsGroups(groups, byDepth, done) && GroupsDistinct(byDepth)
    requires d in byDepth && d !in done
    ensures ListsGroups(groups + [byDepth[d]], byDepth, done + {d})
  {
    assert byDepth[d] !in multiset(groups);
    assert multiset(groups + [byDepth[d]]) == multiset(groups) + multiset{byDepth[d]};
  }

  function Key(group: seq<TxHash>, depths: map<TxHash, nat>): nat {
    if group != [] && group[0] in depths then depths[group[0]] else 0
  }

  ghost predicate SortedByKey(groups: seq<seq<TxHash>>, depths: map<TxHash, nat>) {
    forall i, j :: 0 <= i < j < |groups| ==> Key(groups[i], depths) <= Key(groups[j], depths)
  }

  method SortByDepth(groups: seq<seq<TxHash>>, depths: map<TxHash, nat>) returns (sorted: seq<seq<TxHash>>)
    ensures multiset(sorted) == multiset(groups) && SortedByKey(sorted, depths)
  {
    hide SortedByKey, Key;
    sorted := [];
    assert SortedByKey(sorted, depths) by { SortedEmpty(depths); }
    for n := 0 to |groups|
      invariant multiset(sorted) == multiset(groups[..n]) && SortedByKey(sorted, depths)
    {
      assert groups[..n + 1] == groups[..n] + [groups[n]];
      sorted := InsertByKey(sorted, groups[n], depths);
    }
    assert groups[..|groups|] == groups;
  }

  lemma SortedEmpty(depths: map<TxHash, nat>)
    ensures SortedByKey([], depths)
  {}

  // One insertion of the sort, from the back.
  method InsertByKey(sorted: seq<seq<TxHash>>, group: seq<TxHash>, depths: map<TxHash, nat>)
      returns (r: seq<seq<TxHash>>)
    requires SortedByKey(sorted, depths)
    ensures multiset(r) == multiset(sorted) + multiset{group} && SortedByKey(r, depths)
  {
    hide Key, SortedByKey;
    var i := |sorted|;
    while i > 0 && Key(sorted[i - 1], depths) > Key(group, depths)
      invariant 0 <= i <= |sorted|
      invariant forall j :: i <= j < |sorted| ==> Key(sorted[j], depths) > Key(group, depths)
    {
      i := i - 1;
    }
    r := sorted[..i] + [group] + sorted[i..];
    assert multiset(r) == multiset(sorted) + multiset{group} by {
      assert sorted == sorted[..i] + sorted[i..];
    }
    InsertedIsSorted(sorted, group, i, depths);
  }

  lemma InsertedIsSorted(sorted: seq<seq<TxHash>>, group: seq<TxHash>, i: nat, depths: map<TxHash, nat>)
    requires SortedByKey(sorted, depths) && i <= |sorted|
    requires i > 0 ==> Key(sorted[i - 1], depths) <= Key(group, depths)
    requires forall j :: i <= j < |sorted| ==> Key(sorted[j], depths) > Key(group, depths)
    ensures SortedByKey(sorted[..i] + [group] + sorted[i..], depths)
  {
    hide Key;
    var r := sorted[..i] + [group] + sorted[i..];
    forall a, b | 0 <= a < b < |r| ensures Key(r[a], depths) <= Key(r[b], depths) {
      assert a < i ==> Key(sorted[a], depths) <= Key(group, depths);
    }
  }

  lemma ListedTwice<T>(s: seq<T>, i: nat, j: nat)
    requires i < j < |s| && s[i] == s[j]
    ensures multiset(s)[s[i]] >= 2
  {
    assert s == s[..j] + [s[j]] + s[j + 1..];
    assert s[i] in s[..j];
  }

  // A strictly increasing list of naturals without gaps counts from zero.
  lemma {:induction false} NoGapsCounts(keys: seq<nat>, k: nat)
    requires k < |keys|
    requires forall i, j :: 0 <= i < j < |keys| ==> keys[i] < keys[j]
    requires forall v: nat :: v + 1 in keys ==> v in keys
    ensures keys[k] == k
    decreases k
  {
    if k > 0 {
      NoGapsCounts(keys, k - 1);
    }
    if keys[k] > k {
      DownTo(keys, keys[k], k);
      var i :| 0 <= i < |keys| && keys[i] == k;
    }
  }

  lemma {:induction false} DownTo(keys: seq<nat>, from: nat, v: nat)
    requires from in keys && v <= from
    requires forall v: nat :: v + 1 in keys ==> v in keys
    ensures v in keys
    decreases from - v
  {
    if v < from {
      DownTo(keys, from, v + 1);
    }
  }

  lemma GroupKey(byDepth: map<nat, seq<TxHash>>, depths: map<TxHash, nat>, d: nat)
    requires GroupsOf(byDepth, depths, depths.Keys) && d in byDepth
    ensures Key(byDepth[d], depths) == d
  {
    assert byDepth[d][0] in byDepth[d];
  }

  ghost function Keys(groups: seq<seq<TxHash>>, depths: map<TxHash, nat>): seq<nat> {
    seq(|groups|, i requires 0 <= i < |groups| => Key(groups[i], depths))
  }

  lemma KeysNameGroups(depths: map<TxHash, nat>, byDepth: map<nat, seq<TxHash>>, groups: seq<seq<TxHash>>)
    requires GroupsOf(byDepth, depths, depths.Keys)
    requires ListsGroups(groups, byDepth, byDepth.Keys) && SortedByKey(groups, depths)
    ensures var keys := Keys(groups, depths);
      && (forall i :: 0 <= i < |groups| ==> keys[i] in byDepth && groups[i] == byDepth[keys[i]])
      && (forall d :: d in byDepth ==> d in keys)
      && (forall i, j :: 0 <= i < j < |keys| ==> keys[i] < keys[j])
  {
    hide Key, GroupsOf;
    var keys := Keys(groups, depths);
    forall i | 0 <= i < |groups| ensures keys[i] in byDepth && groups[i] == byDepth[keys[i]] {
      assert groups[i] in multiset(groups);
      var d :| d in byDepth && groups[i] == byDepth[d];
      GroupKey(byDepth, depths, d);
    }
    forall i, j | 0 <= i < j < |keys| ensures keys[i] < keys[j] {
      if keys[i] == keys[j] {
        ListedTwice(groups, i, j);
      }
    }
    forall d | d in byDepth ensures d in keys {
      assert byDepth[d] in multiset(groups);
      var i :| 0 <= i < |groups| && groups[i] == byDepth[d];
      GroupKey(byDepth, depths, d);
      assert keys[i] == d;
    }
  }

  lemma SortedGroupsAreLevels(g: Parents, rank: map<TxHash, nat>, depths: map<TxHash, nat>,
                              byDepth: map<nat, seq<TxHash>>,
                              groups: seq<seq<TxHash>>)
    requires Ranked(g, rank) && MemoOk(g, depths) && depths.Keys == g.Keys
    requires GroupsOf(byDepth, depths, depths.Keys)
    requires ListsGroups(groups, byDepth, byDepth.Keys) && SortedByKey(groups, depths)
    ensures IsLevelling(g, groups)
  {
    hide IsDepth, Key, Keys, ListsGroups, SortedByKey;
    KeysNameGroups(depths, byDepth, groups);
    var keys := Keys(groups, depths);
    assert |keys| == |groups| by { KeysLength(groups, depths); }
    forall v: nat | v + 1 in keys ensures v in keys {
      var i :| 0 <= i < |keys| && keys[i] == v + 1;
      var h := byDepth[v + 1][0];
      assert h in byDepth[v + 1];
      var p := DepthsHaveNoGaps(g, rank, h, v + 1);
      DepthUnique(g, p, depths[p], v);
    }
    forall k | 0 <= k < |keys| ensures keys[k] == k {
      NoGapsCounts(keys, k);
    }
    forall k | 0 <= k < |groups| ensures k in byDepth && groups[k] == byDepth[k] {
      assert keys[k] == k;
    }
    GroupsMatchDepths(g, depths, byDepth, groups);
  }

  lemma KeysLength(groups: seq<seq<TxHash>>, depths: map<TxHash, nat>)
    ensures |Keys(groups, depths)| == |groups|
  {}

  lemma GroupsMatchDepths(g: Parents, depths: map<TxHash, nat>, byDepth: map<nat, seq<TxHash>>,
                          groups: seq<seq<TxHash>>)
    requires MemoOk(g, depths) && depths.Keys == g.Keys && GroupsOf(byDepth, depths, depths.Keys)
    requires forall k :: 0 <= k < |groups| ==> k in byDepth && groups[k] == byDepth[k]
    requires forall d :: d in byDepth ==> d < |groups|
    ensures IsLevelling(g, groups)
  {
    hide IsDepth;
    forall h, d: nat | h in g && IsDepth(g, h, d) ensures d == depths[h] && d < |groups| && h in groups[d] {
      DepthUnique(g, h, depths[h], d);
    }
    forall k, h | 0 <= k < |groups| ensures h in groups[k] <==> h in g && IsDepth(g, h, k) {
      if h in groups[k] {
        assert h in byDepth[k] && depths[h] == k;
      }
    }
  }
}
