/**
 Batch settlement over the DAG, and what it keeps over whole runs of insertions
 and batches.
 */
module Settlement {
  import opened Graph
  import opened Dag

  datatype SettlementResult = SettlementResult(settled: seq<TxHash>, failed: seq<TxHash>, conflicted: seq<TxHash>)

  // Some other, already settled transaction spends the same (sender, nonce).
  predicate HasConflict(nodes: Nodes, h: TxHash)
    requires h in nodes
  {
    exists g :: g in nodes && nodes[g].status == Settled && g != h && nodes[h].tx.ConflictsWith(nodes[g].tx)
  }

  predicate DepsOk(nodes: Nodes, h: TxHash)
    requires h in nodes
  {
    forall p :: p in nodes[h].tx.parentHashes ==> p in nodes && nodes[p].status == Settled
  }

  // The status a batch gives to a member, judged on the state before the batch.
  function Verdict(nodes: Nodes, h: TxHash): TxStatus
    requires h in nodes
  {
    if HasConflict(nodes, h) then Conflict else if DepsOk(nodes, h) then Settled else Failed
  }

  function AfterBatch(nodes: Nodes, batch: seq<TxHash>): Nodes {
    map h | h in nodes :: if h in batch then nodes[h].(status := Verdict(nodes, h)) else nodes[h]
  }

  // The members of the batch that got the given verdict, in batch order.
  function WithVerdict(nodes: Nodes, batch: seq<TxHash>, v: TxStatus): seq<TxHash> {
    if batch == [] then []
    else
      var before := WithVerdict(nodes, batch[..|batch| - 1], v);
      var h := batch[|batch| - 1];
      if h in nodes && Verdict(nodes, h) == v then before + [h] else before
  }

  lemma {:induction false} WithVerdictMembers(nodes: Nodes, batch: seq<TxHash>, v: TxStatus, h: TxHash)
    ensures h in WithVerdict(nodes, batch, v) <==> h in batch && h in nodes && Verdict(nodes, h) == v
    decreases |batch|
  {
    hide Verdict;
    if batch != [] {
      WithVerdictMembers(nodes, batch[..|batch| - 1], v, h);
      assert batch == batch[..|batch| - 1] + [batch[|batch| - 1]];
    }
  }

  // The given hashes marked with the status.
  function Marked(nodes: Nodes, hashes: seq<TxHash>, status: TxStatus): Nodes {
    map h | h in nodes :: if h in hashes then nodes[h].(status := status) else nodes[h]
  }

  method Mark(dag: DagState, hashes: seq<TxHash>, status: TxStatus)
    modifies dag`nodes
    ensures dag.nodes == Marked(old(dag.nodes), hashes, status)
  {
    for i := 0 to |hashes|
      invariant dag.nodes == Marked(old(dag.nodes), hashes[..i], status)
    {
      assert hashes[..i + 1] == hashes[..i] + [hashes[i]];
      var h := hashes[i];
      if h in dag.nodes {
        dag.nodes := dag.nodes[h := dag.nodes[h].(status := status)];
      }
    }
    assert hashes[..|hashes|] == hashes;
  }

  /**
   Settling a batch: every member present in the DAG gets the verdict judged on
   the state before the batch; nothing else changes.
   */
  method SettleBatch(dag: DagState, batch: seq<TxHash>) returns (r: SettlementResult)
    requires dag.Valid()
    modifies dag`nodes
    ensures dag.Valid()
    ensures dag.nodes == AfterBatch(old(dag.nodes), batch)
    ensures r.settled == WithVerdict(old(dag.nodes), batch, Settled)
    ensures r.failed == WithVerdict(old(dag.nodes), batch, Failed)
    ensures r.conflicted == WithVerdict(old(dag.nodes), batch, Conflict)
  {
    hide WellFormed;
    var settled, failed, conflicted := [], [], [];
    var conflictMap: seq<(TxHash, bool)> := [];
    for i := 0 to |batch|
      invariant |conflictMap| == i
      invariant forall j :: 0 <= j < i ==>
                  conflictMap[j] == (batch[j], batch[j] in dag.nodes && HasConflict(dag.nodes, batch[j]))
    {
      conflictMap := conflictMap + [(batch[i], batch[i] in dag.nodes && HasConflict(dag.nodes, batch[i]))];
    }
    for i := 0 to |batch|
      invariant settled == WithVerdict(dag.nodes, batch[..i], Settled)
      invariant failed == WithVerdict(dag.nodes, batch[..i], Failed)
      invariant conflicted == WithVerdict(dag.nodes, batch[..i], Conflict)
    {
      var (h, hasConflict) := conflictMap[i];
      assert batch[..i + 1][..i] == batch[..i];
      if hasConflict {
        conflicted := conflicted + [h];
      } else if h in dag.nodes {
        if DepsOk(dag.nodes, h) {
          settled := settled + [h];
        } else {
          failed := failed + [h];
        }
      }
    }
    assert batch[..|batch|] == batch;
    Mark(dag, settled, Settled);
    Mark(dag, failed, Failed);
    Mark(dag, conflicted, Conflict);
    MarkedIsAfterBatch(old(dag.nodes), batch);
    AfterBatchWellFormed(old(dag.nodes), batch, dag.rank);
    return SettlementResult(settled, failed, conflicted);
  }

  lemma MarkedIsAfterBatch(nodes: Nodes, batch: seq<TxHash>)
    ensures Marked(Marked(Marked(nodes, WithVerdict(nodes, batch, Settled), Settled),
                          WithVerdict(nodes, batch, Failed), Failed),
                   WithVerdict(nodes, batch, Conflict), Conflict)
         == AfterBatch(nodes, batch)
  {
    hide WithVerdict, HasConflict, DepsOk;
    var m := Marked(Marked(Marked(nodes, WithVerdict(nodes, batch, Settled), Settled),
                           WithVerdict(nodes, batch, Failed), Failed),
                    WithVerdict(nodes, batch, Conflict), Conflict);
    forall h | h in nodes ensures m[h] == AfterBatch(nodes, batch)[h] {
      WithVerdictMembers(nodes, batch, Settled, h);
      WithVerdictMembers(nodes, batch, Failed, h);
      WithVerdictMembers(nodes, batch, Conflict, h);
    }
  }

  lemma AfterBatchWellFormed(nodes: Nodes, batch: seq<TxHash>, rank: map<TxHash, nat>)
    ensures AfterBatch(nodes, batch).Keys == nodes.Keys
    ensures ParentsOf(AfterBatch(nodes, batch)) == ParentsOf(nodes)
    ensures WellFormed(nodes, rank) ==> WellFormed(AfterBatch(nodes, batch), rank)
  {
    hide Verdict, Ranked;
    var after := AfterBatch(nodes, batch);
    assert after.Keys == nodes.Keys;
    assert |after| == |after.Keys| == |nodes.Keys|;
    assert ParentsOf(after) == ParentsOf(nodes);
    assert forall p, c :: p in nodes ==> Listed(after, p, c) == Listed(nodes, p, c);
  }

  // An already settled transaction with the sender and nonce of h.
  ghost predicate SettledRival(nodes: Nodes, h: TxHash)
    requires h in nodes
  {
    exists g :: g in nodes && g != h && nodes[g].status == Settled
                && nodes[g].tx.sender == nodes[h].tx.sender && nodes[g].tx.nonce == nodes[h].tx.nonce
  }

  /**
   What a batch does to each node: a member with a settled rival becomes a conflict,
   whatever its parents; one without settles if its parents are all settled and fails
   otherwise; other nodes keep their status, and nothing but statuses changes.
   */
  lemma BatchOutcome(nodes: Nodes, batch: seq<TxHash>, h: TxHash)
    requires h in nodes
    ensures h in AfterBatch(nodes, batch) && AfterBatch(nodes, batch)[h].tx == nodes[h].tx
    ensures AfterBatch(nodes, batch)[h].children == nodes[h].children
    ensures h !in batch ==> AfterBatch(nodes, batch)[h].status == nodes[h].status
    ensures h in batch && SettledRival(nodes, h) ==> AfterBatch(nodes, batch)[h].status == Conflict
    ensures h in batch && !SettledRival(nodes, h) ==>
              if forall p :: p in nodes[h].tx.parentHashes ==> p in nodes && nodes[p].status == Settled
              then AfterBatch(nodes, batch)[h].status == Settled
              else AfterBatch(nodes, batch)[h].status == Failed
  {
    assert HasConflict(nodes, h) <==> SettledRival(nodes, h);
  }

  // ----- what holds over runs -----

  ghost predicate ConflictFree(nodes: Nodes) {
    forall h, g :: h in nodes && g in nodes && h != g && nodes[h].status == Settled && nodes[g].status == Settled ==>
      !nodes[h].tx.ConflictsWith(nodes[g].tx)
  }

  ghost predicate ClosedUnderParents(nodes: Nodes) {
    forall h :: h in nodes && nodes[h].status == Settled ==> DepsOk(nodes, h)
  }

  ghost predicate Sound(nodes: Nodes) { ConflictFree(nodes) && ClosedUnderParents(nodes) }

  // No two distinct members spend the same (sender, nonce).
  ghost predicate BatchConsistent(nodes: Nodes, batch: seq<TxHash>) {
    forall h, g :: h in batch && g in batch && h != g && h in nodes && g in nodes ==>
      !nodes[h].tx.ConflictsWith(nodes[g].tx)
  }

  // No settled transaction is in the way, and all parents are settled.
  predicate Settleable(nodes: Nodes, h: TxHash)
    requires h in nodes
  {
    !HasConflict(nodes, h) && DepsOk(nodes, h)
  }

  // The same, of the settleable members only.
  ghost predicate SettleableConsistent(nodes: Nodes, batch: seq<TxHash>) {
    forall h, g ::
      (&& h in batch && g in batch && h != g && h in nodes && g in nodes
       && Settleable(nodes, h) && Settleable(nodes, g)) ==> !nodes[h].tx.ConflictsWith(nodes[g].tx)
  }

  /** In a sound state a batch confirms whatever was settled. */
  lemma SettledStaysSettled(nodes: Nodes, batch: seq<TxHash>, h: TxHash)
    requires Sound(nodes) && h in nodes && nodes[h].status == Settled
    ensures AfterBatch(nodes, batch)[h].status == Settled
  {
    assert !HasConflict(nodes, h) && DepsOk(nodes, h);
  }

  /**
   From a sound state, a batch leaves the settled set free of conflicts exactly
   when no two members it settles conflict with each other; parents of settled
   transactions stay settled in any case.
   */
  lemma BatchKeepsSoundExactlyWhen(nodes: Nodes, batch: seq<TxHash>)
    requires Sound(nodes)
    ensures ClosedUnderParents(AfterBatch(nodes, batch))
    ensures ConflictFree(AfterBatch(nodes, batch)) <==> SettleableConsistent(nodes, batch)
  {
    hide Verdict, Settleable, ConflictFree, ClosedUnderParents;
    var after := AfterBatch(nodes, batch);
    forall h | h in nodes && nodes[h].status == Settled ensures after[h].status == Settled {
      SettledStaysSettled(nodes, batch, h);
    }
    SettledAfter(nodes, batch);
    ClosedAfter(nodes, batch);
    if SettleableConsistent(nodes, batch) {
      FreeAfter(nodes, batch);
    } else {
      NotFreeAfter(nodes, batch);
    }
  }

  // Who is settled after a batch, and what that says about the state before.
  lemma SettledAfter(nodes: Nodes, batch: seq<TxHash>)
    requires Sound(nodes)
    ensures forall h :: h in nodes && AfterBatch(nodes, batch)[h].status == Settled ==> DepsOk(nodes, h)
    ensures forall h :: h in nodes && AfterBatch(nodes, batch)[h].status == Settled ==>
              if nodes[h].status == Settled then true else h in batch && !HasConflict(nodes, h)
  {}

  lemma ClosedAfter(nodes: Nodes, batch: seq<TxHash>)
    requires forall h :: h in nodes && nodes[h].status == Settled ==> AfterBatch(nodes, batch)[h].status == Settled
    requires forall h :: h in nodes && AfterBatch(nodes, batch)[h].status == Settled ==> DepsOk(nodes, h)
    ensures ClosedUnderParents(AfterBatch(nodes, batch))
  {
    hide Verdict;
    var after := AfterBatch(nodes, batch);
    forall h | h in after && after[h].status == Settled ensures DepsOk(after, h) {
      assert DepsOk(nodes, h);
    }
  }

  lemma FreeAfter(nodes: Nodes, batch: seq<TxHash>)
    requires Sound(nodes) && SettleableConsistent(nodes, batch)
    ensures ConflictFree(AfterBatch(nodes, batch))
  {
    hide DepsOk;
    var after := AfterBatch(nodes, batch);
    forall h, g | h in after && g in after && h != g && after[h].status == Settled && after[g].status == Settled
      ensures !after[h].tx.ConflictsWith(after[g].tx)
    {
      assert nodes[h].status == Settled && g in batch ==> !HasConflict(nodes, g);
      assert nodes[g].status == Settled && h in batch ==> !HasConflict(nodes, h);
    }
  }

  lemma NotFreeAfter(nodes: Nodes, batch: seq<TxHash>)
    requires !SettleableConsistent(nodes, batch)
    ensures !ConflictFree(AfterBatch(nodes, batch))
  {
    hide HasConflict, DepsOk;
    var after := AfterBatch(nodes, batch);
    var h, g :| h in batch && g in batch && h != g && h in nodes && g in nodes
      && Settleable(nodes, h) && Settleable(nodes, g) && nodes[h].tx.ConflictsWith(nodes[g].tx);
    assert after[h].status == Settled && after[g].status == Settled && after[h].tx.ConflictsWith(after[g].tx);
  }

  // ----- runs -----

  datatype Op = Insert(tx: Transaction) | Batch(hashes: seq<TxHash>)

  function Step(nodes: Nodes, op: Op): Nodes {
    match op
    case Insert(tx) => if CanInsert(nodes, tx) then WithNode(nodes, tx) else nodes
    case Batch(hashes) => AfterBatch(nodes, hashes)
  }

  // The state after the first k operations from the empty DAG.
  function Run(ops: seq<Op>, k: nat): Nodes
    requires k <= |ops|
  {
    if k == 0 then map[] else Step(Run(ops, k - 1), ops[k - 1])
  }

  ghost predicate BatchesConsistent(ops: seq<Op>) {
    forall k :: 0 <= k < |ops| && ops[k].Batch? ==> BatchConsistent(Run(ops, k), ops[k].hashes)
  }

  // The weaker demand: of the members each batch settles.
  ghost predicate BatchesSettleable(ops: seq<Op>) {
    forall k :: 0 <= k < |ops| && ops[k].Batch? ==> SettleableConsistent(Run(ops, k), ops[k].hashes)
  }

  lemma ConsistentIsSettleable(ops: seq<Op>)
    requires BatchesConsistent(ops)
    ensures BatchesSettleable(ops)
  {
    hide Run, Settleable;
    forall k | 0 <= k < |ops| && ops[k].Batch? ensures SettleableConsistent(Run(ops, k), ops[k].hashes) {
      assert BatchConsistent(Run(ops, k), ops[k].hashes);
    }
  }

  /** Every DAG that any run builds is well formed, so it has depths and levels. */
  lemma {:induction false} RunsAreWellFormed(ops: seq<Op>, k: nat) returns (rank: map<TxHash, nat>)
    requires k <= |ops|
    ensures WellFormed(Run(ops, k), rank)
    decreases k
  {
    hide WellFormed, WithNode, AfterBatch;
    if k == 0 {
      rank := map[];
      WellFormedEmpty();
    } else {
      rank := RunsAreWellFormed(ops, k - 1);
      var nodes := Run(ops, k - 1);
      match ops[k - 1]
      case Insert(tx) =>
        if CanInsert(nodes, tx) {
          WithNodeWellFormed(nodes, rank, tx);
          rank := rank[tx.hash := |nodes|];
        }
      case Batch(hashes) =>
        AfterBatchWellFormed(nodes, hashes, rank);
    }
  }

  lemma WellFormedEmpty()
    ensures WellFormed(map[], map[])
  {}

  lemma InsertKeepsSound(nodes: Nodes, tx: Transaction)
    requires Sound(nodes) && CanInsert(nodes, tx)
    ensures Sound(WithNode(nodes, tx))
  {
    hide WithNode, ConflictFree, ClosedUnderParents;
    WithNodeFields(nodes, tx);
    ExtensionFree(nodes, WithNode(nodes, tx), tx.hash);
    ExtensionClosed(nodes, WithNode(nodes, tx), tx.hash);
  }

  // A state that adds one unsettled node and keeps transactions and statuses.
  ghost predicate Extends(nodes: Nodes, after: Nodes, h: TxHash) {
    && after.Keys == nodes.Keys + {h} && after[h].status != Settled && h !in nodes
    && forall g :: g in nodes ==> after[g].tx == nodes[g].tx && after[g].status == nodes[g].status
  }

  lemma ExtensionFree(nodes: Nodes, after: Nodes, h: TxHash)
    requires Extends(nodes, after, h) && ConflictFree(nodes)
    ensures ConflictFree(after)
  {}

  lemma ExtensionClosed(nodes: Nodes, after: Nodes, h: TxHash)
    requires Extends(nodes, after, h) && ClosedUnderParents(nodes)
    ensures ClosedUnderParents(after)
  {
    forall g | g in after && after[g].status == Settled ensures DepsOk(after, g) {
      assert DepsOk(nodes, g);
    }
  }

  /**
   Over every run whose batches settle no two conflicting members, the settled
   set stays conflict-free and closed under parents.
   */
  lemma {:induction false} RunsAreSound(ops: seq<Op>, k: nat)
    requires BatchesSettleable(ops) && k <= |ops|
    ensures Sound(Run(ops, k))
    decreases k
  {
    hide Sound, AfterBatch, WithNode, SettleableConsistent, CanInsert;
    if k == 0 {
      SoundEmpty();
    } else {
      RunsAreSound(ops, k - 1);
      var nodes := Run(ops, k - 1);
      match ops[k - 1]
      case Insert(tx) =>
        if CanInsert(nodes, tx) {
          InsertKeepsSound(nodes, tx);
        }
      case Batch(hashes) =>
        SoundAfterBatchExactlyWhen(nodes, hashes);
    }
  }

  ghost predicate AlwaysSound(ops: seq<Op>) {
    forall k :: 0 <= k <= |ops| ==> Sound(Run(ops, k))
  }

  /** And only over those: any other batch breaks the settled set at once. */
  lemma RunsAreSoundExactlyWhen(ops: seq<Op>)
    ensures AlwaysSound(ops) <==> BatchesSettleable(ops)
  {
    hide Sound, SettleableConsistent, Run;
    if BatchesSettleable(ops) {
      forall k | 0 <= k <= |ops| ensures Sound(Run(ops, k)) {
        RunsAreSound(ops, k);
      }
    }
    if AlwaysSound(ops) {
      forall k | 0 <= k < |ops| && ops[k].Batch? ensures SettleableConsistent(Run(ops, k), ops[k].hashes) {
        StepOfBatch(ops, k);
        SoundAfterBatchExactlyWhen(Run(ops, k), ops[k].hashes);
      }
    }
  }

  lemma StepOfBatch(ops: seq<Op>, k: nat)
    requires k < |ops| && ops[k].Batch?
    ensures Run(ops, k + 1) == AfterBatch(Run(ops, k), ops[k].hashes)
  {}

  lemma SoundEmpty()
    ensures Sound(map[])
  {}

  lemma SoundAfterBatchExactlyWhen(nodes: Nodes, batch: seq<TxHash>)
    requires Sound(nodes)
    ensures Sound(AfterBatch(nodes, batch)) <==> SettleableConsistent(nodes, batch)
  {
    hide SettleableConsistent, AfterBatch, ConflictFree, ClosedUnderParents;
    BatchKeepsSoundExactlyWhen(nodes, batch);
  }

  /** A settled transaction never loses that status later in the run. */
  lemma {:induction false} SettledForever(ops: seq<Op>, k: nat, l: nat, h: TxHash)
    requires BatchesSettleable(ops) && k <= l <= |ops|
    requires h in Run(ops, k) && Run(ops, k)[h].status == Settled
    ensures h in Run(ops, l) && Run(ops, l)[h].status == Settled && Run(ops, l)[h].tx == Run(ops, k)[h].tx
    decreases l
  {
    hide Sound, Step, BatchesSettleable;
    if k < l {
      SettledForever(ops, k, l - 1, h);
      RunsAreSound(ops, l - 1);
      StepKeepsSettled(Run(ops, l - 1), ops[l - 1], h);
    }
  }

  lemma StepKeepsSettled(nodes: Nodes, op: Op, h: TxHash)
    requires Sound(nodes) && h in nodes && nodes[h].status == Settled
    ensures h in Step(nodes, op) && Step(nodes, op)[h].status == Settled && Step(nodes, op)[h].tx == nodes[h].tx
  {
    hide Sound, WithNode, Verdict;
    match op
    case Insert(tx) =>
      if CanInsert(nodes, tx) {
        WithNodeFields(nodes, tx);
      }
    case Batch(hashes) =>
      SettledStaysSettled(nodes, hashes, h);
  }

  /** The order of a batch does not matter. */
  lemma BatchOrderIrrelevant(nodes: Nodes, batch: seq<TxHash>, batch': seq<TxHash>)
    requires multiset(batch) == multiset(batch')
    ensures AfterBatch(nodes, batch) == AfterBatch(nodes, batch')
    ensures forall v :: multiset(WithVerdict(nodes, batch, v)) == multiset(WithVerdict(nodes, batch', v))
  {
    hide Verdict;
    assert forall h :: h in batch <==> h in multiset(batch);
    assert forall h :: h in batch' <==> h in multiset(batch');
    forall v ensures multiset(WithVerdict(nodes, batch, v)) == multiset(WithVerdict(nodes, batch', v)) {
      forall h ensures multiset(WithVerdict(nodes, batch, v))[h] == multiset(WithVerdict(nodes, batch', v))[h] {
        VerdictCount(nodes, batch, v, h);
        VerdictCount(nodes, batch', v, h);
      }
    }
  }

  lemma {:induction false} VerdictCount(nodes: Nodes, batch: seq<TxHash>, v: TxStatus, h: TxHash)
    ensures multiset(WithVerdict(nodes, batch, v))[h]
         == if h in nodes && Verdict(nodes, h) == v then multiset(batch)[h] else 0
    decreases |batch|
  {
    hide Verdict;
    if batch != [] {
      VerdictCount(nodes, batch[..|batch| - 1], v, h);
      assert batch == batch[..|batch| - 1] + [batch[|batch| - 1]];
    }
  }

  // ----- settling level by level -----

  function AfterGroups(nodes: Nodes, groups: seq<seq<TxHash>>, k: nat): Nodes
    requires k <= |groups|
  {
    if k == 0 then nodes else AfterBatch(AfterGroups(nodes, groups, k - 1), groups[k - 1])
  }

  ghost predicate NoConflicts(nodes: Nodes) {
    forall h, g :: h in nodes && g in nodes && h != g ==> !nodes[h].tx.ConflictsWith(nodes[g].tx)
  }

  lemma {:induction false} GroupsKeepTransactions(nodes: Nodes, groups: seq<seq<TxHash>>, k: nat)
    requires k <= |groups|
    ensures AfterGroups(nodes, groups, k).Keys == nodes.Keys
    ensures forall h :: h in nodes ==> AfterGroups(nodes, groups, k)[h].tx == nodes[h].tx
    decreases k
  {
    hide Verdict;
    if k > 0 {
      GroupsKeepTransactions(nodes, groups, k - 1);
    }
  }

  lemma NoConflictVerdict(nodes: Nodes, h: TxHash)
    requires NoConflicts(nodes) && h in nodes && DepsOk(nodes, h)
    ensures Verdict(nodes, h) == Settled
  {}

  /** After k levels everything of depth below k is settled. */
  lemma {:induction false} LevelsSettle(nodes: Nodes, rank: map<TxHash, nat>, groups: seq<seq<TxHash>>, k: nat,
                                        h: TxHash, d: nat)
    requires Ranked(ParentsOf(nodes), rank) && IsLevelling(ParentsOf(nodes), groups) && NoConflicts(nodes)
    requires k <= |groups| && h in nodes && IsDepth(ParentsOf(nodes), h, d) && d < k
    ensures h in AfterGroups(nodes, groups, k) && AfterGroups(nodes, groups, k)[h].status == Settled
    decreases k
  {
    hide IsDepth, Verdict, DepsOk, IsLevelling, Ranked, NoConflicts;
    if d < k - 1 {
      LevelsSettle(nodes, rank, groups, k - 1, h, d);
    } else {
      forall p | p in nodes[h].tx.parentHashes
        ensures p in AfterGroups(nodes, groups, k - 1) && AfterGroups(nodes, groups, k - 1)[p].status == Settled
      {
        var e := ParentDepth(nodes, rank, h, d, p);
        LevelsSettle(nodes, rank, groups, k - 1, p, e);
      }
    }
    LevelKeepsSettled(nodes, groups, k, h, d);
  }

  lemma ParentDepth(nodes: Nodes, rank: map<TxHash, nat>, h: TxHash, d: nat, p: TxHash) returns (e: nat)
    requires Ranked(ParentsOf(nodes), rank) && h in nodes
    requires IsDepth(ParentsOf(nodes), h, d) && p in nodes[h].tx.parentHashes
    ensures p in nodes && IsDepth(ParentsOf(nodes), p, e) && e < d
  {
    hide IsDepth;
    var g := ParentsOf(nodes);
    assert p in g[h];
    e := DepthExists(g, rank, p);
    assert IsPath(g, [h, p]);
    AncestorIsShallower(g, [h, p], d, e);
  }

  // One more level: what is in it settles when its parents are, what was settled stays so.
  lemma LevelKeepsSettled(nodes: Nodes, groups: seq<seq<TxHash>>, k: nat, h: TxHash, d: nat)
    requires IsLevelling(ParentsOf(nodes), groups) && NoConflicts(nodes)
    requires 0 < k <= |groups| && h in nodes && IsDepth(ParentsOf(nodes), h, d) && d < k
    requires var before := AfterGroups(nodes, groups, k - 1);
      if d < k - 1 then h in before && before[h].status == Settled
      else forall p :: p in nodes[h].tx.parentHashes ==> p in before && before[p].status == Settled
    ensures h in AfterGroups(nodes, groups, k) && AfterGroups(nodes, groups, k)[h].status == Settled
  {
    hide IsDepth, Verdict, DepsOk;
    var before := AfterGroups(nodes, groups, k - 1);
    GroupsKeepTransactions(nodes, groups, k - 1);
    if d < k - 1 {
      if h in groups[k - 1] {
        DepthUnique(ParentsOf(nodes), h, d, k - 1);
      }
    } else {
      DepsOkFrom(before, h);
      NoConflictVerdict(before, h);
    }
  }

  lemma DepsOkFrom(nodes: Nodes, h: TxHash)
    requires h in nodes && forall p :: p in nodes[h].tx.parentHashes ==> p in nodes && nodes[p].status == Settled
    ensures DepsOk(nodes, h)
  {}

  /**
   On a DAG without conflicting transactions, settling the parallel groups in
   order settles every transaction, whatever the statuses were.
   */
  lemma GroupsSettleEverything(nodes: Nodes, rank: map<TxHash, nat>, groups: seq<seq<TxHash>>)
    requires Ranked(ParentsOf(nodes), rank) && IsLevelling(ParentsOf(nodes), groups) && NoConflicts(nodes)
    ensures AfterGroups(nodes, groups, |groups|).Keys == nodes.Keys
    ensures forall h :: h in nodes ==> AfterGroups(nodes, groups, |groups|)[h].status == Settled
  {
    hide IsDepth, Verdict;
    GroupsKeepTransactions(nodes, groups, |groups|);
    forall h | h in nodes ensures AfterGroups(nodes, groups, |groups|)[h].status == Settled {
      var d := DepthExists(ParentsOf(nodes), rank, h);
      LevelsSettle(nodes, rank, groups, |groups|, h, d);
    }
  }

  // ----- why batches must be consistent -----

  function Spend(hash: TxHash): Transaction {
    Transaction(hash, TransferKoin, 7, 99, 0, 100, 21000, 0, [], 1)
  }

  /**
   Two spends of the same (sender, nonce) in one batch both settle; settling them
   again turns both into conflicts.
   */
  lemma DoubleSpendInOneBatch()
    ensures var ops := [Insert(Spend(1)), Insert(Spend(2)), Batch([1, 2]), Batch([1, 2])];
      && Run(ops, 3).Keys == {1, 2} == Run(ops, 4).Keys
      && Run(ops, 3)[1].status == Settled && Run(ops, 3)[2].status == Settled && !ConflictFree(Run(ops, 3))
      && Run(ops, 4)[1].status == Conflict && Run(ops, 4)[2].status == Conflict
  {
    hide Step, ConflictFree;
    var ops := [Insert(Spend(1)), Insert(Spend(2)), Batch([1, 2]), Batch([1, 2])];
    SpendsInserted();
    assert Run(ops, 2) == TwoSpends(Pending);
    SpendVerdicts();
    SpendsJudged(Pending, Settled);
    assert Run(ops, 3) == TwoSpends(Settled);
    SpendsJudged(Settled, Conflict);
    assert Run(ops, 4) == TwoSpends(Conflict);
  }

  lemma SpendsInserted()
    ensures Step(Step(map[], Insert(Spend(1))), Insert(Spend(2))) == TwoSpends(Pending)
  {
    assert Step(map[], Insert(Spend(1))) == map[1 := DagNode(Spend(1), Pending, [])];
  }

  lemma SpendsJudged(before: TxStatus, after: TxStatus)
    requires Verdict(TwoSpends(before), 1) == Verdict(TwoSpends(before), 2) == after
    ensures Step(TwoSpends(before), Batch([1, 2])) == TwoSpends(after)
  {
    hide Verdict;
  }

  function TwoSpends(status: TxStatus): Nodes {
    map[1 := DagNode(Spend(1), status, []), 2 := DagNode(Spend(2), status, [])]
  }

  lemma SpendVerdicts()
    ensures Verdict(TwoSpends(Pending), 1) == Verdict(TwoSpends(Pending), 2) == Settled
    ensures Verdict(TwoSpends(Settled), 1) == Verdict(TwoSpends(Settled), 2) == Conflict
    ensures !ConflictFree(TwoSpends(Settled))
  {
    var s := TwoSpends(Settled);
    assert s[1].tx.ConflictsWith(s[2].tx) && s[2].tx.ConflictsWith(s[1].tx);
    assert HasConflict(s, 1) && HasConflict(s, 2);
  }
}
