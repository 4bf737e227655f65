/**
 The block producer: a mempool drained into blocks that are chained by hash, with
 one reward per block.  The store keeps one row per height, which holds the block's
 header but not its transactions.

 The block digest is a parameter, and so is what the staking pool and the state
 root computation answer for each block.
 */
module BlockProducer {
  import opened Results
  import opened Rewards
  import D = Dag

  type Hash = nat
  const ZERO_HASH: Hash := 0
  const U64_MAX: nat := 0xFFFF_FFFF_FFFF_FFFF
  const BLOCKS_PER_YEAR: nat := 31_536_000

  datatype Block = Block(height: nat, hash: Hash, parentHash: Hash, timestamp: nat, transactions: seq<D.Transaction>,
                         validatorId: nat, reward: BlockReward, stateRoot: Hash)

  // The fields that go into a block's hash.
  datatype Preimage = Preimage(height: nat, parentHash: Hash, timestamp: nat, validatorId: nat, txHashes: seq<Hash>,
                               stateRoot: Hash)

  type Digest = Preimage -> Hash

  // The outside answers for one block: the clock, the first active validator, the state root.
  datatype Outside = Outside(time: nat, validatorId: nat, stateRoot: Hash)

  function Saturate(x: nat): nat { if x > U64_MAX then U64_MAX else x }

  // Gas without storage: base cost and ten per step, saturating.
  function Gas(gasLimit: nat): nat { Saturate(1000 + Saturate(gasLimit * 10)) }

  /** The two saturating steps are one: base cost plus ten per step, at most the 64-bit limit. */
  lemma GasIsSaturated(gasLimit: nat)
    ensures Gas(gasLimit) == if 1000 + 10 * gasLimit <= 0xFFFF_FFFF_FFFF_FFFF then 1000 + 10 * gasLimit
                             else 0xFFFF_FFFF_FFFF_FFFF
  {}

  function TotalGas(txs: seq<D.Transaction>): nat {
    if txs == [] then 0 else TotalGas(txs[..|txs| - 1]) + Gas(txs[|txs| - 1].gasLimit)
  }

  /** The gas of a block is that of its parts, and of one transaction that transaction's. */
  lemma {:induction false} TotalGasAdds(a: seq<D.Transaction>, b: seq<D.Transaction>)
    ensures TotalGas(a + b) == TotalGas(a) + TotalGas(b)
    ensures |a| == 1 ==> TotalGas(a) == Gas(a[0].gasLimit)
    decreases |b|
  {
    hide Gas;
    if b == [] {
      assert a + b == a;
    } else {
      TotalGasAdds(a, b[..|b| - 1]);
      assert (a + b)[..|a + b| - 1] == a + b[..|b| - 1];
    }
    if |a| == 1 {
      assert a[..0] == [];
    }
  }

  function TxHashes(txs: seq<D.Transaction>): seq<Hash> {
    seq(|txs|, i requires 0 <= i < |txs| => txs[i].hash)
  }

  function PreimageOf(b: Block): Preimage {
    Preimage(b.height, b.parentHash, b.timestamp, b.validatorId, TxHashes(b.transactions), b.stateRoot)
  }

  // What the store writes for a block, and the block it reads back.
  datatype Row = Row(height: nat, hash: Hash, parentHash: Hash, timestamp: nat, validatorId: nat,
                     rewardAmount: nat, gasFees: int, stateRoot: Hash)

  function FeesOf(r: BlockReward): int { r.feeBurn + r.feeValidator + r.feeTreasury }

  function RowOf(b: Block): Row {
    Row(b.height, b.hash, b.parentHash, b.timestamp, b.validatorId, b.reward.baseReward, FeesOf(b.reward), b.stateRoot)
  }

  function ReadBack(r: Row): Block {
    var reward := BlockReward(0, 0, r.rewardAmount, 0, 0, 0);
    Block(r.height, r.hash, r.parentHash, r.timestamp, [], r.validatorId, reward, r.stateRoot)
  }

  /**
   A block read back keeps its header, but its hash can be recomputed exactly when it
   had no transactions, and its fee parts add up exactly when they were zero.
   */
  lemma ReadBackKeeps(b: Block)
    ensures var c := ReadBack(RowOf(b));
      && c.height == b.height && c.hash == b.hash && c.parentHash == b.parentHash && c.timestamp == b.timestamp
      && c.validatorId == b.validatorId && c.stateRoot == b.stateRoot && c.transactions == []
      && c.reward.baseReward == b.reward.baseReward
      && (PreimageOf(c) == PreimageOf(b) <==> b.transactions == [])
      && (FeesOf(c.reward) == FeesOf(b.reward) <==> FeesOf(b.reward) == 0)
  {
    assert |TxHashes(b.transactions)| == |b.transactions|;
  }

  datatype Node = Node(store: map<nat, Row>, lastHeight: nat, mempool: seq<D.Transaction>, processor: Processor)

  const GENESIS := Node(map[], 0, [], Fresh(BLOCKS_PER_YEAR))

  function ParentHash(store: map<nat, Row>, height: nat): Hash {
    if height == 1 || height == 0 then ZERO_HASH
    else if height - 1 in store then ReadBack(store[height - 1]).hash else ZERO_HASH
  }

  function MakeBlock(digest: Digest, n: Node, reward: BlockReward, out: Outside): Block {
    var height := n.lastHeight + 1;
    var parent := ParentHash(n.store, height);
    var hash := digest(Preimage(height, parent, out.time, out.validatorId, TxHashes(n.mempool), out.stateRoot));
    Block(height, hash, parent, out.time, n.mempool, out.validatorId, reward, out.stateRoot)
  }

  // The mempool is drained before the reward is computed: an error there would lose it.
  function Produced(digest: Digest, n: Node, out: Outside): (Node, Result<Block>)
    requires n.processor.blocksPerYear > 0
  {
    var height := n.lastHeight + 1;
    var Processed(processor, reward) := Process(n.processor, height, TotalGas(n.mempool));
    match reward
    case Err(e) => (n.(mempool := [], processor := processor), Err(e))
    case Ok(rw) =>
      var block := MakeBlock(digest, n, rw, out);
      (Node(n.store[height := RowOf(block)], height, [], processor), Ok(block))
  }

  class Producer {
    const digest: Digest
    var store: map<nat, Row>
    var lastHeight: nat
    var mempool: seq<D.Transaction>
    const rewardProcessor: BlockRewardProcessor

    function View(): Node
      reads this, rewardProcessor
    {
      Node(store, lastHeight, mempool, rewardProcessor.View())
    }

    constructor (digest: Digest)
      ensures View() == GENESIS && this.digest == digest && fresh(rewardProcessor)
    {
      this.digest := digest;
      store, lastHeight, mempool := map[], 0, [];
      rewardProcessor := new BlockRewardProcessor(BLOCKS_PER_YEAR);
    }

    method SubmitTransaction(tx: D.Transaction) returns (hash: Hash)
      modifies this
      ensures hash == tx.hash && View() == old(View()).(mempool := old(mempool) + [tx])
    {
      hash := tx.hash;
      mempool := mempool + [tx];
    }

    /** One block from everything pending. */
    method ProduceBlock(out: Outside) returns (r: Result<Block>)
      requires rewardProcessor.blocksPerYear > 0
      modifies this, rewardProcessor
      ensures (View(), r) == Produced(digest, old(View()), out)
    {
      hide Process, TotalGas;
      var height := lastHeight + 1;
      var parentHash := ZERO_HASH;
      if height != 1 && height - 1 in store {
        parentHash := ReadBack(store[height - 1]).hash;
      }
      var txs := mempool;
      mempool := [];
      var fees := SumGas(txs);
      var reward := rewardProcessor.ProcessBlock(height, fees);
      if reward.Err? {
        return Err(reward.reason);
      }
      var block := Block(height, ZERO_HASH, parentHash, out.time, txs, out.validatorId, reward.value, out.stateRoot);
      block := block.(hash := digest(PreimageOf(block)));
      store := store[height := RowOf(block)];
      lastHeight := height;
      return Ok(block);
    }
  }

  method SumGas(txs: seq<D.Transaction>) returns (total: nat)
    ensures total == TotalGas(txs)
  {
    total := 0;
    for i := 0 to |txs|
      invariant total == TotalGas(txs[..i])
    {
      assert txs[..i + 1][..i] == txs[..i];
      total := total + Gas(txs[i].gasLimit);
    }
    assert txs[..|txs|] == txs;
  }

  // ----- runs -----

  datatype Op = Submit(tx: D.Transaction) | Produce(out: Outside)

  function Step(digest: Digest, n: Node, op: Op): (n': Node)
    requires n.processor.blocksPerYear > 0
    ensures n'.processor.blocksPerYear > 0
  {
    match op
    case Submit(tx) => n.(mempool := n.mempool + [tx])
    case Produce(out) => Produced(digest, n, out).0
  }

  function Run(digest: Digest, ops: seq<Op>, k: nat): (n: Node)
    requires k <= |ops|
    ensures n.processor.blocksPerYear > 0
  {
    if k == 0 then GENESIS else Step(digest, Run(digest, ops, k - 1), ops[k - 1])
  }

  // The transactions submitted by the first k operations.
  function Submitted(ops: seq<Op>, k: nat): seq<D.Transaction>
    requires k <= |ops|
  {
    if k == 0 then [] else Submitted(ops, k - 1) + if ops[k - 1].Submit? then [ops[k - 1].tx] else []
  }

  // The blocks that producing returned during the first k operations.
  function Blocks(digest: Digest, ops: seq<Op>, k: nat): seq<Block>
    requires k <= |ops|
  {
    if k == 0 then [] else Blocks(digest, ops, k - 1) + Returned(digest, Run(digest, ops, k - 1), ops[k - 1])
  }

  // What the outside answered to the productions among the first k operations.
  function Answers(ops: seq<Op>, k: nat): seq<Outside>
    requires k <= |ops|
  {
    if k == 0 then [] else Answers(ops, k - 1) + if ops[k - 1].Produce? then [ops[k - 1].out] else []
  }

  function Returned(digest: Digest, n: Node, op: Op): seq<Block>
    requires n.processor.blocksPerYear > 0
  {
    if op.Produce? && Produced(digest, n, op.out).1.Ok? then [Produced(digest, n, op.out).1.value] else []
  }

  // ----- chains -----

  // The transactions of all blocks, in order.
  function ChainTxs(chain: seq<Block>): seq<D.Transaction> {
    if chain == [] then [] else ChainTxs(chain[..|chain| - 1]) + chain[|chain| - 1].transactions
  }

  function ChainFees(chain: seq<Block>): seq<int> {
    seq(|chain|, i requires 0 <= i < |chain| => TotalGas(chain[i].transactions))
  }

  function Rows(chain: seq<Block>): map<nat, Row> {
    if chain == [] then map[] else Rows(chain[..|chain| - 1])[|chain| := RowOf(chain[|chain| - 1])]
  }

  // What a block's hash covers: its header, its transactions' hashes in order and the state root.
  function Covered(b: Block): Preimage {
    var hashes := seq(|b.transactions|, i requires 0 <= i < |b.transactions| => b.transactions[i].hash);
    Preimage(b.height, b.parentHash, b.timestamp, b.validatorId, hashes, b.stateRoot)
  }

  lemma CoveredIsPreimage(b: Block)
    ensures Covered(b) == PreimageOf(b)
  {
    assert Covered(b).txHashes == TxHashes(b.transactions);
  }

  ghost predicate LinkOk(digest: Digest, chain: seq<Block>, i: nat)
    requires i < |chain|
  {
    var b := chain[i];
    && b.height == i + 1 && b.parentHash == (if i == 0 then ZERO_HASH else chain[i - 1].hash)
    && b.hash == digest(Covered(b))
    && Pays(b.reward, BLOCKS_PER_YEAR, i + 1, TotalGas(b.transactions))
  }

  /** Heights count from one; each block names its predecessor's hash, its own hash is right, its fees add up. */
  ghost predicate ChainOk(digest: Digest, chain: seq<Block>) {
    forall i :: 0 <= i < |chain| ==> LinkOk(digest, chain, i)
  }

  // The store holds exactly the rows of the chain, the reward processor has processed exactly its fees.
  ghost predicate Holds(n: Node, chain: seq<Block>) {
    && n.lastHeight == |chain| && n.store == Rows(chain)
    && n.processor == RunBlocks(BLOCKS_PER_YEAR, ChainFees(chain), |chain|)
  }

  lemma {:induction false} RunPrefix(fees: seq<int>, more: seq<int>, h: nat)
    requires h <= |fees|
    ensures RunBlocks(BLOCKS_PER_YEAR, fees + more, h) == RunBlocks(BLOCKS_PER_YEAR, fees, h)
    decreases h
  {
    hide Process;
    if h > 0 {
      RunPrefix(fees, more, h - 1);
    }
  }

  lemma TxsSnoc(chain: seq<Block>, b: Block)
    ensures ChainTxs(chain + [b]) == ChainTxs(chain) + b.transactions
  {
    assert (chain + [b])[..|chain|] == chain;
  }

  lemma FeesSnoc(chain: seq<Block>, b: Block)
    ensures ChainFees(chain + [b]) == ChainFees(chain) + [TotalGas(b.transactions)]
  {
    hide TotalGas;
    var longer := chain + [b];
    forall i | 0 <= i < |longer| ensures ChainFees(longer)[i] == (ChainFees(chain) + [TotalGas(b.transactions)])[i] {
      assert i < |chain| ==> longer[i] == chain[i];
    }
  }

  lemma RowsSnoc(chain: seq<Block>, b: Block)
    ensures Rows(chain + [b]) == Rows(chain)[|chain| + 1 := RowOf(b)]
  {
    hide RowOf;
    assert (chain + [b])[..|chain|] == chain;
  }

  // The reward step succeeds and continues the schedule.
  lemma RewardSucceeds(n: Node, chain: seq<Block>)
    requires Holds(n, chain)
    ensures var gas, h := TotalGas(n.mempool), n.lastHeight + 1;
      var p := Process(n.processor, h, gas);
      && p.reward.Ok? && Pays(p.reward.value, BLOCKS_PER_YEAR, h, gas)
      && p.processor == RunBlocks(BLOCKS_PER_YEAR, ChainFees(chain) + [gas], h)
  {
    hide Process, PerBlock, TotalGas, Pays;
    var h, gas, fees := n.lastHeight + 1, TotalGas(n.mempool), ChainFees(chain);
    RunPrefix(fees, [gas], n.lastHeight);
    RunsConserve(BLOCKS_PER_YEAR, fees + [gas], h);
    ProcessPays(n.processor, h, gas);
  }

  lemma {:induction false} RowAt(chain: seq<Block>, h: nat)
    ensures h in Rows(chain) <==> 1 <= h <= |chain|
    ensures h in Rows(chain) ==> Rows(chain)[h] == RowOf(chain[h - 1])
    decreases |chain|
  {
    hide RowOf;
    if chain != [] {
      RowAt(chain[..|chain| - 1], h);
    }
  }

  lemma ParentIsAt(chain: seq<Block>, h: nat)
    requires 1 <= h <= |chain| + 1
    ensures ParentHash(Rows(chain), h) == if h == 1 then ZERO_HASH else chain[h - 2].hash
  {
    RowAt(chain, h - 1);
  }

  // A block made on top of the chain continues it.
  lemma MadeContinues(digest: Digest, n: Node, chain: seq<Block>, reward: BlockReward, out: Outside)
    requires ChainOk(digest, chain) && n.lastHeight == |chain| && n.store == Rows(chain)
    requires Pays(reward, BLOCKS_PER_YEAR, n.lastHeight + 1, TotalGas(n.mempool))
    ensures ChainOk(digest, chain + [MakeBlock(digest, n, reward, out)])
  {
    hide Pays, TotalGas, Rows, ParentHash, Covered, TxHashes;
    CoveredIsPreimage(MakeBlock(digest, n, reward, out));
    ParentIsAt(chain, |chain| + 1);
    var longer := chain + [MakeBlock(digest, n, reward, out)];
    forall i | 0 <= i < |longer| ensures LinkOk(digest, longer, i) {
      assert i < |chain| ==> LinkOk(digest, chain, i);
    }
  }

  // The block carries what the clock, the staking pool and the state root computation said.
  ghost predicate Stamped(b: Block, out: Outside) {
    b.timestamp == out.time && b.validatorId == out.validatorId && b.stateRoot == out.stateRoot
  }

  /** Producing always succeeds on a chain in order, and continues it with the whole mempool. */
  lemma ProduceKeeps(digest: Digest, n: Node, chain: seq<Block>, out: Outside)
    requires Holds(n, chain) && ChainOk(digest, chain)
    ensures Produced(digest, n, out).1.Ok?
    ensures var b, n' := Produced(digest, n, out).1.value, Produced(digest, n, out).0;
      && b.transactions == n.mempool && n'.mempool == [] && Stamped(b, out)
      && ChainOk(digest, chain + [b]) && Holds(n', chain + [b])
  {
    hide Process, ChainOk, Pays, TotalGas, Rows, ChainFees, RunBlocks, FeesOf;
    RewardSucceeds(n, chain);
    var b := Produced(digest, n, out).1.value;
    FeesSnoc(chain, b);
    RowsSnoc(chain, b);
    MadeContinues(digest, n, chain, b.reward, out);
  }

  /**
   Over every run from genesis: every production returns a block; the returned blocks
   have consecutive heights, are linked by hash and stamped with what was answered for
   them; their transactions in order followed by the mempool are the submissions in
   order; each pays the scheduled reward and splits exactly its gas; the store holds
   exactly their rows; and what was minted is the schedule's sum.
   */
  lemma {:induction false} RunsBuildChain(digest: Digest, ops: seq<Op>, k: nat)
    requires k <= |ops|
    ensures var n, chain := Run(digest, ops, k), Blocks(digest, ops, k);
      && ChainOk(digest, chain) && Holds(n, chain)
      && |chain| == |Answers(ops, k)| && (forall i :: 0 <= i < |chain| ==> Stamped(chain[i], Answers(ops, k)[i]))
      && ChainTxs(chain) + n.mempool == Submitted(ops, k)
      && n.processor.tracker.minted == MintedBy(BLOCKS_PER_YEAR, |chain|) == n.processor.tracker.totalOikos
    decreases k
  {
    hide Produced, ChainOk, Holds, ChainTxs, MintedBy, Stamped;
    if k == 0 {
      GenesisHolds(digest);
    } else {
      RunsBuildChain(digest, ops, k - 1);
      var n, before := Run(digest, ops, k - 1), Blocks(digest, ops, k - 1);
      match ops[k - 1]
      case Submit(tx) =>
        assert Blocks(digest, ops, k) == before;
        SubmitHolds(n, tx, before);
      case Produce(out) =>
        ProduceKeeps(digest, n, before, out);
        TxsSnoc(before, Produced(digest, n, out).1.value);
    }
    MintedOnSchedule(Run(digest, ops, k), Blocks(digest, ops, k));
  }

  lemma SubmitHolds(n: Node, tx: D.Transaction, chain: seq<Block>)
    requires Holds(n, chain)
    ensures Holds(n.(mempool := n.mempool + [tx]), chain)
  {}

  lemma MintedOnSchedule(n: Node, chain: seq<Block>)
    requires Holds(n, chain)
    ensures n.processor.tracker.minted == MintedBy(BLOCKS_PER_YEAR, |chain|) == n.processor.tracker.totalOikos
  {
    hide RunBlocks, TotalGas;
    RunsConserve(BLOCKS_PER_YEAR, ChainFees(chain), |chain|);
  }

  lemma GenesisHolds(digest: Digest)
    ensures Holds(GENESIS, []) && ChainOk(digest, []) && ChainTxs([]) == []
  {}

  /**
   What the store reads back after any run: every produced height and no other, with
   the header of the block produced there.
   */
  lemma StoreReadsHeaders(digest: Digest, ops: seq<Op>, k: nat, h: nat)
    requires k <= |ops|
    ensures var n, chain := Run(digest, ops, k), Blocks(digest, ops, k);
      && (h in n.store <==> 1 <= h <= |chain|)
      && (h in n.store ==>
            && ReadBack(n.store[h]).hash == chain[h - 1].hash == digest(PreimageOf(chain[h - 1]))
            && ReadBack(n.store[h]).parentHash == ParentHash(n.store, h)
            && n.store[h].gasFees == TotalGas(chain[h - 1].transactions)
            && (PreimageOf(ReadBack(n.store[h])) == PreimageOf(chain[h - 1]) <==> chain[h - 1].transactions == []))
  {
    hide Run, Blocks, RunBlocks, TotalGas, PerBlock, Submitted, ChainTxs, MintedBy, Rows, Answers;
    RunsBuildChain(digest, ops, k);
    var chain := Blocks(digest, ops, k);
    RowAt(chain, h);
    if 1 <= h <= |chain| {
      ParentIsAt(chain, h);
      assert LinkOk(digest, chain, h - 1);
      CoveredIsPreimage(chain[h - 1]);
      ReadBackKeeps(chain[h - 1]);
    }
  }
}
