# Verified core of tpt-oikos

A Dafny model of the parts of the repository whose correctness is not visible from
reading one function, with proofs for every input, every run or every reachable
state. `dafny verify dfyconfig.toml` checks all of it.

| file | models |
|---|---|
| `Gf256.dfy`, `Interpolation.dfy`, `Shamir.dfy` | guardian recovery: arithmetic in GF(256), Lagrange interpolation, splitting and combining |
| `KeyWrap.dfy`, `KeyDerivation.dfy`, `Didcomm.dfy`, `DidcommOpening.dfy` | the DIDComm envelope: AES key wrap, key agreement and derivation, multi-recipient packing and unpacking |
| `Graph.dfy`, `Dag.dfy`, `Settlement.dfy` | the settlement DAG: insertion, memoised depths, parallel levels, batch settlement |
| `Gossip.dfy`, `GossipNetwork.dfy`, `GossipRing.dfy`, `GossipCoverage.dfy` | one gossiping node with its seen window, a network of them as a step system, the runs that windows too small allow, and how far a flood gets |
| `RateLimiter.dfy`, `RateLimiterAnswers.dfy` | the per-IP token bucket and its eviction; the bucket from its answers alone |
| `Streaming.dfy` | streaming payments with pause and resume |
| `Rewards.dfy`, `BlockProducer.dfy` | emission, fee split and supply tracker; the chain of blocks |
| `SdJwt.dfy`, `SdJwtAcceptance.dfy` | selective disclosure: issuing, presenting, parsing and verifying; what is accepted and disclosed |
| `AuditLog.dfy`, `StatusList.dfy` | the hash-chained log, the revocation bitstring |
| `Results.dfy`, `Sequences.dfy`, `Division.dfy`, `ByteCodes.dfy` | shared: outcomes, lists, integer division, bytes |

Code that updates state in place is modelled by classes and loops. Each such method
is proved equal to a function of the old state, and the theorems are about those
functions and about whole runs of them.

**What is a parameter.** The block cipher, X25519, SHA-256, the AEAD, base64url, JSON
marshalling (except the audit record, which is written out), signatures, the DID
resolver and the key-binding check are function parameters. Each theorem names the
laws it needs: a cipher key gives a bijection on blocks, Diffie-Hellman commutes,
opening undoes sealing, decoding undoes encoding. For SD-JWT claims the last one is not
asked: what JSON makes of a value that is written and parsed again is a function `norm`. No hash is assumed to be
injective: where a collision-free hash is called for, the lemma either reaches its
conclusion or names the two entries, or the presented and the issued disclosure, whose
texts differ and collide. What the code reads
from a random source or a clock is a parameter as well, and so are map iteration
order, the choice of peers, the staking pool's first validator and the state root.

**Where the code does something a reader may not expect.** The model follows the code.

- `Dag::insert` never takes a parent out of `tip_set`, so the tips are all inserted
  hashes (`Dag.DagState.Insert`).
- `settle_batch` judges every member on the state before the batch, so two spends of
  one (sender, nonce) in the same batch both settle, and settling the batch again turns
  both into conflicts (`Settlement.DoubleSpendInOneBatch`). Exactly when the settled
  set stays sound is `Settlement.RunsAreSoundExactlyWhen`.
- An authcrypt envelope with an empty sender key ID packs without error and can be opened
  by nobody (`DidcommOpening.NamelessSenderCannotBeOpened`, `DidcommOpening.OpensExactlyWhen`).
  `Unpack` panics on a nonce of the wrong length.
- Evicting idle buckets is unobservable exactly when ten idle minutes refill a bucket,
  or nobody is ever admitted; otherwise some run exceeds the window bound
  (`RateLimiter.EvictionUnobservableExactlyWhen`). The limiter as constructed is safe.
- Resuming a stream loses what was streamed beyond whole seconds, and stopping one
  falls back to the amount last recorded (`Streaming.ReportAcrossOperation`). A zero
  rate makes resuming a paused stream divide by zero.
- The documentation of `year_for_block` covers `blocks_per_year = 0`, but
  `process_block` divides by it.
- The store writes a row per block that holds neither its transactions nor its separate
  fee parts (koinon-node/src/store.rs:466-523), so the chain theorem is about the blocks
  that `produce_block` returns, and the store is proved to hold exactly their rows. The
  hash of a block read back can be recomputed exactly when the block had no
  transactions (`BlockProducer.ReadBackKeeps`, `BlockProducer.StoreReadsHeaders`).
- `produce_block` drains the mempool before computing the reward, so an error there
  would lose the transactions; `BlockProducer.RunsBuildChain` shows that it never happens
  from genesis.
- `CheckStatus` does not refuse negative indices: the last seven before zero read the
  bit eight further on, lower ones panic (`StatusList.CheckAgreesExactlyWhen`). Bits are
  numbered from the lowest of each byte.
- Always-visible claims are written over the signed payload, so `_sd` replaces the
  digests, `iss` the issuer that is looked up, and `exp` the expiry, which an `exp` that is
  no number removes altogether. The expiry is compared as 64-bit seconds; a number beyond
  that range is converted as the platform does
  (`SdJwtAcceptance.AcceptedExactlyWhen`, `SdJwtAcceptance.TextualExpiryLasts`,
  `SdJwtAcceptance.HugeExpiryHasPassed`).
- The verifier hashes a disclosure after parsing and encoding it again. A value whose JSON
  that round trip does not reproduce (an integer beyond 2^53, a struct whose fields are not
  in alphabetical order) is issued and then refused when shown
  (`SdJwtAcceptance.AcceptedWhenReproduced`, `SdJwtAcceptance.LargeIntegerRefused`).
- The input of the key derivation does not carry the length of the shared secret
  (`KeyDerivation.KdfInputUnambiguous`, `KeyDerivation.KdfInputShared`). Between the inputs of the two
  modes of packing there is no ambiguity (`DidcommOpening.ModesDifferInInput`).
- A seen window must hold every hash in play: with one hash more than it holds, messages
  can go round three nodes for ever (`GossipRing.FloodBoundedExactlyWhen`).

## Model

| member | source | states |
|---|---|---|
| `Gf256.MulLoop` | pillars/identity/pkg/recovery/recovery.go:110-124 | the shift-and-add loop computes the product for which the field laws below hold |
| `Gf256.MulComm` | pillars/identity/pkg/recovery/recovery.go:110-124 | multiplication is commutative, for all bytes |
| `Gf256.MulAssoc` | pillars/identity/pkg/recovery/recovery.go:110-124 | multiplication is associative |
| `Gf256.MulAdd` | pillars/identity/pkg/recovery/recovery.go:110-124 | multiplication distributes over exclusive or, on both sides |
| `Gf256.MulNonzero` | pillars/identity/pkg/recovery/recovery.go:110-124 | there are no zero divisors |
| `Gf256.SqEight` | pillars/identity/pkg/recovery/recovery.go:134-148 | every byte to the power 256 is itself, the fact behind the exponent 254 |
| `Gf256.InvLoop` | pillars/identity/pkg/recovery/recovery.go:134-148 | the square-and-multiply loop computes the inverse characterised by the next two rows |
| `Gf256.InvLaw` | pillars/identity/pkg/recovery/recovery.go:134-148 | a nonzero byte times its computed inverse is one |
| `Gf256.InvUnique` | pillars/identity/pkg/recovery/recovery.go:134-148 | whatever multiplies a byte to one is its computed inverse |
| `Gf256.InvInvolution` | pillars/identity/pkg/recovery/recovery.go:134-148 | inverting twice gives every byte back, zero included |
| `Gf256.TimesX` | pillars/identity/pkg/recovery/recovery.go:110-124 | multiplying by x shifts and replaces x^8 by x^4 + x^3 + x + 1 |
| `Gf256.OnlyProduct` | pillars/identity/pkg/recovery/recovery.go:106-124 | the product is the only commutative, associative, additive one with unit one in which that holds |
| `Interpolation.PolyEval` | pillars/identity/pkg/recovery/recovery.go:126-132 | Horner's loop evaluates the polynomial |
| `Interpolation.LagrangeLoop` | pillars/identity/pkg/recovery/recovery.go:150-165 | the nested loops compute the weighted sum of the values |
| `Interpolation.WeightsSumToOne` | pillars/identity/pkg/recovery/recovery.go:150-165 | the weights of any distinct points sum to one, by Neville's recurrence |
| `Interpolation.LagrangeRecovers` | pillars/identity/pkg/recovery/recovery.go:150-165 | interpolation at zero gives the constant coefficient of any polynomial with no more coefficients than there are distinct points |
| `Interpolation.RepeatedPointHasNoWeight` | pillars/identity/pkg/recovery/recovery.go:150-165 | a point that occurs twice gets weight zero |
| `Interpolation.SamePolynomial` | pillars/identity/pkg/recovery/recovery.go:126-132 | polynomials that agree on as many distinct nonzero points as they have coefficients are equal |
| `Shamir.Split` | pillars/identity/pkg/recovery/recovery.go:42-68 | succeeds exactly on valid parameters without a failed read, and then returns the byte polynomials' values at 1..n, numbered so |
| `Shamir.Combine` | pillars/identity/pkg/recovery/recovery.go:72-95 | succeeds exactly on two or more shares of one length, and then interpolates every byte |
| `Shamir.RecoversSecret` | pillars/identity/pkg/recovery/recovery.go:42-95 | for every secret, threshold, n and draw, any selection of at least threshold shares with distinct indices combines to the secret |
| `Shamir.BelowThresholdAnySecretFits` | pillars/identity/pkg/recovery/recovery.go:55-66 | fewer than threshold shares are those of every other secret of the same length, for some draw |
| `Shamir.OneDrawPerSecret` | pillars/identity/pkg/recovery/recovery.go:55-66 | threshold - 1 shares leave exactly one draw for each secret |
| `KeyWrap.Wrap` | pillars/identity/pkg/didcomm/didcomm.go:417-444 | the forward nested loops in place compute the six rounds, with the two refusals |
| `KeyWrap.Unwrap` | pillars/identity/pkg/didcomm/didcomm.go:446-474 | the backward nested loops undo the six rounds, then check the integrity value |
| `KeyWrap.CounterNumber` | pillars/identity/pkg/didcomm/didcomm.go:435-436 | the step counter's eight bytes, read as one big-endian number, are the step modulo 2^64 |
| `KeyWrap.NumberInjective` | pillars/identity/pkg/didcomm/didcomm.go:435-436 | eight bytes are determined by that number |
| `KeyWrap.UnpackNumber` | pillars/identity/pkg/didcomm/didcomm.go:435-436 | the bytes of a semi-block in order are its number in big-endian notation |
| `KeyWrap.XorLaws` | pillars/identity/pkg/didcomm/didcomm.go:435-436 | the exclusive or of semi-blocks is commutative and associative with the zero block as unit |
| `KeyWrap.WrappedIsShifted` | pillars/identity/pkg/didcomm/didcomm.go:417-444 | wrapping n registers is 6n steps of the queue form of section 2.2.1 of RFC 3394, numbered from one |
| `KeyWrap.UnwrapInvertsWrap` | pillars/identity/pkg/didcomm/didcomm.go:417-474 | for every usable key and plaintext of any number of registers, unwrapping gives the plaintext back |
| `KeyWrap.WrapInvertsUnwrap` | pillars/identity/pkg/didcomm/didcomm.go:417-474 | every ciphertext that is accepted is the wrap of what was returned |
| `KeyWrap.AcceptsExactlyWraps` | pillars/identity/pkg/didcomm/didcomm.go:446-474 | a ciphertext is accepted if and only if it is a wrap under that key |
| `Didcomm.PackEnvelope` | pillars/identity/pkg/didcomm/didcomm.go:119-216 | the recipient loop and sealing, stopping at the first failing recipient |
| `Didcomm.UnpackEnvelope` | pillars/identity/pkg/didcomm/didcomm.go:227-333 | the search for the first entry that opens, with every way of skipping or failing; `DidcommOpening.UnpackExactlyWhen` says what it finds |
| `DidcommOpening.KeksAgree` | pillars/identity/pkg/didcomm/didcomm.go:337-375 | sender and recipient derive the same key, anonymous or authenticated |
| `KeyDerivation.Be32Value` | pillars/identity/pkg/didcomm/didcomm.go:401-409 | the four length bytes, read as a big-endian number, are the length modulo 2^32 |
| `KeyDerivation.KdfInputReads` | pillars/identity/pkg/didcomm/didcomm.go:381-411 | the derivation input reads back, field by field, as round one, the secret, the algorithm, the two parties and 256 bits |
| `DidcommOpening.SenderTextReads` | pillars/identity/pkg/didcomm/didcomm.go:337-411 | what packing derives a key from reads back as the ephemeral agreement followed by the sender's, the algorithm of the mode, the sender's key ID and the digest of the recipients |
| `KeyDerivation.KdfInputUnambiguous` | pillars/identity/pkg/didcomm/didcomm.go:381-411 | equal inputs, of fields below 4 GiB, come from equal secrets, algorithms and party fields if and only if the secrets are equally long |
| `KeyDerivation.KdfInputShared` | pillars/identity/pkg/didcomm/didcomm.go:400-411 | for any shorter secret there is a longer one with the same input |
| `DidcommOpening.ModesDifferInInput` | pillars/identity/pkg/didcomm/didcomm.go:337-411 | an anonymous and an authenticated packing, to any recipients with any keys, never derive a key from the same text |
| `DidcommOpening.EntryOpensExactlyWhen` | pillars/identity/pkg/didcomm/didcomm.go:261-303 | an entry opens to a content key if and only if its key ID is known, its ephemeral key has 32 bytes and its encrypted key is the wrap of that 32-byte key under the derived key |
| `DidcommOpening.FirstCekExactlyWhen` | pillars/identity/pkg/didcomm/didcomm.go:261-306 | a content key is found if and only if some entry opens, and it is the first such entry's |
| `DidcommOpening.UnpackExactlyWhen` | pillars/identity/pkg/didcomm/didcomm.go:227-333 | for any envelope with a readable header, unpacking returns a message if and only if the sender resolves, some entry opens, and the content decrypts under the first one's key with the header as additional data |
| `DidcommOpening.PackedContent` | pillars/identity/pkg/didcomm/didcomm.go:119-216 | a packed envelope decodes to its header, its nonce and the message sealed under the content key with the header as additional data |
| `DidcommOpening.PackedHeader` | pillars/identity/pkg/didcomm/didcomm.go:125-146 | the header's fields by mode, apu the sender's key ID, apv the digest of the recipients' key IDs whatever their order |
| `DidcommOpening.RecipientListReads` | pillars/identity/pkg/didcomm/didcomm.go:479-489 | the key IDs can be read off the digested list if none contains the separator |
| `DidcommOpening.PackedEntry` | pillars/identity/pkg/didcomm/didcomm.go:157-194 | each entry carries its recipient's key ID, the public key of its clamped scalar, and the content key wrapped under the digest of its derivation text |
| `DidcommOpening.ClampedScalar` | pillars/identity/pkg/didcomm/didcomm.go:497-500 | the scalar is a multiple of eight with bit 254 set and bit 255 clear, other bits kept |
| `DidcommOpening.UnpackInvertsPack` | pillars/identity/pkg/didcomm/didcomm.go:119-333 | any packed envelope opens to the message and the sender key ID for a holder with the matching key of some recipient that cannot open an entry before that one's |
| `DidcommOpening.NamelessSenderCannotBeOpened` | pillars/identity/pkg/didcomm/didcomm.go:246-255 | an authcrypt envelope with an empty sender key ID opens for nobody |
| `DidcommOpening.OpensExactlyWhen` | pillars/identity/pkg/didcomm/didcomm.go:119-333 | such a holder gets the message back exactly when the sender is anonymous or named |
| `DidcommOpening.FirstKnownOpens` | pillars/identity/pkg/didcomm/didcomm.go:261-264 | a holder with the matching key of the first recipient it knows is such a holder |
| `DidcommOpening.PackSucceedsExactlyWhen` | pillars/identity/pkg/didcomm/didcomm.go:119-216 | packing succeeds if and only if there is a recipient and no key agreement is rejected |
| `Graph.DepthFromParents` | pillars/koinon/koinon-dag/src/dag.rs:114-135 | one more than the largest parent depth is the length of the longest parent path |
| `Graph.LevelsPartition` | pillars/koinon/koinon-dag/src/dag.rs:89-106 | the groups partition the DAG |
| `Graph.AncestorsInEarlierGroups` | pillars/koinon/koinon-dag/src/dag.rs:89-106 | every ancestor lies in a strictly earlier group, so no group holds an ancestor pair |
| `Dag.DagState.Insert` | pillars/koinon/koinon-dag/src/dag.rs:33-61 | refuses a known hash, then the first absent parent; otherwise adds the node, keeps the DAG ranked and child lists mirroring parent lists, and every hash a tip |
| `Dag.WithNodeWellFormed` | pillars/koinon/koinon-dag/src/dag.rs:33-61 | insertion keeps parents ranked below children and child lists equal to parent lists with multiplicity |
| `Dag.DagState.ComputeDepth` | pillars/koinon/koinon-dag/src/dag.rs:114-135 | the memoised recursion terminates, overwrites nothing and records only longest-path lengths |
| `Dag.DagState.ComputeDepths` | pillars/koinon/koinon-dag/src/dag.rs:108-112 | all nodes get their depth, in whatever order the map is walked |
| `Dag.DagState.ParallelizableGroups` | pillars/koinon/koinon-dag/src/dag.rs:89-106 | group k is exactly the nodes of depth k, each once, no group empty or missing |
| `Settlement.SettleBatch` | pillars/koinon/koinon-dag/src/settlement.rs:14-74 | every present member gets the verdict judged on the state before the batch, the three lists are the members by verdict in order, nothing else changes |
| `Settlement.BatchOutcome` | pillars/koinon/koinon-dag/src/settlement.rs:20-67 | a member with a settled rival of the same sender and nonce becomes a conflict whatever its parents, one without settles if its parents are settled and fails otherwise, nothing else changes |
| `Settlement.BatchKeepsSoundExactlyWhen` | pillars/koinon/koinon-dag/src/settlement.rs:20-67 | from a sound state, parents of settled nodes stay settled, and the settled set stays conflict-free if and only if no two members that have settled parents and no settled rival conflict |
| `Settlement.SettledStaysSettled` | pillars/koinon/koinon-dag/src/settlement.rs:20-67 | in a sound state no batch takes a settled status away |
| `Settlement.RunsAreWellFormed` | pillars/koinon/koinon-dag/src/dag.rs:33-61 | every DAG any run builds is well formed |
| `Settlement.RunsAreSound` | pillars/koinon/koinon-dag/src/settlement.rs:14-74 | over every run of insertions and such batches the settled set is conflict-free and closed under parents |
| `Settlement.RunsAreSoundExactlyWhen` | pillars/koinon/koinon-dag/src/settlement.rs:14-74 | all states of a run are sound if and only if no batch settles two conflicting members |
| `Settlement.ConsistentIsSettleable` | pillars/koinon/koinon-dag/src/tx.rs:49-51 | batches without two members of one sender and nonce meet that condition |
| `Settlement.SettledForever` | pillars/koinon/koinon-dag/src/settlement.rs:20-67 | a settled transaction stays settled to the end of the run |
| `Settlement.BatchOrderIrrelevant` | pillars/koinon/koinon-dag/src/settlement.rs:20-67 | permuting a batch changes neither the statuses nor the contents of the three lists |
| `Settlement.GroupsSettleEverything` | pillars/koinon/koinon-dag/src/settlement.rs:14-74 | on a DAG without conflicts, settling the parallel groups in order settles every node |
| `Settlement.DoubleSpendInOneBatch` | pillars/koinon/koinon-dag/src/settlement.rs:20-31 | two spends in one batch both settle, and both become conflicts when the batch is settled again |
| `Gossip.AcceptKeepsWindow` | pillars/koinon/koinon-network/src/gossip.rs:137-154 | accepting a hash keeps the window equal to the end of the log, duplicate-free, with repeats separated by at least max_seen other marks |
| `Gossip.SendsExactly` | pillars/koinon/koinon-network/src/gossip.rs:33-91 | a message goes to every chosen peer except its source, once each, and to nobody else |
| `Gossip.GossipLayer.PruneSeen` | pillars/koinon/koinon-network/src/gossip.rs:148-154 | the loop keeps the newest max_seen entries, in list and set |
| `Gossip.GossipLayer.MarkSeen` | pillars/koinon/koinon-network/src/gossip.rs:141-146 | an unseen hash joins log and window, a seen one changes nothing, and the window law is kept |
| `Gossip.GossipLayer.GossipBlock` | pillars/koinon/koinon-network/src/gossip.rs:33-44 | a new block is queued once for the chosen peers, a seen one not at all |
| `Gossip.GossipLayer.GossipTransaction` | pillars/koinon/koinon-network/src/gossip.rs:46-57 | the same for a transaction |
| `Gossip.GossipLayer.HandleMessage` | pillars/koinon/koinon-network/src/gossip.rs:59-131 | a new block or transaction is relayed to the chosen peers except its source; pings and handshakes are answered; told heights are noted; nothing else changes |
| `Gossip.PeerManager.AddPeer` | pillars/koinon/koinon-network/src/peer.rs:37-55 | refuses the node itself and newcomers when full, so that no node is its own peer |
| `Gossip.PeerManager.GetRandomPeers` | pillars/koinon/koinon-network/src/peer.rs:69-74 | distinct connected peers, three of them or all there are |
| `GossipNetwork.StepKeeps` | pillars/koinon/koinon-network/src/gossip.rs:33-91 | every step of the network keeps the accounting of sent, accepted and pending messages |
| `GossipNetwork.FloodIsBounded` | pillars/koinon/koinon-network/src/gossip.rs:33-91 | with N nodes, K hashes and windows of at least K, every run sends at most 3*N*K messages, and each is delivered, lost or under way |
| `GossipNetwork.PutOutOnAcceptance` | pillars/koinon/koinon-network/src/gossip.rs:59-91 | a message is sent only on first acceptance, never to oneself, never back to its source |
| `GossipNetwork.ForwardsOnce` | pillars/koinon/koinon-network/src/gossip.rs:59-91 | no node sends a hash out in two different steps |
| `GossipRing.TurnUnseen` | pillars/koinon/koinon-network/src/gossip.rs:137-154 | when more hashes than the window holds take turns, the one whose turn it is has left the window |
| `GossipRing.SmallWindowFloodsForever` | pillars/koinon/koinon-network/src/gossip.rs:59-154 | for every window and every set of more hashes than it holds, some run of three nodes over them sends more than any bound |
| `GossipRing.FloodBoundedExactlyWhen` | pillars/koinon/koinon-network/src/gossip.rs:33-154 | all runs of all networks with windows w over K hashes keep the bound 3*N*K if and only if w >= K |
| `GossipCoverage.FloodIsComplete` | pillars/koinon/koinon-network/src/gossip.rs:33-91 | without losses, with at most three connected peers per node and windows that fit, once nothing is under way every connected peer of a node that accepted a hash has accepted it |
| `RateLimiter.IpRateLimiter.Allow` | pillars/identity/api/server.go:487-507 | refill capped at capacity, admission from one token on, one token taken |
| `RateLimiter.IpRateLimiter.Evict` | pillars/identity/api/server.go:509-518 | the loop drops exactly the buckets idle for more than ten minutes |
| `RateLimiter.WindowBoundWithoutEviction` | pillars/identity/api/server.go:487-507 | over every run and window an address is admitted at most capacity + rate * length times |
| `RateLimiter.SameAnswers` | pillars/identity/api/server.go:487-518 | if ten minutes refill a bucket, the limiter answers like one that never evicts |
| `RateLimiter.EvictionUnobservableExactlyWhen` | pillars/identity/api/server.go:509-518 | eviction changes no answer of any run if and only if 600 * rate >= capacity or capacity is below one |
| `RateLimiter.EvictionBreaksBound` | pillars/identity/api/server.go:509-518 | otherwise some run exceeds the window bound |
| `RateLimiterAnswers.AdmittedExactlyWhenFits` | pillars/identity/api/server.go:487-507 | over every run without evictions a request is admitted if and only if, counting it, no window that ends with it exceeds capacity + rate * length |
| `RateLimiterAnswers.EvictingAdmitsExactlyWhenFits` | pillars/identity/api/server.go:487-518 | the same with evictions at any times, if ten idle minutes refill a bucket |
| `RateLimiter.WindowBound` | pillars/identity/api/server.go:487-518 | the window bound with evictions at any times |
| `RateLimiter.ConstructedLimiterIsBounded` | pillars/identity/api/server.go:131 | the limiter with capacity int(2 * rate) meets the bound and never shows its evictions |
| `Streaming.StreamingPayment.UpdateStreamedAt` | pillars/koinon/koinon-escrow/src/streaming.rs:81-85 | records the report while active, else nothing |
| `Streaming.StreamingPayment.TryCompleteAt` | pillars/koinon/koinon-escrow/src/streaming.rs:87-99 | completes with the full total exactly when it has been streamed |
| `Streaming.StreamingPayment.PauseAt` | pillars/koinon/koinon-escrow/src/streaming.rs:106-112 | records the report and the pause time |
| `Streaming.StreamingPayment.ResumeAt` | pillars/koinon/koinon-escrow/src/streaming.rs:114-121 | moves the start time back by the whole seconds streamed, with the 64-bit truncation |
| `Streaming.StreamingPayment.StopNow` | pillars/koinon/koinon-escrow/src/streaming.rs:123-131 | stops an active or paused stream |
| `Streaming.ApplyMatches` | pillars/koinon/koinon-escrow/src/streaming.rs:61-131 | every operation does to the payment what it does to a meter that counts running seconds from the operations alone |
| `Streaming.ReportsAreReadings` | pillars/koinon/koinon-escrow/src/streaming.rs:61-131 | over every run the payment's report, recorded amount and state are the meter's |
| `Streaming.ReportsTrackActiveTime` | pillars/koinon/koinon-escrow/src/streaming.rs:61-136 | over every run a report is at most min(total, rate * active seconds), the seconds counted from the operations; unless stopped it lags by less than one second's rate, and is exact before the cap or when the rate divides the total |
| `Streaming.PausedReportStays` | pillars/koinon/koinon-escrow/src/streaming.rs:106-112 | after a pause of a running stream every report until a resume is the one at the pause |
| `Streaming.CompletesExactlyWhen` | pillars/koinon/koinon-escrow/src/streaming.rs:87-99 | completing succeeds if and only if the stream runs and its counted seconds pay for the total; the active seconds then do, and the converse fails only at the remainder a resume drops |
| `Streaming.ReportAcrossOperation` | pillars/koinon/koinon-escrow/src/streaming.rs:61-131 | an operation changes the report only by resume's remainder and by stop's fall-back to the recorded amount |
| `Rewards.EmissionAtYear` | pillars/koinon/koinon-ledger/src/emission.rs:21-30 | the decay loop computes the emission of the year, zero outside years 1 to 20 |
| `Rewards.EmissionIsGeometric` | pillars/koinon/koinon-ledger/src/emission.rs:21-30 | after k years the emission is 50 million times 0.8^k, less at most five units of rounding |
| `Rewards.PublishedYears` | pillars/koinon/koinon-ledger/src/emission.rs:1-8 | 50, 40 and 32 million in the first years, nothing after year 20 |
| `Rewards.YearExactlyWhen` | pillars/koinon/koinon-rewards/src/lib.rs:272-286 | a block lies in year y if and only if y - 1 full years and no more come before it, for the first 20 years |
| `Rewards.MintExactlyWhen` | pillars/koinon/koinon-ledger/src/invariant.rs:105-119 | a mint is refused if and only if it would exceed the maximum supply, and otherwise raises both totals |
| `Rewards.SplitFees` | pillars/koinon/koinon-fee/src/split.rs:18-35 | a non-negative total is split without loss, burn and validator each getting their share rounded down and the treasury the rest; a negative one gives nothing |
| `Rewards.BlockRewardProcessor.ProcessBlock` | pillars/koinon/koinon-rewards/src/lib.rs:186-214 | one block's reward, tracker and year, with the error left half-way by an overflow |
| `Rewards.YearBound` | pillars/koinon/koinon-ledger/src/emission.rs:21-30 | what is minted within a year, against the telescoped decay |
| `Rewards.MintedIsBounded` | pillars/koinon/koinon-rewards/src/lib.rs:272-286 | for every positive block rate and every number of blocks, the floored rewards sum to at most five first years |
| `Rewards.RunsConserve` | pillars/koinon/koinon-rewards/src/lib.rs:186-214 | processing blocks 1..N from fresh never fails, minted and total are both the sum of the floored rewards, and conservation holds |
| `Rewards.BlockPays` | pillars/koinon/koinon-rewards/src/lib.rs:186-214 | block n is paid as number n of its year, with its floored share of the year's emission and its fees split 70, 20 and 10 |
| `BlockProducer.Producer.SubmitTransaction` | pillars/koinon/koinon-node/src/block.rs:206-210 | appends to the mempool |
| `BlockProducer.SumGas` | pillars/koinon/koinon-node/src/block.rs:228-235 | the total gas of a block's transactions, saturating per transaction |
| `BlockProducer.GasIsSaturated` | pillars/koinon/koinon-gas/src/pricing.rs:25-36 | base cost plus ten per step, at most the 64-bit limit |
| `BlockProducer.TotalGasAdds` | pillars/koinon/koinon-node/src/block.rs:228-235 | the gas of two lists together is the sum of theirs, and of one transaction its own |
| `BlockProducer.Producer.ProduceBlock` | pillars/koinon/koinon-node/src/block.rs:213-291 | drains the mempool into the next block, chained by hash, and stores its row, or loses the mempool on a reward error |
| `BlockProducer.ProduceKeeps` | pillars/koinon/koinon-node/src/block.rs:213-291 | on a chain in order producing returns a block with exactly the mempool that continues the chain, and the store stays the rows of the chain |
| `BlockProducer.RunsBuildChain` | pillars/koinon/koinon-node/src/block.rs:206-291 | over every run from genesis the returned blocks have consecutive heights, linked hashes over header, transactions and state root, the stamps answered for them, the scheduled reward and their gas split 70, 20 and 10; their transactions followed by the mempool are the submissions in order; the store holds exactly their rows |
| `BlockProducer.ReadBackKeeps` | pillars/koinon/koinon-node/src/store.rs:466-523 | a block read back has its header, the same hash preimage if and only if it had no transactions, and the same fee sum if and only if that was zero |
| `BlockProducer.StoreReadsHeaders` | pillars/koinon/koinon-node/src/store.rs:466-523 | after any run exactly the produced heights can be read, with the right hash, the predecessor's hash and the total gas |
| `SdJwt.ParseInvertsEncode` | pillars/identity/pkg/vc/sdjwt.go:53-94 | an encoded disclosure parses if and only if its value can be read, to its salt, its key and its value as read |
| `SdJwt.IssueSdJwt` | pillars/identity/pkg/vc/sdjwt.go:189-247 | issues exactly when issuer, key, subject and schema are acceptable, with one salted disclosure per selective claim and their digests signed, always-visible claims overriding |
| `SdJwt.Present` | pillars/identity/pkg/vc/sdjwt.go:118-130 | serializes the disclosures with the revealed keys, in order |
| `Sequences.SplitInvertsJoin` | pillars/identity/pkg/vc/sdjwt.go:155-163 | splitting a joined and terminated list gives its parts back |
| `SdJwt.ParseSdJwt` | pillars/identity/pkg/vc/sdjwt.go:264-285 | sorts the parts after the JWT into disclosures and a key-binding token |
| `SdJwtAcceptance.ParseInvertsSerialize` | pillars/identity/pkg/vc/sdjwt.go:135-285 | parsing a serialized token, with or without a key-binding JWT after it, gives back the JWT, the disclosures and the key binding |
| `SdJwt.Verify` | pillars/identity/pkg/vc/sdjwt.go:322-425 | every check in the order of the code, and the first refusal |
| `SdJwtAcceptance.PresentationVerifies` | pillars/identity/pkg/vc/sdjwt.go:118-425 | for any reveal set, an unexpired presentation of a token whose always-visible claims leave `iss`, `sub`, `exp` and `_sd` alone, with reproduced values shown, verifies to exactly the selective claims chosen, as read |
| `SdJwtAcceptance.ReportedDates` | pillars/identity/pkg/vc/sdjwt.go:410-424 | an accepted presentation is reported with the issued dates and schema, unless an always-visible claim takes their place |
| `SdJwtAcceptance.KeyBindingDecides` | pillars/identity/pkg/vc/sdjwt.go:383-396 | a token is reported as bound if and only if it carries a key binding, which must then verify; without one no nonce or audience may be expected |
| `SdJwtAcceptance.OnlyIssuedClaimsAreDisclosed` | pillars/identity/pkg/vc/sdjwt.go:356-381 | unless an always-visible claim replaces `_sd`, every pair accepted over the issuer's JWT comes from a presented disclosure and is an issued key with its issued value as read, or that disclosure collides with an issued one of different encoding |
| `SdJwtAcceptance.DisclosedExactlyWhen` | pillars/identity/pkg/vc/sdjwt.go:366-381 | presented disclosures pass if and only if each can be read and its digest, as read, is signed; they then stand for their values as read |
| `SdJwtAcceptance.AcceptedExactlyWhen` | pillars/identity/pkg/vc/sdjwt.go:238-381 | whatever the claims, a presentation is accepted if and only if the payload can be read, the issuer and expiry that the always-visible claims leave are good, and each disclosure shown, encoded again as read, has one of the digests they leave |
| `SdJwtAcceptance.AcceptedWhenReproduced` | pillars/identity/pkg/vc/sdjwt.go:366-381 | with the issued digests in place and no collision, that is if and only if the token is good and every text shown is reproduced by parsing and encoding it again |
| `SdJwtAcceptance.IntegersReproduced` | pillars/identity/pkg/vc/sdjwt.go:53-94 | integers up to 2^53 are reproduced, 2^53 + 1 is not |
| `SdJwtAcceptance.LargeIntegerRefused` | pillars/identity/pkg/vc/sdjwt.go:366-381 | a token issued with the claim 2^53 + 1: showing it is refused |
| `SdJwtAcceptance.HugeExpiryHasPassed` | pillars/identity/pkg/vc/sdjwt.go:349-354 | a token whose `exp` was replaced by 2^63, where that converts to the least integer: it has expired |
| `SdJwtAcceptance.ReplacedDigestsHide` | pillars/identity/pkg/vc/sdjwt.go:238-240 | a token whose `_sd` was replaced by a text: showing its claim is refused |
| `SdJwtAcceptance.TextualExpiryLasts` | pillars/identity/pkg/vc/sdjwt.go:349-354 | a token whose `exp` was replaced by a text: showing a reproduced claim is accepted at any time |
| `AuditLog.EscapeSizes` | pillars/identity/internal/store/sqlite.go:1099 | which characters JSON leaves alone, which get a two-character escape and which a six-character one |
| `AuditLog.EscapeReads` | pillars/identity/internal/store/sqlite.go:1099 | every escaped character reads back as itself |
| `AuditLog.QuotedReads` | pillars/identity/internal/store/sqlite.go:1099 | every quoted text reads back as itself, whatever follows |
| `AuditLog.RecordReads` | pillars/identity/internal/store/sqlite.go:1099 | the record reads back as event type, payload and previous hash under those names |
| `AuditLog.PreimageInjective` | pillars/identity/internal/store/sqlite.go:1098-1101 | the hashed text determines event type, payload and previous hash |
| `AuditLog.AuditStore.AppendAuditEvent` | pillars/identity/internal/store/sqlite.go:1098-1117 | appends one entry with the hash of the previous hash and the record |
| `AuditLog.AuditStore.GetAuditHead` | pillars/identity/internal/store/sqlite.go:1119-1123 | the newest entry, if any |
| `AuditLog.AuditStore.Handle` | pillars/identity/internal/auditlog/auditlog.go:30-46 | appends the event under the head's hash and keeps the chain valid |
| `AuditLog.LoggedIsChain` | pillars/identity/internal/auditlog/auditlog.go:30-46 | any sequence of events gives a valid chain of exactly those events |
| `AuditLog.HeadDeterminesLog` | pillars/identity/internal/store/sqlite.go:1098-1123 | two valid chains with the same head hash are equal, or an entry of each is named whose hashed texts differ and collide |
| `AuditLog.TamperingIsDetected` | pillars/identity/internal/store/sqlite.go:1098-1123 | any other log behind the same head is not a valid chain, unless a text hashed in it collides with a different one hashed in the original |
| `StatusList.List.constructor` | pillars/identity/pkg/vc/status.go:32-38 | the minimum size, or the requested one rounded up to whole bytes; nothing revoked |
| `StatusList.List.Revoke` | pillars/identity/pkg/vc/status.go:41-49 | adds exactly the index to the set, or refuses it |
| `StatusList.List.Unrevoke` | pillars/identity/pkg/vc/status.go:52-60 | removes exactly the index, or refuses it |
| `StatusList.List.IsRevoked` | pillars/identity/pkg/vc/status.go:63-70 | membership, or nothing out of range |
| `StatusList.SetRefined` | pillars/identity/pkg/vc/status.go:41-60 | setting and clearing a bit are adding and removing one index, no other disturbed |
| `StatusList.LowestBitFirst` | pillars/identity/pkg/vc/status.go:41-70 | index i is digit i mod 8, lowest first, of the number in byte i / 8 |
| `StatusList.RunRefinesSet` | pillars/identity/pkg/vc/status.go:32-77 | after any run an index is revoked exactly when it is in range and the last operation on it revoked it |
| `StatusList.CheckStatus` | pillars/identity/pkg/vc/status.go:179-193 | the outcome for any index a status may carry, the next row says what it is |
| `StatusList.CheckAgreesExactlyWhen` | pillars/identity/pkg/vc/status.go:179-193 | agrees with membership for every index in range, refuses what lies beyond, and what it does below zero |

## Left out

- HTTP handlers, OIDC, WebAuthn, webhooks, DNS and DID resolution, TCP transport, JSON-RPC, command lines, metrics and user interfaces: plumbing over libraries.
- Escrow state transitions, agent mandates, vesting schedules, consent policy and login lockout: each is a check or an update of one record on its own.
- Elastic supply, genesis weights, chora balances and vector search: floating-point formulas.
- The staking pool, treasury, telos, eidos and archon engines: the model takes their answers as parameters.
- SD-JWT key binding: the presenting side hashes the text without the trailing separator and the verifying side with it, so no round trip holds; the check is a parameter. Watermark disclosures are not modelled.
- `WireTx` conversion, share hex encoding, gzip and base64 of the published status list.
- `check_full_invariant` as a run invariant: the recorders update only one side of its equations.
- The node's second supply tracker, which records the same mints as the reward processor's.
- RateLimiter.IpRateLimiter.Allow: arithmetic over the reals, so floating-point rounding is not captured; requests and evictions are taken one at a time, as the mutex orders them.
- Didcomm.PackEnvelope: a failing read of the random source is not modelled, and neither is the comparison order of the sorted key IDs.
- Rewards.SplitFees: does not model overflow of 128-bit fee products.
- BlockProducer.Producer.ProduceBlock: a failing store, a restart, and 64-bit overflow of heights are not modelled.
- AuditLog.AuditStore.Handle: sequential use only, because reading the head and appending are not one step; database errors and text that is not valid UTF-8 are not modelled. Paging through the log is left out.
- SdJwt.IssueSdJwt: claim values that JSON cannot marshal, texts that are not valid UTF-8 and failing reads of the random source are not modelled.
- GossipNetwork.FloodIsBounded: the transport may lose and reorder messages but does not duplicate them; removal and staleness of peers appear as arbitrary peer changes.
- StatusList.List.Revoke: the mutex is not modelled.
