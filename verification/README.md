# Zeno, modelled and verified in Dafny

Zeno is a layer 1 node. This project models its hard parts, and proves what they promise.

- **Consensus.** `RoundMachine` is one node as functions of its state and the next event: proposals, votes, tallies,
  locks, certificates, rounds, heights and the write-ahead log. `ConsensusEngine` is the same node as a class updated
  in place, each method proved equal to its function. `Discipline` proves what every event keeps, `Agreement` the
  safety of a committee over all its runs, and `UnheldPrecommit` shows with a concrete run that its one hypothesis on
  behaviour is needed. `Recovery` and `CrashRecovery` prove that the log rebuilds the node, after power loss at any write,
  and that compaction does not show; `Restart` exactly when a validator can sign twice across restarts, and `Halting`
  when locks keep later rounds from deciding a height. `Progress` proves that each rule fires, on the recorded votes, and
  `Equivocation` that every equivocation is reported and nobody else. `Finality` carries agreement down to the ledger: one block a
  height, one chain, one set of accounts.
- **State and proofs.** `SparseMerkle` is the account commitment with inclusion and non-inclusion proofs,
  `CommitmentTree` the incremental tree of shielded notes, `MerkleRoot` the odd-leaf tree of transactions and receipts.
  Hashes are free constructors: ideal, so nothing has to be assumed about them.
- **Ledgers.** `Staking` and `StakingSnapshot` are stakes, delegations, unbonding, slashing and rewards, `StakeEffects` what
  each operation moves. `Execution` is
  native transactions, fees and blocks, `Payments` who pays and is paid, `Replication` the store and the agreement of proposer, validator and follower;
  `BaseFee` is the base fee.
- **Mempool.** `Mempool` is the pool as one map, `MempoolIndexes` the five indexes that represent it.
- **Codec.** `Rlp` is the transaction encoding (Appendix B of the Ethereum Yellow Paper).

Where the source loops or updates fields, a method does, and its contract ties it to a function whose properties are
lemmas. Saturating and 128-bit arithmetic is written out where a property depends on it, and unchecked arithmetic as in
a release build, where it wraps; a debug build panics there.

`docs/consensus.md` says that locking is not implemented. The code implements it, and the model follows the code.

Findings worth a maintainer's attention:

- A precommit is requested on a prevote quorum before the test that the node holds the block, so it can be cast without
  a lock; `UnheldPrecommit.TwoCertificates` turns that into two certificates of one height with one faulty validator
  of four.
- A locked block is never proposed again: its header names its round, so a locked node prevotes nil in every later
  round of the height (`Discipline.LockBindsPrevote`).
- A commit that is logged and then fails leaves the log ahead of the node, and this is the only way the two part
  (`CrashRecovery.RecoveryRefines`, with such a history in `CrashRecovery.FailedCommitParts`).
- Transaction and receipt roots do not bind the number of leaves (`MerkleRoot.RepeatedTailCollides`).
- The priority lane of block selection has no effect on the fees selected (`MempoolIndexes.LanesChangeNothing`).
- A sender the pool has not seen is refused any nonce above 64, whatever its account's nonce (`Mempool.NonceReach`).
- Without active stake an epoch closes but releases no unbonding entry that is due (`Staking.CloseReleases`,
  `Staking.DueEntryStays`), and none is released until somebody bonds (`Staking.StuckUntilBond`).
- The sum of active stakes is unchecked: once it wraps, the public settlement function can pay more than the pool
  (`Staking.WrappedRewards`) or almost nothing of it (`Staking.WrappedUnderpays`); `Staking.Overpayment` says when. Block
  execution settles nothing (`Staking.SettlesNothing`).
- A restart recovers the round a validator has voted in but not that it has, so it can sign that slot again
  (`Restart.SignsTwice`); exactly when is `Restart.SignsOnceExactly`.
- A locked node stays locked for its height and prevotes nil, so once more honest nodes are locked than a quorum can do
  without, no later round decides the height (`Halting.HeightHalts`, with a run in `Halting.HaltedRun`).
- A finalizing node persists accounts before it commits the block; if it loses power in between it can never take that
  block again, unless it has no transactions (`Replication.LostForGood`).
- An epoch transition depends on liveness notes each node keeps for itself, so followers can refuse an honest bundle at
  a boundary (`Replication.LivenessSplits`).
- Ten bytes keep the list decoder looping for ever (`Rlp.HangingInput`).

## Model

| member | source | states |
|---|---|---|
| Agreement.Agreement | ZenoQPL1/crates/zeno-consensus/src/lib.rs:152-792 | Over every run of a committee with fewer than a third Byzantine validators, in which no honest node precommits a block it does not hold, any two certificates of one height, from any two rounds, are for the same block |
| Agreement.ExecutionSafe | ZenoQPL1/crates/zeno-consensus/src/lib.rs:339-694 | In every state of such a run each honest node is disciplined, every polka or lock it acted on is backed by votes that were really cast, and a precommit silences its later prevotes of the height |
| Agreement.ActSafe | ZenoQPL1/crates/zeno-consensus/src/lib.rs:193-694 | One action of one honest node, fed with genuine votes, keeps that system-wide invariant |
| Agreement.EventCommitted | ZenoQPL1/crates/zeno-consensus/src/lib.rs:193-694 | One event keeps a node's commitments: its block precommits have polkas and hold its lock, and after one it prevotes no block in later rounds of the height |
| Agreement.PrecommitGuard | ZenoQPL1/crates/zeno-consensus/src/lib.rs:504-540 | Recording asks for a precommit exactly when the vote completes a quorum in the current round |
| Agreement.QuorumsIntersect | ZenoQPL1/crates/zeno-consensus/src/lib.rs:152-155 | Two sets of at least `quorum` validators share an honest one when fewer than a third are Byzantine |
| Agreement.CertificatePolka | ZenoQPL1/crates/zeno-consensus/src/lib.rs:504-557 | Behind every certificate an honest node accepts there is a prevote quorum for its block in its round |
| Agreement.CertificateBlocksPolkas | ZenoQPL1/crates/zeno-consensus/src/lib.rs:356-443 | Once a block is certified no later round of its height has a prevote quorum for any block, and its own round none for another |
| Agreement.FinalizedIsCertified | ZenoQPL1/crates/zeno-consensus/src/lib.rs:563-587 | The certificate a node assembles on a precommit quorum for its proposal is one every honest node accepts |
| Halting.HeightHalts | ZenoQPL1/crates/zeno-consensus/src/lib.rs:356-443 | Once more honest nodes of a height are locked than a quorum can do without, no later round ever has a prevote quorum for a block or a certificate, in any continuation of any run, whatever Byzantine validators do |
| Halting.HaltedRun | ZenoQPL1/crates/zeno-consensus/src/lib.rs:356-443 | A run of four validators after which two are locked and only round 0 can still decide the height, whatever follows |
| Halting.EventAnchored | ZenoQPL1/crates/zeno-consensus/src/lib.rs:193-694 | Every event keeps: block precommits have polkas, and no block is prevoted after the round of the lock; a locked node prevotes no block and loses the lock only with the height |
| Finality.OneBlockPerHeight | ZenoQPL1/crates/zeno-consensus/src/lib.rs:563-650 | Over every such run no two honest nodes, nor one node twice, log commits of different blocks of one height |
| Finality.ExecutionCertain | ZenoQPL1/crates/zeno-consensus/src/lib.rs:563-650 | In every such run each commit an honest node logs, of its own or imported, has a valid certificate of genuine votes |
| Finality.OneLedger | ZenoQPL1/crates/zeno-consensus/src/lib.rs:563-650 | The chains honest nodes finalize are one a prefix of the other, and two nodes that executed the same length, each with its own staking records, hold the same accounts and blocks |
| UnheldPrecommit.TwoCertificates | ZenoQPL1/crates/zeno-consensus/src/lib.rs:504-540 | The hypothesis on unheld precommits is needed: a run of four validators, one faulty, in which two blocks of one height are certified because a precommit was cast without its proposal |
| Discipline.RunDisciplined | ZenoQPL1/crates/zeno-consensus/src/lib.rs:297-694 | Every state of every run from a fresh start: tallies are exactly the voter sets of `votes`, no voter has two hashes in one step, lock equals valid block and round, flags remember what was sent |
| Discipline.EventKeeps | ZenoQPL1/crates/zeno-consensus/src/lib.rs:297-694 | Every event keeps that invariant and never moves (height, round) back; votes and flags are dropped only when it moves up |
| Discipline.RunSignsOnce | ZenoQPL1/crates/zeno-consensus/src/lib.rs:339-443 | At most one prevote and one precommit are signed per height and round in any run without a restart |
| Discipline.RecordVoteKeeps | ZenoQPL1/crates/zeno-consensus/src/lib.rs:445-543 | Recording a vote of a member keeps the invariant, also when it conflicts |
| Discipline.RecordVoteFrame | ZenoQPL1/crates/zeno-consensus/src/lib.rs:445-543 | Recording touches neither clock, proposal, flags nor sent votes; the lock moves only to the held proposal, in this round, on a recorded prevote quorum for it |
| Discipline.RecordVoteActions | ZenoQPL1/crates/zeno-consensus/src/lib.rs:490-543 | A precommit or finalize is requested only on a quorum; a requested block precommit goes with a lock on that block exactly when it is the held proposal |
| Discipline.CountVoteTallied | ZenoQPL1/crates/zeno-consensus/src/lib.rs:451-500 | A vote that conflicts with no recorded one keeps the tallies exact |
| Discipline.LockBindsPrevote | ZenoQPL1/crates/zeno-consensus/src/lib.rs:356-380 | A locked node prevotes its locked block or nil, and in rounds after the lock only nil, because a header names its round |
| Discipline.AtMostOneQuorum | ZenoQPL1/crates/zeno-consensus/src/lib.rs:490-543 | At most one hash reaches a quorum of prevotes, and at most one of precommits, in a round |
| Discipline.OwnCertificateValid | ZenoQPL1/crates/zeno-consensus/src/lib.rs:563-587 | The certificate built after a precommit quorum for the proposal passes the node's own validation and names exactly the recorded voters |
| Discipline.PrecommitsForIsFilter | ZenoQPL1/crates/zeno-consensus/src/lib.rs:563-580 | A certificate collects exactly the recorded precommits for its hash |
| Progress.QuorumIsLeast | ZenoQPL1/crates/zeno-consensus/src/lib.rs:152-155 | A quorum is the least number above two thirds, and all but fewer than a third of the validators make one |
| Progress.EveryoneProposes | ZenoQPL1/crates/zeno-consensus/src/lib.rs:165-169 | Every validator proposes exactly once in as many consecutive rounds as there are validators |
| Progress.PrevoteRule | ZenoQPL1/crates/zeno-consensus/src/lib.rs:356-380 | The locking rule in full: the proposal is prevoted exactly if the node is unlocked, locked on it, or knows a polka for it not older than its lock |
| Progress.RecordAsksExactly | ZenoQPL1/crates/zeno-consensus/src/lib.rs:490-543 | On the recorded votes: a precommit is requested exactly when the vote completes a prevote quorum, for a block or nil, and finalization exactly when it completes a precommit quorum for a block |
| Progress.HandlingSigns | ZenoQPL1/crates/zeno-consensus/src/lib.rs:545-557 | Handling a vote signs exactly one precommit if it completes a prevote quorum and none was signed in the round, and otherwise nothing |
| Progress.QuorumFinalizes | ZenoQPL1/crates/zeno-consensus/src/lib.rs:545-627 | A precommit that completes the quorum for the held block takes the node to the next height, round 0, empty and unlocked, with the commit among its new writes |
| Progress.OwnPrecommitFinalizes | ZenoQPL1/crates/zeno-consensus/src/lib.rs:545-627 | So does a prevote that completes the polka when the node's own precommit completes the quorum |
| Progress.ProposalPrevoted | ZenoQPL1/crates/zeno-consensus/src/lib.rs:297-337 | A proposal of the round's proposer is taken by a node that holds none, and prevoted, or nil if the node is locked |
| Progress.ProposalRefused | ZenoQPL1/crates/zeno-consensus/src/lib.rs:751-762 | Any other proposal changes nothing |
| Progress.ProposesInTurn | ZenoQPL1/crates/zeno-consensus/src/lib.rs:193-295 | In its turn, and only then, a node logs a block as broadcast and prevotes it unless it is locked or has voted |
| Progress.TimeoutMoves | ZenoQPL1/crates/zeno-consensus/src/lib.rs:696-749 | A timeout succeeds, prevotes nil if the node has not voted, and takes every node to the next round of its height, empty, with its locks |
| Progress.ImportMoves | ZenoQPL1/crates/zeno-consensus/src/lib.rs:634-650 | A block certified for this height or a later one takes the node past it; an older or uncertified one changes nothing |
| Progress.FinalizeFails | ZenoQPL1/crates/zeno-consensus/src/lib.rs:563-627 | What a failed finalization leaves: nothing without the proposal, for another block, or on a refusal; the logged commit after that; without the evidence after that |
| Progress.ImportFails | ZenoQPL1/crates/zeno-consensus/src/lib.rs:634-650 | An import whose block does not commit leaves its logged commit and nothing else |
| Progress.ProposalPasses | ZenoQPL1/crates/zeno-consensus/src/lib.rs:297-304 | A proposal for another height or round is let pass |
| Progress.FinalizeTrims | ZenoQPL1/crates/zeno-consensus/src/lib.rs:605-617 | Finalizing drops from the log exactly the entries of more than ten heights ago |
| Equivocation.VoteReports | ZenoQPL1/crates/zeno-consensus/src/lib.rs:453-480 | A vote that contradicts a recorded one is reported with its voter, height and round, unless they were before, and does nothing else; other votes report nothing |
| Equivocation.ProposalReports | ZenoQPL1/crates/zeno-consensus/src/lib.rs:304-327 | A second proposal is reported exactly if its block differs from the one held and its proposer and round were not reported before |
| Equivocation.EventReports | ZenoQPL1/crates/zeno-consensus/src/lib.rs:193-694 | An event adds at most one report, under a new key, or a commit settles the reports there are |
| Equivocation.ProcessedWasReported | ZenoQPL1/crates/zeno-consensus/src/lib.rs:464-480 | Along any run, whoever is marked as processed was reported at some point |
| Equivocation.RunReportsOnce | ZenoQPL1/crates/zeno-consensus/src/lib.rs:464-480 | In every state of every run no two pending reports share validator, height and round |
| Equivocation.EvidenceSound | ZenoQPL1/crates/zeno-consensus/src/lib.rs:453-480 | In every state of every run a report names a validator that cast two votes for different hashes in one slot, or proposed two blocks for one round, seen by the node |
| Equivocation.HonestNeverReported | ZenoQPL1/crates/zeno-consensus/src/lib.rs:453-480 | Over every run of every committee no node reports an honest validator for its votes |
| CrashRecovery.RecoveryRefines | ZenoQPL1/crates/zeno-consensus/src/lib.rs:858-924 | Over every history of events, failed commits and power losses at any write: at each event boundary recovery returns exactly the clock, locks and valid block in memory if and only if no logged commit is ahead of the node's height |
| CrashRecovery.CleanRecovery | ZenoQPL1/crates/zeno-consensus/src/lib.rs:597-626 | In particular always, when every logged commit succeeds |
| CrashRecovery.FailedCommitParts | ZenoQPL1/crates/zeno-consensus/src/lib.rs:634-650 | A history on the other side: a certified import is logged and then fails, and recovery is a height ahead of the node |
| Restart.SignsOnceAcrossBoots | ZenoQPL1/crates/zeno-consensus/src/lib.rs:339-443 | Over every history with power losses at any write, no height, round and step is signed twice as long as each restart recovers a clock past every vote logged before it |
| Restart.SignsOnceExactly | ZenoQPL1/crates/zeno-consensus/src/lib.rs:339-443 | Exactly then: each restart recovers past every vote logged before it if and only if no slot is used twice in any continuation of any part of the history |
| Restart.OneRestart | ZenoQPL1/crates/zeno-consensus/src/lib.rs:339-443 | The same for a single restart: without it, some events of members make the validator sign a slot again |
| Restart.OffendingVote | ZenoQPL1/crates/zeno-consensus/src/lib.rs:858-924 | A vote that a restart does not recover past lies exactly at the recovered clock, and is the validator's own |
| Restart.SignsBoth | ZenoQPL1/crates/zeno-consensus/src/lib.rs:696-749 | After any restart, nil prevotes of the others and a timeout make the validator prevote and precommit in the recovered round |
| Restart.CrashClock | ZenoQPL1/crates/zeno-consensus/src/lib.rs:184-191 | Whatever writes survive a boot, the clock recovered is not behind the one booted with nor behind any surviving vote |
| Restart.SignsTwice | ZenoQPL1/crates/zeno-consensus/src/lib.rs:82-150 | Otherwise it can be: a validator prevotes a block, loses power, recovers the same round, times out and prevotes nil |
| Restart.EventLater | ZenoQPL1/crates/zeno-consensus/src/lib.rs:193-694 | Every event, of any node, signs only in unused slots at or after its clock, and logs each vote it sends |
| CrashRecovery.CrashPointSafe | ZenoQPL1/crates/zeno-consensus/src/lib.rs:184-191 | Recovered from the image after any single write, locks belong to the recovered height and to a round already reached, and the clock is not behind the stored snapshot |
| CrashRecovery.HistoryKept | ZenoQPL1/crates/zeno-consensus/src/lib.rs:179-694 | Every event and every restart keeps disk and memory in step |
| CrashRecovery.EventKeepsDisk | ZenoQPL1/crates/zeno-consensus/src/lib.rs:179-694 | One event keeps disk and memory in step at its end, and leaves a sound image after each of its writes |
| CrashRecovery.StartKept | ZenoQPL1/crates/zeno-consensus/src/lib.rs:104-150 | A restart from any sound image rebuilds a node in step with it |
| Recovery.RecoverSnapshot | ZenoQPL1/crates/zeno-consensus/src/lib.rs:858-924 | The replay loop computes the fold of the log over the snapshot |
| Recovery.RecoverClosedForm | ZenoQPL1/crates/zeno-consensus/src/lib.rs:858-924 | The fold in closed form: a commit beyond the snapshot's height wins and clears locks; otherwise the snapshot's clock stands with the locks last logged for its height |
| Recovery.RecoveredIsLogged | ZenoQPL1/crates/zeno-consensus/src/lib.rs:858-924 | Recovered locks are always the last ones logged for the recovered height, which is the larger of snapshot and commit frontier |
| Recovery.RecoveredLockBelongs | ZenoQPL1/crates/zeno-consensus/src/lib.rs:858-924 | On a sound disk a recovered lock is a block of the recovered height, locked in a round not beyond the recovered one |
| Recovery.CompactWal | ZenoQPL1/crates/zeno-storage/src/lib.rs:294-314 | The retain loop keeps, in order, the entries at or above the bound and counts the others |
| Recovery.CompactIsFilter | ZenoQPL1/crates/zeno-storage/src/lib.rs:294-314 | An entry is in the compacted log exactly when it is in the log and not below the bound |
| Recovery.CompactionInvisible | ZenoQPL1/crates/zeno-storage/src/lib.rs:294-314 | For every log, every snapshot and every bound up to its height, recovery from the compacted log equals recovery from the whole log, and is never behind the snapshot |
| Recovery.CompactionVisibleAbove | ZenoQPL1/crates/zeno-storage/src/lib.rs:294-314 | The bound is tight: compacting one height further loses a lock |
| Recovery.CompactKeepsLocks | ZenoQPL1/crates/zeno-storage/src/lib.rs:294-314 | Compaction keeps the last lock and polka of every height not below the bound |
| ConsensusEngine.Engine.constructor | ZenoQPL1/crates/zeno-consensus/src/lib.rs:104-150 | A new engine holds the recovered clock and locks and an otherwise empty round |
| ConsensusEngine.Engine.AppendWal | ZenoQPL1/crates/zeno-consensus/src/lib.rs:179-182 | Appends one entry to the stored log and changes nothing else |
| ConsensusEngine.Engine.PersistSnapshot | ZenoQPL1/crates/zeno-consensus/src/lib.rs:184-191 | Stores the snapshot first, then logs it |
| ConsensusEngine.Engine.SignPrevote | ZenoQPL1/crates/zeno-consensus/src/lib.rs:339-403 | Signs the prevote the locking rule selects, at most once, after logging it |
| ConsensusEngine.Engine.SignPrecommit | ZenoQPL1/crates/zeno-consensus/src/lib.rs:405-443 | Signs a precommit at most once, after logging it |
| ConsensusEngine.Engine.HasConflict | ZenoQPL1/crates/zeno-consensus/src/lib.rs:453-463 | The search loop finds a conflict exactly when one of the recorded votes is by the same voter in the same slot for another hash |
| ConsensusEngine.Engine.Count | ZenoQPL1/crates/zeno-consensus/src/lib.rs:481-502 | Adds the vote to its tally and returns the number of distinct voters for its hash |
| ConsensusEngine.Engine.Lock | ZenoQPL1/crates/zeno-consensus/src/lib.rs:504-533 | Sets valid and lock fields to the held proposal and logs both |
| ConsensusEngine.Engine.Record | ZenoQPL1/crates/zeno-consensus/src/lib.rs:445-543 | The in-place update, log and requests equal the specification of recording a vote |
| ConsensusEngine.Engine.CollectPrecommits | ZenoQPL1/crates/zeno-consensus/src/lib.rs:563-580 | Collects in order the recorded precommits for a hash |
| ConsensusEngine.Engine.ValidateCertificate | ZenoQPL1/crates/zeno-consensus/src/lib.rs:764-792 | The validation loop accepts exactly the certificates that match the block, hold only its precommits, and come from a quorum of distinct voters |
| ConsensusEngine.Engine.FinalizeBlock | ZenoQPL1/crates/zeno-consensus/src/lib.rs:563-627 | Finalization with its failure points, before the log, after it, and after the evidence is taken, equals its specification: what is logged, settled, trimmed and advanced |
| ConsensusEngine.Engine.HandleVoteActions | ZenoQPL1/crates/zeno-consensus/src/lib.rs:545-557 | Recording, answering with a precommit, recording that, then finalizing equals its specification |
| ConsensusEngine.Engine.PrevoteNow | ZenoQPL1/crates/zeno-consensus/src/lib.rs:339-403 | Emitting a prevote and handling it as a received vote equals its specification |
| ConsensusEngine.Engine.ReceiveProposal | ZenoQPL1/crates/zeno-consensus/src/lib.rs:297-337 | Accepting, refusing and reporting proposals equals its specification |
| ConsensusEngine.Engine.ProposeBlock | ZenoQPL1/crates/zeno-consensus/src/lib.rs:193-295 | Proposing in one's own slot equals its specification |
| ConsensusEngine.Engine.ImportBlock | ZenoQPL1/crates/zeno-consensus/src/lib.rs:634-650 | Importing a certified block equals its specification |
| ConsensusEngine.Engine.ToHeight | ZenoQPL1/crates/zeno-consensus/src/lib.rs:652-672 | Clears round, locks and valid block at the new height, and persists it |
| ConsensusEngine.Engine.ToNextRound | ZenoQPL1/crates/zeno-consensus/src/lib.rs:674-694 | Clears the round but keeps lock and valid block, and persists it |
| ConsensusEngine.Engine.TimeOut | ZenoQPL1/crates/zeno-consensus/src/lib.rs:696-749 | A timeout prevotes if it has not, then moves to the next round unless finalizing failed |
| SparseMerkle.ProofSound | ZenoQPL1/crates/zeno-state/src/lib.rs:501-518 | For arbitrary siblings, an accepted proof states exactly the account, or the absence, that the map holds |
| SparseMerkle.ProofComplete | ZenoQPL1/crates/zeno-state/src/lib.rs:473-496 | The proof built for any address, present or absent, verifies if and only if no other account shares all used path bits and precedes it |
| SparseMerkle.ProofCompleteWithoutCollisions | ZenoQPL1/crates/zeno-state/src/lib.rs:483-518 | At depth 64 it verifies for every address whose path nobody else has |
| SparseMerkle.RootCommits | ZenoQPL1/crates/zeno-state/src/lib.rs:536-565 | Walking down from the root along any path reaches the leaf of the full tree there: the empty-subtree shortcut changes nothing |
| SparseMerkle.RootBinds | ZenoQPL1/crates/zeno-state/src/lib.rs:473-480 | Equal roots give equal contents at every address free of collisions |
| SparseMerkle.LeafAtMeaning | ZenoQPL1/crates/zeno-state/src/lib.rs:548-565 | The reference leaf is empty exactly where no account has the path, and otherwise is the first such account |
| SparseMerkle.Split | ZenoQPL1/crates/zeno-state/src/lib.rs:548-565 | The partition loop separates the entries by their bit, in order |
| SparseMerkle.EmptyHashes | ZenoQPL1/crates/zeno-state/src/lib.rs:536-546 | The table holds the root of the empty tree of every height |
| SparseMerkle.Verify | ZenoQPL1/crates/zeno-state/src/lib.rs:501-518 | The bottom-up loop accepts exactly when the recursive climb reaches the expected root |
| CommitmentTree.Tree.constructor | ZenoQPL1/crates/zeno-zk/src/lib.rs:269-279 | A new tree is the empty one |
| CommitmentTree.Tree.EnsureEmptyHashes | ZenoQPL1/crates/zeno-zk/src/lib.rs:281-286 | The lazily filled table is right once it is there |
| CommitmentTree.Tree.NodeHash | ZenoQPL1/crates/zeno-zk/src/lib.rs:341-353 | A missing node reads as the empty subtree of its height |
| CommitmentTree.Tree.Root | ZenoQPL1/crates/zeno-zk/src/lib.rs:288-291 | After any inserts the root is the plain recursive Merkle root of the padded leaves |
| CommitmentTree.Tree.Insert | ZenoQPL1/crates/zeno-zk/src/lib.rs:294-314 | Appends one leaf and leaves every stored and every missing node equal to its plain recursive root; a full tree is refused unchanged |
| CommitmentTree.Tree.UpdateParent | ZenoQPL1/crates/zeno-zk/src/lib.rs:300-312 | One step up the path restores one more level of nodes |
| CommitmentTree.Tree.Prove | ZenoQPL1/crates/zeno-zk/src/lib.rs:317-339 | For every index below the leaf count the proof is accepted against the current root; otherwise not found |
| CommitmentTree.VerifyCommitmentProof | ZenoQPL1/crates/zeno-zk/src/lib.rs:356-371 | The loop over the siblings accepts exactly what the recursive climb accepts |
| CommitmentTree.ProofSound | ZenoQPL1/crates/zeno-zk/src/lib.rs:356-371 | Under an ideal hash an accepted proof at any index carries the leaf at that index modulo 2^depth |
| CommitmentTree.PoolProofSound | ZenoQPL1/crates/zeno-zk/src/lib.rs:356-371 | At the pool's depth: the leaf at the index modulo 2^32 |
| CommitmentTree.ProofComplete | ZenoQPL1/crates/zeno-zk/src/lib.rs:317-371 | The plain siblings of any index below 2^depth are accepted |
| CommitmentTree.RootBinds | ZenoQPL1/crates/zeno-zk/src/lib.rs:288-291 | Two leaf lists of equal length with equal roots are equal |
| CommitmentTree.OffPathUnchanged | ZenoQPL1/crates/zeno-zk/src/lib.rs:294-314 | Appending a leaf changes no node outside its path |
| CommitmentTree.SiblingsClimb | ZenoQPL1/crates/zeno-zk/src/lib.rs:317-371 | Climbing from any node with its siblings gives its ancestor |
| CommitmentTree.ClimbDescends | ZenoQPL1/crates/zeno-zk/src/lib.rs:356-371 | Any climb that ends in the root started at the node the index bits lead down to |
| CommitmentTree.DescendIsMod | ZenoQPL1/crates/zeno-zk/src/lib.rs:356-371 | Those bits are the index modulo a power of two |
| Execution.ChainConserves | ZenoQPL1/crates/zeno-execution/src/lib.rs:316-430 | Over any chain of native blocks the sum of all balances never changes |
| Execution.BlockConserves | ZenoQPL1/crates/zeno-execution/src/lib.rs:380-430 | One block conserves it: amounts, proposer reward and treasury cut included |
| Execution.ExecuteSupply | ZenoQPL1/crates/zeno-execution/src/lib.rs:165-204 | The transactions alone move exactly the collected fees out of the accounts |
| Execution.NoReplay | ZenoQPL1/crates/zeno-execution/src/lib.rs:142-204 | In any chain two transactions of one sender carry increasing nonces, so no pair executes twice |
| Payments.ChainMoves | ZenoQPL1/crates/zeno-execution/src/lib.rs:165-204 | Over a whole chain every balance is the one before, less what the address sent, plus what it received, plus the fees it earned as proposer or treasury |
| Payments.BalanceMoves | ZenoQPL1/crates/zeno-execution/src/lib.rs:165-204 | The same for the transactions of one list, read off the list alone |
| Payments.RunMoves | ZenoQPL1/crates/zeno-execution/src/lib.rs:180-194 | A transaction takes amount and fee and one nonce from its sender, gives the amount to its recipient, also when they are one, and leaves everybody else alone |
| Payments.RunsExactly | ZenoQPL1/crates/zeno-execution/src/lib.rs:142-204 | A transaction runs exactly when it is authentic, unexpired, positive, in turn, and covered by its sender's balance |
| Payments.AllSanctioned | ZenoQPL1/crates/zeno-execution/src/lib.rs:142-162 | Every transaction of an executed list was so just before it ran |
| Payments.ReceiptsMatch | ZenoQPL1/crates/zeno-execution/src/lib.rs:196-203 | One receipt a transaction, in order, with its hash, height and fee; the fees are their sum |
| Payments.FeeSplit | ZenoQPL1/crates/zeno-execution/src/lib.rs:388-401 | The treasury gets its basis points of the fees rounded down, the proposer the rest, one account for both gets all, and nobody else anything |
| Payments.FeeWhole | ZenoQPL1/crates/zeno-execution/src/lib.rs:420-428 | Without economics the proposer gets all the fees |
| Payments.ExpiryAgrees | ZenoQPL1/crates/zeno-mempool/src/lib.rs:188-194 | The pool evicts a transaction for its age exactly when execution would refuse it for that |
| Execution.ChainNonces | ZenoQPL1/crates/zeno-execution/src/lib.rs:142-204 | Each sender's nonce grows by exactly the number of its transactions in the chain |
| Execution.ChainInOrder | ZenoQPL1/crates/zeno-execution/src/lib.rs:142-204 | Every transaction ran at its sender's starting nonce plus the number that sender ran before it |
| Execution.StepsDiffer | ZenoQPL1/crates/zeno-consensus/src/lib.rs:964-980 | The proposal check's step and the execution step differ exactly on valid transactions with an out-of-range total or the last nonce |
| Execution.CheckAgrees | ZenoQPL1/crates/zeno-consensus/src/lib.rs:964-992 | With supply below the largest amount and no last nonce, the proposal check accepts exactly the lists execution accepts, with the same error otherwise, and reaches the same accounts |
| Replication.BuiltBlockAccepted | ZenoQPL1/crates/zeno-execution/src/lib.rs:263-364 | A block built by the dry run's loop is accepted by the block check's loop on the same store, and is built exactly when the proposal check's loop accepts its transactions |
| Execution.DryRunAgrees | ZenoQPL1/crates/zeno-execution/src/lib.rs:292-335 | The dry run, accumulating from the front, agrees with execution on every list, errors included |
| Execution.StateSnapshot.DryRunTransactions | ZenoQPL1/crates/zeno-execution/src/lib.rs:292-314 | The in-place dry run and its payout compute the dry run's specification, and stop at the first error |
| Replication.PersistExact | ZenoQPL1/crates/zeno-execution/src/lib.rs:316-378 | An accepted block leaves exactly the accounts its header commits to |
| Replication.OrdersAgree | ZenoQPL1/crates/zeno-execution/src/lib.rs:207-249 | Execute-persist-commit and commit-persist leave the same store; a follower accepts exactly the bundle it would have made itself, receipts and epoch transition included |
| Replication.ReplicasAgree | ZenoQPL1/crates/zeno-execution/src/lib.rs:207-260 | Of a chain one node finalized with its own staking records, a follower with its own accepts the bundles if and only if both give the same transition at every boundary, and then holds the same accounts, blocks, receipts and transitions |
| Replication.ImportIsFinalize | ZenoQPL1/crates/zeno-execution/src/lib.rs:207-260 | Importing a chain accepts exactly the bundles the follower would have made, and ends with the store it would have had |
| Replication.RecordsMatterAtBoundaries | ZenoQPL1/crates/zeno-execution/src/lib.rs:380-430 | Two nodes with the same blocks but different staking records accept the same blocks and hold the same accounts; their bundles differ exactly when a boundary transition does |
| Replication.NoBoundaryNoMatter | ZenoQPL1/crates/zeno-execution/src/lib.rs:405-411 | Without economics, or between epoch boundaries, the records never matter |
| Replication.LivenessSplits | ZenoQPL1/crates/zeno-execution/src/lib.rs:238-240 | At a boundary two nodes that differ only in when they last heard a validator refuse each other's block, whatever it holds |
| Replication.StoreFollowsChain | ZenoQPL1/crates/zeno-execution/src/lib.rs:207-260 | The store after an accepted chain holds the replayed accounts, so the same supply |
| Replication.LostBlockRefused | ZenoQPL1/crates/zeno-execution/src/lib.rs:207-225 | If power is lost after a finalizing node persisted a block's accounts and before it committed the block, the block is accepted again if and only if it has no transactions; otherwise its first nonce is spent |
| Replication.LostForGood | ZenoQPL1/crates/zeno-execution/src/lib.rs:207-249 | Such a node accepts no chain that starts with a lost block that has transactions |
| Replication.CommittedFirst | ZenoQPL1/crates/zeno-execution/src/lib.rs:228-249 | A follower commits accounts and block first, so after any loss of power it takes the same next blocks as the finished store |
| Execution.StateSnapshot.ApplyTransaction | ZenoQPL1/crates/zeno-execution/src/lib.rs:165-204 | Applies one transaction in place, or changes nothing on an error |
| Execution.StateSnapshot.Run | ZenoQPL1/crates/zeno-execution/src/lib.rs:292-335 | The loop accumulates fees and receipts up to the first error, as the fold does |
| Execution.StateSnapshot.PayOut | ZenoQPL1/crates/zeno-execution/src/lib.rs:380-430 | Pays fees to the proposer and the treasury in that order, also when they are the same account |
| Execution.StateSnapshot.CheckProposal | ZenoQPL1/crates/zeno-consensus/src/lib.rs:964-992 | The proposal check's loop computes the fold of its own step |
| Replication.MemoryStore.AtomicCommitBlock | ZenoQPL1/crates/zeno-storage/src/lib.rs:274-292 | Writes the accounts, every receipt in order, and the block under its hash and its height, and nothing else |
| Replication.LatestExists | ZenoQPL1/crates/zeno-storage/src/lib.rs:208-210 | Blocks stored by height have one of greatest height, whose hash a new block must name |
| Replication.AcceptedExactly | ZenoQPL1/crates/zeno-execution/src/lib.rs:316-364 | A block is accepted exactly when it is signed, extends the latest block, executes, and its header commits to its transactions, receipts and accounts |
| Replication.AcceptedPays | ZenoQPL1/crates/zeno-execution/src/lib.rs:380-430 | An accepted block's header commits to the accounts after the fee split by the protocol's rate, or after the whole fees went to its proposer |
| Replication.ParentIsLatest | ZenoQPL1/crates/zeno-storage/src/lib.rs:208-210 | The parent is the block of the greatest height |
| Replication.CommitFound | ZenoQPL1/crates/zeno-storage/src/lib.rs:274-292 | After a committed block its bundle is found by height and by hash, every account written by address, and all other entries stand |
| Replication.ImportFound | ZenoQPL1/crates/zeno-execution/src/lib.rs:228-249 | After an accepted bundle its receipts are found by transaction hash and its transition by epoch |
| Replication.BoundaryOnce | ZenoQPL1/crates/zeno-execution/src/lib.rs:405-411 | Exactly one height in every epoch length of them closes an epoch |
| BaseFee.UpdateBounds | ZenoQPL1/crates/zeno-execution/src/lib.rs:86-101 | Never below one, never down by more than an eighth, up to twice the target never up by more than an eighth or one unit, and strictly up above target until the ceiling |
| BaseFee.UpdateMonotone | ZenoQPL1/crates/zeno-execution/src/lib.rs:86-101 | Monotone in the gas used |
| BaseFee.UpdateIsEip1559 | ZenoQPL1/crates/zeno-execution/src/lib.rs:86-101 | Equal to the Specification section of EIP-1559 whenever nothing saturates and the base fee is positive |
| Staking.RunSound | ZenoQPL1/crates/zeno-state/src/lib.rs:116-377 | Over every run own delegations stay within the self bond, and self bond plus all other delegations within the total stake |
| Staking.ApplySound | ZenoQPL1/crates/zeno-state/src/lib.rs:116-366 | Every operation keeps that invariant |
| Staking.DelegateSound | ZenoQPL1/crates/zeno-state/src/lib.rs:133-158 | Delegating keeps it while the total fits 128 bits |
| Staking.UnbondingSound | ZenoQPL1/crates/zeno-state/src/lib.rs:160-194 | Unbonding completes exactly when the delegation covers the amount, and otherwise changes nothing: no underflow and no half-done step |
| Staking.UnbondingConserves | ZenoQPL1/crates/zeno-state/src/lib.rs:160-194 | What is bonded plus what is unbonding is unchanged by unbonding |
| Staking.SlashSound | ZenoQPL1/crates/zeno-state/src/lib.rs:196-239 | A slash with jailing keeps the invariant |
| Staking.SlashWithoutJail | ZenoQPL1/crates/zeno-state/src/lib.rs:196-239 | A slash without jailing keeps it if and only if the cut fits the slack, or nobody else has stake and the own delegation survives |
| Staking.SlashConserves | ZenoQPL1/crates/zeno-state/src/lib.rs:196-239 | What is bonded plus what is unbonding is unchanged by a slash, which jails by moving every delegation to unbonding |
| Staking.RewardBound | ZenoQPL1/crates/zeno-state/src/lib.rs:242-286 | While the active stake is within 128 bits the rewards never exceed the pool, and sum to more than the pool minus the number of rewarded validators unless a product saturates; treasury cut plus pool is fees plus budget |
| Staking.RewardShares | ZenoQPL1/crates/zeno-state/src/lib.rs:248-280 | Whatever wraps or saturates: what is paid is the sum of the products in parts of the summed stake, short by less than one unit each |
| Staking.Overpayment | ZenoQPL1/crates/zeno-state/src/lib.rs:248-280 | When rewards exceed the pool and when not, whatever wraps or saturates: they do if the products reach the summed stake for every unit of the pool and every validator; they do not if they stay below it for every unit and one more, in particular for a pool above one saturated share each |
| Staking.WrappedRewards | ZenoQPL1/crates/zeno-state/src/lib.rs:248-280 | A run with two validators whose stakes sum to 2 after wrapping: a pool of 1 pays each of them 2^126 |
| Staking.WrappedUnderpays | ZenoQPL1/crates/zeno-state/src/lib.rs:248-280 | A run with two validators whose stakes sum to 2^127 after wrapping: a pool of 1000 pays each of them 1 |
| Staking.SettlesNothing | ZenoQPL1/crates/zeno-execution/src/lib.rs:409-409 | Settling no fees and no budget, as block execution does, pays nobody and leaves the treasury alone |
| Staking.CloseReleases | ZenoQPL1/crates/zeno-state/src/lib.rs:255-261 | Closing an epoch leaves nothing due pending if and only if the summed active stake is positive or nothing is due |
| Staking.StuckUntilBond | ZenoQPL1/crates/zeno-state/src/lib.rs:255-261 | Without active stake nothing leaves the unbonding list, however many epochs close, until somebody bonds |
| Staking.DueEntryStays | ZenoQPL1/crates/zeno-state/src/lib.rs:255-261 | A run that registers, bonds, punishes and closes an epoch, after which an entry is due and still pending |
| Staking.RankedSorts | ZenoQPL1/crates/zeno-state/src/lib.rs:289-311 | The effective set is listed once each, more stake first and then the smaller address |
| Staking.DowntimeLeaves | ZenoQPL1/crates/zeno-state/src/lib.rs:350-366 | After a batch of downtime slashes exactly the stale validators are slashed and jailed, and the others stand |
| Replication.AccountForBlock | ZenoQPL1/crates/zeno-execution/src/lib.rs:380-418 | Seeding, the treasury's cut and, at a boundary, downtime slashing and settlement, on the ledger itself, leave a sound ledger with exactly the records a transition is computed from |
| Staking.ShareBound | ZenoQPL1/crates/zeno-state/src/lib.rs:268-275 | The same bounds for any weights and any pool |
| Staking.JailedStays | ZenoQPL1/crates/zeno-state/src/lib.rs:196-366 | No operation gives a jailed validator back |
| Staking.JailedForever | ZenoQPL1/crates/zeno-state/src/lib.rs:289-311 | Once punished a validator is never again in the effective set, whatever follows |
| Staking.PunishOne | ZenoQPL1/crates/zeno-state/src/lib.rs:313-366 | One more slash in a batch punishes exactly one more validator |
| StakeEffects.SlashTakes | ZenoQPL1/crates/zeno-state/src/lib.rs:208-214 | A slash takes its basis points of the total, rounded down, everything at 10000; the self bond becomes the smaller of itself and the new total |
| StakeEffects.SlashHits | ZenoQPL1/crates/zeno-state/src/lib.rs:196-239 | On the ledger it takes that from one validator and records the rate; without jailing nothing else changes |
| StakeEffects.BatchTakes | ZenoQPL1/crates/zeno-state/src/lib.rs:313-366 | A batch takes the same from everyone punished and nothing from the others |
| StakeEffects.JailReleases | ZenoQPL1/crates/zeno-state/src/lib.rs:215-232 | Jailing releases every delegation in full, due at the next epoch |
| StakeEffects.BondAdds | ZenoQPL1/crates/zeno-state/src/lib.rs:133-158 | A bond adds its amount to one delegation, the total, the self bond if it is one, and to everything held; nothing else moves |
| StakeEffects.BondRefused | ZenoQPL1/crates/zeno-state/src/lib.rs:133-158 | A bond to an unknown validator changes nothing |
| StakeEffects.UnbondMoves | ZenoQPL1/crates/zeno-state/src/lib.rs:160-194 | Unbonding takes the amount from delegation, total and one's own self bond, and makes it due after the unbonding period |
| StakeEffects.CloseKeeps | ZenoQPL1/crates/zeno-state/src/lib.rs:283-285 | With active stake a closing keeps exactly the entries due later |
| StakeEffects.RewardOf | ZenoQPL1/crates/zeno-state/src/lib.rs:271-279 | Each active validator with stake is due its share of the pool rounded down, and nobody else anything |
| StakeEffects.CommissionExact | ZenoQPL1/crates/zeno-state/src/lib.rs:275-278 | A commission is its basis points of the reward rounded down |
| StakeEffects.TreasuryGets | ZenoQPL1/crates/zeno-state/src/lib.rs:255-280 | The treasury gets its cut and the commissions, or everything without active stake; validators and delegations stand |
| StakeEffects.StaleExactly | ZenoQPL1/crates/zeno-state/src/lib.rs:339-362 | A validator is stale exactly if it is active and was last live in an earlier epoch; noting that it is live spares it |
| StakeEffects.EffectiveExactly | ZenoQPL1/crates/zeno-state/src/lib.rs:289-311 | A validator is effective exactly if it is active and its self bond reaches the minimum |
| StakeEffects.EffectiveOrder | ZenoQPL1/crates/zeno-state/src/lib.rs:300-305 | The effective set is listed by stake, the most first, and at equal stake by address |
| StakingSnapshot.Snapshot.EnsureValidators | ZenoQPL1/crates/zeno-state/src/lib.rs:116-130 | Registers each unknown validator and leaves known ones alone |
| StakingSnapshot.Snapshot.Delegate | ZenoQPL1/crates/zeno-state/src/lib.rs:133-158 | Adds to the delegation, the total and, for self bonds, the self bond; unknown validators are refused |
| StakingSnapshot.Snapshot.BeginUnbonding | ZenoQPL1/crates/zeno-state/src/lib.rs:160-194 | Checks and subtracts in the source's order, with its four outcomes |
| StakingSnapshot.Snapshot.Slash | ZenoQPL1/crates/zeno-state/src/lib.rs:196-239 | Cuts, clamps the self bond, jails and records the slash; jailing visits every delegation to the validator once |
| StakingSnapshot.Snapshot.Freeze | ZenoQPL1/crates/zeno-state/src/lib.rs:215-232 | The loop sets each visited delegation to zero and releases its amount an epoch later |
| StakingSnapshot.Snapshot.SettleEpochRewards | ZenoQPL1/crates/zeno-state/src/lib.rs:242-286 | Both branches of the epoch: all to the treasury when the summed stake is zero, otherwise cut, rewards, commissions and release |
| StakingSnapshot.Snapshot.TotalActiveStake | ZenoQPL1/crates/zeno-state/src/lib.rs:248-254 | The sum of the active total stakes, wrapping at 128 bits |
| StakingSnapshot.Snapshot.ShareOut | ZenoQPL1/crates/zeno-state/src/lib.rs:270-280 | The reward loop gives every active validator with stake its floored share and adds its commission |
| StakingSnapshot.Snapshot.Release | ZenoQPL1/crates/zeno-state/src/lib.rs:283-285 | Keeps, in order, the entries not yet due |
| StakingSnapshot.Snapshot.ApplyEvidence | ZenoQPL1/crates/zeno-state/src/lib.rs:313-336 | Slashes and jails exactly the equivocators before the first unknown one, each once, keeping the invariant and everything bonded or unbonding |
| StakingSnapshot.Snapshot.ApplyDowntimeSlashing | ZenoQPL1/crates/zeno-state/src/lib.rs:350-366 | Slashes and jails exactly the active validators that missed the epoch, each once, keeping the same |
| Mempool.RunKeeps | ZenoQPL1/crates/zeno-mempool/src/lib.rs:40-205 | After any operations: at most 10000 transactions, at most 64 of one sender, one per sender and nonce, no two with one hash, none above its sender's highest nonce |
| Mempool.InsertKeeps | ZenoQPL1/crates/zeno-mempool/src/lib.rs:63-138 | An accepted insert, with or without eviction or replacement, keeps these limits |
| Mempool.InsertDisplaces | ZenoQPL1/crates/zeno-mempool/src/lib.rs:63-138 | An accepted transaction is there afterwards and displaces at most one, with a strictly lower fee: the one it replaces, or the lowest of a full pool |
| Mempool.AcceptedExactly | ZenoQPL1/crates/zeno-mempool/src/lib.rs:63-125 | When an insert is accepted, exactly: new hash, and a higher fee than the one it replaces, or within the sender's limits with room for it |
| Mempool.RefusedFor | ZenoQPL1/crates/zeno-mempool/src/lib.rs:63-125 | Which of the five reasons a refused insert is given |
| Mempool.ReplacedExactly | ZenoQPL1/crates/zeno-mempool/src/lib.rs:73-84 | A replacement is accepted exactly on a strictly higher fee, and takes that place |
| Mempool.FullPoolFloor | ZenoQPL1/crates/zeno-mempool/src/lib.rs:103-123 | No insert, accepted or refused, lowers the least fee of a full pool |
| Mempool.NonceReach | ZenoQPL1/crates/zeno-mempool/src/lib.rs:86-100 | Highest nonces climb by at most 64 an insert from zero, whatever the account's nonce on the chain: a pool that has not seen a sender refuses any nonce above 64 from it |
| MempoolIndexes.IndexedPool.Insert | ZenoQPL1/crates/zeno-mempool/src/lib.rs:63-138 | The five indexes represent the pool before and after; errors are exactly the specified refusals, in their order, and change no index |
| MempoolIndexes.IndexedPool.MakeRoom | ZenoQPL1/crates/zeno-mempool/src/lib.rs:103-123 | Refuses a transaction that outbids nobody, otherwise evicts the lowest from every index; the lookups it expects to succeed do |
| MempoolIndexes.IndexedPool.Place | ZenoQPL1/crates/zeno-mempool/src/lib.rs:73-135 | The writes of an insert, after a replaced transaction has left two indexes |
| MempoolIndexes.IndexedPool.Drop | ZenoQPL1/crates/zeno-mempool/src/lib.rs:153-170 | Removing one transaction from four indexes represents removing it from the pool |
| MempoolIndexes.IndexedPool.RemoveCommitted | ZenoQPL1/crates/zeno-mempool/src/lib.rs:153-170 | Removes exactly the pending transactions with a committed hash |
| MempoolIndexes.IndexedPool.EvictExpired | ZenoQPL1/crates/zeno-mempool/src/lib.rs:188-206 | Removes exactly the expired transactions |
| MempoolIndexes.IndexedPool.SelectForBlock | ZenoQPL1/crates/zeno-mempool/src/lib.rs:141-150 | The walk down the fee index returns distinct pending transactions, in descending order, with nothing better left out; no lookup fails |
| MempoolIndexes.IndexedPool.SelectForBlockPrioritized | ZenoQPL1/crates/zeno-mempool/src/lib.rs:212-226 | The two-lane sort returns such a selection of the unexpired transactions |
| MempoolIndexes.SelectionsAgree | ZenoQPL1/crates/zeno-mempool/src/lib.rs:141-226 | Any two such selections have the same fees in the same order |
| MempoolIndexes.LanesChangeNothing | ZenoQPL1/crates/zeno-mempool/src/lib.rs:208-226 | With nothing expired, the priority lanes give the same fee sequence as the plain walk |
| Rlp.RoundTrip | ZenoQPL1/crates/zeno-evm/src/eth_tx.rs:199-325 | Decoding undoes encoding for every list of byte strings whose encoding fits a word, whatever bytes follow |
| Rlp.EncoderPrefixFree | ZenoQPL1/crates/zeno-evm/src/eth_tx.rs:292-325 | No encoding is a prefix of another, so the encoder is injective |
| Rlp.NextItem | ZenoQPL1/crates/zeno-evm/src/eth_tx.rs:242-289 | A decoded item never takes more bytes than there are |
| Rlp.ItemStalls | ZenoQPL1/crates/zeno-evm/src/eth_tx.rs:242-289 | Every item takes at least a byte, except exactly the long list ff ff ff ff ff ff ff ff f7, whose end wraps to zero and which is returned empty |
| Rlp.ItemPanics | ZenoQPL1/crates/zeno-evm/src/eth_tx.rs:256-268 | A slice panics exactly on a long string with an eight-byte length within nine of the word size |
| Rlp.ExtentWraps | ZenoQPL1/crates/zeno-evm/src/eth_tx.rs:215-289 | An end before its start needs an eight-byte length within nine of the word size, and is then that length less the word size plus nine |
| Rlp.LoopDecided | ZenoQPL1/crates/zeno-evm/src/eth_tx.rs:204-212 | On every payload the loop ends, within a turn per byte and one more, with the recursive decoder's outcome, or never ends, exactly when that decoder says so |
| Rlp.DivergesExactly | ZenoQPL1/crates/zeno-evm/src/eth_tx.rs:204-212 | The loop never ends if and only if some turn reaches the stalling item |
| Rlp.NoStallNoHang | ZenoQPL1/crates/zeno-evm/src/eth_tx.rs:199-213 | Data that nowhere holds those nine bytes is decoded in finitely many turns |
| Rlp.HangingInput | ZenoQPL1/crates/zeno-evm/src/eth_tx.rs:199-213 | The ten bytes c9 ff ff ff ff ff ff ff ff f7 keep the loop collecting empty items for ever; without the first byte the decoder panics |
| Rlp.NextItemOfEncoded | ZenoQPL1/crates/zeno-evm/src/eth_tx.rs:242-315 | The next item of an encoded string followed by anything is that string, and consumes exactly its encoding |
| Rlp.ItemBytes | ZenoQPL1/crates/zeno-evm/src/eth_tx.rs:242-289 | The bytes of a list item are all that was consumed, prefix included; those of a string what follows its prefix |
| Rlp.NextItemOfList | ZenoQPL1/crates/zeno-evm/src/eth_tx.rs:270-289 | A nested list followed by anything is read back whole and still encoded; an empty one is the byte c0 |
| Rlp.DecodeItemsOfPayload | ZenoQPL1/crates/zeno-evm/src/eth_tx.rs:199-213 | The items of an encoded payload are the encoded items |
| Rlp.FromBeUndoesBe | ZenoQPL1/crates/zeno-evm/src/eth_tx.rs:340-359 | Reading big-endian bytes undoes writing them without leading zeros |
| Rlp.FromU64 | ZenoQPL1/crates/zeno-evm/src/eth_tx.rs:387-394 | Stripping the leading zeros of eight bytes gives the minimal big-endian form, which is read back as the value |
| Rlp.UsizeToBe | ZenoQPL1/crates/zeno-evm/src/eth_tx.rs:348-359 | The push-and-reverse loop gives the minimal big-endian form |
| Rlp.BeToUsize | ZenoQPL1/crates/zeno-evm/src/eth_tx.rs:340-346 | The shift-and-or loop reads a big-endian number of up to eight bytes |
| Rlp.RlpEncodeList | ZenoQPL1/crates/zeno-evm/src/eth_tx.rs:292-325 | Concatenating encoded items behind a list header equals the recursive encoder |
| Rlp.RlpDecodeList | ZenoQPL1/crates/zeno-evm/src/eth_tx.rs:199-240 | Wherever the loop ends it equals the recursive decoder, errors and panics included |
| MerkleRoot.MerkleRoot | ZenoQPL1/crates/zeno-hash/src/lib.rs:77-95 | The layer loop terminates and computes the layered root, the last leaf of an odd layer doubled |
| MerkleRoot.RootIsTopNode | ZenoQPL1/crates/zeno-hash/src/lib.rs:77-95 | The layered root is the top node of the tree defined node by node |
| MerkleRoot.RootBinds | ZenoQPL1/crates/zeno-hash/src/lib.rs:77-95 | Two leaf lists of equal length with equal roots are equal |
| MerkleRoot.RepeatedTailCollides | ZenoQPL1/crates/zeno-hash/src/lib.rs:77-95 | Equal length is needed: repeating the last leaf of an odd list never changes the root |

## Left out

- Heights, rounds, epochs and leaf counts are unbounded: the wrap-around of 64-bit and 32-bit counters is not modelled, except for account nonces.
- Signatures and hash functions are ideal: a vote in an honest name was really sent, and hashing is injective. Proposal checks beyond round, header and proposer are one Boolean.
- Agreement.Agreement: assumes a fixed active set inside a height, all counted votes from its members (a vote is only checked to be of a validator known to the staking ledger, and certificate validation counts distinct addresses without a membership test), no restart, and no block precommitted unheld, which `UnheldPrecommit.TwoCertificates` shows to be needed.
- CrashRecovery.RecoveryRefines: a write is atomic and survives power loss in order; a store without a snapshot is one with the default snapshot.
- ConsensusEngine.Engine.TimeOut: a failure while finalizing ends the consensus task in the source; the model stays in the round and goes on handling events, which only adds runs.
- ConsensusEngine.Engine.FinalizeBlock: failures of the store itself, and the pruning of old blocks, are not modelled.
- ConsensusEngine.Engine.ProposeBlock: the record that stops a validator from proposing twice at a height, and the size limit, only remove behaviours and are not modelled; nor are liveness notes.
- The database-backed store, whose compaction deletes by position; only the in-memory store is modelled.
- SparseMerkle: the account map is an ordered list of entries without repeated addresses; its sort is the map's own.
- Staking.RewardBound: speaks of gross rewards; commissions are paid to the treasury on top of them.
- Staking.RunSound: slashing outside a jailing is covered by `Staking.SlashWithoutJail` alone; `is_self_bond` is set exactly when delegator and validator are the same.
- StakingSnapshot.Snapshot.Slash: the order in which delegations are visited is any order, where the source uses the map's.
- Replication.LostBlockRefused: the loss of power is between the two writes; a write itself is whole.
- Replication.ReplicasAgree: of the staking records it follows what a transition is computed from, the epoch and the validators; what liveness notes and evidence make of them between blocks is arbitrary. Governance parameters are fixed.
- Transactions with an EVM payload, whose effects are in a library; conservation and agreement are for native ones.
- Execution: roots stand for the lists and maps they commit to, and a block's hash is its identifier. Fee sums are unbounded; below the supply limit they cannot overflow.
- MempoolIndexes.IndexedPool.RemoveCommitted: requires that a pending transaction with a committed one's hash is that transaction, which is the ideal hash again.
- The value of a shielded note, which its commitment does not bind, and the nullifier set.
- Rlp.RlpDecodeList: says nothing where the loop never ends; `Rlp.LoopDecided` and `Rlp.DivergesExactly` say when that is.
- Rlp.RoundTrip: lists of byte strings only; nested lists, as in an access list, are decoded to their raw bytes and not encoded back.
- Networking, RPC, timers, peer scoring, synchronization and configuration.
