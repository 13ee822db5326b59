/** Values exchanged and stored by the consensus engine. */
module ConsensusTypes {
  type Address = nat

  /** The header fields consensus looks at; `payload` stands for everything else that is signed and hashed. */
  datatype Block = Block(height: nat, round: nat, proposer: Address, payload: int)

  /** Ideal block hashes: hashing is injective and never yields the all-zero nil hash. */
  datatype Hash = NilHash | BlockHash(block: Block)

  datatype Step = Prevote | Precommit

  /** A vote whose signature has been checked against `validator`. */
  datatype Vote = Vote(height: nat, round: nat, step: Step, hash: Hash, validator: Address)

  datatype Proposal = Proposal(height: nat, round: nat, block: Block, validator: Address)

  datatype Certificate = Certificate(hash: Hash, height: nat, round: nat, votes: seq<Vote>)

  datatype Reason = ConflictingProposal | DuplicateVote

  datatype Evidence = Evidence(validator: Address, height: nat, round: nat, reason: Reason)

  datatype Snapshot = Snapshot(height: nat, round: nat)

  /** Write-ahead log entries. */
  datatype Entry =
    | SnapshotPersisted(height: nat, round: nat)
    | ProposalAccepted(height: nat, round: nat, hash: Hash)
    | ProposalBroadcast(height: nat, round: nat, hash: Hash)
    | VoteRecorded(vote: Vote)
    | VoteBroadcast(vote: Vote)
    | CommitFinalized(height: nat, round: nat, hash: Hash)
    | HeightAdvanced(nextHeight: nat)
    | RoundAdvanced(height: nat, nextRound: nat)
    | EvidenceRecorded(evidence: Evidence)
    | Locked(height: nat, lockedRound: nat, block: Block)
    | PolkaObserved(height: nat, validRound: nat, block: Block)

  /** What survives a crash: the stored snapshot and the log. */
  datatype Disk = Disk(snapshot: Snapshot, wal: seq<Entry>)

  /** The writes the engine makes to that disk. */
  datatype Write = Log(entry: Entry) | Save(snapshot: Snapshot) | Trim(below: nat)

  /** Lexicographic order on (height, round). */
  predicate LexLeq(h0: nat, r0: nat, h1: nat, r1: nat) {
    h0 < h1 || (h0 == h1 && r0 <= r1)
  }
}
