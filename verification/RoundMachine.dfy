/** One consensus node as a function of its state and the next event. `ConsensusEngine` implements these functions
    in place; `Discipline`, `CrashRecovery` and `Agreement` prove what they keep. */
module RoundMachine {
  import opened Common
  import opened ConsensusTypes
  import opened Recovery

  /** `me` is the local validator when it is active; `validators` is the active set, fixed, in proposer order. */
  datatype Config = Config(validators: seq<Address>, me: Option<Address>)

  function Members(c: Config): set<Address> {
    set a | a in c.validators
  }

  function Quorum(c: Config): nat {
    |c.validators| * 2 / 3 + 1
  }

  function ProposerFor(c: Config, height: nat, round: nat): Address
    requires c.validators != []
  {
    c.validators[(height + round) % |c.validators|]
  }

  datatype RoundState = RoundState(
    height: nat,
    round: nat,
    proposal: Option<Block>,
    prevotes: map<Hash, set<Address>>,
    precommits: map<Hash, set<Address>>,
    votes: seq<Vote>,
    evidence: seq<Evidence>,
    processed: set<(Address, nat, nat)>,
    prevoted: bool,
    precommitted: bool,
    lockedRound: Option<nat>,
    lockedBlock: Option<Block>,
    validRound: Option<nat>,
    validBlock: Option<Block>)

  /** Volatile state, every disk write so far, and every vote broadcast so far. */
  datatype Node = Node(rs: RoundState, writes: seq<Write>, sent: seq<Vote>)

  /** How execution and storage answer a certified block: rejected before anything is logged, failed after the
      commit was logged, failed after the evidence was taken (applying it, or the broadcast), or done in full. */
  datatype Commit = Refused | LoggedOnly | Unsettled | Done

  datatype Event =
    | Propose(payload: int, commit: Commit)
    | ReceiveProposal(proposal: Proposal, verified: bool, commit: Commit)
    | ReceiveVote(vote: Vote, commit: Commit)
    | Import(block: Block, certificate: Certificate, commit: Commit)
    | TimedOut(commit: Commit)

  function LogEntry(n: Node, e: Entry): Node {
    n.(writes := n.writes + [Log(e)])
  }

  // ------------------------------------------------------------------
  // Votes
  // ------------------------------------------------------------------

  /** `a >= b` on optional rounds, where no round is below every round. */
  predicate RoundGeq(a: Option<nat>, b: Option<nat>) {
    b.None? || (a.Some? && a.value >= b.value)
  }

  /** The locking rule. */
  function PrevoteHash(rs: RoundState): Hash {
    if rs.proposal.None? then NilHash
    else if rs.lockedBlock.None? || rs.lockedBlock == rs.proposal then BlockHash(rs.proposal.value)
    else if rs.validBlock == rs.proposal && RoundGeq(rs.validRound, rs.lockedRound) then BlockHash(rs.proposal.value)
    else NilHash
  }

  function EmitPrevote(c: Config, n: Node): (Node, Option<Vote>) {
    if c.me.None? || n.rs.prevoted then (n, None) else
      var v := Vote(n.rs.height, n.rs.round, Prevote, PrevoteHash(n.rs), c.me.value);
      (n.(rs := n.rs.(prevoted := true), writes := n.writes + [Log(VoteBroadcast(v))], sent := n.sent + [v]), Some(v))
  }

  function EmitPrecommit(c: Config, n: Node, hash: Hash): (Node, Option<Vote>) {
    if c.me.None? || n.rs.precommitted then (n, None) else
      var v := Vote(n.rs.height, n.rs.round, Precommit, hash, c.me.value);
      (n.(rs := n.rs.(precommitted := true), writes := n.writes + [Log(VoteBroadcast(v))], sent := n.sent + [v]), Some(v))
  }

  predicate SameSlot(v: Vote, w: Vote) {
    v.height == w.height && v.round == w.round && v.step == w.step && v.validator == w.validator
  }

  predicate Conflicts(votes: seq<Vote>, v: Vote) {
    exists w <- votes :: SameSlot(w, v) && w.hash != v.hash
  }

  function Tally(m: map<Hash, set<Address>>, hash: Hash): set<Address> {
    if hash in m then m[hash] else {}
  }

  function AddVoter(m: map<Hash, set<Address>>, v: Vote): map<Hash, set<Address>> {
    m[v.hash := Tally(m, v.hash) + {v.validator}]
  }

  function CountVote(rs: RoundState, v: Vote): RoundState {
    if v.step == Prevote then rs.(votes := rs.votes + [v], prevotes := AddVoter(rs.prevotes, v))
    else rs.(votes := rs.votes + [v], precommits := AddVoter(rs.precommits, v))
  }

  /** A recorded polka for the block held as proposal: remember it, then lock on it. */
  function LockOn(n: Node, round: nat, b: Block): Node {
    n.(rs := n.rs.(validRound := Some(round), validBlock := Some(b), lockedRound := Some(round), lockedBlock := Some(b)),
       writes := n.writes + [Log(PolkaObserved(n.rs.height, round, b)), Log(Locked(n.rs.height, round, b))])
  }

  /** Result of `record_vote`: the hash to precommit and the hash to finalize, if any. */
  datatype Recorded = Recorded(n: Node, precommit: Option<Hash>, finalize: Option<Hash>)

  function RecordConflict(n: Node, v: Vote): Node {
    var key := (v.validator, v.height, v.round);
    var ev := Evidence(v.validator, v.height, v.round, DuplicateVote);
    var fresh? := key !in n.rs.processed;
    n.(rs := if fresh? then n.rs.(processed := n.rs.processed + {key}, evidence := n.rs.evidence + [ev]) else n.rs,
       writes := n.writes + [Log(EvidenceRecorded(ev))])
  }

  function RecordVote(c: Config, n: Node, v: Vote): Recorded {
    if v.height != n.rs.height || v.round != n.rs.round then Recorded(n, None, None)
    else if Conflicts(n.rs.votes, v) then Recorded(RecordConflict(n, v), None, None)
    else
      AfterCount(c, n.(rs := CountVote(n.rs, v), writes := n.writes + [Log(VoteRecorded(v))]), v)
  }

  /** The quorum rules, applied right after `v` was counted. */
  function AfterCount(c: Config, n: Node, v: Vote): Recorded {
    if v.step == Prevote then
      if |Tally(n.rs.prevotes, v.hash)| < Quorum(c) then Recorded(n, None, None)
      else if v.hash.BlockHash? && n.rs.proposal == Some(v.hash.block) then
        Recorded(LockOn(n, v.round, v.hash.block), Some(v.hash), None)
      else Recorded(n, Some(v.hash), None)
    else if |Tally(n.rs.precommits, v.hash)| >= Quorum(c) && v.hash.BlockHash? then Recorded(n, None, Some(v.hash))
    else Recorded(n, None, None)
  }

  // ------------------------------------------------------------------
  // Certificates and finalization
  // ------------------------------------------------------------------

  function PrecommitsFor(votes: seq<Vote>, hash: Hash): seq<Vote> {
    if votes == [] then [] else
      var v := votes[|votes| - 1];
      PrecommitsFor(votes[..|votes| - 1], hash) + (if v.step == Precommit && v.hash == hash then [v] else [])
  }

  function Voters(votes: seq<Vote>): set<Address> {
    set v | v in votes :: v.validator
  }

  /** `validate_commit_certificate`; vote signatures are checked on receipt. */
  predicate ValidCertificate(c: Config, b: Block, cert: Certificate) {
    && cert.hash == BlockHash(b)
    && cert.height == b.height
    && cert.round == b.round
    && (forall v <- cert.votes ::
          v.height == cert.height && v.round == cert.round && v.step == Precommit && v.hash == cert.hash)
    && |Voters(cert.votes)| >= Quorum(c)
  }

  function CertificateFor(rs: RoundState, hash: Hash): Certificate {
    Certificate(hash, rs.height, rs.round, PrecommitsFor(rs.votes, hash))
  }

  function ResetRound(rs: RoundState, height: nat, round: nat): RoundState {
    rs.(height := height, round := round, proposal := None, prevotes := map[], precommits := map[], votes := [],
        prevoted := false, precommitted := false)
  }

  /** The snapshot is stored, then logged. */
  function Persist(height: nat, round: nat): seq<Write> {
    [Save(Snapshot(height, round)), Log(SnapshotPersisted(height, round))]
  }

  function AdvanceHeight(n: Node, next: nat): Node {
    n.(rs := ResetRound(n.rs, next, 0).(lockedRound := None, lockedBlock := None, validRound := None, validBlock := None),
       writes := n.writes + Persist(next, 0) + [Log(HeightAdvanced(next))])
  }

  function AdvanceRound(n: Node): Node {
    n.(rs := ResetRound(n.rs, n.rs.height, n.rs.round + 1),
       writes := n.writes + Persist(n.rs.height, n.rs.round + 1) + [Log(RoundAdvanced(n.rs.height, n.rs.round + 1))])
  }

  /** After a commit at `height` the evidence is settled and the log of more than ten heights ago is dropped. */
  function Settle(n: Node, height: nat): Node {
    n.(rs := n.rs.(evidence := []), writes := n.writes + (if height > 10 then [Trim(height - 10)] else []))
  }

  /** Result of an operation that may fail with an error. */
  datatype Outcome = Outcome(n: Node, ok: bool)

  function Finalize(c: Config, n: Node, hash: Hash, commit: Commit): Outcome {
    if n.rs.proposal.None? then Outcome(n, false)
    else if BlockHash(n.rs.proposal.value) != hash then Outcome(n, true)
    else if !ValidCertificate(c, n.rs.proposal.value, CertificateFor(n.rs, hash)) || commit == Refused then Outcome(n, false)
    else
      var n1 := LogEntry(n, CommitFinalized(n.rs.height, n.rs.round, hash));
      if commit == LoggedOnly then Outcome(n1, false)
      else if commit == Unsettled then Outcome(n1.(rs := n1.rs.(evidence := [])), false)
      else Outcome(AdvanceHeight(Settle(n1, n.rs.height), n.rs.height + 1), true)
  }

  function HandleVote(c: Config, n: Node, v: Vote, commit: Commit): Outcome {
    var r := RecordVote(c, n, v);
    if r.precommit.Some? then
      var (n1, own) := EmitPrecommit(c, r.n, r.precommit.value);
      if own.Some? then
        var r1 := RecordVote(c, n1, own.value);
        if r1.finalize.Some? then Finalize(c, r1.n, r1.finalize.value, commit) else Outcome(r1.n, true)
      else Outcome(n1, true)
    else if r.finalize.Some? then Finalize(c, r.n, r.finalize.value, commit)
    else Outcome(r.n, true)
  }

  function PrevoteAndHandle(c: Config, n: Node, commit: Commit): Outcome {
    var (n1, own) := EmitPrevote(c, n);
    if own.Some? then HandleVote(c, n1, own.value, commit) else Outcome(n1, true)
  }

  // ------------------------------------------------------------------
  // Events
  // ------------------------------------------------------------------

  /** `validate_incoming_proposal`; `verified` stands for the signature, chain, parent and transaction checks. */
  predicate ValidProposal(c: Config, p: Proposal, verified: bool) {
    && verified
    && c.validators != []
    && p.validator == ProposerFor(c, p.height, p.round)
    && p.block.proposer == p.validator
    && p.block.height == p.height
    && p.block.round == p.round
  }

  function TakeProposal(n: Node, b: Block, logged: seq<Write>): Node {
    n.(rs := n.rs.(proposal := Some(b)), writes := n.writes + logged)
  }

  function OnProposal(c: Config, n: Node, p: Proposal, verified: bool, commit: Commit): Outcome {
    if !ValidProposal(c, p, verified) then Outcome(n, false)
    else if p.height != n.rs.height || p.round != n.rs.round then Outcome(n, true)
    else if n.rs.proposal.Some? then
      var key := (p.validator, p.height, p.round);
      if n.rs.proposal.value == p.block || key in n.rs.processed then Outcome(n, true)
      else
        var ev := Evidence(p.validator, p.height, p.round, ConflictingProposal);
        Outcome(LogEntry(n, EvidenceRecorded(ev)).(
                  rs := n.rs.(processed := n.rs.processed + {key}, evidence := n.rs.evidence + [ev])), true)
    else PrevoteAndHandle(c, TakeProposal(n, p.block, [Log(ProposalAccepted(p.height, p.round, BlockHash(p.block)))]), commit)
  }

  /** `maybe_propose`; the block assembled from the mempool is the event's payload. */
  function MaybePropose(c: Config, n: Node, payload: int, commit: Commit): Outcome {
    var h, r := n.rs.height, n.rs.round;
    if c.me.None? || c.validators == [] || c.me.value != ProposerFor(c, h, r) || n.rs.proposal.Some? then Outcome(n, true)
    else
      var b := Block(h, r, c.me.value, payload);
      var logged := [Log(ProposalAccepted(h, r, BlockHash(b))), Log(ProposalBroadcast(h, r, BlockHash(b)))];
      PrevoteAndHandle(c, TakeProposal(n, b, logged), commit)
  }

  function ImportFinalized(c: Config, n: Node, b: Block, cert: Certificate, commit: Commit): Outcome {
    if cert.height < n.rs.height then Outcome(n, true)
    else if !ValidCertificate(c, b, cert) then Outcome(n, false)
    else
      var n1 := LogEntry(n, CommitFinalized(cert.height, cert.round, cert.hash));
      if commit == Done then Outcome(AdvanceHeight(n1, b.height + 1), true) else Outcome(n1, false)
  }

  function OnTimeout(c: Config, n: Node, commit: Commit): Outcome {
    var o := PrevoteAndHandle(c, n, commit);
    if o.ok then Outcome(AdvanceRound(o.n), true) else o
  }

  /** The event loop. */
  function Apply(c: Config, n: Node, e: Event): Node {
    match e
    case Propose(payload, commit) => MaybePropose(c, n, payload, commit).n
    case ReceiveProposal(p, verified, commit) => OnProposal(c, n, p, verified, commit).n
    case ReceiveVote(v, commit) => HandleVote(c, n, v, commit).n
    case Import(b, cert, commit) => ImportFinalized(c, n, b, cert, commit).n
    case TimedOut(commit) => OnTimeout(c, n, commit).n
  }

  function FreshRound(r: Recovered): RoundState {
    RoundState(r.height, r.round, None, map[], map[], [], [], {}, false, false,
               r.lockedRound, r.lockedBlock, r.validRound, r.validBlock)
  }

  /** Building an engine on a disk and entering its event loop, which persists the snapshot first. */
  function Start(d: Disk): Node {
    var r := Recover(d.snapshot, d.wal);
    Node(FreshRound(r), Persist(r.height, r.round), [])
  }

  /** An empty store whose next height is `h`. */
  function EmptyDisk(h: nat): Disk {
    Disk(Snapshot(h, 0), [])
  }

  function FreshNode(h: nat): Node {
    Start(EmptyDisk(h))
  }
}
