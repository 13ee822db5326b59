/** What every event keeps in one node that has not crashed: vote slots, tallies, certificates and locks. */
module Discipline {
  import opened Common
  import opened ConsensusTypes
  import opened Recovery
  import opened RoundMachine

  /** The active set lists each validator once, and contains the local one. */
  predicate WellFormed(c: Config) {
    |Members(c)| == |c.validators| && (c.me.Some? ==> c.me.value in Members(c))
  }

  /** Votes that reach the node come from the active set. */
  predicate FromMembers(c: Config, e: Event) {
    e.ReceiveVote? ==> e.vote.validator in Members(c)
  }

  function VotersOf(votes: seq<Vote>, step: Step, hash: Hash): set<Address> {
    set v | v in votes && v.step == step && v.hash == hash :: v.validator
  }

  /** Every recorded vote was cast here and now by a member. */
  predicate CastHere(c: Config, votes: seq<Vote>, height: nat, round: nat) {
    forall v <- votes :: v.height == height && v.round == round && v.validator in Members(c)
  }

  /** No voter stands behind two hashes of one step. */
  predicate OneHashEach(votes: seq<Vote>) {
    forall v <- votes, w <- votes :: SameSlot(v, w) ==> v.hash == w.hash
  }

  /** A tally is exactly the per-hash voter sets of the recorded votes. */
  ghost predicate Exact(votes: seq<Vote>, step: Step, tally: map<Hash, set<Address>>) {
    forall h: Hash :: Tally(tally, h) == VotersOf(votes, step, h)
  }

  ghost predicate Tallied(c: Config, rs: RoundState) {
    && CastHere(c, rs.votes, rs.height, rs.round)
    && OneHashEach(rs.votes)
    && Exact(rs.votes, Prevote, rs.prevotes)
    && Exact(rs.votes, Precommit, rs.precommits)
  }

  predicate HeldProposal(rs: RoundState) {
    rs.proposal.Some? ==> rs.proposal.value.height == rs.height && rs.proposal.value.round == rs.round
  }

  /** The lock is the valid block, belongs to this height, and names the round its block was proposed in. */
  predicate LockSound(rs: RoundState) {
    && rs.lockedRound == rs.validRound && rs.lockedBlock == rs.validBlock
    && (rs.lockedRound.Some? <==> rs.lockedBlock.Some?)
    && (rs.lockedRound.Some? ==>
          && rs.lockedRound.value <= rs.round
          && rs.lockedBlock.value.height == rs.height
          && rs.lockedBlock.value.round == rs.lockedRound.value
          && (rs.lockedRound.value == rs.round ==> rs.proposal == rs.lockedBlock))
  }

  /** Every signed vote is local and not ahead of the clock. */
  predicate SentBehind(c: Config, sent: seq<Vote>, height: nat, round: nat) {
    forall v <- sent :: c.me == Some(v.validator) && LexLeq(v.height, v.round, height, round)
  }

  /** The flags remember what was signed in the current round. */
  predicate FlagsRemember(sent: seq<Vote>, height: nat, round: nat, prevoted: bool, precommitted: bool) {
    forall v <- sent :: v.height == height && v.round == round ==> if v.step == Prevote then prevoted else precommitted
  }

  /** No height, round and step is signed twice. */
  predicate NoSlotTwice(sent: seq<Vote>) {
    forall i, j :: 0 <= i < j < |sent| ==> !SameSlot(sent[i], sent[j])
  }

  predicate SignedOnce(c: Config, rs: RoundState, sent: seq<Vote>) {
    && SentBehind(c, sent, rs.height, rs.round)
    && FlagsRemember(sent, rs.height, rs.round, rs.prevoted, rs.precommitted)
    && NoSlotTwice(sent)
  }

  ghost predicate Core(c: Config, n: Node) {
    Tallied(c, n.rs) && HeldProposal(n.rs) && LockSound(n.rs) && SignedOnce(c, n.rs, n.sent)
  }

  /** The invariant at event boundaries: an active node has always prevoted on the proposal it holds. */
  ghost predicate Disciplined(c: Config, n: Node) {
    Core(c, n) && (c.me.Some? && n.rs.proposal.Some? ==> n.rs.prevoted)
  }

  /** The clock never goes back, and votes are only dropped when it moves. */
  predicate Forward(n: Node, m: Node) {
    && LexLeq(n.rs.height, n.rs.round, m.rs.height, m.rs.round)
    && (n.rs.height == m.rs.height && n.rs.round == m.rs.round ==>
          n.rs.votes <= m.rs.votes && (n.rs.prevoted ==> m.rs.prevoted) && (n.rs.precommitted ==> m.rs.precommitted))
    && n.sent <= m.sent
  }

  lemma ForwardTrans(a: Node, b: Node, d: Node)
    requires Forward(a, b) && Forward(b, d)
    ensures Forward(a, d)
  {}

  // ------------------------------------------------------------------
  // Recording votes
  // ------------------------------------------------------------------

  lemma VotersOfSnoc(votes: seq<Vote>, v: Vote, s: Step, h: Hash)
    ensures VotersOf(votes + [v], s, h) == VotersOf(votes, s, h) + (if v.step == s && v.hash == h then {v.validator} else {})
  {
    forall a | a in VotersOf(votes, s, h) ensures a in VotersOf(votes + [v], s, h) {
      var w :| w in votes && w.step == s && w.hash == h && w.validator == a;
      assert w in votes + [v];
    }
    if v.step == s && v.hash == h {
      assert v in votes + [v];
    }
  }

  lemma AddVoterExact(votes: seq<Vote>, v: Vote, s: Step, tally: map<Hash, set<Address>>)
    requires Exact(votes, s, tally)
    ensures Exact(votes + [v], s, if v.step == s then AddVoter(tally, v) else tally)
  {
    var tally' := if v.step == s then AddVoter(tally, v) else tally;
    forall h: Hash ensures Tally(tally', h) == VotersOf(votes + [v], s, h) {
      VotersOfSnoc(votes, v, s, h);
      assert Tally(tally, h) == VotersOf(votes, s, h);
    }
  }

  lemma OneHashSnoc(votes: seq<Vote>, v: Vote)
    requires OneHashEach(votes) && !Conflicts(votes, v)
    ensures OneHashEach(votes + [v])
  {
    assert forall w <- votes :: SameSlot(w, v) ==> w.hash == v.hash;
  }

  lemma CountVoteTallied(c: Config, rs: RoundState, v: Vote)
    requires Tallied(c, rs) && v.height == rs.height && v.round == rs.round && v.validator in Members(c)
    requires !Conflicts(rs.votes, v)
    ensures Tallied(c, CountVote(rs, v))
  {
    AddVoterExact(rs.votes, v, Prevote, rs.prevotes);
    AddVoterExact(rs.votes, v, Precommit, rs.precommits);
    OneHashSnoc(rs.votes, v);
  }

  lemma AfterCountKeeps(c: Config, n: Node, v: Vote)
    requires Core(c, n) && v.height == n.rs.height && v.round == n.rs.round
    ensures var r := AfterCount(c, n, v);
            && Core(c, r.n) && r.n.sent == n.sent
            && r.n.rs == n.rs.(lockedRound := r.n.rs.lockedRound, lockedBlock := r.n.rs.lockedBlock,
                               validRound := r.n.rs.validRound, validBlock := r.n.rs.validBlock)
  {}

  lemma RecordConflictKeeps(c: Config, n: Node, v: Vote)
    requires Core(c, n)
    ensures var m := RecordConflict(n, v);
            && Core(c, m) && m.sent == n.sent
            && m.rs == n.rs.(evidence := m.rs.evidence, processed := m.rs.processed)
  {}

  /** Recording a vote keeps the invariant. */
  lemma RecordVoteKeeps(c: Config, n: Node, v: Vote)
    requires Core(c, n) && v.validator in Members(c)
    ensures Core(c, RecordVote(c, n, v).n)
  {
    hide AfterCount, CastHere, OneHashEach, Exact, SentBehind, FlagsRemember, NoSlotTwice;
    if v.height == n.rs.height && v.round == n.rs.round {
      if Conflicts(n.rs.votes, v) {
        RecordConflictKeeps(c, n, v);
      } else {
        CountVoteTallied(c, n.rs, v);
        AfterCountKeeps(c, n.(rs := CountVote(n.rs, v), writes := n.writes + [Log(VoteRecorded(v))]), v);
      }
    }
  }

  /** It touches neither clock, proposal, flags nor what was sent, and only adds votes. */
  predicate OnlyRecords(n: Node, m: Node) {
    && m.sent == n.sent
    && m.rs.height == n.rs.height && m.rs.round == n.rs.round && n.rs.votes <= m.rs.votes
    && m.rs.proposal == n.rs.proposal && m.rs.prevoted == n.rs.prevoted && m.rs.precommitted == n.rs.precommitted
  }

  /** Only a recorded quorum of prevotes for the held proposal moves the lock, and it moves it to here. */
  predicate LocksOnQuorum(c: Config, n: Node, m: Node) {
    m.rs.lockedBlock != n.rs.lockedBlock || m.rs.lockedRound != n.rs.lockedRound ==>
      && m.rs.lockedRound == Some(n.rs.round) && m.rs.lockedBlock == n.rs.proposal && n.rs.proposal.Some?
      && |Tally(m.rs.prevotes, BlockHash(n.rs.proposal.value))| >= Quorum(c)
  }

  lemma AfterCountFrame(c: Config, n: Node, v: Vote)
    requires v.round == n.rs.round
    ensures OnlyRecords(n, AfterCount(c, n, v).n) && LocksOnQuorum(c, n, AfterCount(c, n, v).n)
  {}

  lemma AfterCountVotes(c: Config, n: Node, v: Vote)
    ensures AfterCount(c, n, v).n.rs.votes == n.rs.votes
  {}

  lemma RecordVoteFrame(c: Config, n: Node, v: Vote)
    ensures OnlyRecords(n, RecordVote(c, n, v).n) && LocksOnQuorum(c, n, RecordVote(c, n, v).n)
  {
    hide AfterCount, Conflicts;
    if v.height == n.rs.height && v.round == n.rs.round && !Conflicts(n.rs.votes, v) {
      AfterCountFrame(c, n.(rs := CountVote(n.rs, v), writes := n.writes + [Log(VoteRecorded(v))]), v);
    }
  }

  /** Recording logs neither a vote of the node's own nor a commit. */
  lemma RecordWrites(c: Config, n: Node, v: Vote) returns (ws: seq<Write>)
    ensures RecordVote(c, n, v).n.writes == n.writes + ws
    ensures forall w <- ws :: w.Log? && !w.entry.VoteBroadcast? && !w.entry.CommitFinalized?
  {
    var m := RecordVote(c, n, v).n;
    if v.height != n.rs.height || v.round != n.rs.round {
      ws := [];
    } else if Conflicts(n.rs.votes, v) {
      ws := [Log(EvidenceRecorded(Evidence(v.validator, v.height, v.round, DuplicateVote)))];
    } else {
      var n1 := n.(rs := CountVote(n.rs, v), writes := n.writes + [Log(VoteRecorded(v))]);
      var more := AfterCountWrites(c, n1, v);
      hide Conflicts, CountVote, AfterCount;
      ws := [Log(VoteRecorded(v))] + more;
    }
  }

  lemma AfterCountWrites(c: Config, n: Node, v: Vote) returns (ws: seq<Write>)
    ensures AfterCount(c, n, v).n.writes == n.writes + ws
    ensures forall w <- ws :: w.Log? && !w.entry.VoteBroadcast? && !w.entry.CommitFinalized?
  {
    var m := AfterCount(c, n, v).n;
    if m.writes == n.writes {
      ws := [];
    } else {
      ws := [Log(PolkaObserved(n.rs.height, v.round, v.hash.block)), Log(Locked(n.rs.height, v.round, v.hash.block))];
    }
  }

  /** What recording asks for next. A precommit for a block goes with a lock on it in this round exactly when that
      block is the held proposal. */
  lemma RecordVoteActions(c: Config, n: Node, v: Vote)
    requires LockSound(n.rs) && HeldProposal(n.rs)
    ensures var r := RecordVote(c, n, v);
            && (r.precommit.Some? ==> v.step == Prevote && r.precommit.value == v.hash && v.height == n.rs.height && v.round == n.rs.round
                                      && |Tally(r.n.rs.prevotes, v.hash)| >= Quorum(c))
            && (r.precommit.Some? && v.hash.BlockHash? ==>
                  (r.n.rs.lockedBlock == Some(v.hash.block) && r.n.rs.lockedRound == Some(n.rs.round)
                   <==> n.rs.proposal == Some(v.hash.block)))
            && (r.finalize.Some? ==> v.step == Precommit && r.finalize.value == v.hash && v.hash.BlockHash?
                                     && |Tally(r.n.rs.precommits, v.hash)| >= Quorum(c))
  {
    hide Conflicts, ValidCertificate;
  }

  // ------------------------------------------------------------------
  // Certificates
  // ------------------------------------------------------------------

  lemma {:induction false} PrecommitsForIsFilter(votes: seq<Vote>, hash: Hash)
    ensures forall v :: v in PrecommitsFor(votes, hash) <==> v in votes && v.step == Precommit && v.hash == hash
  {
    if votes != [] {
      PrecommitsForIsFilter(votes[..|votes| - 1], hash);
      assert votes == votes[..|votes| - 1] + [votes[|votes| - 1]];
    }
  }

  /** The certificate a node builds after a precommit quorum for its proposal passes its own validation. */
  lemma OwnCertificateValid(c: Config, rs: RoundState, b: Block)
    requires Tallied(c, rs) && HeldProposal(rs) && rs.proposal == Some(b)
    requires |Tally(rs.precommits, BlockHash(b))| >= Quorum(c)
    ensures ValidCertificate(c, b, CertificateFor(rs, BlockHash(b)))
    ensures Voters(CertificateFor(rs, BlockHash(b)).votes) == Tally(rs.precommits, BlockHash(b))
  {
    PrecommitsForIsFilter(rs.votes, BlockHash(b));
    var cert := CertificateFor(rs, BlockHash(b));
    assert Voters(cert.votes) == VotersOf(rs.votes, Precommit, BlockHash(b));
  }

  lemma VotersApart(c: Config, rs: RoundState, s: Step, g: Hash, h: Hash)
    requires WellFormed(c) && Tallied(c, rs) && g != h
    ensures |VotersOf(rs.votes, s, g)| + |VotersOf(rs.votes, s, h)| <= |c.validators|
  {
    var a, b := VotersOf(rs.votes, s, g), VotersOf(rs.votes, s, h);
    forall x | x in a ensures x !in b {
      var v :| v in rs.votes && v.step == s && v.hash == g && v.validator == x;
      assert forall w <- rs.votes :: w.step == s && w.hash == h ==> !SameSlot(v, w);
    }
    assert |a + b| == |a| + |b|;
    SubsetSize(a + b, Members(c));
  }

  /** Of one step of one round, at most one hash reaches a quorum. */
  lemma AtMostOneQuorum(c: Config, rs: RoundState, g: Hash, h: Hash)
    requires WellFormed(c) && Tallied(c, rs)
    ensures |Tally(rs.prevotes, g)| >= Quorum(c) && |Tally(rs.prevotes, h)| >= Quorum(c) ==> g == h
    ensures |Tally(rs.precommits, g)| >= Quorum(c) && |Tally(rs.precommits, h)| >= Quorum(c) ==> g == h
  {
    if g != h {
      VotersApart(c, rs, Prevote, g, h);
      VotersApart(c, rs, Precommit, g, h);
      assert Tally(rs.prevotes, g) == VotersOf(rs.votes, Prevote, g) && Tally(rs.prevotes, h) == VotersOf(rs.votes, Prevote, h);
      assert Tally(rs.precommits, g) == VotersOf(rs.votes, Precommit, g) && Tally(rs.precommits, h) == VotersOf(rs.votes, Precommit, h);
    }
  }

  // ------------------------------------------------------------------
  // Locks
  // ------------------------------------------------------------------

  /** A locked node prevotes its locked block or nil; once a round has passed since it locked, only nil, because
      the header of a block names the round it was proposed in. */
  lemma LockBindsPrevote(rs: RoundState)
    requires HeldProposal(rs) && LockSound(rs) && rs.lockedBlock.Some?
    ensures PrevoteHash(rs) == NilHash || PrevoteHash(rs) == BlockHash(rs.lockedBlock.value)
    ensures rs.lockedRound.value < rs.round ==> PrevoteHash(rs) == NilHash
  {}

  // ------------------------------------------------------------------
  // Composite operations
  // ------------------------------------------------------------------

  lemma SignKeeps(c: Config, rs: RoundState, sent: seq<Vote>, v: Vote)
    requires SignedOnce(c, rs, sent) && c.me == Some(v.validator) && v.height == rs.height && v.round == rs.round
    requires if v.step == Prevote then !rs.prevoted else !rs.precommitted
    ensures SentBehind(c, sent + [v], rs.height, rs.round)
    ensures FlagsRemember(sent + [v], rs.height, rs.round, rs.prevoted || v.step == Prevote, rs.precommitted || v.step == Precommit)
    ensures NoSlotTwice(sent + [v])
  {
    forall i | 0 <= i < |sent| ensures !SameSlot(sent[i], v) {
      assert sent[i] in sent;
    }
  }

  lemma EmitKeeps(c: Config, n: Node, hash: Hash)
    requires Core(c, n)
    ensures var (m, own) := EmitPrevote(c, n);
            && Core(c, m) && Forward(n, m) && m.rs == n.rs.(prevoted := m.rs.prevoted)
            && (c.me.Some? ==> m.rs.prevoted) && (own.Some? ==> c.me == Some(own.value.validator))
    ensures var (m, own) := EmitPrecommit(c, n, hash);
            && Core(c, m) && Forward(n, m) && m.rs == n.rs.(precommitted := m.rs.precommitted)
            && (own.Some? ==> c.me == Some(own.value.validator))
  {
    if c.me.Some? && !n.rs.prevoted {
      SignKeeps(c, n.rs, n.sent, Vote(n.rs.height, n.rs.round, Prevote, PrevoteHash(n.rs), c.me.value));
    }
    if c.me.Some? && !n.rs.precommitted {
      SignKeeps(c, n.rs, n.sent, Vote(n.rs.height, n.rs.round, Precommit, hash, c.me.value));
    }
  }

  lemma ResetKeeps(c: Config, n: Node, next: nat)
    requires Core(c, n)
    ensures Core(c, AdvanceRound(n)) && Forward(n, AdvanceRound(n)) && AdvanceRound(n).rs.proposal == None
    ensures next > n.rs.height ==>
              Core(c, AdvanceHeight(n, next)) && Forward(n, AdvanceHeight(n, next)) && AdvanceHeight(n, next).rs.proposal == None
  {}

  lemma FinalizeKeeps(c: Config, n: Node, hash: Hash, commit: Commit)
    requires Core(c, n)
    ensures var m := Finalize(c, n, hash, commit).n;
            && Core(c, m) && Forward(n, m)
            && (m.rs == n.rs.(evidence := m.rs.evidence) || m.rs.proposal == None)
  {
    hide CastHere, OneHashEach, Exact, SentBehind, FlagsRemember, NoSlotTwice;
    var n1 := Settle(LogEntry(n, CommitFinalized(n.rs.height, n.rs.round, hash)), n.rs.height);
    assert Core(c, n1) && Forward(n, n1);
    ResetKeeps(c, n1, n.rs.height + 1);
    ForwardTrans(n, n1, AdvanceHeight(n1, n.rs.height + 1));
  }

  lemma HandleVoteKeeps(c: Config, n: Node, v: Vote, commit: Commit)
    requires WellFormed(c) && Core(c, n) && v.validator in Members(c)
    ensures var m := HandleVote(c, n, v, commit).n;
            && Core(c, m) && Forward(n, m)
            && (m.rs.proposal == None || (m.rs.proposal == n.rs.proposal && m.rs.prevoted == n.rs.prevoted))
  {
    RecordVoteKeeps(c, n, v);
    RecordVoteFrame(c, n, v);
    var r := RecordVote(c, n, v);
    if r.precommit.Some? {
      EmitKeeps(c, r.n, r.precommit.value);
      var (n1, own) := EmitPrecommit(c, r.n, r.precommit.value);
      ForwardTrans(n, r.n, n1);
      if own.Some? {
        RecordVoteKeeps(c, n1, own.value);
        RecordVoteFrame(c, n1, own.value);
        var r1 := RecordVote(c, n1, own.value);
        ForwardTrans(n, n1, r1.n);
        if r1.finalize.Some? {
          FinalizeKeeps(c, r1.n, r1.finalize.value, commit);
          ForwardTrans(n, r1.n, Finalize(c, r1.n, r1.finalize.value, commit).n);
        }
      }
    } else if r.finalize.Some? {
      FinalizeKeeps(c, r.n, r.finalize.value, commit);
      ForwardTrans(n, r.n, Finalize(c, r.n, r.finalize.value, commit).n);
    }
  }

  lemma PrevoteAndHandleKeeps(c: Config, n: Node, commit: Commit)
    requires WellFormed(c) && Core(c, n)
    ensures var m := PrevoteAndHandle(c, n, commit).n; Disciplined(c, m) && Forward(n, m)
  {
    EmitKeeps(c, n, NilHash);
    var (n1, own) := EmitPrevote(c, n);
    if own.Some? {
      HandleVoteKeeps(c, n1, own.value, commit);
      ForwardTrans(n, n1, HandleVote(c, n1, own.value, commit).n);
    }
  }

  lemma TakeAndPrevoteKeeps(c: Config, n: Node, b: Block, logged: seq<Write>, commit: Commit)
    requires WellFormed(c) && Core(c, n)
    requires n.rs.proposal.None? && b.height == n.rs.height && b.round == n.rs.round
    ensures var m := PrevoteAndHandle(c, TakeProposal(n, b, logged), commit).n; Disciplined(c, m) && Forward(n, m)
  {
    var m := TakeProposal(n, b, logged);
    PrevoteAndHandleKeeps(c, m, commit);
    ForwardTrans(n, m, PrevoteAndHandle(c, m, commit).n);
  }

  lemma ImportKeeps(c: Config, n: Node, b: Block, cert: Certificate, commit: Commit)
    requires Disciplined(c, n)
    ensures Disciplined(c, ImportFinalized(c, n, b, cert, commit).n) && Forward(n, ImportFinalized(c, n, b, cert, commit).n)
  {
    if cert.height >= n.rs.height && ValidCertificate(c, b, cert) {
      var n1 := LogEntry(n, CommitFinalized(cert.height, cert.round, cert.hash));
      ResetKeeps(c, n1, b.height + 1);
      ForwardTrans(n, n1, AdvanceHeight(n1, b.height + 1));
    }
  }

  /** Every event keeps the discipline and never turns the clock back. */
  lemma EventKeeps(c: Config, n: Node, e: Event)
    requires WellFormed(c) && FromMembers(c, e) && Disciplined(c, n)
    ensures Disciplined(c, Apply(c, n, e)) && Forward(n, Apply(c, n, e))
  {
    hide CastHere, OneHashEach, Exact, SentBehind, FlagsRemember, NoSlotTwice;
    match e
    case Propose(payload, commit) =>
      var h, r := n.rs.height, n.rs.round;
      if c.me.Some? && c.validators != [] && c.me.value == ProposerFor(c, h, r) && n.rs.proposal.None? {
        var b := Block(h, r, c.me.value, payload);
        var logged := [Log(ProposalAccepted(h, r, BlockHash(b))), Log(ProposalBroadcast(h, r, BlockHash(b)))];
        TakeAndPrevoteKeeps(c, n, b, logged, commit);
      }
    case ReceiveProposal(p, verified, commit) =>
      if ValidProposal(c, p, verified) && p.height == n.rs.height && p.round == n.rs.round && n.rs.proposal.None? {
        TakeAndPrevoteKeeps(c, n, p.block, [Log(ProposalAccepted(p.height, p.round, BlockHash(p.block)))], commit);
      }
    case ReceiveVote(v, commit) =>
      HandleVoteKeeps(c, n, v, commit);
    case Import(b, cert, commit) =>
      ImportKeeps(c, n, b, cert, commit);
    case TimedOut(commit) =>
      PrevoteAndHandleKeeps(c, n, commit);
      var m := PrevoteAndHandle(c, n, commit).n;
      ResetKeeps(c, m, 0);
      ForwardTrans(n, m, AdvanceRound(m));
  }

  // ------------------------------------------------------------------
  // Runs
  // ------------------------------------------------------------------

  function Run(c: Config, n: Node, es: seq<Event>): Node {
    if es == [] then n else Apply(c, Run(c, n, es[..|es| - 1]), es[|es| - 1])
  }

  lemma FreshDisciplined(c: Config, h: nat)
    ensures Disciplined(c, FreshNode(h))
  {
    assert Recover(Snapshot(h, 0), []) == Initial(Snapshot(h, 0));
    var rs := FreshNode(h).rs;
    forall x: Hash
      ensures Tally(rs.prevotes, x) == VotersOf(rs.votes, Prevote, x)
      ensures Tally(rs.precommits, x) == VotersOf(rs.votes, Precommit, x)
    {
      assert VotersOf(rs.votes, Prevote, x) == {} && VotersOf(rs.votes, Precommit, x) == {};
    }
  }

  /** Vote and lock discipline of every run from a fresh start. */
  lemma {:induction false} RunDisciplined(c: Config, h: nat, es: seq<Event>)
    requires WellFormed(c) && forall e <- es :: FromMembers(c, e)
    ensures Disciplined(c, Run(c, FreshNode(h), es))
  {
    if es == [] {
      FreshDisciplined(c, h);
    } else {
      var front := es[..|es| - 1];
      assert forall e <- front :: e in es;
      assert es[|es| - 1] in es;
      RunDisciplined(c, h, front);
      EventKeeps(c, Run(c, FreshNode(h), front), es[|es| - 1]);
    }
  }

  /** The vote history of a run, read off: at most one prevote and one precommit are ever signed per height and round. */
  lemma RunSignsOnce(c: Config, h: nat, es: seq<Event>, i: nat, j: nat)
    requires WellFormed(c) && forall e <- es :: FromMembers(c, e)
    requires i < |Run(c, FreshNode(h), es).sent| && j < |Run(c, FreshNode(h), es).sent|
    ensures var sent := Run(c, FreshNode(h), es).sent;
            sent[i].height == sent[j].height && sent[i].round == sent[j].round && sent[i].step == sent[j].step ==> i == j
  {
    RunDisciplined(c, h, es);
    var sent := Run(c, FreshNode(h), es).sent;
    assert sent[i] in sent && sent[j] in sent;
  }
}
