/** What a node does, beside what it may not do: every rule of the protocol fires when its premise holds. Premises are
    stated on the recorded votes and the validator list, not on the tallies and helpers of the node. */
module Progress {
  import opened Arith
  import opened Common
  import opened ConsensusTypes
  import opened Recovery
  import opened RoundMachine
  import opened Discipline
  import opened CrashRecovery

  // ------------------------------------------------------------------
  // Quorums and turns
  // ------------------------------------------------------------------

  /** A quorum is the least number above two thirds, and those who are not among fewer than a third make one. */
  lemma QuorumIsLeast(c: Config, faulty: nat)
    ensures 3 * Quorum(c) > 2 * |c.validators| >= 3 * (Quorum(c) - 1)
    ensures 3 * faulty < |c.validators| ==> |c.validators| - faulty >= Quorum(c)
  {}

  function Remainder(n: nat, from: nat, j: nat): nat
    requires n > 0
  {
    (from + j) % n
  }

  lemma Wraps(n: nat, from: nat, j: nat)
    requires j < n
    ensures Remainder(n, from, j) == if from % n + j < n then from % n + j else from % n + j - n
  {
    var at, q := from % n, from / n;
    assert from == n * q + at;
    if at + j < n {
      DivModUnique(from + j, n, q, at + j);
    } else {
      assert n * (q + 1) == n * q + n;
      DivModUnique(from + j, n, q + 1, at + j - n);
    }
  }

  /** Of any `n` numbers in a row exactly one leaves a given remainder. */
  lemma OneInEvery(n: nat, from: nat, rest: nat) returns (i: nat)
    requires rest < n
    ensures i < n && Remainder(n, from, i) == rest
    ensures forall j: nat :: j < n && Remainder(n, from, j) == rest ==> j == i
  {
    var at := from % n;
    i := if rest >= at then rest - at else rest + n - at;
    Wraps(n, from, i);
    hide Remainder;
    forall j: nat | j < n && Remainder(n, from, j) == rest ensures j == i {
      Wraps(n, from, j);
    }
  }

  lemma Turn(c: Config, h: nat, from: nat, s: nat)
    requires |c.validators| > 0 && from <= s
    ensures ProposerFor(c, h, s) == c.validators[Remainder(|c.validators|, h + from, s - from)]
  {
    assert h + from + (s - from) == h + s;
  }

  /** Every validator proposes exactly once in as many consecutive rounds as there are validators. */
  lemma EveryoneProposes(c: Config, h: nat, from: nat, k: nat) returns (r: nat)
    requires |Members(c)| == |c.validators| && k < |c.validators|
    ensures from <= r < from + |c.validators| && ProposerFor(c, h, r) == c.validators[k]
    ensures forall s: nat :: from <= s < from + |c.validators| && ProposerFor(c, h, s) == c.validators[k] ==> s == r
  {
    var n := |c.validators|;
    var i := OneInEvery(n, h + from, k);
    r := from + i;
    Turn(c, h, from, r);
    assert Members(c) == Elements(c.validators);
    forall s: nat | from <= s < from + n && ProposerFor(c, h, s) == c.validators[k] ensures s == r {
      Turn(c, h, from, s);
      Distinct(c.validators, Remainder(n, h + from, s - from), k);
    }
  }

  function Elements(s: seq<Address>): set<Address> {
    set a | a in s
  }

  lemma Distinct(s: seq<Address>, i: nat, j: nat)
    requires |Elements(s)| == |s| && i < |s| && j < |s| && s[i] == s[j]
    ensures i == j
  {
    if i != j {
      var lo, hi := if i < j then i else j, if i < j then j else i;
      var rest := s[..hi] + s[hi + 1..];
      forall a | a in s ensures a in rest {
        var x :| 0 <= x < |s| && s[x] == a;
        assert a == rest[if x < hi then x else if x > hi then x - 1 else lo];
      }
      assert Elements(s) == Elements(rest);
      FewElements(rest);
    }
  }

  lemma {:induction false} FewElements(s: seq<Address>)
    ensures |Elements(s)| <= |s|
  {
    if s != [] {
      var front := s[..|s| - 1];
      FewElements(front);
      assert Elements(s) == Elements(front) + {s[|s| - 1]};
    }
  }

  // ------------------------------------------------------------------
  // Voting
  // ------------------------------------------------------------------

  /** The vote is for now and contradicts nothing recorded. */
  predicate Countable(rs: RoundState, v: Vote) {
    && v.height == rs.height && v.round == rs.round
    && forall w <- rs.votes :: w.validator == v.validator && w.step == v.step ==> w.hash == v.hash
  }

  /** Those behind a hash once the vote is recorded. */
  function Behind(rs: RoundState, v: Vote): set<Address> {
    VotersOf(rs.votes + [v], v.step, v.hash)
  }

  lemma CountableMeans(c: Config, rs: RoundState, v: Vote)
    requires Tallied(c, rs) && v.height == rs.height && v.round == rs.round
    ensures Countable(rs, v) <==> !Conflicts(rs.votes, v)
  {}

  lemma BehindIsTally(c: Config, rs: RoundState, v: Vote)
    requires Tallied(c, rs)
    ensures var m := CountVote(rs, v); Behind(rs, v) == Tally(if v.step == Prevote then m.prevotes else m.precommits, v.hash)
  {
    AddVoterExact(rs.votes, v, Prevote, rs.prevotes);
    AddVoterExact(rs.votes, v, Precommit, rs.precommits);
  }

  /** What recording asks for, exactly: a precommit when the vote completes a prevote quorum, for a block or for nil;
      finalization when it completes a precommit quorum for a block. */
  lemma RecordAsksExactly(c: Config, n: Node, v: Vote)
    requires Tallied(c, n.rs)
    ensures var r := RecordVote(c, n, v);
            var quorum := Countable(n.rs, v) && |Behind(n.rs, v)| >= Quorum(c);
            && r.precommit == (if quorum && v.step == Prevote then Some(v.hash) else None)
            && r.finalize == (if quorum && v.step == Precommit && v.hash.BlockHash? then Some(v.hash) else None)
  {
    if v.height == n.rs.height && v.round == n.rs.round {
      CountableMeans(c, n.rs, v);
      BehindIsTally(c, n.rs, v);
    }
    hide Conflicts, Countable, Behind, Tallied, Quorum;
  }

  /** The votes a node signs on handling a vote, exactly: its precommit, when the vote completes a prevote quorum and it
      has not precommitted. */
  lemma HandlingSigns(c: Config, n: Node, v: Vote, commit: Commit)
    requires Tallied(c, n.rs)
    ensures var quorum := Countable(n.rs, v) && |Behind(n.rs, v)| >= Quorum(c);
            HandleVote(c, n, v, commit).n.sent ==
              if quorum && v.step == Prevote && c.me.Some? && !n.rs.precommitted
              then n.sent + [Vote(n.rs.height, n.rs.round, Precommit, v.hash, c.me.value)] else n.sent
  {
    hide RecordVote, Countable, Behind, Tallied, Quorum, ValidCertificate;
    RecordAsksExactly(c, n, v);
    RecordVoteFrame(c, n, v);
    var r := RecordVote(c, n, v);
    if r.precommit.Some? {
      var (n1, own) := EmitPrecommit(c, r.n, r.precommit.value);
      if own.Some? {
        RecordVoteFrame(c, n1, own.value);
      }
    }
  }

  /** Ready to vote: an empty round. */
  predicate Empty(rs: RoundState) {
    && rs.proposal.None? && rs.votes == [] && !rs.prevoted && !rs.precommitted
    && rs.prevotes == map[] && rs.precommits == map[]
  }

  /** Past a finalized block: the next height, round 0, empty and unlocked, with the commit among the new writes. */
  predicate Finalizes(n: Node, m: Node, b: Block) {
    && m.rs.height == b.height + 1 && m.rs.round == 0 && Empty(m.rs) && m.rs.evidence == []
    && m.rs.lockedRound.None? && m.rs.lockedBlock.None? && m.rs.validRound.None? && m.rs.validBlock.None?
    && n.writes <= m.writes && Log(CommitFinalized(b.height, b.round, BlockHash(b))) in m.writes[|n.writes|..]
  }

  lemma FinalizeFires(c: Config, n: Node, b: Block)
    requires Core(c, n) && n.rs.proposal == Some(b) && |Tally(n.rs.precommits, BlockHash(b))| >= Quorum(c)
    ensures var o := Finalize(c, n, BlockHash(b), Done); o.ok && Finalizes(n, o.n, b)
  {
    OwnCertificateValid(c, n.rs, b);
    hide ValidCertificate, Tallied, SignedOnce, LockSound;
    var e := Log(CommitFinalized(b.height, b.round, BlockHash(b)));
    var o := Finalize(c, n, BlockHash(b), Done);
    assert o.n.writes[|n.writes|] == e;
  }

  lemma FinalizesFrom(n: Node, between: Node, m: Node, b: Block)
    requires Finalizes(between, m, b) && n.writes <= between.writes
    ensures Finalizes(n, m, b)
  {
    assert m.writes[|between.writes|..] == m.writes[|n.writes|..][|between.writes| - |n.writes|..];
  }

  /** A precommit that completes the quorum for the held block takes the node to the next height. */
  lemma QuorumFinalizes(c: Config, n: Node, v: Vote, b: Block)
    requires WellFormed(c) && Disciplined(c, n) && n.rs.proposal == Some(b)
    requires v.step == Precommit && v.hash == BlockHash(b) && v.validator in Members(c)
    requires Countable(n.rs, v) && |Behind(n.rs, v)| >= Quorum(c)
    ensures var o := HandleVote(c, n, v, Done); o.ok && Finalizes(n, o.n, b)
  {
    RecordVoteKeeps(c, n, v);
    RecordVoteFrame(c, n, v);
    RecordAsksExactly(c, n, v);
    RecordVoteActions(c, n, v) by { assert LockSound(n.rs) && HeldProposal(n.rs); }
    var ws := RecordWrites(c, n, v);
    var r := RecordVote(c, n, v);
    FinalizeFires(c, r.n, b);
    hide RecordVote, Core, Countable, Behind, Finalize, Finalizes;
    FinalizesFrom(n, r.n, Finalize(c, r.n, BlockHash(b), Done).n, b);
  }

  /** So does a prevote that completes the polka, when the node's own precommit then completes the quorum. */
  lemma OwnPrecommitFinalizes(c: Config, n: Node, v: Vote, b: Block)
    requires WellFormed(c) && Disciplined(c, n) && n.rs.proposal == Some(b) && c.me.Some? && !n.rs.precommitted
    requires v.step == Prevote && v.hash == BlockHash(b) && v.validator in Members(c)
    requires Countable(n.rs, v) && |Behind(n.rs, v)| >= Quorum(c)
    requires var own := Vote(b.height, b.round, Precommit, BlockHash(b), c.me.value);
             Countable(n.rs, own) && |Behind(n.rs, own)| >= Quorum(c)
    ensures var o := HandleVote(c, n, v, Done); o.ok && Finalizes(n, o.n, b)
  {
    var r := RecordVote(c, n, v);
    RecordVoteKeeps(c, n, v);
    RecordVoteFrame(c, n, v);
    RecordAsksExactly(c, n, v);
    var ws := RecordWrites(c, n, v);
    EmitKeeps(c, r.n, v.hash);
    var (n1, own) := EmitPrecommit(c, r.n, v.hash);
    assert own == Some(Vote(b.height, b.round, Precommit, BlockHash(b), c.me.value));
    AfterPrevote(c, n, v, own.value);
    hide RecordVote, Countable, Behind, Finalize, Finalizes;
    QuorumRecorded(c, n1, own.value, b);
    var r1 := RecordVote(c, n1, own.value);
    FinalizesFrom(n, n1, Finalize(c, r1.n, BlockHash(b), Done).n, b);
  }

  /** Recording a prevote leaves the precommits as they are. */
  lemma AfterPrevote(c: Config, n: Node, v: Vote, own: Vote)
    requires Tallied(c, n.rs) && v.step == Prevote && own.step == Precommit && Countable(n.rs, v)
    ensures var m := RecordVote(c, n, v).n;
            Countable(m.rs, own) == Countable(n.rs, own) && Behind(m.rs, own) == Behind(n.rs, own)
  {
    CountableMeans(c, n.rs, v);
    Appends(c, n, v);
    RecordVoteFrame(c, n, v);
    hide RecordVote, VotersOf, Tallied;
    VotersOfSnoc(n.rs.votes, v, Precommit, own.hash);
    VotersOfSnoc(n.rs.votes, own, Precommit, own.hash);
    VotersOfSnoc(n.rs.votes + [v], own, Precommit, own.hash);
  }

  lemma Appends(c: Config, n: Node, v: Vote)
    requires !Conflicts(n.rs.votes, v) && v.height == n.rs.height && v.round == n.rs.round
    ensures RecordVote(c, n, v).n.rs.votes == n.rs.votes + [v]
  {
    AfterCountVotes(c, n.(rs := CountVote(n.rs, v), writes := n.writes + [Log(VoteRecorded(v))]), v);
    hide Conflicts, AfterCount;
  }

  lemma QuorumRecorded(c: Config, n: Node, v: Vote, b: Block)
    requires WellFormed(c) && Core(c, n) && n.rs.proposal == Some(b)
    requires v.step == Precommit && v.hash == BlockHash(b) && v.validator in Members(c)
    requires Countable(n.rs, v) && |Behind(n.rs, v)| >= Quorum(c)
    ensures var r := RecordVote(c, n, v);
            r.finalize == Some(v.hash) && Finalize(c, r.n, v.hash, Done).ok && Finalizes(n, Finalize(c, r.n, v.hash, Done).n, b)
  {
    RecordVoteKeeps(c, n, v);
    RecordVoteFrame(c, n, v);
    RecordAsksExactly(c, n, v);
    RecordVoteActions(c, n, v) by { assert LockSound(n.rs) && HeldProposal(n.rs); }
    var ws := RecordWrites(c, n, v);
    var r := RecordVote(c, n, v);
    FinalizeFires(c, r.n, b);
    hide RecordVote, Core, Countable, Behind, Finalize, Finalizes;
    FinalizesFrom(n, r.n, Finalize(c, r.n, BlockHash(b), Done).n, b);
  }

  // ------------------------------------------------------------------
  // Proposals
  // ------------------------------------------------------------------

  /** The prevote of a round in which the node has not voted: for its proposal unless it is locked. */
  function FirstPrevote(n: Node, b: Option<Block>, me: Address): Vote {
    Vote(n.rs.height, n.rs.round, Prevote,
         if b.Some? && n.rs.lockedBlock.None? then BlockHash(b.value) else NilHash, me)
  }

  /** The locking rule in full: a block is prevoted exactly if it is the proposal and the node is unlocked, or locked on
      it, or knows a polka for it from a round not before its lock. In reachable states only the first case remains. */
  lemma PrevoteRule(rs: RoundState, b: Block)
    ensures PrevoteHash(rs) == BlockHash(b) <==>
              && rs.proposal == Some(b)
              && (|| rs.lockedBlock.None?
                  || rs.lockedBlock == Some(b)
                  || (rs.validBlock == Some(b)
                      && (rs.lockedRound.None? || (rs.validRound.Some? && rs.lockedRound.value <= rs.validRound.value))))
  {}

  lemma PrevoteSigns(c: Config, n: Node, commit: Commit)
    requires Core(c, n) && c.me.Some? && !n.rs.prevoted
    requires n.rs.lockedRound.Some? ==> n.rs.lockedRound.value < n.rs.round
    ensures n.sent + [FirstPrevote(n, n.rs.proposal, c.me.value)] <= PrevoteAndHandle(c, n, commit).n.sent
  {
    if n.rs.lockedBlock.Some? {
      LockBindsPrevote(n.rs);
    }
    EmitKeeps(c, n, NilHash);
    var (n1, own) := EmitPrevote(c, n);
    assert own == Some(FirstPrevote(n, n.rs.proposal, c.me.value));
    hide HandleVote, Core;
    assert Tallied(c, n1.rs) by { CoreTallied(c, n1); }
    HandlingSigns(c, n1, own.value, commit);
  }

  lemma CoreTallied(c: Config, n: Node)
    requires Core(c, n)
    ensures Tallied(c, n.rs)
  {}

  /** A proposal of the round's proposer, its block for this height and round, is taken by a node that holds none, and
      prevoted unless the node is locked; then it prevotes nil. */
  lemma ProposalPrevoted(c: Config, n: Node, p: Proposal, commit: Commit)
    requires Disciplined(c, n) && n.rs.proposal.None? && p.height == n.rs.height && p.round == n.rs.round
    requires c.validators != [] && p.validator == c.validators[(p.height + p.round) % |c.validators|]
    requires p.block.proposer == p.validator && p.block.height == p.height && p.block.round == p.round
    requires c.me.Some? && !n.rs.prevoted
    ensures n.sent + [FirstPrevote(n, Some(p.block), c.me.value)] <= OnProposal(c, n, p, true, commit).n.sent
  {
    var m := TakeProposal(n, p.block, [Log(ProposalAccepted(p.height, p.round, BlockHash(p.block)))]);
    assert ValidProposal(c, p, true);
    PrevoteSigns(c, m, commit);
    hide PrevoteAndHandle;
  }

  /** A proposal from anybody else, or with a block of another proposer, height or round, changes nothing. */
  lemma ProposalRefused(c: Config, n: Node, p: Proposal, verified: bool, commit: Commit)
    requires c.validators == [] || !verified || p.validator != c.validators[(p.height + p.round) % |c.validators|]
             || p.block.proposer != p.validator || p.block.height != p.height || p.block.round != p.round
    ensures OnProposal(c, n, p, verified, commit) == Outcome(n, false)
  {
    assert !ValidProposal(c, p, verified);
    hide PrevoteAndHandle, TakeProposal, ValidProposal;
  }

  /** In its turn a node without a proposal logs its block as broadcast, and prevotes it unless it is locked or has
      voted; out of turn it does nothing. */
  lemma ProposesInTurn(c: Config, n: Node, payload: int, commit: Commit)
    requires Disciplined(c, n) && c.validators != [] && c.me.Some? && n.rs.proposal.None?
    ensures var h, r, me := n.rs.height, n.rs.round, c.me.value;
            var b := Block(h, r, me, payload);
            var o := MaybePropose(c, n, payload, commit);
            if me != c.validators[(h + r) % |c.validators|] then o == Outcome(n, true)
            else
              && (!n.rs.prevoted ==> n.sent + [FirstPrevote(n, Some(b), me)] <= o.n.sent)
              && n.writes + ProposalLog(b) <= o.n.writes
  {
    hide PrevoteAndHandle, Disciplined, MaybePropose, TakeProposal, FirstPrevote;
    InTurn(c, n, payload, commit);
    if c.me.value == c.validators[(n.rs.height + n.rs.round) % |c.validators|] {
      Proposed(c, n, Block(n.rs.height, n.rs.round, c.me.value, payload), commit);
    }
  }

  lemma InTurn(c: Config, n: Node, payload: int, commit: Commit)
    requires c.validators != [] && c.me.Some? && n.rs.proposal.None?
    ensures var b := Block(n.rs.height, n.rs.round, c.me.value, payload);
            MaybePropose(c, n, payload, commit) ==
              if c.me.value == c.validators[(n.rs.height + n.rs.round) % |c.validators|]
              then PrevoteAndHandle(c, TakeProposal(n, b, ProposalLog(b)), commit) else Outcome(n, true)
  {
    hide PrevoteAndHandle;
  }

  function ProposalLog(b: Block): seq<Write> {
    [Log(ProposalAccepted(b.height, b.round, BlockHash(b))), Log(ProposalBroadcast(b.height, b.round, BlockHash(b)))]
  }

  lemma Proposed(c: Config, n: Node, b: Block, commit: Commit)
    requires Disciplined(c, n) && c.me.Some? && n.rs.proposal.None? && b.height == n.rs.height && b.round == n.rs.round
    ensures var o := PrevoteAndHandle(c, TakeProposal(n, b, ProposalLog(b)), commit);
            && n.writes + ProposalLog(b) <= o.n.writes
            && (!n.rs.prevoted ==> n.sent + [FirstPrevote(n, Some(b), c.me.value)] <= o.n.sent)
  {
    hide PrevoteAndHandle, ProposalLog;
    var m := TakeProposal(n, b, ProposalLog(b));
    WritesGrow(c, m, commit);
    if !n.rs.prevoted {
      PrevoteSigns(c, m, commit);
    }
  }

  lemma WritesGrow(c: Config, n: Node, commit: Commit)
    ensures n.writes <= PrevoteAndHandle(c, n, commit).n.writes
  {
    hide RecordVote, Finalize;
    var (n1, own) := EmitPrevote(c, n);
    if own.Some? {
      var r := RecordVote(c, n1, own.value);
      var ws := RecordWrites(c, n1, own.value);
      if r.precommit.Some? {
        var (n2, own2) := EmitPrecommit(c, r.n, r.precommit.value);
        if own2.Some? {
          var ws2 := RecordWrites(c, n2, own2.value);
          var r2 := RecordVote(c, n2, own2.value);
          if r2.finalize.Some? {
            FinalizeGrows(c, r2.n, r2.finalize.value, commit);
          }
        }
      } else if r.finalize.Some? {
        FinalizeGrows(c, r.n, r.finalize.value, commit);
      }
    }
  }

  lemma FinalizeGrows(c: Config, n: Node, hash: Hash, commit: Commit)
    ensures n.writes <= Finalize(c, n, hash, commit).n.writes
  {
    hide ValidCertificate;
  }

  // ------------------------------------------------------------------
  // Moving on
  // ------------------------------------------------------------------

  predicate SameLocks(a: RoundState, b: RoundState) {
    && a.lockedRound == b.lockedRound && a.lockedBlock == b.lockedBlock
    && a.validRound == b.validRound && a.validBlock == b.validBlock
  }

  /** A timeout always succeeds: a node that has not voted prevotes nil, and every node goes to the next round of its
      height, empty, with its locks. */
  lemma TimeoutMoves(c: Config, n: Node, commit: Commit)
    requires Disciplined(c, n)
    ensures var o := OnTimeout(c, n, commit);
            && o.ok && o.n.rs.height == n.rs.height && o.n.rs.round == n.rs.round + 1
            && Empty(o.n.rs) && SameLocks(o.n.rs, n.rs)
            && (c.me.Some? && !n.rs.prevoted ==> n.sent + [FirstPrevote(n, None, c.me.value)] <= o.n.sent)
            && (c.me.None? || n.rs.prevoted ==> o.n.sent == n.sent)
  {
    if c.me.Some? && !n.rs.prevoted {
      assert n.rs.proposal.None?;
      EmitKeeps(c, n, NilHash);
      var (n1, own) := EmitPrevote(c, n);
      assert own == Some(FirstPrevote(n, None, c.me.value));
      hide Core, HandleVote;
      NilHandled(c, n1, own.value, commit);
    }
  }

  /** Nil votes finalize nothing and lock nothing. */
  lemma NilHandled(c: Config, n: Node, v: Vote, commit: Commit)
    requires v.step == Prevote && v.hash.NilHash?
    ensures var o := HandleVote(c, n, v, commit);
            o.ok && o.n.rs.height == n.rs.height && o.n.rs.round == n.rs.round && SameLocks(o.n.rs, n.rs) && n.sent <= o.n.sent
  {
    NilRecorded(c, n, v);
    hide RecordVote;
    var r := RecordVote(c, n, v);
    if r.precommit.Some? {
      var (n1, own) := EmitPrecommit(c, r.n, r.precommit.value);
      if own.Some? {
        NilRecorded(c, n1, own.value);
      }
    }
  }

  lemma NilRecorded(c: Config, n: Node, v: Vote)
    requires v.hash.NilHash?
    ensures var r := RecordVote(c, n, v);
            && r.n.rs.height == n.rs.height && r.n.rs.round == n.rs.round && SameLocks(r.n.rs, n.rs) && r.n.sent == n.sent
            && r.finalize.None? && (r.precommit.Some? ==> r.precommit.value.NilHash? && v.step == Prevote)
  {
    NilCounted(c, n.(rs := CountVote(n.rs, v), writes := n.writes + [Log(VoteRecorded(v))]), v);
    hide Conflicts, AfterCount;
  }

  lemma NilCounted(c: Config, n: Node, v: Vote)
    requires v.hash.NilHash?
    ensures var r := AfterCount(c, n, v);
            r.n == n && r.finalize.None? && (r.precommit.Some? ==> r.precommit.value.NilHash? && v.step == Prevote)
  {}

  /** A certified block of this height or a later one that commits takes the node past it; an older one changes nothing,
      and neither does one without a valid certificate. */
  lemma ImportMoves(c: Config, n: Node, b: Block, cert: Certificate)
    ensures var o := ImportFinalized(c, n, b, cert, Done);
            if cert.height < n.rs.height then o == Outcome(n, true)
            else if !ValidCertificate(c, b, cert) then o == Outcome(n, false)
            else
              && o.ok && o.n.rs.height == b.height + 1 && o.n.rs.round == 0 && Empty(o.n.rs)
              && o.n.rs.lockedRound.None? && o.n.rs.lockedBlock.None? && o.n.rs.validRound.None? && o.n.rs.validBlock.None?
              && n.writes + [Log(CommitFinalized(b.height, b.round, BlockHash(b)))] <= o.n.writes && o.n.sent == n.sent
  {}

  /** What is left when finalizing fails: nothing without the proposal, for another block, or when execution refuses;
      the logged commit when it fails after that, and without the evidence when it fails after that. */
  lemma FinalizeFails(c: Config, n: Node, b: Block, commit: Commit)
    requires Core(c, n) && |Tally(n.rs.precommits, BlockHash(b))| >= Quorum(c)
    ensures var o := Finalize(c, n, BlockHash(b), commit);
            var logged := n.(writes := n.writes + [Log(CommitFinalized(b.height, b.round, BlockHash(b)))]);
            && (n.rs.proposal.None? ==> o == Outcome(n, false))
            && (n.rs.proposal.Some? && n.rs.proposal.value != b ==> o == Outcome(n, true))
            && (n.rs.proposal == Some(b) ==>
                  && (commit == Refused ==> o == Outcome(n, false))
                  && (commit == LoggedOnly ==> o == Outcome(logged, false))
                  && (commit == Unsettled ==> o == Outcome(logged.(rs := n.rs.(evidence := [])), false)))
  {
    if n.rs.proposal == Some(b) {
      OwnCertificateValid(c, n.rs, b);
    }
    hide ValidCertificate, Tallied, SignedOnce, LockSound;
  }

  /** An import whose block does not commit leaves its logged commit and nothing else. */
  lemma ImportFails(c: Config, n: Node, b: Block, cert: Certificate, commit: Commit)
    requires cert.height >= n.rs.height && ValidCertificate(c, b, cert) && commit != Done
    ensures ImportFinalized(c, n, b, cert, commit)
         == Outcome(n.(writes := n.writes + [Log(CommitFinalized(b.height, b.round, BlockHash(b)))]), false)
  {}

  /** A proposal for another height or round is let pass. */
  lemma ProposalPasses(c: Config, n: Node, p: Proposal, commit: Commit)
    requires p.height != n.rs.height || p.round != n.rs.round
    ensures OnProposal(c, n, p, true, commit).n == n && (ValidProposal(c, p, true) ==> OnProposal(c, n, p, true, commit).ok)
  {}

  /** Finalizing drops from the log exactly the entries of more than ten heights ago. */
  lemma FinalizeTrims(c: Config, n: Node, hash: Hash, d: Disk, e: Entry)
    requires n.rs.height < Finalize(c, n, hash, Done).n.rs.height && e in DiskAfter(d, n.writes).wal
    ensures e in DiskAfter(d, Finalize(c, n, hash, Done).n.writes).wal <==> EntryHeight(e) + 10 >= n.rs.height
  {
    var h := n.rs.height;
    var w1 := n.writes + [Log(CommitFinalized(h, n.rs.round, hash))];
    var w2 := w1 + if h > 10 then [Trim(h - 10)] else [];
    var saved := w2 + [Save(Snapshot(h + 1, 0))];
    var noted := saved + [Log(SnapshotPersisted(h + 1, 0))];
    FinalizeWritesAll(c, n, hash);
    hide Finalize, DiskAfter, Compact;
    After1(d, n.writes, Log(CommitFinalized(h, n.rs.round, hash)));
    if h > 10 {
      After1(d, w1, Trim(h - 10));
      CompactIsFilter(DiskAfter(d, w1).wal, h - 10);
    } else {
      assert w2 == w1;
    }
    After1(d, w2, Save(Snapshot(h + 1, 0)));
    After1(d, saved, Log(SnapshotPersisted(h + 1, 0)));
    After1(d, noted, Log(HeightAdvanced(h + 1)));
  }

  lemma FinalizeWritesAll(c: Config, n: Node, hash: Hash)
    requires n.rs.height < Finalize(c, n, hash, Done).n.rs.height
    ensures var h, m := n.rs.height, Finalize(c, n, hash, Done).n;
            m.writes == (n.writes + [Log(CommitFinalized(h, n.rs.round, hash))] + if h > 10 then [Trim(h - 10)] else [])
                        + [Save(Snapshot(h + 1, 0))] + [Log(SnapshotPersisted(h + 1, 0))] + [Log(HeightAdvanced(h + 1))]
  {
    hide ValidCertificate;
  }

  lemma After1(d: Disk, ws: seq<Write>, w: Write)
    ensures DiskAfter(d, ws + [w]) == Perform(DiskAfter(d, ws), w)
  {
    assert (ws + [w])[..|ws|] == ws;
  }
}
