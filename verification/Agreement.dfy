/** Agreement: nodes of `RoundMachine` beside Byzantine voters never let two blocks of one height be certified. */
module Agreement {
  import opened Common
  import opened ConsensusTypes
  import opened RoundMachine
  import opened Discipline

  // ------------------------------------------------------------------
  // One node against a set of genuine votes
  // ------------------------------------------------------------------

  /** Members whose prevote for a block is among the genuine votes `g`. */
  ghost function Prevoters(c: Config, g: iset<Vote>, h: nat, r: nat, b: Block): set<Address> {
    set a | a in Members(c) && Vote(h, r, Prevote, BlockHash(b), a) in g
  }

  ghost predicate Polka(c: Config, g: iset<Vote>, h: nat, r: nat, b: Block) {
    |Prevoters(c, g, h, r, b)| >= Quorum(c)
  }

  predicate ForBlock(v: Vote, s: Step) {
    v.step == s && v.hash.BlockHash?
  }

  ghost predicate Within(votes: seq<Vote>, g: iset<Vote>) {
    forall v <- votes :: v in g
  }

  /** Every block the node precommitted had a polka in that round. */
  ghost predicate PrecommitsHavePolkas(c: Config, g: iset<Vote>, sent: seq<Vote>) {
    forall w <- sent :: ForBlock(w, Precommit) ==> Polka(c, g, w.height, w.round, w.hash.block)
  }

  /** Having precommitted a block at the current height, the node is locked. */
  predicate PrecommitsLock(sent: seq<Vote>, height: nat, locked: Option<nat>) {
    forall w <- sent :: ForBlock(w, Precommit) && w.height == height ==> locked.Some?
  }

  /** The node never prevotes a block in a round after it precommitted one. */
  predicate SilentAfterPrecommit(sent: seq<Vote>) {
    forall v <- sent, w <- sent :: ForBlock(v, Prevote) && ForBlock(w, Precommit) && v.height == w.height ==> v.round <= w.round
  }

  ghost predicate Committed(c: Config, g: iset<Vote>, n: Node) {
    && Within(n.rs.votes, g)
    && PrecommitsHavePolkas(c, g, n.sent)
    && PrecommitsLock(n.sent, n.rs.height, n.rs.lockedRound)
    && SilentAfterPrecommit(n.sent)
  }

  /** A prevote that will be counted, for a hash that then has a quorum. */
  predicate CompletesQuorum(c: Config, rs: RoundState, v: Vote) {
    && v.step == Prevote && v.height == rs.height && v.round == rs.round && !Conflicts(rs.votes, v)
    && |Tally(rs.prevotes, v.hash) + {v.validator}| >= Quorum(c)
  }

  /** A quorum for a block completes only while that block is the held proposal, or after the node precommitted:
      `record_vote` asks for the precommit before it compares the proposal, and only the comparison sets the lock. */
  predicate HoldsWhatItPrecommits(c: Config, n: Node, v: Vote) {
    CompletesQuorum(c, n.rs, v) && v.hash.BlockHash? && !n.rs.precommitted ==> n.rs.proposal == Some(v.hash.block)
  }

  /** Recording asks for a precommit exactly when the vote completes a quorum. */
  lemma PrecommitGuard(c: Config, n: Node, v: Vote)
    ensures RecordVote(c, n, v).precommit == if CompletesQuorum(c, n.rs, v) then Some(v.hash) else None
  {
    hide Conflicts;
  }

  lemma PolkaGrows(c: Config, g: iset<Vote>, g': iset<Vote>, h: nat, r: nat, b: Block)
    requires g <= g' && Polka(c, g, h, r, b)
    ensures Polka(c, g', h, r, b)
  {
    SubsetSize(Prevoters(c, g, h, r, b), Prevoters(c, g', h, r, b));
  }

  lemma CommittedGrows(c: Config, g: iset<Vote>, g': iset<Vote>, n: Node)
    requires g <= g' && Committed(c, g, n)
    ensures Committed(c, g', n)
  {
    forall w <- n.sent | ForBlock(w, Precommit) ensures Polka(c, g', w.height, w.round, w.hash.block) {
      PolkaGrows(c, g, g', w.height, w.round, w.hash.block);
    }
  }

  lemma QuorumIsPolka(c: Config, g: iset<Vote>, rs: RoundState, b: Block)
    requires Tallied(c, rs) && Within(rs.votes, g) && |Tally(rs.prevotes, BlockHash(b))| >= Quorum(c)
    ensures Polka(c, g, rs.height, rs.round, b)
  {
    var voters := VotersOf(rs.votes, Prevote, BlockHash(b));
    assert Tally(rs.prevotes, BlockHash(b)) == voters;
    forall a | a in voters ensures a in Prevoters(c, g, rs.height, rs.round, b) {
      var v :| v in rs.votes && v.step == Prevote && v.hash == BlockHash(b) && v.validator == a;
      assert v == Vote(rs.height, rs.round, Prevote, BlockHash(b), a);
    }
    SubsetSize(voters, Prevoters(c, g, rs.height, rs.round, b));
  }

  lemma RecordVoteVotes(c: Config, n: Node, v: Vote)
    ensures RecordVote(c, n, v).n.rs.votes == n.rs.votes || RecordVote(c, n, v).n.rs.votes == n.rs.votes + [v]
  {
    hide AfterCount, Conflicts;
    AfterCountVotes(c, n.(rs := CountVote(n.rs, v), writes := n.writes + [Log(VoteRecorded(v))]), v);
  }

  lemma RecordCommitted(c: Config, g: iset<Vote>, n: Node, v: Vote)
    requires Core(c, n) && Committed(c, g, n) && v in g
    ensures Committed(c, g, RecordVote(c, n, v).n)
  {
    hide RecordVote, Core;
    RecordVoteFrame(c, n, v);
    RecordVoteVotes(c, n, v);
  }

  /** Signing a prevote: with a lock from an earlier round the vote is nil, without one there was no precommit. */
  lemma PrevoteCommitted(c: Config, g: iset<Vote>, n: Node)
    requires Core(c, n) && Committed(c, g, n)
    requires n.rs.lockedRound.Some? && n.rs.lockedRound.value == n.rs.round ==> n.rs.prevoted
    ensures Committed(c, g, EmitPrevote(c, n).0)
  {
    if c.me.Some? && !n.rs.prevoted {
      var v := EmitPrevote(c, n).1.value;
      if n.rs.lockedBlock.Some? {
        LockBindsPrevote(n.rs);
      }
      assert ForBlock(v, Prevote) ==> forall w <- n.sent :: ForBlock(w, Precommit) ==> w.height != v.height;
    }
  }

  /** Signing a precommit, right after a recorded quorum locked the node on the block. */
  lemma PrecommitCommitted(c: Config, g: iset<Vote>, n: Node, hash: Hash)
    requires Core(c, n) && Committed(c, g, n)
    requires hash.BlockHash? && !n.rs.precommitted ==>
               n.rs.lockedRound.Some? && |Tally(n.rs.prevotes, hash)| >= Quorum(c)
    ensures Committed(c, g, EmitPrecommit(c, n, hash).0)
  {
    if c.me.Some? && !n.rs.precommitted {
      var w := EmitPrecommit(c, n, hash).1.value;
      if hash.BlockHash? {
        QuorumIsPolka(c, g, n.rs, hash.block);
      }
      forall v <- n.sent | ForBlock(v, Prevote) && ForBlock(w, Precommit) && v.height == w.height
        ensures v.round <= w.round
      {
        assert LexLeq(v.height, v.round, n.rs.height, n.rs.round);
      }
    }
  }

  lemma ResetCommitted(c: Config, g: iset<Vote>, n: Node, next: nat)
    requires Core(c, n) && Committed(c, g, n)
    ensures Committed(c, g, AdvanceRound(n))
    ensures next > n.rs.height ==> Committed(c, g, AdvanceHeight(n, next))
  {
    hide PrecommitsHavePolkas, SilentAfterPrecommit, Tallied;
    if next > n.rs.height {
      assert forall w <- n.sent :: w.height <= n.rs.height;
    }
  }

  lemma FinalizeCommitted(c: Config, g: iset<Vote>, n: Node, hash: Hash, commit: Commit)
    requires Core(c, n) && Committed(c, g, n)
    ensures Committed(c, g, Finalize(c, n, hash, commit).n)
  {
    hide CastHere, OneHashEach, Exact, SentBehind, FlagsRemember, NoSlotTwice;
    hide PrecommitsHavePolkas, SilentAfterPrecommit, PrecommitsLock, Within, ValidCertificate;
    var n1 := Settle(LogEntry(n, CommitFinalized(n.rs.height, n.rs.round, hash)), n.rs.height);
    ResetCommitted(c, g, n1, n.rs.height + 1);
  }

  lemma HandleVoteCommitted(c: Config, g: iset<Vote>, n: Node, v: Vote, commit: Commit)
    requires WellFormed(c) && Core(c, n) && Committed(c, g, n)
    requires v in g && v.validator in Members(c) && HoldsWhatItPrecommits(c, n, v)
    requires Within(HandleVote(c, n, v, commit).n.sent, g)
    ensures Committed(c, g, HandleVote(c, n, v, commit).n)
  {
    hide Tallied, SignedOnce, HeldProposal, LockSound, RecordVote, Finalize, EmitPrecommit;
    hide PrecommitsHavePolkas, SilentAfterPrecommit, PrecommitsLock;
    RecordVoteKeeps(c, n, v);
    RecordVoteFrame(c, n, v);
    RecordCommitted(c, g, n, v);
    RecordedPrecommitLocks(c, n, v);
    var r := RecordVote(c, n, v);
    if r.precommit.Some? {
      var (n1, own) := EmitPrecommit(c, r.n, r.precommit.value);
      PrecommitCommitted(c, g, r.n, r.precommit.value);
      EmitKeeps(c, r.n, r.precommit.value);
      if own.Some? {
        OwnPrecommitSent(c, g, n, v, commit);
        RecordVoteKeeps(c, n1, own.value);
        RecordCommitted(c, g, n1, own.value);
        var r1 := RecordVote(c, n1, own.value);
        if r1.finalize.Some? {
          FinalizeCommitted(c, g, r1.n, r1.finalize.value, commit);
        }
      }
    } else if r.finalize.Some? {
      FinalizeCommitted(c, g, r.n, r.finalize.value, commit);
    }
  }

  lemma RecordedPrecommitLocks(c: Config, n: Node, v: Vote)
    requires Core(c, n) && HoldsWhatItPrecommits(c, n, v)
    ensures var r := RecordVote(c, n, v);
            r.precommit.Some? && r.precommit.value.BlockHash? && !r.n.rs.precommitted ==>
              r.n.rs.lockedRound.Some? && |Tally(r.n.rs.prevotes, r.precommit.value)| >= Quorum(c)
  {
    hide Tallied, SignedOnce, RecordVote, CompletesQuorum;
    PrecommitGuard(c, n, v);
    RecordVoteActions(c, n, v);
    RecordVoteFrame(c, n, v);
  }

  /** The node's own precommit ends up among the votes it has sent. */
  lemma OwnPrecommitSent(c: Config, g: iset<Vote>, n: Node, v: Vote, commit: Commit)
    requires RecordVote(c, n, v).precommit.Some?
    requires Within(HandleVote(c, n, v, commit).n.sent, g)
    ensures var r := RecordVote(c, n, v);
            var own := EmitPrecommit(c, r.n, r.precommit.value).1;
            own.Some? ==> own.value in g
  {
    hide RecordVote, ValidCertificate;
    var r := RecordVote(c, n, v);
    var (n1, own) := EmitPrecommit(c, r.n, r.precommit.value);
    if own.Some? {
      RecordVoteFrame(c, n1, own.value);
      assert own.value in n1.sent;
    }
  }

  lemma PrevoteAndHandleCommitted(c: Config, g: iset<Vote>, n: Node, commit: Commit)
    requires WellFormed(c) && Core(c, n) && Committed(c, g, n)
    requires n.rs.lockedRound.Some? && n.rs.lockedRound.value == n.rs.round ==> n.rs.prevoted
    requires Within(PrevoteAndHandle(c, n, commit).n.sent, g)
    ensures Committed(c, g, PrevoteAndHandle(c, n, commit).n)
  {
    hide Tallied, SignedOnce, LockSound, HandleVote, Committed;
    PrevoteCommitted(c, g, n);
    EmitKeeps(c, n, NilHash);
    var (n1, own) := EmitPrevote(c, n);
    if own.Some? {
      assert own.value in n1.sent;
      HandleVoteKeeps(c, n1, own.value, commit);
      assert n1.sent <= HandleVote(c, n1, own.value, commit).n.sent;
      OwnPrevoteHeld(c, n1, own.value);
      HandleVoteCommitted(c, g, n1, own.value, commit);
    }
  }

  lemma OwnPrevoteHeld(c: Config, n: Node, v: Vote)
    requires v.hash.BlockHash? ==> n.rs.proposal == Some(v.hash.block)
    ensures HoldsWhatItPrecommits(c, n, v)
  {}

  /** What the environment may do to a node: forge nothing, and hand over proposals before their polkas complete. */
  ghost predicate Admissible(c: Config, g: iset<Vote>, n: Node, e: Event) {
    FromMembers(c, e) && (e.ReceiveVote? ==> e.vote in g && HoldsWhatItPrecommits(c, n, e.vote))
  }

  lemma TakeCommitted(c: Config, g: iset<Vote>, n: Node, b: Block, logged: seq<Write>, commit: Commit)
    requires WellFormed(c) && Core(c, n) && Committed(c, g, n)
    requires n.rs.proposal.None? && b.height == n.rs.height && b.round == n.rs.round
    requires Within(PrevoteAndHandle(c, TakeProposal(n, b, logged), commit).n.sent, g)
    ensures Committed(c, g, PrevoteAndHandle(c, TakeProposal(n, b, logged), commit).n)
  {
    hide PrevoteAndHandle;
    PrevoteAndHandleCommitted(c, g, TakeProposal(n, b, logged), commit);
  }

  lemma EventCommitted(c: Config, g: iset<Vote>, n: Node, e: Event)
    requires WellFormed(c) && Disciplined(c, n) && Committed(c, g, n)
    requires Admissible(c, g, n, e) && Within(Apply(c, n, e).sent, g)
    ensures Committed(c, g, Apply(c, n, e))
  {
    hide CastHere, OneHashEach, Exact, SentBehind, FlagsRemember, NoSlotTwice;
    hide PrecommitsHavePolkas, SilentAfterPrecommit, PrecommitsLock, ValidCertificate;
    hide PrevoteAndHandle, HandleVote, HoldsWhatItPrecommits;
    match e
    case Propose(payload, commit) =>
      var h, r := n.rs.height, n.rs.round;
      if c.me.Some? && c.validators != [] && c.me.value == ProposerFor(c, h, r) && n.rs.proposal.None? {
        var b := Block(h, r, c.me.value, payload);
        var logged := [Log(ProposalAccepted(h, r, BlockHash(b))), Log(ProposalBroadcast(h, r, BlockHash(b)))];
        TakeCommitted(c, g, n, b, logged, commit);
      }
    case ReceiveProposal(p, verified, commit) =>
      if ValidProposal(c, p, verified) && p.height == n.rs.height && p.round == n.rs.round && n.rs.proposal.None? {
        TakeCommitted(c, g, n, p.block, [Log(ProposalAccepted(p.height, p.round, BlockHash(p.block)))], commit);
      }
    case ReceiveVote(v, commit) =>
      HandleVoteCommitted(c, g, n, v, commit);
    case Import(b, cert, commit) =>
      if cert.height >= n.rs.height && ValidCertificate(c, b, cert) {
        CertificateHeight(c, b, cert);
        ResetCommitted(c, g, LogEntry(n, CommitFinalized(cert.height, cert.round, cert.hash)), b.height + 1);
      }
    case TimedOut(commit) =>
      TimeoutCommitted(c, g, n, commit);
  }

  lemma CertificateHeight(c: Config, b: Block, cert: Certificate)
    requires ValidCertificate(c, b, cert)
    ensures cert.height == b.height
  {}

  lemma TimeoutCommitted(c: Config, g: iset<Vote>, n: Node, commit: Commit)
    requires WellFormed(c) && Disciplined(c, n) && Committed(c, g, n)
    requires Within(OnTimeout(c, n, commit).n.sent, g)
    ensures Committed(c, g, OnTimeout(c, n, commit).n)
  {
    hide CastHere, OneHashEach, Exact, SentBehind, FlagsRemember, NoSlotTwice;
    hide PrecommitsHavePolkas, SilentAfterPrecommit, PrecommitsLock;
    hide PrevoteAndHandle, HandleVote;
    var o := PrevoteAndHandle(c, n, commit);
    assert OnTimeout(c, n, commit).n.sent == o.n.sent;
    if c.me.None? {
      NothingWithoutKey(c, n, commit);
    } else {
      PrevoteAndHandleCommitted(c, g, n, commit);
    }
    PrevoteAndHandleKeeps(c, n, commit);
    ResetCommitted(c, g, o.n, 0);
  }

  lemma NothingWithoutKey(c: Config, n: Node, commit: Commit)
    requires c.me.None?
    ensures PrevoteAndHandle(c, n, commit).n == n
  {}

  // ------------------------------------------------------------------
  // The system
  // ------------------------------------------------------------------

  /** The fixed active set and the faulty part of it. */
  datatype Committee = Committee(validators: seq<Address>, byzantine: set<Address>)

  function ConfigOf(k: Committee, a: Address): Config {
    Config(k.validators, Some(a))
  }

  function Everyone(k: Committee): set<Address> {
    set a | a in k.validators
  }

  function Honest(k: Committee): set<Address> {
    Everyone(k) - k.byzantine
  }

  predicate BelowThird(k: Committee) {
    |Everyone(k)| == |k.validators| && k.byzantine <= Everyone(k) && 3 * |k.byzantine| < |k.validators|
  }

  type System = map<Address, Node>

  /** Votes that can exist: anything in a Byzantine validator's name, and what honest ones really sent. */
  ghost predicate Genuine(k: Committee, s: System, v: Vote) {
    && v.validator in Everyone(k)
    && (v.validator in k.byzantine || (v.validator in s && v in s[v.validator].sent))
  }

  ghost function GenuineVotes(k: Committee, s: System): iset<Vote> {
    iset v: Vote | Genuine(k, s, v)
  }

  /** A node handles an event; votes and certificates handed to it carry genuine votes only. */
  datatype Action = Action(node: Address, event: Event)

  ghost predicate Possible(k: Committee, s: System, x: Action) {
    && x.node in Honest(k) && x.node in s
    && (x.event.ReceiveVote? ==> Genuine(k, s, x.event.vote))
    && (x.event.Import? ==> forall v <- x.event.certificate.votes :: Genuine(k, s, v))
  }

  function Act(k: Committee, s: System, x: Action): System {
    if x.node in s then s[x.node := Apply(ConfigOf(k, x.node), s[x.node], x.event)] else s
  }

  function Genesis(k: Committee, h: nat): System {
    map a | a in Honest(k) :: FreshNode(h)
  }

  ghost predicate Held(k: Committee, s: System, x: Action) {
    x.node in s && (x.event.ReceiveVote? ==> HoldsWhatItPrecommits(ConfigOf(k, x.node), s[x.node], x.event.vote))
  }

  /** The system after a sequence of actions from genesis at height `h`. */
  function After(k: Committee, h: nat, xs: seq<Action>): System {
    if xs == [] then Genesis(k, h) else Act(k, After(k, h, xs[..|xs| - 1]), xs[|xs| - 1])
  }

  /** A run: every action is possible where it happens, and, with `held`, no node precommits a block it does not hold. */
  ghost predicate Execution(k: Committee, h: nat, xs: seq<Action>, held: bool) {
    xs != [] ==>
      var s, x := After(k, h, xs[..|xs| - 1]), xs[|xs| - 1];
      Execution(k, h, xs[..|xs| - 1], held) && Possible(k, s, x) && (held ==> Held(k, s, x))
  }

  /** A commit certificate for a block that any honest node would accept. */
  ghost predicate Certified(k: Committee, s: System, b: Block, cert: Certificate) {
    (forall v <- cert.votes :: Genuine(k, s, v)) && ValidCertificate(Config(k.validators, None), b, cert)
  }

  ghost predicate Safe(k: Committee, s: System) {
    && s.Keys == Honest(k)
    && forall a <- s :: Disciplined(ConfigOf(k, a), s[a]) && Committed(ConfigOf(k, a), GenuineVotes(k, s), s[a])
  }

  lemma GenesisSafe(k: Committee, h: nat)
    ensures Safe(k, Genesis(k, h))
  {
    var s := Genesis(k, h);
    forall a <- s ensures Disciplined(ConfigOf(k, a), s[a]) && Committed(ConfigOf(k, a), GenuineVotes(k, s), s[a]) {
      FreshDisciplined(ConfigOf(k, a), h);
    }
  }

  lemma ActSafe(k: Committee, s: System, x: Action)
    requires BelowThird(k) && Safe(k, s) && Possible(k, s, x) && Held(k, s, x)
    ensures Safe(k, Act(k, s, x))
  {
    hide Disciplined, Committed, HoldsWhatItPrecommits;
    var s' := Act(k, s, x);
    var c := ConfigOf(k, x.node);
    EventKeeps(c, s[x.node], x.event);
    assert s[x.node].sent <= s'[x.node].sent;
    var g, g' := GenuineVotes(k, s), GenuineVotes(k, s');
    forall v | v in g ensures v in g' {
      assert Genuine(k, s, v);
    }
    forall a <- s ensures Disciplined(ConfigOf(k, a), s'[a]) && Committed(ConfigOf(k, a), g', s'[a]) {
      CommittedGrows(ConfigOf(k, a), g, g', s[a]);
      if a == x.node {
        SentIsGenuine(k, s', a);
        EventCommitted(c, g', s[a], x.event);
      }
    }
  }

  lemma SentIsGenuine(k: Committee, s: System, a: Address)
    requires a in s && a in Everyone(k) && Disciplined(ConfigOf(k, a), s[a])
    ensures Within(s[a].sent, GenuineVotes(k, s))
  {}

  lemma {:induction false} ExecutionSafe(k: Committee, h: nat, xs: seq<Action>)
    requires BelowThird(k) && Execution(k, h, xs, true)
    ensures Safe(k, After(k, h, xs))
  {
    hide Possible, Held, Safe;
    if xs == [] {
      GenesisSafe(k, h);
    } else {
      ExecutionSafe(k, h, xs[..|xs| - 1]);
      ActSafe(k, After(k, h, xs[..|xs| - 1]), xs[|xs| - 1]);
    }
  }

  // ------------------------------------------------------------------
  // Quorums
  // ------------------------------------------------------------------

  /** Two quorums share an honest validator. */
  lemma QuorumsIntersect(k: Committee, a: set<Address>, b: set<Address>) returns (x: Address)
    requires BelowThird(k) && a <= Everyone(k) && b <= Everyone(k)
    requires |a| >= Quorum(Config(k.validators, None)) && |b| >= Quorum(Config(k.validators, None))
    ensures x in a && x in b && x in Honest(k)
  {
    assert |a + b| + |a * b| == |a| + |b|;
    SubsetSize(a + b, Everyone(k));
    if a * b <= k.byzantine {
      SubsetSize(a * b, k.byzantine);
    }
    x :| x in a * b && x !in k.byzantine;
  }

  /** An honest voter of a certificate really sent that precommit. */
  lemma CertificateVoter(k: Committee, s: System, b: Block, cert: Certificate, a: Address)
    requires Certified(k, s, b, cert) && a in Voters(cert.votes) && a in Honest(k)
    ensures a in s && Vote(b.height, b.round, Precommit, BlockHash(b), a) in s[a].sent
  {
    var v :| v in cert.votes && v.validator == a;
    assert Genuine(k, s, v) && v == Vote(b.height, b.round, Precommit, BlockHash(b), a);
  }

  lemma CertificatePolka(k: Committee, s: System, b: Block, cert: Certificate)
    requires BelowThird(k) && Safe(k, s) && Certified(k, s, b, cert)
    ensures Polka(Config(k.validators, None), GenuineVotes(k, s), b.height, b.round, b)
  {
    var voters := Voters(cert.votes);
    assert voters <= Everyone(k);
    var a := QuorumsIntersect(k, voters, voters);
    CertificateVoter(k, s, b, cert, a);
    assert Committed(ConfigOf(k, a), GenuineVotes(k, s), s[a]);
    assert ForBlock(Vote(b.height, b.round, Precommit, BlockHash(b), a), Precommit);
    assert Polka(ConfigOf(k, a), GenuineVotes(k, s), b.height, b.round, b);
    assert Prevoters(Config(k.validators, None), GenuineVotes(k, s), b.height, b.round, b)
        == Prevoters(ConfigOf(k, a), GenuineVotes(k, s), b.height, b.round, b);
  }

  /** A certificate and a polka of the same height: the polka is not for a later round, and in the same round it is
      for the same block. */
  lemma CertificateBlocksPolkas(k: Committee, s: System, b: Block, cert: Certificate, r: nat, b': Block)
    requires BelowThird(k) && Safe(k, s) && Certified(k, s, b, cert)
    requires Polka(Config(k.validators, None), GenuineVotes(k, s), b.height, r, b')
    ensures r <= b.round && (r == b.round ==> b' == b)
  {
    var c := Config(k.validators, None);
    var g := GenuineVotes(k, s);
    var voters := Voters(cert.votes);
    assert voters <= Everyone(k);
    var a := QuorumsIntersect(k, voters, Prevoters(c, g, b.height, r, b'));
    CertificateVoter(k, s, b, cert, a);
    var v, w := Vote(b.height, r, Prevote, BlockHash(b'), a), Vote(b.height, b.round, Precommit, BlockHash(b), a);
    assert Genuine(k, s, v) && v in s[a].sent && w in s[a].sent;
    assert Committed(ConfigOf(k, a), g, s[a]);
    assert ForBlock(v, Prevote) && ForBlock(w, Precommit);
    if r == b.round {
      CertificatePolka(k, s, b, cert);
      var x := QuorumsIntersect(k, Prevoters(c, g, b.height, r, b), Prevoters(c, g, b.height, r, b'));
      var v0, v1 := Vote(b.height, r, Prevote, BlockHash(b), x), Vote(b.height, r, Prevote, BlockHash(b'), x);
      assert Genuine(k, s, v0) && Genuine(k, s, v1);
      assert Disciplined(ConfigOf(k, x), s[x]);
      var i :| 0 <= i < |s[x].sent| && s[x].sent[i] == v0;
      var j :| 0 <= j < |s[x].sent| && s[x].sent[j] == v1;
      assert SameSlot(s[x].sent[i], s[x].sent[j]) && SameSlot(s[x].sent[j], s[x].sent[i]);
    }
  }

  /** What `finalize` commits is certified: a safe node with a precommit quorum for its proposal holds a certificate
      every honest node accepts. */
  lemma FinalizedIsCertified(k: Committee, s: System, a: Address, b: Block)
    requires Safe(k, s) && a in s && s[a].rs.proposal == Some(b)
    requires |Tally(s[a].rs.precommits, BlockHash(b))| >= Quorum(ConfigOf(k, a))
    ensures Certified(k, s, b, CertificateFor(s[a].rs, BlockHash(b)))
  {
    assert Disciplined(ConfigOf(k, a), s[a]) && Committed(ConfigOf(k, a), GenuineVotes(k, s), s[a]);
    OwnCertificateValid(ConfigOf(k, a), s[a].rs, b);
    PrecommitsForIsFilter(s[a].rs.votes, BlockHash(b));
  }

  /** Agreement over every run: with fewer than a third Byzantine validators and no block precommitted unheld, two
      certificates of one height, from whatever rounds, are for the same block. */
  lemma Agreement(k: Committee, h: nat, xs: seq<Action>, b0: Block, cert0: Certificate, b1: Block, cert1: Certificate)
    requires BelowThird(k) && Execution(k, h, xs, true)
    requires var s := After(k, h, xs); Certified(k, s, b0, cert0) && Certified(k, s, b1, cert1)
    requires b0.height == b1.height
    ensures b0 == b1
  {
    var s := After(k, h, xs);
    ExecutionSafe(k, h, xs);
    CertificatePolka(k, s, b0, cert0);
    CertificatePolka(k, s, b1, cert1);
    CertificateBlocksPolkas(k, s, b0, cert0, b1.round, b1);
    CertificateBlocksPolkas(k, s, b1, cert1, b0.round, b0);
  }
}
