/** What locks cost: a locked node never again prevotes a block at its height, so enough locked nodes end the height's
    hopes of a later certificate. No assumption on Byzantine numbers or on what nodes hold is made here. */
module Halting {
  import opened Common
  import opened ConsensusTypes
  import opened RoundMachine
  import opened Discipline
  import opened Agreement
  import opened UnheldPrecommit

  // ------------------------------------------------------------------
  // One node
  // ------------------------------------------------------------------

  /** A locked node prevoted no block of this height after the round it locked in. */
  predicate QuietSinceLock(n: Node) {
    forall v <- n.sent :: ForBlock(v, Prevote) && v.height == n.rs.height && n.rs.lockedRound.Some? ==>
                            v.round <= n.rs.lockedRound.value
  }

  ghost predicate Anchored(c: Config, g: iset<Vote>, n: Node) {
    Within(n.rs.votes, g) && PrecommitsHavePolkas(c, g, n.sent) && QuietSinceLock(n)
  }

  /** From `n` to `m`: nothing signed for an earlier height, no block prevoted if `n` was locked, and a lock lost only
      with the height. */
  predicate Hushed(n: Node, m: Node) {
    && n.sent <= m.sent && n.rs.height <= m.rs.height
    && (forall i :: |n.sent| <= i < |m.sent| ==>
          m.sent[i].height >= n.rs.height && (n.rs.lockedRound.Some? && m.sent[i].height == n.rs.height ==> !ForBlock(m.sent[i], Prevote)))
    && (n.rs.lockedRound.Some? && m.rs.height == n.rs.height ==> m.rs.lockedRound.Some?)
  }

  lemma HushedTrans(a: Node, b: Node, d: Node)
    requires Hushed(a, b) && Hushed(b, d)
    ensures Hushed(a, d)
  {
    hide ForBlock;
  }

  lemma AnchoredGrows(c: Config, g: iset<Vote>, g': iset<Vote>, n: Node)
    requires g <= g' && Anchored(c, g, n)
    ensures Anchored(c, g', n)
  {
    forall w <- n.sent | ForBlock(w, Precommit) ensures Polka(c, g', w.height, w.round, w.hash.block) {
      PolkaGrows(c, g, g', w.height, w.round, w.hash.block);
    }
  }

  /** Recording a vote may move the lock, but only to the round it is in. */
  lemma RecordAnchored(c: Config, g: iset<Vote>, n: Node, v: Vote)
    requires Core(c, n) && Anchored(c, g, n) && v in g
    ensures Anchored(c, g, RecordVote(c, n, v).n) && Hushed(n, RecordVote(c, n, v).n)
  {
    hide RecordVote, Tallied, LockSound, HeldProposal, FlagsRemember, NoSlotTwice, PrecommitsHavePolkas, Tally, Quorum;
    RecordVoteFrame(c, n, v);
    RecordVoteVotes(c, n, v);
  }

  /** A locked node that has not voted in its round prevotes nil. */
  lemma PrevoteAnchored(c: Config, g: iset<Vote>, n: Node)
    requires Core(c, n) && Anchored(c, g, n)
    requires n.rs.lockedRound.Some? && n.rs.lockedRound.value == n.rs.round ==> n.rs.prevoted
    ensures Anchored(c, g, EmitPrevote(c, n).0) && Hushed(n, EmitPrevote(c, n).0)
  {
    hide Tallied, SignedOnce, PrevoteHash, Polka;
    if n.rs.lockedBlock.Some? {
      LockBindsPrevote(n.rs);
    }
  }

  lemma PrecommitAnchored(c: Config, g: iset<Vote>, n: Node, hash: Hash)
    requires Core(c, n) && Anchored(c, g, n)
    requires hash.BlockHash? && !n.rs.precommitted ==> |Tally(n.rs.prevotes, hash)| >= Quorum(c)
    ensures Anchored(c, g, EmitPrecommit(c, n, hash).0) && Hushed(n, EmitPrecommit(c, n, hash).0)
  {
    if hash.BlockHash? && !n.rs.precommitted {
      QuorumIsPolka(c, g, n.rs, hash.block);
    }
    hide Tallied, SignedOnce, LockSound, HeldProposal, Polka, Quorum, Tally;
  }

  lemma ResetAnchored(c: Config, g: iset<Vote>, n: Node, next: nat)
    requires Core(c, n) && Anchored(c, g, n)
    ensures Anchored(c, g, AdvanceRound(n)) && Hushed(n, AdvanceRound(n))
    ensures next > n.rs.height ==> Anchored(c, g, AdvanceHeight(n, next)) && Hushed(n, AdvanceHeight(n, next))
  {
    hide PrecommitsHavePolkas, Tallied, SignedOnce, LockSound;
  }

  lemma FinalizeAnchored(c: Config, g: iset<Vote>, n: Node, hash: Hash, commit: Commit)
    requires Core(c, n) && Anchored(c, g, n)
    ensures Anchored(c, g, Finalize(c, n, hash, commit).n) && Hushed(n, Finalize(c, n, hash, commit).n)
  {
    hide CastHere, OneHashEach, Exact, SentBehind, FlagsRemember, NoSlotTwice;
    hide PrecommitsHavePolkas, Within, ValidCertificate;
    var n1 := Settle(LogEntry(n, CommitFinalized(n.rs.height, n.rs.round, hash)), n.rs.height);
    ResetAnchored(c, g, n1, n.rs.height + 1);
  }

  lemma HandleVoteAnchored(c: Config, g: iset<Vote>, n: Node, v: Vote, commit: Commit)
    requires WellFormed(c) && Core(c, n) && Anchored(c, g, n)
    requires v in g && v.validator in Members(c) && Within(HandleVote(c, n, v, commit).n.sent, g)
    ensures Anchored(c, g, HandleVote(c, n, v, commit).n) && Hushed(n, HandleVote(c, n, v, commit).n)
  {
    hide Tallied, SignedOnce, HeldProposal, LockSound, RecordVote, Finalize, EmitPrecommit, Anchored, Hushed;
    RecordVoteKeeps(c, n, v);
    RecordAnchored(c, g, n, v);
    AskedOnQuorum(c, n, v);
    var r := RecordVote(c, n, v);
    if r.precommit.Some? {
      var (n1, own) := EmitPrecommit(c, r.n, r.precommit.value);
      PrecommitAnchored(c, g, r.n, r.precommit.value);
      EmitKeeps(c, r.n, r.precommit.value);
      HushedTrans(n, r.n, n1);
      if own.Some? {
        OwnPrecommitSent(c, g, n, v, commit);
        RecordVoteKeeps(c, n1, own.value);
        RecordAnchored(c, g, n1, own.value);
        var r1 := RecordVote(c, n1, own.value);
        HushedTrans(n, n1, r1.n);
        if r1.finalize.Some? {
          FinalizeAnchored(c, g, r1.n, r1.finalize.value, commit);
          HushedTrans(n, r1.n, Finalize(c, r1.n, r1.finalize.value, commit).n);
        }
      }
    } else if r.finalize.Some? {
      FinalizeAnchored(c, g, r.n, r.finalize.value, commit);
      HushedTrans(n, r.n, Finalize(c, r.n, r.finalize.value, commit).n);
    }
  }

  lemma AskedOnQuorum(c: Config, n: Node, v: Vote)
    requires Core(c, n)
    ensures var r := RecordVote(c, n, v); r.precommit.Some? ==> |Tally(r.n.rs.prevotes, r.precommit.value)| >= Quorum(c)
  {
    hide Tallied, SignedOnce, RecordVote;
    RecordVoteActions(c, n, v);
  }

  lemma PrevoteAndHandleAnchored(c: Config, g: iset<Vote>, n: Node, commit: Commit)
    requires WellFormed(c) && Core(c, n) && Anchored(c, g, n)
    requires n.rs.lockedRound.Some? && n.rs.lockedRound.value == n.rs.round ==> n.rs.prevoted
    requires Within(PrevoteAndHandle(c, n, commit).n.sent, g)
    ensures Anchored(c, g, PrevoteAndHandle(c, n, commit).n) && Hushed(n, PrevoteAndHandle(c, n, commit).n)
  {
    hide Tallied, SignedOnce, LockSound, HandleVote, Anchored, Hushed;
    PrevoteAnchored(c, g, n);
    EmitKeeps(c, n, NilHash);
    var (n1, own) := EmitPrevote(c, n);
    if own.Some? {
      assert own.value in n1.sent;
      HandleVoteKeeps(c, n1, own.value, commit);
      assert n1.sent <= HandleVote(c, n1, own.value, commit).n.sent;
      HandleVoteAnchored(c, g, n1, own.value, commit);
      HushedTrans(n, n1, HandleVote(c, n1, own.value, commit).n);
    }
  }

  lemma TakeAnchored(c: Config, g: iset<Vote>, n: Node, b: Block, logged: seq<Write>, commit: Commit)
    requires WellFormed(c) && Core(c, n) && Anchored(c, g, n)
    requires n.rs.proposal.None? && b.height == n.rs.height && b.round == n.rs.round
    requires Within(PrevoteAndHandle(c, TakeProposal(n, b, logged), commit).n.sent, g)
    ensures Anchored(c, g, PrevoteAndHandle(c, TakeProposal(n, b, logged), commit).n)
    ensures Hushed(n, PrevoteAndHandle(c, TakeProposal(n, b, logged), commit).n)
  {
    hide PrevoteAndHandle;
    var m := TakeProposal(n, b, logged);
    PrevoteAndHandleAnchored(c, g, m, commit);
    HushedTrans(n, m, PrevoteAndHandle(c, m, commit).n);
  }

  lemma TimeoutAnchored(c: Config, g: iset<Vote>, n: Node, commit: Commit)
    requires WellFormed(c) && Disciplined(c, n) && Anchored(c, g, n)
    requires Within(OnTimeout(c, n, commit).n.sent, g)
    ensures Anchored(c, g, OnTimeout(c, n, commit).n) && Hushed(n, OnTimeout(c, n, commit).n)
  {
    hide CastHere, OneHashEach, Exact, SentBehind, FlagsRemember, NoSlotTwice;
    hide Anchored, Hushed, PrevoteAndHandle, HandleVote;
    var o := PrevoteAndHandle(c, n, commit);
    assert OnTimeout(c, n, commit).n.sent == o.n.sent;
    if c.me.None? {
      NothingWithoutKey(c, n, commit);
      StaysHushed(n);
    } else {
      PrevoteAndHandleAnchored(c, g, n, commit);
    }
    PrevoteAndHandleKeeps(c, n, commit);
    ResetAnchored(c, g, o.n, 0);
    HushedTrans(n, o.n, AdvanceRound(o.n));
  }

  lemma StaysHushed(n: Node)
    ensures Hushed(n, n)
  {}

  lemma ImportAnchored(c: Config, g: iset<Vote>, n: Node, b: Block, cert: Certificate, commit: Commit)
    requires Core(c, n) && Anchored(c, g, n)
    ensures Anchored(c, g, ImportFinalized(c, n, b, cert, commit).n) && Hushed(n, ImportFinalized(c, n, b, cert, commit).n)
  {
    hide CastHere, OneHashEach, Exact, SentBehind, FlagsRemember, NoSlotTwice, PrecommitsHavePolkas, Within;
    if cert.height >= n.rs.height && ValidCertificate(c, b, cert) {
      CertificateHeight(c, b, cert);
      ResetAnchored(c, g, LogEntry(n, CommitFinalized(cert.height, cert.round, cert.hash)), b.height + 1);
    }
  }

  lemma EventAnchored(c: Config, g: iset<Vote>, n: Node, e: Event)
    requires WellFormed(c) && Disciplined(c, n) && Anchored(c, g, n)
    requires FromMembers(c, e) && (e.ReceiveVote? ==> e.vote in g) && Within(Apply(c, n, e).sent, g)
    ensures Anchored(c, g, Apply(c, n, e)) && Hushed(n, Apply(c, n, e))
  {
    hide CastHere, OneHashEach, Exact, SentBehind, FlagsRemember, NoSlotTwice;
    hide PrecommitsHavePolkas, ValidCertificate, PrevoteAndHandle, HandleVote, ImportFinalized;
    StaysHushed(n);
    match e
    case Propose(payload, commit) =>
      var h, r := n.rs.height, n.rs.round;
      if c.me.Some? && c.validators != [] && c.me.value == ProposerFor(c, h, r) && n.rs.proposal.None? {
        var b := Block(h, r, c.me.value, payload);
        var logged := [Log(ProposalAccepted(h, r, BlockHash(b))), Log(ProposalBroadcast(h, r, BlockHash(b)))];
        TakeAnchored(c, g, n, b, logged, commit);
      }
    case ReceiveProposal(p, verified, commit) =>
      if ValidProposal(c, p, verified) && p.height == n.rs.height && p.round == n.rs.round && n.rs.proposal.None? {
        TakeAnchored(c, g, n, p.block, [Log(ProposalAccepted(p.height, p.round, BlockHash(p.block)))], commit);
      }
    case ReceiveVote(v, commit) =>
      HandleVoteAnchored(c, g, n, v, commit);
    case Import(b, cert, commit) =>
      ImportAnchored(c, g, n, b, cert, commit);
    case TimedOut(commit) =>
      TimeoutAnchored(c, g, n, commit);
  }

  // ------------------------------------------------------------------
  // The system
  // ------------------------------------------------------------------

  ghost predicate Orderly(k: Committee, s: System) {
    && s.Keys == Honest(k) && |Everyone(k)| == |k.validators|
    && forall a <- s :: Disciplined(ConfigOf(k, a), s[a]) && Anchored(ConfigOf(k, a), GenuineVotes(k, s), s[a])
  }

  lemma GenesisOrderly(k: Committee, h: nat)
    requires |Everyone(k)| == |k.validators|
    ensures Orderly(k, Genesis(k, h))
  {
    var s := Genesis(k, h);
    forall a <- s ensures Disciplined(ConfigOf(k, a), s[a]) && Anchored(ConfigOf(k, a), GenuineVotes(k, s), s[a]) {
      FreshDisciplined(ConfigOf(k, a), h);
    }
  }

  lemma ActOrderly(k: Committee, s: System, x: Action)
    requires Orderly(k, s) && Possible(k, s, x)
    ensures Orderly(k, Act(k, s, x)) && Hushed(s[x.node], Act(k, s, x)[x.node])
  {
    hide Disciplined, Anchored, Hushed, Apply;
    var s', c := Act(k, s, x), ConfigOf(k, x.node);
    EventKeeps(c, s[x.node], x.event);
    assert s[x.node].sent <= s'[x.node].sent by { KeepsSent(s[x.node], s'[x.node]); }
    var g, g' := GenuineVotes(k, s), GenuineVotes(k, s');
    forall v | v in g ensures v in g' {
      assert Genuine(k, s, v);
    }
    SentIsGenuine(k, s', x.node);
    forall a <- s' ensures Disciplined(ConfigOf(k, a), s'[a]) && Anchored(ConfigOf(k, a), g', s'[a]) {
      AnchoredGrows(ConfigOf(k, a), g, g', s[a]);
      if a == x.node {
        EventAnchored(c, g', s[a], x.event);
      }
    }
    AnchoredGrows(c, g, g', s[x.node]);
    EventAnchored(c, g', s[x.node], x.event);
  }

  lemma KeepsSent(n: Node, m: Node)
    requires Forward(n, m)
    ensures n.sent <= m.sent
  {}

  lemma {:induction false} ExecutionOrderly(k: Committee, h: nat, xs: seq<Action>, held: bool)
    requires |Everyone(k)| == |k.validators| && Execution(k, h, xs, held)
    ensures Orderly(k, After(k, h, xs))
  {
    hide Possible, Held, Orderly;
    if xs == [] {
      GenesisOrderly(k, h);
    } else {
      ExecutionOrderly(k, h, xs[..|xs| - 1], held);
      ActOrderly(k, After(k, h, xs[..|xs| - 1]), xs[|xs| - 1]);
    }
  }

  // ------------------------------------------------------------------
  // Locked nodes
  // ------------------------------------------------------------------

  /** Past the height, or locked at it; and no block prevoted at it after round `r`. */
  predicate Pinned(n: Node, h: nat, r: nat) {
    && (n.rs.height > h || (n.rs.height == h && n.rs.lockedRound.Some?))
    && forall v <- n.sent :: ForBlock(v, Prevote) && v.height == h ==> v.round <= r
  }

  lemma StaysPinned(n: Node, m: Node, h: nat, r: nat)
    requires Pinned(n, h, r) && Hushed(n, m)
    ensures Pinned(m, h, r)
  {
    forall v <- m.sent | ForBlock(v, Prevote) && v.height == h ensures v.round <= r {
      var i :| 0 <= i < |m.sent| && m.sent[i] == v;
      if i < |n.sent| {
        assert n.sent[i] == v && v in n.sent;
      }
    }
  }

  ghost predicate AllPinned(k: Committee, s: System, locked: set<Address>, h: nat, r: nat) {
    locked <= Honest(k) && forall a <- locked :: a in s && Pinned(s[a], h, r)
  }

  lemma {:induction false} RunPinned(k: Committee, h0: nat, xs: seq<Action>, ys: seq<Action>, held: bool, locked: set<Address>, h: nat, r: nat)
    requires |Everyone(k)| == |k.validators| && Execution(k, h0, xs + ys, held)
    requires AllPinned(k, After(k, h0, xs), locked, h, r)
    ensures AllPinned(k, After(k, h0, xs + ys), locked, h, r)
    decreases |ys|
  {
    hide Pinned, Hushed, Apply, Possible, Held, Orderly;
    if ys == [] {
      assert xs + ys == xs;
    } else {
      var all, front := xs + ys, ys[..|ys| - 1];
      assert all[..|all| - 1] == xs + front && all[|all| - 1] == ys[|ys| - 1];
      RunPinned(k, h0, xs, front, held, locked, h, r);
      ExecutionOrderly(k, h0, xs + front, held);
      var s, x := After(k, h0, xs + front), ys[|ys| - 1];
      ActOrderly(k, s, x);
      if x.node in locked {
        StaysPinned(s[x.node], Act(k, s, x)[x.node], h, r);
      }
    }
  }

  /** Too few are left to prevote. */
  lemma NoLatePolka(k: Committee, s: System, locked: set<Address>, h: nat, r: nat, later: nat, b: Block)
    requires |Everyone(k)| == |k.validators| && AllPinned(k, s, locked, h, r) && later > r
    requires |locked| + Quorum(Config(k.validators, None)) > |k.validators|
    ensures !Polka(Config(k.validators, None), GenuineVotes(k, s), h, later, b)
  {
    var c := Config(k.validators, None);
    var voters := Prevoters(c, GenuineVotes(k, s), h, later, b);
    forall a | a in voters ensures a !in locked {
      var v := Vote(h, later, Prevote, BlockHash(b), a);
      assert Genuine(k, s, v);
      if a in locked {
        assert Pinned(s[a], h, r) && v in s[a].sent && ForBlock(v, Prevote);
        assert false;
      }
    }
    assert voters <= Everyone(k) - locked;
    SubsetSize(voters, Everyone(k) - locked);
    assert |Everyone(k) - locked| == |Everyone(k)| - |locked| by {
      assert Everyone(k) == (Everyone(k) - locked) + locked;
    }
  }

  /** Once more nodes of a height are locked than a quorum can do without, no round after their locks ever brings a
      prevote quorum for a block, nor a certificate, in any continuation of any run, whatever the Byzantine validators do:
      unless a certificate from one of the lock rounds arrives, the height is never decided. */
  lemma HeightHalts(k: Committee, h0: nat, xs: seq<Action>, ys: seq<Action>, held: bool, locked: set<Address>, h: nat, r: nat)
    requires |Everyone(k)| == |k.validators| && Execution(k, h0, xs, held) && Execution(k, h0, xs + ys, held)
    requires var s := After(k, h0, xs);
             locked <= Honest(k) && forall a <- locked :: a in s && s[a].rs.height == h
                                                          && s[a].rs.lockedRound.Some? && s[a].rs.lockedRound.value <= r
    requires |locked| + Quorum(Config(k.validators, None)) > |k.validators|
    ensures var s := After(k, h0, xs + ys);
            && (forall later: nat, b | later > r :: !Polka(Config(k.validators, None), GenuineVotes(k, s), h, later, b))
            && (forall b, cert | Certified(k, s, b, cert) && b.height == h :: b.round <= r)
  {
    hide Execution, After, Pinned, Disciplined, Polka, Certified;
    var s0, s := After(k, h0, xs), After(k, h0, xs + ys);
    ExecutionOrderly(k, h0, xs, held);
    ExecutionOrderly(k, h0, xs + ys, held);
    forall a <- locked ensures Pinned(s0[a], h, r) {
      LockedIsPinned(ConfigOf(k, a), GenuineVotes(k, s0), s0[a], h, r);
    }
    RunPinned(k, h0, xs, ys, held, locked, h, r);
    forall later: nat, b | later > r ensures !Polka(Config(k.validators, None), GenuineVotes(k, s), h, later, b) {
      NoLatePolka(k, s, locked, h, r, later, b);
    }
    forall b, cert | Certified(k, s, b, cert) && b.height == h ensures b.round <= r {
      CertifiedPolka(k, s, locked, b, cert);
    }
  }

  /** The same for one certificate. */
  lemma LateCertificate(k: Committee, h0: nat, xs: seq<Action>, ys: seq<Action>, locked: set<Address>, b: Block, cert: Certificate)
    requires |Everyone(k)| == |k.validators| && Execution(k, h0, xs, false) && Execution(k, h0, xs + ys, false)
    requires var s := After(k, h0, xs);
             locked <= Honest(k) && forall a <- locked :: a in s && s[a].rs.height == b.height && s[a].rs.lockedRound == Some(0)
    requires |locked| + Quorum(Config(k.validators, None)) > |k.validators|
    requires Certified(k, After(k, h0, xs + ys), b, cert)
    ensures b.round == 0
  {
    hide Execution, After, Certified, Polka;
    HeightHalts(k, h0, xs, ys, false, locked, b.height, 0);
    assert Certified(k, After(k, h0, xs + ys), b, cert);
  }

  lemma LockedIsPinned(c: Config, g: iset<Vote>, n: Node, h: nat, r: nat)
    requires Anchored(c, g, n) && n.rs.height == h && n.rs.lockedRound.Some? && n.rs.lockedRound.value <= r
    ensures Pinned(n, h, r)
  {}

  /** A certificate needs one of the locked nodes, and it precommitted on a polka. */
  lemma CertifiedPolka(k: Committee, s: System, locked: set<Address>, b: Block, cert: Certificate)
    requires Orderly(k, s) && Certified(k, s, b, cert) && locked <= Honest(k)
    requires |locked| + Quorum(Config(k.validators, None)) > |k.validators|
    ensures Polka(Config(k.validators, None), GenuineVotes(k, s), b.height, b.round, b)
  {
    var voters := Voters(cert.votes);
    assert voters <= Everyone(k);
    if voters * locked == {} {
      assert |voters + locked| == |voters| + |locked|;
      SubsetSize(voters + locked, Everyone(k));
    }
    var a :| a in voters * locked;
    CertificateVoter(k, s, b, cert, a);
    assert Anchored(ConfigOf(k, a), GenuineVotes(k, s), s[a]);
    assert ForBlock(Vote(b.height, b.round, Precommit, BlockHash(b), a), Precommit);
    assert Polka(ConfigOf(k, a), GenuineVotes(k, s), b.height, b.round, b);
    assert Prevoters(Config(k.validators, None), GenuineVotes(k, s), b.height, b.round, b)
        == Prevoters(ConfigOf(k, a), GenuineVotes(k, s), b.height, b.round, b);
  }

  lemma LockNames(c: Config, n: Node, b: Block)
    requires Disciplined(c, n) && n.rs.lockedBlock == Some(b)
    ensures n.rs.lockedRound == Some(b.round)
  {}

  /** It happens: after one polka that two of four nodes hear, only round 0 can still decide the height. */
  lemma HaltedRun() returns (xs: seq<Action>)
    ensures Execution(FOUR, 4, xs, false)
    ensures forall ys, b, cert |
              Execution(FOUR, 4, xs + ys, false) && Certified(FOUR, After(FOUR, 4, xs + ys), b, cert) && b.height == 4 ::
              b.round == 0
  {
    hide Execution, After, Certified, Disciplined, Polka;
    Members4();
    xs := TwoLocked();
    var s := After(FOUR, 4, xs);
    ExecutionOrderly(FOUR, 4, xs, false);
    LockNames(Cfg(0), s[0], FIRST);
    LockNames(Cfg(2), s[2], FIRST);
    forall ys, b, cert |
      Execution(FOUR, 4, xs + ys, false) && Certified(FOUR, After(FOUR, 4, xs + ys), b, cert) && b.height == 4
      ensures b.round == 0
    {
      LateCertificate(FOUR, 4, xs, ys, {0, 2}, b, cert);
    }
  }
}
