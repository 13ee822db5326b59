/** Why `Agreement` assumes that a node holds what it precommits: `record_vote` asks for a precommit on any polka, but
    locks only when the polka is for the held proposal. One delayed proposal and one faulty validator of four suffice
    for two certificates. */
module UnheldPrecommit {
  import opened Common
  import opened ConsensusTypes
  import opened Recovery
  import opened RoundMachine
  import opened Discipline
  import opened Agreement

  const FOUR := Committee([0, 1, 2, 3], {1})
  const FIRST := Block(4, 0, 0, 0)
  const SECOND := Block(4, 1, 1, 0)

  function Pv(b: Block, a: Address): Vote { Vote(4, b.round, Prevote, BlockHash(b), a) }

  function Pc(b: Block, a: Address): Vote { Vote(4, b.round, Precommit, BlockHash(b), a) }

  function Cfg(a: Address): Config { ConfigOf(FOUR, a) }

  function Hears(v: Vote): Event { ReceiveVote(v, Refused) }

  function Sees(b: Block): Event { ReceiveProposal(Proposal(4, b.round, b, b.proposer), true, Refused) }

  /** What the story needs to know of a node: clock, proposal, prevotes for a block, flags, lock, and votes sent. */
  predicate Is(n: Node, round: nat, held: Option<Block>, b: Block, voters: set<Address>, locked: Option<Block>, sent: seq<Vote>) {
    && n.rs.height == 4 && n.rs.round == round && n.rs.proposal == held
    && Tally(n.rs.prevotes, BlockHash(b)) == voters
    && Tally(n.rs.prevotes, NilHash) == {}
    && (forall v <- n.rs.votes :: v.hash == BlockHash(b) && v.step == Prevote && v.validator in voters)
    && n.rs.precommits == map[]
    && n.rs.lockedBlock == locked && n.sent == sent
  }

  /** One more prevote below the quorum is only counted. */
  lemma Counts(a: Address, n: Node, round: nat, held: Option<Block>, b: Block, voters: set<Address>, sent: seq<Vote>, x: Address)
    requires Is(n, round, held, b, voters, None, sent) && b.round == round && b.height == 4 && |voters + {x}| < 3
    ensures var m := HandleVote(Cfg(a), n, Pv(b, x), Refused).n;
            Is(m, round, held, b, voters + {x}, None, sent)
            && m.rs.prevoted == n.rs.prevoted && m.rs.precommitted == n.rs.precommitted
  {
    assert !Conflicts(n.rs.votes, Pv(b, x));
  }

  /** The prevote that completes the polka makes the node precommit, held or not. */
  lemma Completes(a: Address, n: Node, round: nat, held: Option<Block>, b: Block, voters: set<Address>, sent: seq<Vote>, x: Address)
    requires Is(n, round, held, b, voters, None, sent) && b.round == round && |voters + {x}| == 3 && !n.rs.precommitted && b.height == 4
    ensures var m := HandleVote(Cfg(a), n, Pv(b, x), Refused).n;
            && m.rs.height == 4 && m.rs.round == round && m.sent == sent + [Pc(b, a)]
            && m.rs.lockedBlock == (if held == Some(b) then Some(b) else None)
            && m.rs.prevoted == n.rs.prevoted && m.rs.proposal == held
            && Tally(m.rs.prevotes, NilHash) == {}
            && (forall v <- m.rs.votes :: v.step == Prevote ==> v.validator in voters + {x})
  {
    assert !Conflicts(n.rs.votes, Pv(b, x));
    var n1 := n.(rs := CountVote(n.rs, Pv(b, x)), writes := n.writes + [Log(VoteRecorded(Pv(b, x)))]);
    var r := AfterCount(Cfg(a), n1, Pv(b, x));
    assert RecordVote(Cfg(a), n, Pv(b, x)) == r && r.precommit == Some(BlockHash(b));
    AfterCountFrame(Cfg(a), n1, Pv(b, x));
    AfterCountVotes(Cfg(a), n1, Pv(b, x));
    var (n2, own) := EmitPrecommit(Cfg(a), r.n, BlockHash(b));
    assert own == Some(Pc(b, a)) && !Conflicts(n2.rs.votes, Pc(b, a));
    assert Tally(CountVote(n2.rs, Pc(b, a)).precommits, BlockHash(b)) == {a};
  }

  /** Taking a proposal into an empty round: the unlocked node prevotes it. */
  lemma Accepts(a: Address, n: Node, round: nat, b: Block, sent: seq<Vote>)
    requires Is(n, round, None, b, {}, None, sent) && b.round == round && b.height == 4 && !n.rs.prevoted
    requires b.proposer == ProposerFor(Cfg(a), 4, round)
    ensures var m := Apply(Cfg(a), n, Sees(b));
            Is(m, round, Some(b), b, {a}, None, sent + [Pv(b, a)]) && m.rs.prevoted && m.rs.precommitted == n.rs.precommitted
    ensures n.rs.proposal.None? && a == b.proposer && b.payload == 0 ==>
              var m := Apply(Cfg(a), n, Propose(0, Refused));
              Is(m, round, Some(b), b, {a}, None, sent + [Pv(b, a)]) && m.rs.prevoted && m.rs.precommitted == n.rs.precommitted
  {
    hide HandleVote;
    forall logged: seq<Write> ensures var m := PrevoteAndHandle(Cfg(a), TakeProposal(n, b, logged), Refused).n;
                                      Is(m, round, Some(b), b, {a}, None, sent + [Pv(b, a)]) && m.rs.prevoted && m.rs.precommitted == n.rs.precommitted
    {
      var n1 := EmitPrevote(Cfg(a), TakeProposal(n, b, logged)).0;
      assert EmitPrevote(Cfg(a), TakeProposal(n, b, logged)).1 == Some(Pv(b, a));
      Counts(a, n1, round, Some(b), b, {}, sent + [Pv(b, a)], a);
      assert {} + {a} == {a};
    }
  }

  /** A node that has voted and is not locked moves to the next round empty-handed. */
  lemma MovesOn(a: Address, n: Node, b: Block)
    requires n.rs.height == 4 && n.rs.lockedBlock.None?
    requires n.rs.prevoted || (n.rs.proposal.None? && |Tally(n.rs.prevotes, NilHash) + {a}| < 3
                               && forall v <- n.rs.votes :: v.step == Prevote ==> v.validator != a)
    ensures var m := Apply(Cfg(a), n, TimedOut(Refused));
            Is(m, n.rs.round + 1, None, b, {}, None, m.sent) && n.sent <= m.sent && !m.rs.prevoted && !m.rs.precommitted
  {
    if !n.rs.prevoted {
      var (n1, own) := EmitPrevote(Cfg(a), n);
      assert !Conflicts(n1.rs.votes, own.value);
      assert RecordVote(Cfg(a), n1, own.value).n.sent == n1.sent;
    }
  }

  lemma Nothing()
    ensures Execution(FOUR, 4, [], false) && After(FOUR, 4, []) == Genesis(FOUR, 4)
  {}

  lemma Extend(xs: seq<Action>, x: Action)
    requires Execution(FOUR, 4, xs, false) && Possible(FOUR, After(FOUR, 4, xs), x)
    ensures Execution(FOUR, 4, xs + [x], false) && After(FOUR, 4, xs + [x]) == Act(FOUR, After(FOUR, 4, xs), x)
  {
    hide Apply, Possible, Act, Genesis;
    assert (xs + [x])[..|xs|] == xs;
  }

  lemma Members4()
    ensures Everyone(FOUR) == {0, 1, 2, 3} && Honest(FOUR) == {0, 2, 3} && BelowThird(FOUR)
  {
    assert Everyone(FOUR) == {0, 1, 2, 3};
    assert Honest(FOUR) == {0, 2, 3};
  }

  lemma FreshIs(b: Block)
    ensures Is(FreshNode(4), 0, None, b, {}, None, []) && !FreshNode(4).rs.prevoted && !FreshNode(4).rs.precommitted
  {
    assert Recover(Snapshot(4, 0), []) == Initial(Snapshot(4, 0));
  }

  /** Node 0 proposes and node 2 takes the proposal. */
  lemma Opening() returns (xs: seq<Action>)
    ensures Execution(FOUR, 4, xs, false)
    ensures var s := After(FOUR, 4, xs);
            && s.Keys == {0, 2, 3} && s[3] == FreshNode(4)
            && Is(s[0], 0, Some(FIRST), FIRST, {0}, None, [Pv(FIRST, 0)]) && s[0].rs.prevoted && !s[0].rs.precommitted
            && Is(s[2], 0, Some(FIRST), FIRST, {2}, None, [Pv(FIRST, 2)]) && s[2].rs.prevoted && !s[2].rs.precommitted
  {
    hide Apply, Is, After, Execution;
    Members4();
    FreshIs(FIRST);
    xs := [];
    Nothing();
    Accepts(0, FreshNode(4), 0, FIRST, []) by { assert FreshNode(4).rs.proposal.None?; }
    Extend(xs, Action(0, Propose(0, Refused)));
    xs := xs + [Action(0, Propose(0, Refused))];
    Accepts(2, FreshNode(4), 0, FIRST, []);
    Extend(xs, Action(2, Sees(FIRST)));
    xs := xs + [Action(2, Sees(FIRST))];
    assert [] + [Pv(FIRST, 0)] == [Pv(FIRST, 0)] && [] + [Pv(FIRST, 2)] == [Pv(FIRST, 2)];
  }

  /** Delivering a genuine vote. */
  lemma Tell(xs: seq<Action>, a: Address, v: Vote) returns (ys: seq<Action>)
    requires Execution(FOUR, 4, xs, false) && a in {0, 2, 3} && a in After(FOUR, 4, xs)
    requires v.validator == 1 || (v.validator in {0, 2, 3} && v.validator in After(FOUR, 4, xs) && v in After(FOUR, 4, xs)[v.validator].sent)
    ensures Execution(FOUR, 4, ys, false)
    ensures var s := After(FOUR, 4, xs);
            After(FOUR, 4, ys) == s[a := HandleVote(Cfg(a), s[a], v, Refused).n]
  {
    Members4();
    Extend(xs, Action(a, Hears(v)));
    ys := xs + [Action(a, Hears(v))];
  }

  /** Node 0 hears the polka: it locks and precommits. */
  lemma NodeZeroPrecommits() returns (xs: seq<Action>)
    ensures Execution(FOUR, 4, xs, false)
    ensures var s := After(FOUR, 4, xs);
            && s.Keys == {0, 2, 3} && s[3] == FreshNode(4)
            && s[0].sent == [Pv(FIRST, 0), Pc(FIRST, 0)]
            && s[0].rs.height == 4 && s[0].rs.lockedBlock == Some(FIRST)
            && Is(s[2], 0, Some(FIRST), FIRST, {2}, None, [Pv(FIRST, 2)]) && s[2].rs.prevoted && !s[2].rs.precommitted
  {
    hide HandleVote, After, Execution;
    xs := Opening();
    var s := After(FOUR, 4, xs);
    assert Pv(FIRST, 2) in s[2].sent;
    Counts(0, s[0], 0, Some(FIRST), FIRST, {0}, [Pv(FIRST, 0)], 1);
    xs := Tell(xs, 0, Pv(FIRST, 1));
    Completes(0, After(FOUR, 4, xs)[0], 0, Some(FIRST), FIRST, {0} + {1}, [Pv(FIRST, 0)], 2) by { assert {0} + {1} + {2} == {0, 1, 2}; }
    xs := Tell(xs, 0, Pv(FIRST, 2));
    assert After(FOUR, 4, xs)[0].sent == [Pv(FIRST, 0)] + [Pc(FIRST, 0)];
  }

  /** Node 2 hears it as well: now two nodes of four are locked. */
  lemma TwoLocked() returns (xs: seq<Action>)
    ensures Execution(FOUR, 4, xs, false)
    ensures var s := After(FOUR, 4, xs);
            && s.Keys == {0, 2, 3}
            && s[0].rs.height == 4 && s[0].rs.lockedBlock == Some(FIRST)
            && s[2].rs.height == 4 && s[2].rs.lockedBlock == Some(FIRST)
  {
    hide HandleVote, After, Execution;
    xs := NodeZeroPrecommits();
    var s := After(FOUR, 4, xs);
    assert Pv(FIRST, 0) in s[0].sent;
    Counts(2, s[2], 0, Some(FIRST), FIRST, {2}, [Pv(FIRST, 2)], 1);
    xs := Tell(xs, 2, Pv(FIRST, 1));
    assert After(FOUR, 4, xs)[0] == s[0];
    Completes(2, After(FOUR, 4, xs)[2], 0, Some(FIRST), FIRST, {2} + {1}, [Pv(FIRST, 2)], 0) by { assert {2} + {1} + {0} == {0, 1, 2}; }
    xs := Tell(xs, 2, Pv(FIRST, 0));
  }

  /** Node 3 hears the same polka without the proposal: it precommits and stays unlocked. */
  lemma NodeThreePrecommits() returns (xs: seq<Action>)
    ensures Execution(FOUR, 4, xs, false)
    ensures var s := After(FOUR, 4, xs);
            && s.Keys == {0, 2, 3}
            && s[0].sent == [Pv(FIRST, 0), Pc(FIRST, 0)]
            && Is(s[2], 0, Some(FIRST), FIRST, {2}, None, [Pv(FIRST, 2)]) && s[2].rs.prevoted
            && s[3].rs.height == 4 && s[3].rs.round == 0 && s[3].rs.lockedBlock.None? && s[3].rs.proposal.None?
            && Tally(s[3].rs.prevotes, NilHash) == {} && s[3].sent == [Pc(FIRST, 3)]
            && forall v <- s[3].rs.votes :: v.step == Prevote ==> v.validator != 3
  {
    hide HandleVote, After, Execution;
    FreshIs(FIRST);
    xs := NodeZeroPrecommits();
    var s := After(FOUR, 4, xs);
    Counts(3, s[3], 0, None, FIRST, {}, [], 0);
    xs := Tell(xs, 3, Pv(FIRST, 0));
    Counts(3, After(FOUR, 4, xs)[3], 0, None, FIRST, {} + {0}, [], 1);
    xs := Tell(xs, 3, Pv(FIRST, 1));
    assert {} + {0} + {1} + {2} == {0, 1, 2};
    assert After(FOUR, 4, xs)[2] == s[2];
    Completes(3, After(FOUR, 4, xs)[3], 0, None, FIRST, {} + {0} + {1}, [], 2);
    xs := Tell(xs, 3, Pv(FIRST, 2));
    assert [] + [Pc(FIRST, 3)] == [Pc(FIRST, 3)];
  }

  /** Nodes 2 and 3, both unlocked, time out and take the next proposal. */
  lemma NextRound() returns (xs: seq<Action>, sent2: seq<Vote>, sent3: seq<Vote>)
    ensures Execution(FOUR, 4, xs, false) && Pc(FIRST, 3) in sent3
    ensures var s := After(FOUR, 4, xs);
            && s.Keys == {0, 2, 3}
            && s[0].sent == [Pv(FIRST, 0), Pc(FIRST, 0)]
            && Is(s[2], 1, Some(SECOND), SECOND, {2}, None, sent2 + [Pv(SECOND, 2)]) && !s[2].rs.precommitted
            && Is(s[3], 1, Some(SECOND), SECOND, {3}, None, sent3 + [Pv(SECOND, 3)]) && !s[3].rs.precommitted
  {
    hide Apply, Execution;
    Members4();
    xs := NodeThreePrecommits();
    var s := After(FOUR, 4, xs);
    MovesOn(2, s[2], SECOND);
    MovesOn(3, s[3], SECOND);
    var n2, n3 := Apply(Cfg(2), s[2], TimedOut(Refused)), Apply(Cfg(3), s[3], TimedOut(Refused));
    sent2, sent3 := n2.sent, n3.sent;
    assert s[3].sent[0] == sent3[0];
    Accepts(2, n2, 1, SECOND, sent2);
    Accepts(3, n3, 1, SECOND, sent3);
    xs := NextRoundActions(xs);
  }

  lemma NextRoundActions(xs: seq<Action>) returns (ys: seq<Action>)
    requires Execution(FOUR, 4, xs, false) && After(FOUR, 4, xs).Keys == {0, 2, 3}
    ensures Execution(FOUR, 4, ys, false)
    ensures var s := After(FOUR, 4, xs);
            After(FOUR, 4, ys) == s[2 := Apply(Cfg(2), Apply(Cfg(2), s[2], TimedOut(Refused)), Sees(SECOND))]
                                   [3 := Apply(Cfg(3), Apply(Cfg(3), s[3], TimedOut(Refused)), Sees(SECOND))]
  {
    hide Apply, Execution;
    Members4();
    ys := xs;
    Extend(ys, Action(2, TimedOut(Refused)));
    ys := ys + [Action(2, TimedOut(Refused))];
    Extend(ys, Action(2, Sees(SECOND)));
    ys := ys + [Action(2, Sees(SECOND))];
    Extend(ys, Action(3, TimedOut(Refused)));
    ys := ys + [Action(3, TimedOut(Refused))];
    Extend(ys, Action(3, Sees(SECOND)));
    ys := ys + [Action(3, Sees(SECOND))];
  }

  /** Round 1: nodes 2 and 3 precommit the second block. */
  lemma RoundOne() returns (xs: seq<Action>)
    ensures Execution(FOUR, 4, xs, false)
    ensures var s := After(FOUR, 4, xs);
            && s.Keys == {0, 2, 3} && Pc(FIRST, 0) in s[0].sent && Pc(FIRST, 3) in s[3].sent
            && Pc(SECOND, 2) in s[2].sent && Pc(SECOND, 3) in s[3].sent
  {
    hide HandleVote, After, Execution;
    var sent2, sent3;
    xs, sent2, sent3 := NextRound();
    var s := After(FOUR, 4, xs);
    assert s[0].sent[1] == Pc(FIRST, 0);
    assert Pv(SECOND, 2) in s[2].sent && Pv(SECOND, 3) in s[3].sent;
    Counts(2, s[2], 1, Some(SECOND), SECOND, {2}, sent2 + [Pv(SECOND, 2)], 1);
    xs := Tell(xs, 2, Pv(SECOND, 1));
    assert {2} + {1} + {3} == {1, 2, 3} && {3} + {1} + {2} == {1, 2, 3};
    Completes(2, After(FOUR, 4, xs)[2], 1, Some(SECOND), SECOND, {2} + {1}, sent2 + [Pv(SECOND, 2)], 3);
    xs := Tell(xs, 2, Pv(SECOND, 3));
    assert After(FOUR, 4, xs)[3] == s[3];
    Counts(3, s[3], 1, Some(SECOND), SECOND, {3}, sent3 + [Pv(SECOND, 3)], 1);
    xs := Tell(xs, 3, Pv(SECOND, 1));
    Completes(3, After(FOUR, 4, xs)[3], 1, Some(SECOND), SECOND, {3} + {1}, sent3 + [Pv(SECOND, 3)], 2);
    xs := Tell(xs, 3, Pv(SECOND, 2));
  }

  /** A run without the hypothesis, one faulty validator of four, in which two blocks of one height are certified. */
  lemma TwoCertificates() returns (xs: seq<Action>, cert0: Certificate, cert1: Certificate)
    ensures BelowThird(FOUR) && Execution(FOUR, 4, xs, false)
    ensures Certified(FOUR, After(FOUR, 4, xs), FIRST, cert0)
    ensures Certified(FOUR, After(FOUR, 4, xs), SECOND, cert1)
    ensures FIRST.height == SECOND.height && FIRST != SECOND
  {
    hide After, Execution;
    Members4();
    xs := RoundOne();
    cert0 := Certificate(BlockHash(FIRST), 4, 0, [Pc(FIRST, 0), Pc(FIRST, 1), Pc(FIRST, 3)]);
    cert1 := Certificate(BlockHash(SECOND), 4, 1, [Pc(SECOND, 1), Pc(SECOND, 2), Pc(SECOND, 3)]);
    assert cert0.votes[0] in cert0.votes && cert0.votes[1] in cert0.votes && cert0.votes[2] in cert0.votes;
    assert cert1.votes[0] in cert1.votes && cert1.votes[1] in cert1.votes && cert1.votes[2] in cert1.votes;
    assert Voters(cert0.votes) == {0, 1, 3};
    assert Voters(cert1.votes) == {1, 2, 3};
  }
}
