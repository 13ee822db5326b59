/** Evidence: every equivocation a node sees is reported once, nobody is reported who did not equivocate, and no honest
    validator is ever reported for its votes. */
module Equivocation {
  import opened Common
  import opened ConsensusTypes
  import opened RoundMachine
  import opened Discipline
  import opened Agreement
  import opened Halting
  import Progress
  import Restart

  type Key = (Address, nat, nat)

  function KeyOf(ev: Evidence): Key {
    (ev.validator, ev.height, ev.round)
  }

  // ------------------------------------------------------------------
  // Completeness
  // ------------------------------------------------------------------

  /** Another vote of the same voter, slot and step is recorded for another hash. */
  predicate Contradicts(rs: RoundState, v: Vote) {
    && v.height == rs.height && v.round == rs.round
    && exists w <- rs.votes :: w.validator == v.validator && w.step == v.step && w.height == v.height && w.round == v.round
                               && w.hash != v.hash
  }

  /** A report under a key that was not used before. */
  function WithReport(rs: RoundState, ev: Evidence): RoundState {
    if KeyOf(ev) in rs.processed then rs
    else rs.(processed := rs.processed + {KeyOf(ev)}, evidence := rs.evidence + [ev])
  }

  predicate Still(n: Node, m: Node) {
    m.rs.evidence == n.rs.evidence && m.rs.processed == n.rs.processed
  }

  lemma AfterCountStill(c: Config, n: Node, v: Vote)
    ensures Still(n, AfterCount(c, n, v).n)
  {}

  lemma RecordConflictIs(n: Node, v: Vote)
    ensures var m := RecordConflict(n, v);
            m.rs == WithReport(n.rs, Evidence(v.validator, v.height, v.round, DuplicateVote)) && m.sent == n.sent
  {}

  lemma RecordIs(c: Config, n: Node, v: Vote)
    ensures var r := RecordVote(c, n, v);
            if Contradicts(n.rs, v)
            then r.n.rs == WithReport(n.rs, Evidence(v.validator, v.height, v.round, DuplicateVote))
                 && r.n.sent == n.sent && r.precommit.None? && r.finalize.None?
            else Still(n, r.n)
  {
    RecordConflictIs(n, v);
    AfterCountStill(c, n.(rs := CountVote(n.rs, v), writes := n.writes + [Log(VoteRecorded(v))]), v);
    assert Contradicts(n.rs, v) <==> v.height == n.rs.height && v.round == n.rs.round && Conflicts(n.rs.votes, v);
    hide Contradicts, Conflicts, AfterCount, RecordConflict, WithReport;
  }

  /** A vote that contradicts a recorded one is reported with its voter, height and round, unless they were before, and
      does nothing else; any other vote reports nothing. */
  lemma VoteReports(c: Config, n: Node, v: Vote, commit: Commit)
    ensures Contradicts(n.rs, v) ==>
              var o := HandleVote(c, n, v, commit);
              o.ok && o.n.rs == WithReport(n.rs, Evidence(v.validator, v.height, v.round, DuplicateVote)) && o.n.sent == n.sent
    ensures !Contradicts(n.rs, v) ==> Still(n, RecordVote(c, n, v).n)
  {
    hide Contradicts, RecordVote, EmitPrecommit, Finalize, WithReport;
    RecordIs(c, n, v);
  }

  /** A second proposal of the round's proposer for the round is reported if its block differs from the one held, unless
      that proposer and round were before, and does nothing else. */
  lemma ProposalReports(c: Config, n: Node, p: Proposal, commit: Commit)
    requires p.height == n.rs.height && p.round == n.rs.round && n.rs.proposal.Some?
    requires c.validators != [] && p.validator == c.validators[(p.height + p.round) % |c.validators|]
    requires p.block.proposer == p.validator && p.block.height == p.height && p.block.round == p.round
    ensures var o := OnProposal(c, n, p, true, commit);
            && o.ok && o.n.sent == n.sent
            && o.n.rs == if p.block == n.rs.proposal.value then n.rs
                         else WithReport(n.rs, Evidence(p.validator, p.height, p.round, ConflictingProposal))
  {
    hide PrevoteAndHandle;
  }

  predicate Reported(n: Node, key: Key) {
    exists ev <- n.rs.evidence :: KeyOf(ev) == key
  }

  /** What an event does to the evidence: it adds reports under new keys, or a commit settles it. */
  predicate Reports(n: Node, m: Node) {
    && n.rs.processed <= m.rs.processed
    && (n.rs.evidence <= m.rs.evidence || (m.rs.evidence == [] && m.rs.processed == n.rs.processed))
    && (forall key <- m.rs.processed :: key in n.rs.processed || Reported(m, key))
    && (forall i :: |n.rs.evidence| <= i < |m.rs.evidence| ==> KeyOf(m.rs.evidence[i]) in m.rs.processed - n.rs.processed)
    && |m.rs.evidence| <= |n.rs.evidence| + 1
  }

  lemma StillThenReports(a: Node, b: Node, d: Node)
    requires (Still(a, b) && Reports(b, d)) || (Reports(a, b) && Still(b, d))
    ensures Reports(a, d)
  {
    if Reports(a, b) && Still(b, d) {
      forall key | key in d.rs.processed && key !in a.rs.processed ensures Reported(d, key) {
        assert Reported(b, key);
      }
    }
  }

  lemma StillReports(n: Node, m: Node)
    requires Still(n, m)
    ensures Reports(n, m)
  {}

  lemma AddsReport(n: Node, m: Node, ev: Evidence)
    requires m.rs == WithReport(n.rs, ev)
    ensures Reports(n, m)
  {
    if !Still(n, m) {
      assert m.rs.evidence[|n.rs.evidence|] == ev && ev in m.rs.evidence;
    }
  }

  lemma RecordReports(c: Config, n: Node, v: Vote)
    ensures var r := RecordVote(c, n, v);
            && Reports(n, r.n)
            && (r.precommit.Some? || r.finalize.Some? ==> Still(n, r.n))
  {
    hide Contradicts, RecordVote, WithReport, Reports;
    RecordIs(c, n, v);
    if Contradicts(n.rs, v) {
      AddsReport(n, RecordVote(c, n, v).n, Evidence(v.validator, v.height, v.round, DuplicateVote));
    } else {
      StillReports(n, RecordVote(c, n, v).n);
    }
  }

  lemma FinalizeReports(c: Config, n: Node, hash: Hash, commit: Commit)
    ensures Reports(n, Finalize(c, n, hash, commit).n)
  {
    hide ValidCertificate;
  }

  lemma HandleVoteReports(c: Config, n: Node, v: Vote, commit: Commit)
    ensures Reports(n, HandleVote(c, n, v, commit).n)
  {
    hide RecordVote, Finalize, Reports;
    RecordReports(c, n, v);
    var r := RecordVote(c, n, v);
    if r.precommit.Some? {
      var (n1, own) := EmitPrecommit(c, r.n, r.precommit.value);
      assert Still(n, n1);
      StillReports(n, n1);
      if own.Some? {
        RecordReports(c, n1, own.value);
        var r1 := RecordVote(c, n1, own.value);
        StillThenReports(n, n1, r1.n);
        if r1.finalize.Some? {
          FinalizeReports(c, r1.n, r1.finalize.value, commit);
          StillThenReports(n, r1.n, Finalize(c, r1.n, r1.finalize.value, commit).n);
        }
      }
    } else if r.finalize.Some? {
      FinalizeReports(c, r.n, r.finalize.value, commit);
      StillThenReports(n, r.n, Finalize(c, r.n, r.finalize.value, commit).n);
    }
  }

  lemma PrevoteReports(c: Config, n: Node, m: Node, commit: Commit)
    requires Still(n, m)
    ensures Reports(n, PrevoteAndHandle(c, m, commit).n)
  {
    hide HandleVote, Reports;
    var (n1, own) := EmitPrevote(c, m);
    StillReports(n, n1);
    if own.Some? {
      HandleVoteReports(c, n1, own.value, commit);
      StillThenReports(n, n1, HandleVote(c, n1, own.value, commit).n);
    }
  }

  lemma EventReports(c: Config, n: Node, e: Event)
    ensures Reports(n, Apply(c, n, e))
  {
    hide PrevoteAndHandle, HandleVote, ValidCertificate;
    StillReports(n, n);
    match e
    case Propose(payload, commit) =>
      if c.me.Some? {
        var h, r := n.rs.height, n.rs.round;
        var b := Block(h, r, c.me.value, payload);
        var logged := [Log(ProposalAccepted(h, r, BlockHash(b))), Log(ProposalBroadcast(h, r, BlockHash(b)))];
        PrevoteReports(c, n, TakeProposal(n, b, logged), commit);
      }
    case ReceiveProposal(p, verified, commit) =>
      PrevoteReports(c, n, TakeProposal(n, p.block, [Log(ProposalAccepted(p.height, p.round, BlockHash(p.block)))]), commit);
      ProposalKeeps(c, n, p, verified, commit);
    case ReceiveVote(v, commit) =>
      HandleVoteReports(c, n, v, commit);
    case Import(b, cert, commit) =>
      StillReports(n, Apply(c, n, e));
    case TimedOut(commit) =>
      PrevoteReports(c, n, n, commit);
      var m := PrevoteAndHandle(c, n, commit).n;
      StillThenReports(n, m, AdvanceRound(m));
  }

  lemma ProposalKeeps(c: Config, n: Node, p: Proposal, verified: bool, commit: Commit)
    ensures n.rs.proposal.Some? ==> Reports(n, OnProposal(c, n, p, verified, commit).n)
  {
    hide PrevoteAndHandle;
    if n.rs.proposal.Some? {
      var m := OnProposal(c, n, p, verified, commit).n;
      if !Still(n, m) {
        assert m.rs.evidence[|n.rs.evidence|] in m.rs.evidence;
      }
    }
  }

  /** Along any run, whoever is marked as processed was reported at some point. */
  lemma {:induction false} ProcessedWasReported(c: Config, h: nat, es: seq<Event>, key: Key) returns (k: nat)
    requires key in Run(c, FreshNode(h), es).rs.processed
    ensures k <= |es| && Reported(Run(c, FreshNode(h), es[..k]), key)
  {
    hide Apply, Reported;
    if es == [] {
      assert false;
    } else {
      var front := es[..|es| - 1];
      EventReports(c, Run(c, FreshNode(h), front), es[|es| - 1]);
      if key in Run(c, FreshNode(h), front).rs.processed {
        k := ProcessedWasReported(c, h, front, key);
        assert front[..k] == es[..k];
      } else {
        k := |es|;
        assert es[..k] == es;
      }
    }
  }

  /** No two pending reports have the same validator, height and round, and all of them are marked as processed. */
  predicate OneReportEach(n: Node) {
    && (forall ev <- n.rs.evidence :: KeyOf(ev) in n.rs.processed)
    && forall i, j :: 0 <= i < j < |n.rs.evidence| ==> KeyOf(n.rs.evidence[i]) != KeyOf(n.rs.evidence[j])
  }

  lemma {:induction false} RunReportsOnce(c: Config, h: nat, es: seq<Event>)
    ensures OneReportEach(Run(c, FreshNode(h), es))
  {
    hide Apply;
    if es != [] {
      var n := Run(c, FreshNode(h), es[..|es| - 1]);
      RunReportsOnce(c, h, es[..|es| - 1]);
      EventReports(c, n, es[|es| - 1]);
      StepReportsOnce(n, Apply(c, n, es[|es| - 1]));
    }
  }

  lemma StepReportsOnce(n: Node, m: Node)
    requires OneReportEach(n) && Reports(n, m)
    ensures OneReportEach(m)
  {
    forall ev | ev in m.rs.evidence ensures KeyOf(ev) in m.rs.processed {
      var i :| 0 <= i < |m.rs.evidence| && m.rs.evidence[i] == ev;
      if i < |n.rs.evidence| {
        assert n.rs.evidence[i] in n.rs.evidence;
      }
    }
    forall i, j | 0 <= i < j < |m.rs.evidence| ensures KeyOf(m.rs.evidence[i]) != KeyOf(m.rs.evidence[j]) {
      assert i < |n.rs.evidence| && m.rs.evidence[i] == n.rs.evidence[i] && n.rs.evidence[i] in n.rs.evidence;
    }
  }

  // ------------------------------------------------------------------
  // Soundness
  // ------------------------------------------------------------------

  predicate TwoVotes(v: Vote, w: Vote, ev: Evidence) {
    && v.validator == w.validator == ev.validator && v.height == w.height == ev.height && v.round == w.round == ev.round
    && v.step == w.step && v.hash != w.hash
  }

  predicate TwoBlocks(a: Block, b: Block, ev: Evidence) {
    a != b && a.proposer == b.proposer == ev.validator && a.height == b.height == ev.height && a.round == b.round == ev.round
  }

  /** The report is borne out by votes in `g`, or by blocks in `shown`. */
  ghost predicate Proven(ev: Evidence, g: iset<Vote>, shown: iset<Block>) {
    match ev.reason
    case DuplicateVote => exists v, w :: v in g && w in g && TwoVotes(v, w, ev)
    case ConflictingProposal => exists a, b :: a in shown && b in shown && TwoBlocks(a, b, ev)
  }

  ghost predicate AllProven(n: Node, g: iset<Vote>, shown: iset<Block>) {
    forall ev <- n.rs.evidence :: Proven(ev, g, shown)
  }

  /** What is recorded was seen, the held proposal is a shown block of the round's proposer, and every report is proven. */
  ghost predicate Grounded(c: Config, n: Node, g: iset<Vote>, shown: iset<Block>) {
    && Within(n.rs.votes, g)
    && (n.rs.proposal.Some? ==>
          var b := n.rs.proposal.value;
          && b in shown && b.height == n.rs.height && b.round == n.rs.round
          && c.validators != [] && b.proposer == ProposerFor(c, b.height, b.round))
    && AllProven(n, g, shown)
  }

  lemma GroundedGrows(c: Config, n: Node, g: iset<Vote>, g': iset<Vote>, shown: iset<Block>, shown': iset<Block>)
    requires Grounded(c, n, g, shown) && g <= g' && shown <= shown'
    ensures Grounded(c, n, g', shown')
  {
    forall ev <- n.rs.evidence ensures Proven(ev, g', shown') {
      assert Proven(ev, g, shown);
    }
  }

  lemma RecordGrounded(c: Config, n: Node, v: Vote, g: iset<Vote>, shown: iset<Block>)
    requires Grounded(c, n, g, shown) && v in g
    ensures Grounded(c, RecordVote(c, n, v).n, g, shown)
  {
    RecordVoteFrame(c, n, v);
    RecordVoteVotes(c, n, v);
    RecordIs(c, n, v);
    hide RecordVote;
    if Contradicts(n.rs, v) {
      var w :| w in n.rs.votes && w.validator == v.validator && w.step == v.step && w.height == v.height && w.round == v.round
               && w.hash != v.hash;
      assert TwoVotes(v, w, Evidence(v.validator, v.height, v.round, DuplicateVote));
      assert Proven(Evidence(v.validator, v.height, v.round, DuplicateVote), g, shown);
    }
    hide Proven, Contradicts;
  }

  lemma ImportGrounded(c: Config, n: Node, b: Block, cert: Certificate, commit: Commit, g: iset<Vote>, shown: iset<Block>)
    requires Grounded(c, n, g, shown)
    ensures Grounded(c, ImportFinalized(c, n, b, cert, commit).n, g, shown)
  {
    hide Proven, ValidCertificate;
  }

  lemma FinalizeGrounded(c: Config, n: Node, hash: Hash, commit: Commit, g: iset<Vote>, shown: iset<Block>)
    requires Grounded(c, n, g, shown)
    ensures Grounded(c, Finalize(c, n, hash, commit).n, g, shown)
  {
    hide Proven, ValidCertificate;
  }

  lemma HandleVoteGrounded(c: Config, n: Node, v: Vote, commit: Commit, g: iset<Vote>, shown: iset<Block>)
    requires Grounded(c, n, g, shown) && v in g && Within(HandleVote(c, n, v, commit).n.sent, g)
    ensures Grounded(c, HandleVote(c, n, v, commit).n, g, shown)
  {
    hide RecordVote, Finalize, Proven, Within;
    RecordGrounded(c, n, v, g, shown);
    var r := RecordVote(c, n, v);
    if r.precommit.Some? {
      var (n1, own) := EmitPrecommit(c, r.n, r.precommit.value);
      assert Grounded(c, n1, g, shown);
      if own.Some? {
        OwnPrecommitSent(c, g, n, v, commit);
        RecordGrounded(c, n1, own.value, g, shown);
        var r1 := RecordVote(c, n1, own.value);
        if r1.finalize.Some? {
          FinalizeGrounded(c, r1.n, r1.finalize.value, commit, g, shown);
        }
      }
    } else if r.finalize.Some? {
      FinalizeGrounded(c, r.n, r.finalize.value, commit, g, shown);
    }
  }

  lemma SentStays(c: Config, n: Node, v: Vote, commit: Commit)
    ensures n.sent <= HandleVote(c, n, v, commit).n.sent
  {
    hide RecordVote, ValidCertificate;
    RecordVoteFrame(c, n, v);
    var r := RecordVote(c, n, v);
    if r.precommit.Some? {
      var (n1, own) := EmitPrecommit(c, r.n, r.precommit.value);
      if own.Some? {
        RecordVoteFrame(c, n1, own.value);
      }
    }
  }

  lemma PrevoteGrounded(c: Config, n: Node, commit: Commit, g: iset<Vote>, shown: iset<Block>)
    requires Grounded(c, n, g, shown) && Within(PrevoteAndHandle(c, n, commit).n.sent, g)
    ensures Grounded(c, PrevoteAndHandle(c, n, commit).n, g, shown)
  {
    hide HandleVote, Proven, PrevoteHash;
    var (n1, own) := EmitPrevote(c, n);
    if own.Some? {
      SentStays(c, n1, own.value, commit);
      assert own.value in n1.sent;
      HandleVoteGrounded(c, n1, own.value, commit, g, shown);
    }
  }

  /** A second block for the held proposal's round comes from the same proposer. */
  lemma ProposalGrounded(c: Config, n: Node, p: Proposal, verified: bool, commit: Commit, g: iset<Vote>, shown: iset<Block>)
    requires Grounded(c, n, g, shown) && (verified ==> p.block in shown)
    requires Within(OnProposal(c, n, p, verified, commit).n.sent, g)
    ensures Grounded(c, OnProposal(c, n, p, verified, commit).n, g, shown)
  {
    hide PrevoteAndHandle, Within;
    if ValidProposal(c, p, verified) && p.height == n.rs.height && p.round == n.rs.round {
      if n.rs.proposal.None? {
        PrevoteGrounded(c, TakeProposal(n, p.block, [Log(ProposalAccepted(p.height, p.round, BlockHash(p.block)))]), commit, g, shown);
      } else if n.rs.proposal.value != p.block {
        var ev := Evidence(p.validator, p.height, p.round, ConflictingProposal);
        assert TwoBlocks(n.rs.proposal.value, p.block, ev);
        assert Proven(ev, g, shown);
        hide Proven;
      }
    }
  }

  lemma RoundGrounded(c: Config, n: Node, g: iset<Vote>, shown: iset<Block>)
    requires Grounded(c, n, g, shown)
    ensures Grounded(c, AdvanceRound(n), g, shown)
  {
    hide Proven;
  }

  /** The blocks a node has broadcast as proposals. */
  ghost function Proposed(ws: seq<Write>): iset<Block> {
    iset w | w in ws && w.Log? && w.entry.ProposalBroadcast? && w.entry.hash.BlockHash? :: w.entry.hash.block
  }

  lemma EventGrounded(c: Config, n: Node, e: Event, g: iset<Vote>, shown: iset<Block>)
    requires Grounded(c, n, g, shown) && Within(Apply(c, n, e).sent, g) && Proposed(Apply(c, n, e).writes) <= shown
    requires (e.ReceiveVote? ==> e.vote in g) && (e.ReceiveProposal? && e.verified ==> e.proposal.block in shown)
    ensures Grounded(c, Apply(c, n, e), g, shown)
  {
    hide PrevoteAndHandle, HandleVote, Proven, ValidCertificate, OnProposal, Within;
    match e
    case Propose(payload, commit) =>
      var h, r := n.rs.height, n.rs.round;
      if c.me.Some? && c.validators != [] && c.me.value == ProposerFor(c, h, r) && n.rs.proposal.None? {
        var b := Block(h, r, c.me.value, payload);
        var logged := [Log(ProposalAccepted(h, r, BlockHash(b))), Log(ProposalBroadcast(h, r, BlockHash(b)))];
        var m := TakeProposal(n, b, logged);
        Progress.WritesGrow(c, m, commit);
        assert logged[1] in m.writes && m.writes <= Apply(c, n, e).writes;
        assert b in Proposed(Apply(c, n, e).writes);
        PrevoteGrounded(c, m, commit, g, shown);
      }
    case ReceiveProposal(p, verified, commit) =>
      ProposalGrounded(c, n, p, verified, commit, g, shown);
    case ReceiveVote(v, commit) =>
      HandleVoteGrounded(c, n, v, commit, g, shown);
    case Import(b, cert, commit) =>
      ImportGrounded(c, n, b, cert, commit, g, shown);
    case TimedOut(commit) =>
      PrevoteGrounded(c, n, commit, g, shown);
      RoundGrounded(c, PrevoteAndHandle(c, n, commit).n, g, shown);
  }

  /** The votes and the verified blocks a run of events hands to a node, and the votes it sent itself. */
  ghost function Handed(es: seq<Event>): iset<Vote> {
    iset e | e in es && e.ReceiveVote? :: e.vote
  }

  ghost function Shown(es: seq<Event>): iset<Block> {
    iset e | e in es && e.ReceiveProposal? && e.verified :: e.proposal.block
  }

  ghost function SentBy(n: Node): iset<Vote> {
    iset v | v in n.sent
  }

  lemma {:induction false} RunGrounded(c: Config, h: nat, es: seq<Event>)
    ensures var n := Run(c, FreshNode(h), es);
            Restart.Tidy(c, n) && Grounded(c, n, Handed(es) + SentBy(n), Shown(es) + Proposed(n.writes))
  {
    hide Apply, Restart.Tidy, AllProven;
    if es == [] {
      Restart.StartTidy(c, EmptyDisk(h));
      FreshGrounded(c, h, Handed(es) + SentBy(FreshNode(h)), Shown(es) + Proposed(FreshNode(h).writes));
    } else {
      var front, e := es[..|es| - 1], es[|es| - 1];
      RunGrounded(c, h, front);
      assert es == front + [e];
      var n := Run(c, FreshNode(h), front);
      var m := Apply(c, n, e);
      Restart.EventLater(c, n, e);
      assert n.sent <= m.sent && n.writes <= m.writes;
      var g, shown := Handed(es) + SentBy(m), Shown(es) + Proposed(m.writes);
      assert Handed(front) + SentBy(n) <= g && Shown(front) + Proposed(n.writes) <= shown;
      GroundedGrows(c, n, Handed(front) + SentBy(n), g, Shown(front) + Proposed(n.writes), shown);
      hide Grounded;
      EventGrounded(c, n, e, g, shown);
    }
  }

  lemma FreshGrounded(c: Config, h: nat, g: iset<Vote>, shown: iset<Block>)
    ensures Grounded(c, FreshNode(h), g, shown)
  {}

  /** Soundness over every run: a pending report names a validator that cast two votes for different hashes in one slot,
      both handed to the node or its own, or proposed two blocks for one round, both handed to it or its own. */
  lemma EvidenceSound(c: Config, h: nat, es: seq<Event>, ev: Evidence)
    requires ev in Run(c, FreshNode(h), es).rs.evidence
    ensures var n := Run(c, FreshNode(h), es); Proven(ev, Handed(es) + SentBy(n), Shown(es) + Proposed(n.writes))
  {
    RunGrounded(c, h, es);
    hide Run, Proven;
  }

  // ------------------------------------------------------------------
  // Honest validators
  // ------------------------------------------------------------------

  ghost const ANY := iset b: Block | true

  ghost predicate AllGrounded(k: Committee, s: System) {
    forall a <- s :: Grounded(ConfigOf(k, a), s[a], GenuineVotes(k, s), ANY)
  }

  lemma {:induction false} ExecutionGrounded(k: Committee, h: nat, xs: seq<Action>, held: bool)
    requires |Everyone(k)| == |k.validators| && Execution(k, h, xs, held)
    ensures AllGrounded(k, After(k, h, xs))
  {
    hide Possible, Held, Grounded, Orderly, Apply;
    if xs == [] {
      forall a <- Genesis(k, h) ensures Grounded(ConfigOf(k, a), Genesis(k, h)[a], GenuineVotes(k, Genesis(k, h)), ANY) {
        FreshGrounded(ConfigOf(k, a), h, GenuineVotes(k, Genesis(k, h)), ANY);
      }
    } else {
      var s, x := After(k, h, xs[..|xs| - 1]), xs[|xs| - 1];
      ExecutionGrounded(k, h, xs[..|xs| - 1], held);
      ExecutionOrderly(k, h, xs[..|xs| - 1], held);
      ActGrounded(k, s, x);
    }
  }

  lemma ActGrounded(k: Committee, s: System, x: Action)
    requires Orderly(k, s) && AllGrounded(k, s) && Possible(k, s, x)
    ensures AllGrounded(k, Act(k, s, x))
  {
    hide Disciplined, Anchored, Hushed, Apply, Grounded;
    ActOrderly(k, s, x);
    var s', c := Act(k, s, x), ConfigOf(k, x.node);
    assert s[x.node].sent <= s'[x.node].sent by { HushedSends(s[x.node], s'[x.node]); }
    var g, g' := GenuineVotes(k, s), GenuineVotes(k, s');
    forall v | v in g ensures v in g' {
      assert Genuine(k, s, v);
    }
    SentIsGenuine(k, s', x.node);
    forall a <- s' ensures Grounded(ConfigOf(k, a), s'[a], g', ANY) {
      GroundedGrows(ConfigOf(k, a), s[a], g, g', ANY, ANY);
      if a == x.node {
        EventGrounded(c, s[a], x.event, g', ANY);
      }
    }
  }

  lemma HushedSends(n: Node, m: Node)
    requires Hushed(n, m)
    ensures n.sent <= m.sent
  {}

  /** Over every run of every committee, no node reports an honest validator for its votes. */
  lemma HonestNeverReported(k: Committee, h: nat, xs: seq<Action>, held: bool, a: Address, ev: Evidence)
    requires |Everyone(k)| == |k.validators| && Execution(k, h, xs, held)
    requires a in After(k, h, xs) && ev in After(k, h, xs)[a].rs.evidence && ev.reason == DuplicateVote
    ensures ev.validator in k.byzantine
  {
    var s := After(k, h, xs);
    ExecutionGrounded(k, h, xs, held);
    ExecutionOrderly(k, h, xs, held);
    hide Execution, After;
    assert Proven(ev, GenuineVotes(k, s), ANY);
    var v, w :| v in GenuineVotes(k, s) && w in GenuineVotes(k, s) && TwoVotes(v, w, ev);
    if ev.validator !in k.byzantine {
      var x := ev.validator;
      assert Genuine(k, s, v) && Genuine(k, s, w) && Disciplined(ConfigOf(k, x), s[x]);
      OneHashASlot(ConfigOf(k, x), s[x], v, w);
    }
  }

  lemma OneHashASlot(c: Config, n: Node, v: Vote, w: Vote)
    requires Disciplined(c, n) && v in n.sent && w in n.sent && SameSlot(v, w)
    ensures v == w
  {
    var i :| 0 <= i < |n.sent| && n.sent[i] == v;
    var j :| 0 <= j < |n.sent| && n.sent[j] == w;
    assert SameSlot(n.sent[i], n.sent[j]) && SameSlot(n.sent[j], n.sent[i]);
  }
}
