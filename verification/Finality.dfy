/** From votes to ledgers: what honest nodes finalize is one chain, and one chain is one ledger. */
module Finality {
  import opened Common
  import opened ConsensusTypes
  import opened RoundMachine
  import opened Discipline
  import opened Agreement
  import Blocks = Execution
  import Replication

  // ------------------------------------------------------------------
  // Logged commits have certificates
  // ------------------------------------------------------------------

  /** Some certificate of votes in `g` stands behind a logged commit. */
  ghost predicate Backed(c: Config, g: iset<Vote>, e: Entry) {
    exists b: Block, cert: Certificate ::
      ValidCertificate(c, b, cert) && Within(cert.votes, g) && e == CommitFinalized(b.height, b.round, BlockHash(b))
  }

  ghost predicate CommitsBacked(c: Config, g: iset<Vote>, ws: seq<Write>) {
    forall w <- ws :: w.Log? && w.entry.CommitFinalized? ==> Backed(c, g, w.entry)
  }

  /** Recorded votes are genuine and logged commits certified. */
  ghost predicate Certain(c: Config, g: iset<Vote>, n: Node) {
    Within(n.rs.votes, g) && CommitsBacked(c, g, n.writes)
  }

  lemma CertainGrows(c: Config, g: iset<Vote>, g': iset<Vote>, n: Node)
    requires g <= g' && Certain(c, g, n)
    ensures Certain(c, g', n)
  {
    hide ValidCertificate;
    forall w <- n.writes | w.Log? && w.entry.CommitFinalized? ensures Backed(c, g', w.entry) {
      assert Backed(c, g, w.entry);
    }
  }

  lemma RecordCertain(c: Config, g: iset<Vote>, n: Node, v: Vote)
    requires Certain(c, g, n) && v in g
    ensures Certain(c, g, RecordVote(c, n, v).n)
  {
    RecordVoteVotes(c, n, v);
    var ws := RecordWrites(c, n, v);
    hide RecordVote, Backed;
  }

  lemma EmitCertain(c: Config, g: iset<Vote>, n: Node, hash: Hash)
    requires Certain(c, g, n)
    ensures Certain(c, g, EmitPrevote(c, n).0) && Certain(c, g, EmitPrecommit(c, n, hash).0)
  {
    hide Backed, PrevoteHash;
  }

  /** A node logs a commit only with a certificate of its own recorded votes that passes its own check. */
  lemma FinalizeCertain(c: Config, g: iset<Vote>, n: Node, hash: Hash, commit: Commit)
    requires Certain(c, g, n)
    ensures Certain(c, g, Finalize(c, n, hash, commit).n)
  {
    PrecommitsForIsFilter(n.rs.votes, hash);
    var cert := CertificateFor(n.rs, hash);
    assert Within(cert.votes, g);
    if n.rs.proposal.Some? && ValidCertificate(c, n.rs.proposal.value, cert) {
      assert cert.height == n.rs.proposal.value.height && cert.round == n.rs.proposal.value.round;
      assert Backed(c, g, CommitFinalized(n.rs.height, n.rs.round, hash));
    }
    hide Backed, ValidCertificate, PrecommitsFor;
  }

  lemma HandleVoteCertain(c: Config, g: iset<Vote>, n: Node, v: Vote, commit: Commit)
    requires Certain(c, g, n) && v in g && Within(HandleVote(c, n, v, commit).n.sent, g)
    ensures Certain(c, g, HandleVote(c, n, v, commit).n)
  {
    hide RecordVote, EmitPrecommit, Finalize, Certain;
    RecordCertain(c, g, n, v);
    var r := RecordVote(c, n, v);
    if r.precommit.Some? {
      EmitCertain(c, g, r.n, r.precommit.value);
      var (n1, own) := EmitPrecommit(c, r.n, r.precommit.value);
      if own.Some? {
        OwnPrecommitSent(c, g, n, v, commit);
        RecordCertain(c, g, n1, own.value);
        var r1 := RecordVote(c, n1, own.value);
        if r1.finalize.Some? {
          FinalizeCertain(c, g, r1.n, r1.finalize.value, commit);
        }
      }
    } else if r.finalize.Some? {
      FinalizeCertain(c, g, r.n, r.finalize.value, commit);
    }
  }

  /** A node's own prevote is among what it has sent when the vote is handled. */
  lemma SentStays(c: Config, n: Node, v: Vote, commit: Commit)
    ensures n.sent <= HandleVote(c, n, v, commit).n.sent
  {
    hide RecordVote, ValidCertificate;
    RecordVoteFrame(c, n, v);
    var r := RecordVote(c, n, v);
    if r.precommit.Some? {
      var (n1, own) := EmitPrecommit(c, r.n, r.precommit.value);
      if own.Some? {
        RecordVoteFrame(c, n1, own.value);
      }
    }
  }

  lemma PrevoteCertain(c: Config, g: iset<Vote>, n: Node, commit: Commit)
    requires Certain(c, g, n) && Within(PrevoteAndHandle(c, n, commit).n.sent, g)
    ensures Certain(c, g, PrevoteAndHandle(c, n, commit).n)
  {
    hide HandleVote, Certain, PrevoteHash;
    EmitCertain(c, g, n, NilHash);
    var (n1, own) := EmitPrevote(c, n);
    if own.Some? {
      SentStays(c, n1, own.value, commit);
      assert own.value in n1.sent;
      HandleVoteCertain(c, g, n1, own.value, commit);
    }
  }

  lemma ImportCertain(c: Config, g: iset<Vote>, n: Node, b: Block, cert: Certificate, commit: Commit)
    requires Certain(c, g, n) && Within(cert.votes, g)
    ensures Certain(c, g, ImportFinalized(c, n, b, cert, commit).n)
  {
    if ValidCertificate(c, b, cert) {
      assert cert.hash == BlockHash(b) && cert.height == b.height && cert.round == b.round;
      assert Backed(c, g, CommitFinalized(cert.height, cert.round, cert.hash));
    }
    hide Backed, ValidCertificate;
  }

  lemma EventCertain(c: Config, g: iset<Vote>, n: Node, e: Event)
    requires Certain(c, g, n) && Within(Apply(c, n, e).sent, g)
    requires (e.ReceiveVote? ==> e.vote in g) && (e.Import? ==> Within(e.certificate.votes, g))
    ensures Certain(c, g, Apply(c, n, e))
  {
    hide PrevoteAndHandle, HandleVote, ImportFinalized, Backed;
    match e
    case Propose(payload, commit) =>
      if c.me.Some? {
        var h, r := n.rs.height, n.rs.round;
        var b := Block(h, r, c.me.value, payload);
        TakeCertain(c, g, n, b, [Log(ProposalAccepted(h, r, BlockHash(b))), Log(ProposalBroadcast(h, r, BlockHash(b)))], commit);
      }
    case ReceiveProposal(p, verified, commit) =>
      TakeCertain(c, g, n, p.block, [Log(ProposalAccepted(p.height, p.round, BlockHash(p.block)))], commit);
    case ReceiveVote(v, commit) =>
      HandleVoteCertain(c, g, n, v, commit);
    case Import(b, cert, commit) =>
      ImportCertain(c, g, n, b, cert, commit);
    case TimedOut(commit) =>
      PrevoteCertain(c, g, n, commit);
  }

  lemma TakeCertain(c: Config, g: iset<Vote>, n: Node, b: Block, logged: seq<Write>, commit: Commit)
    requires Certain(c, g, n) && forall w <- logged :: !(w.Log? && w.entry.CommitFinalized?)
    ensures var m := PrevoteAndHandle(c, TakeProposal(n, b, logged), commit).n;
            Within(m.sent, g) ==> Certain(c, g, m)
  {
    hide PrevoteAndHandle, Backed;
    var m := TakeProposal(n, b, logged);
    assert Certain(c, g, m);
    if Within(PrevoteAndHandle(c, m, commit).n.sent, g) {
      PrevoteCertain(c, g, m, commit);
    }
  }

  // ------------------------------------------------------------------
  // The system
  // ------------------------------------------------------------------

  ghost predicate AllCertain(k: Committee, s: System) {
    forall a <- s :: Certain(ConfigOf(k, a), GenuineVotes(k, s), s[a])
  }

  lemma GenesisCertain(k: Committee, h: nat)
    ensures AllCertain(k, Genesis(k, h))
  {}

  lemma ActCertain(k: Committee, s: System, x: Action)
    requires BelowThird(k) && Safe(k, s) && AllCertain(k, s) && Possible(k, s, x) && Held(k, s, x)
    ensures AllCertain(k, Act(k, s, x))
  {
    var s' := Act(k, s, x);
    ActSafe(k, s, x);
    ActGrows(k, s, x);
    hide Certain, Apply, Disciplined, Committed;
    var g, g' := GenuineVotes(k, s), GenuineVotes(k, s');
    forall a <- s' ensures Certain(ConfigOf(k, a), g', s'[a]) {
      CertainGrows(ConfigOf(k, a), g, g', s[a]);
      if a == x.node {
        assert Disciplined(ConfigOf(k, a), s'[a]);
        SentIsGenuine(k, s', a);
        EventCertain(ConfigOf(k, a), g', s[a], x.event);
      }
    }
  }

  /** Genuine votes stay genuine. */
  lemma ActGrows(k: Committee, s: System, x: Action)
    requires BelowThird(k) && Safe(k, s) && Possible(k, s, x)
    ensures GenuineVotes(k, s) <= GenuineVotes(k, Act(k, s, x))
  {
    hide Apply, Committed;
    assert Disciplined(ConfigOf(k, x.node), s[x.node]);
    hide Disciplined;
    EventKeeps(ConfigOf(k, x.node), s[x.node], x.event);
    assert s[x.node].sent <= Act(k, s, x)[x.node].sent;
    forall v | v in GenuineVotes(k, s) ensures v in GenuineVotes(k, Act(k, s, x)) {
      assert Genuine(k, s, v);
    }
  }

  lemma {:induction false} ExecutionCertain(k: Committee, h: nat, xs: seq<Action>)
    requires BelowThird(k) && Execution(k, h, xs, true)
    ensures AllCertain(k, After(k, h, xs))
  {
    hide Possible, Held, Safe, AllCertain, Act;
    if xs == [] {
      GenesisCertain(k, h);
    } else {
      ExecutionCertain(k, h, xs[..|xs| - 1]);
      ExecutionSafe(k, h, xs[..|xs| - 1]);
      ActCertain(k, After(k, h, xs[..|xs| - 1]), xs[|xs| - 1]);
    }
  }

  /** The node has logged the commit of a block. */
  predicate Finalized(n: Node, b: Block) {
    Log(CommitFinalized(b.height, b.round, BlockHash(b))) in n.writes
  }

  lemma CertificateBehind(k: Committee, s: System, a: Address, b: Block) returns (cert: Certificate)
    requires AllCertain(k, s) && a in s && Finalized(s[a], b)
    ensures Certified(k, s, b, cert)
  {
    var e := CommitFinalized(b.height, b.round, BlockHash(b));
    assert Certain(ConfigOf(k, a), GenuineVotes(k, s), s[a]);
    assert Backed(ConfigOf(k, a), GenuineVotes(k, s), e);
    var b', cert' :| ValidCertificate(ConfigOf(k, a), b', cert') && Within(cert'.votes, GenuineVotes(k, s))
                     && e == CommitFinalized(b'.height, b'.round, BlockHash(b'));
    cert := cert';
    assert b' == b;
  }

  /** Finality over every run: no two honest nodes, nor one node twice, log commits of different blocks of one height. */
  lemma OneBlockPerHeight(k: Committee, h: nat, xs: seq<Action>, a0: Address, b0: Block, a1: Address, b1: Block)
    requires BelowThird(k) && Execution(k, h, xs, true) && a0 in Honest(k) && a1 in Honest(k)
    requires var s := After(k, h, xs);
             a0 in s && a1 in s && Finalized(s[a0], b0) && Finalized(s[a1], b1) && b0.height == b1.height
    ensures b0 == b1
  {
    hide Execution, AllCertain;
    var s := After(k, h, xs);
    ExecutionCertain(k, h, xs);
    var cert0 := CertificateBehind(k, s, a0, b0);
    var cert1 := CertificateBehind(k, s, a1, b1);
    Agreement.Agreement(k, h, xs, b0, cert0, b1, cert1);
  }

  // ------------------------------------------------------------------
  // The ledger
  // ------------------------------------------------------------------

  /** A node's finalized chain: one block a height, from some height on. */
  predicate ChainOf(n: Node, from: nat, chain: seq<Block>) {
    forall i :: 0 <= i < |chain| ==> chain[i].height == from + i && Finalized(n, chain[i])
  }

  /** The blocks with their content. */
  function Contents(chain: seq<Block>, content: Block -> Blocks.Block): (r: seq<Blocks.Block>)
    ensures |r| == |chain|
  {
    seq(|chain|, i requires 0 <= i < |chain| => content(chain[i]))
  }

  /** Agreement down to the ledger: in every run, honest nodes' finalized chains are one a prefix of the other; and two
      nodes that executed chains of one length, each with its own staking records, hold the same accounts and
      blocks. */
  lemma OneLedger(k: Committee, h: nat, xs: seq<Action>, a0: Address, a1: Address, from: nat, chain0: seq<Block>, chain1: seq<Block>,
                  content: Block -> Blocks.Block, st: Replication.Store, own: seq<Replication.Records>,
                  theirs: seq<Replication.Records>, p: Option<Replication.Protocol>)
    requires BelowThird(k) && Execution(k, h, xs, true) && a0 in Honest(k) && a1 in Honest(k)
    requires var s := After(k, h, xs); a0 in s && a1 in s && ChainOf(s[a0], from, chain0) && ChainOf(s[a1], from, chain1)
    requires |chain0| <= |chain1| && |own| == |theirs| == |chain0|
    ensures chain0 <= chain1
    ensures var l := Replication.FinalizeChain(st, Contents(chain0, content), own, p);
            var m := Replication.FinalizeChain(st, Contents(chain1[..|chain0|], content), theirs, p);
            (l.Accept? <==> m.Accept?) && (l.Accept? ==> Replication.SameBlocks(l.value.0, m.value.0))
  {
    forall i | 0 <= i < |chain0| ensures chain0[i] == chain1[i] {
      OneBlockPerHeight(k, h, xs, a0, chain0[i], a1, chain1[i]);
    }
    hide Execution, After;
    assert chain1[..|chain0|] == chain0;
    Replication.RecordsMatterAtBoundaries(st, Contents(chain0, content), own, theirs, p);
  }
}
