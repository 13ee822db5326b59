/** Signing across restarts: the flags that stop a second vote are lost with power, so what the disk recovers decides. */
module Restart {
  import opened Common
  import opened ConsensusTypes
  import opened Recovery
  import opened RoundMachine
  import opened Discipline
  import opened CrashRecovery

  /** The votes whose log entries are among some writes; a vote is sent only after its entry is written. */
  function Broadcasts(ws: seq<Write>): seq<Vote> {
    if ws == [] then []
    else
      var w := ws[|ws| - 1];
      Broadcasts(ws[..|ws| - 1]) + if w.Log? && w.entry.VoteBroadcast? then [w.entry.vote] else []
  }

  lemma {:induction false} BroadcastsAppend(a: seq<Write>, b: seq<Write>)
    ensures Broadcasts(a + b) == Broadcasts(a) + Broadcasts(b)
  {
    if b == [] {
      assert a + b == a;
    } else {
      assert (a + b)[..|a + b| - 1] == a + b[..|b| - 1];
      BroadcastsAppend(a, b[..|b| - 1]);
    }
  }

  /** The snapshot last stored by some writes. */
  function LastSaved(ws: seq<Write>): Snapshot {
    if ws == [] then Snapshot(0, 0)
    else if ws[|ws| - 1].Save? then ws[|ws| - 1].snapshot
    else LastSaved(ws[..|ws| - 1])
  }

  predicate SnapLeq(s: Snapshot, t: Snapshot) {
    LexLeq(s.height, s.round, t.height, t.round)
  }

  function ClockOf(n: Node): Snapshot {
    Snapshot(n.rs.height, n.rs.round)
  }

  function SlotOf(v: Vote): Snapshot {
    Snapshot(v.height, v.round)
  }

  /** Stored snapshots never go back, and no vote is logged ahead of the one then stored. */
  predicate Rising(ws: seq<Write>) {
    ws != [] ==>
      var front, w := ws[..|ws| - 1], ws[|ws| - 1];
      && Rising(front)
      && (w.Save? ==> SnapLeq(LastSaved(front), w.snapshot))
      && (w.Log? && w.entry.VoteBroadcast? ==> SnapLeq(SlotOf(w.entry.vote), LastSaved(front)))
  }

  /** Writing no vote, and no snapshot but one. */
  predicate Quiet(ws: seq<Write>, t: Snapshot) {
    forall w <- ws :: !(w.Log? && w.entry.VoteBroadcast?) && (w.Save? ==> w.snapshot == t)
  }

  lemma {:induction false} QuietRising(before: seq<Write>, ws: seq<Write>, t: Snapshot)
    requires Rising(before) && Quiet(ws, t) && SnapLeq(LastSaved(before), t)
    ensures Rising(before + ws) && LastSaved(before + ws) == (if Save(t) in ws then t else LastSaved(before))
  {
    if ws == [] {
      assert before + ws == before;
    } else {
      var front, w := ws[..|ws| - 1], ws[|ws| - 1];
      assert ws == front + [w] && w in ws;
      assert (before + ws)[..|before + ws| - 1] == before + front;
      QuietRising(before, front, t);
    }
  }

  /** Up to any write, snapshots and logged votes lie at or below the snapshot then stored. */
  lemma {:induction false} RisingBounds(ws: seq<Write>, k: nat)
    requires Rising(ws) && k <= |ws|
    ensures SnapLeq(LastSaved(ws[..k]), LastSaved(ws)) && Rising(ws[..k])
    ensures forall v <- Broadcasts(ws) :: SnapLeq(SlotOf(v), LastSaved(ws))
  {
    if ws != [] {
      var front := ws[..|ws| - 1];
      RisingBounds(front, if k < |ws| then k else |front|);
      if k < |ws| {
        assert front[..k] == ws[..k];
      } else {
        assert ws[..k] == ws;
      }
    }
  }

  // ------------------------------------------------------------------
  // One boot
  // ------------------------------------------------------------------

  /** What was sent is what was logged, no slot of this boot is used twice, and the stored snapshot is the clock. */
  predicate Tidy(c: Config, n: Node) {
    && SignedOnce(c, n.rs, n.sent) && Broadcasts(n.writes) == n.sent
    && Rising(n.writes) && LastSaved(n.writes) == ClockOf(n)
  }

  /** `m` follows `n` without turning the clock back, and what it signs is not behind `n`. */
  predicate Later(c: Config, n: Node, m: Node) {
    && Tidy(c, m)
    && LexLeq(n.rs.height, n.rs.round, m.rs.height, m.rs.round)
    && n.sent <= m.sent && n.writes <= m.writes
    && forall i :: |n.sent| <= i < |m.sent| ==> LexLeq(n.rs.height, n.rs.round, m.sent[i].height, m.sent[i].round)
  }

  lemma {:induction false} AllSilent(ws: seq<Write>)
    requires forall w <- ws :: !(w.Log? && w.entry.VoteBroadcast?)
    ensures Broadcasts(ws) == []
  {
    if ws != [] {
      assert ws[|ws| - 1] in ws && forall w <- ws[..|ws| - 1] :: w in ws;
      AllSilent(ws[..|ws| - 1]);
    }
  }

  /** Writing no vote, with the flags kept, or dropped as the clock moves on and is stored. */
  lemma QuietLater(c: Config, n: Node, m: Node, ws: seq<Write>)
    requires Tidy(c, n) && m.sent == n.sent && m.writes == n.writes + ws && Quiet(ws, ClockOf(m))
    requires SnapLeq(ClockOf(n), ClockOf(m))
    requires if ClockOf(m) == ClockOf(n) then m.rs.prevoted == n.rs.prevoted && m.rs.precommitted == n.rs.precommitted
             else Save(ClockOf(m)) in ws
    ensures Later(c, n, m)
  {
    AllSilent(ws);
    BroadcastsAppend(n.writes, ws);
    QuietRising(n.writes, ws, ClockOf(m));
    hide NoSlotTwice, Broadcasts, Rising, LastSaved;
  }

  lemma VoteWritten(before: seq<Write>, v: Vote)
    ensures Broadcasts(before + [Log(VoteBroadcast(v))]) == Broadcasts(before) + [v]
    ensures Rising(before) && SnapLeq(SlotOf(v), LastSaved(before)) ==>
              Rising(before + [Log(VoteBroadcast(v))]) && LastSaved(before + [Log(VoteBroadcast(v))]) == LastSaved(before)
  {
    assert (before + [Log(VoteBroadcast(v))])[..|before|] == before;
  }

  lemma SignLater(c: Config, n: Node, m: Node, v: Vote)
    requires Tidy(c, n) && c.me == Some(v.validator) && v.height == n.rs.height && v.round == n.rs.round
    requires if v.step == Prevote then !n.rs.prevoted else !n.rs.precommitted
    requires m.writes == n.writes + [Log(VoteBroadcast(v))] && m.sent == n.sent + [v]
    requires m.rs == n.rs.(prevoted := n.rs.prevoted || v.step == Prevote, precommitted := n.rs.precommitted || v.step == Precommit)
    ensures Later(c, n, m)
  {
    hide SentBehind, FlagsRemember, NoSlotTwice, Broadcasts, Rising, LastSaved;
    SignKeeps(c, n.rs, n.sent, v);
    VoteWritten(n.writes, v);
  }

  lemma LaterTrans(c: Config, a: Node, b: Node, d: Node)
    requires Later(c, a, b) && Later(c, b, d)
    ensures Later(c, a, d)
  {
    hide Tidy;
  }

  lemma EmitLater(c: Config, n: Node, hash: Hash)
    requires Tidy(c, n)
    ensures Later(c, n, EmitPrevote(c, n).0) && Later(c, n, EmitPrecommit(c, n, hash).0)
  {
    hide Broadcasts, SignedOnce, PrevoteHash;
    if c.me.Some? && !n.rs.prevoted {
      SignLater(c, n, EmitPrevote(c, n).0, EmitPrevote(c, n).1.value);
    }
    if c.me.Some? && !n.rs.precommitted {
      SignLater(c, n, EmitPrecommit(c, n, hash).0, EmitPrecommit(c, n, hash).1.value);
    }
  }

  lemma RecordLater(c: Config, n: Node, v: Vote)
    requires Tidy(c, n)
    ensures Later(c, n, RecordVote(c, n, v).n)
  {
    RecordVoteFrame(c, n, v);
    var ws := RecordWrites(c, n, v);
    hide RecordVote, Tidy, Later;
    QuietLater(c, n, RecordVote(c, n, v).n, ws);
  }

  lemma FinalizeWrites(c: Config, n: Node, hash: Hash, commit: Commit) returns (ws: seq<Write>)
    ensures var m := Finalize(c, n, hash, commit).n;
            && m.writes == n.writes + ws && Quiet(ws, ClockOf(m))
            && (ClockOf(m) == ClockOf(n) || Save(ClockOf(m)) in ws)
  {
    hide ValidCertificate;
    var m := Finalize(c, n, hash, commit).n;
    var first := [Log(CommitFinalized(n.rs.height, n.rs.round, hash))];
    var trim := if n.rs.height > 10 then [Trim(n.rs.height - 10)] else [];
    if m.writes == n.writes {
      ws := [];
    } else if m.rs.height == n.rs.height {
      ws := first;
    } else {
      var persist := Persist(n.rs.height + 1, 0);
      assert persist[0] in persist;
      ws := first + trim + persist + [Log(HeightAdvanced(n.rs.height + 1))];
    }
  }

  lemma FinalizeLater(c: Config, n: Node, hash: Hash, commit: Commit)
    requires Tidy(c, n)
    ensures Later(c, n, Finalize(c, n, hash, commit).n)
  {
    var ws := FinalizeWrites(c, n, hash, commit);
    hide Tidy, Later, ValidCertificate, Quiet;
    QuietLater(c, n, Finalize(c, n, hash, commit).n, ws);
  }

  lemma HandleVoteLater(c: Config, n: Node, v: Vote, commit: Commit)
    requires Tidy(c, n)
    ensures Later(c, n, HandleVote(c, n, v, commit).n)
  {
    hide RecordVote, EmitPrecommit, Finalize, Tidy;
    RecordLater(c, n, v);
    var r := RecordVote(c, n, v);
    assert Tidy(c, r.n);
    if r.precommit.Some? {
      EmitLater(c, r.n, r.precommit.value);
      var (n1, own) := EmitPrecommit(c, r.n, r.precommit.value);
      LaterTrans(c, n, r.n, n1);
      if own.Some? {
        RecordLater(c, n1, own.value);
        var r1 := RecordVote(c, n1, own.value);
        LaterTrans(c, n, n1, r1.n);
        if r1.finalize.Some? {
          FinalizeLater(c, r1.n, r1.finalize.value, commit);
          LaterTrans(c, n, r1.n, Finalize(c, r1.n, r1.finalize.value, commit).n);
        }
      }
    } else if r.finalize.Some? {
      FinalizeLater(c, r.n, r.finalize.value, commit);
      LaterTrans(c, n, r.n, Finalize(c, r.n, r.finalize.value, commit).n);
    }
  }

  lemma PrevoteLater(c: Config, n: Node, commit: Commit)
    requires Tidy(c, n)
    ensures Later(c, n, PrevoteAndHandle(c, n, commit).n)
  {
    hide EmitPrevote, HandleVote, Tidy;
    EmitLater(c, n, NilHash);
    var (n1, own) := EmitPrevote(c, n);
    if own.Some? {
      HandleVoteLater(c, n1, own.value, commit);
      LaterTrans(c, n, n1, HandleVote(c, n1, own.value, commit).n);
    }
  }

  lemma TakeLater(c: Config, n: Node, b: Block, logged: seq<Write>, commit: Commit)
    requires Tidy(c, n) && forall w <- logged :: w.Log? && !w.entry.VoteBroadcast?
    ensures Later(c, n, PrevoteAndHandle(c, TakeProposal(n, b, logged), commit).n)
  {
    hide PrevoteAndHandle, Tidy;
    var m := TakeProposal(n, b, logged);
    QuietLater(c, n, m, logged);
    PrevoteLater(c, m, commit);
    LaterTrans(c, n, m, PrevoteAndHandle(c, m, commit).n);
  }

  lemma RoundLater(c: Config, n: Node)
    requires Tidy(c, n)
    ensures Later(c, n, AdvanceRound(n))
  {
    var ws := Persist(n.rs.height, n.rs.round + 1) + [Log(RoundAdvanced(n.rs.height, n.rs.round + 1))];
    hide Tidy;
    assert AdvanceRound(n).writes == n.writes + ws;
    QuietLater(c, n, AdvanceRound(n), ws);
  }

  lemma ImportLater(c: Config, n: Node, b: Block, cert: Certificate, commit: Commit)
    requires Tidy(c, n)
    ensures Later(c, n, ImportFinalized(c, n, b, cert, commit).n)
  {
    var m := ImportFinalized(c, n, b, cert, commit).n;
    hide Tidy;
    if cert.height < n.rs.height || !ValidCertificate(c, b, cert) {
      QuietLater(c, n, m, []);
    } else {
      var first := [Log(CommitFinalized(cert.height, cert.round, cert.hash))];
      var full := first + Persist(b.height + 1, 0) + [Log(HeightAdvanced(b.height + 1))];
      assert commit == Done ==> m.writes == n.writes + full;
      QuietLater(c, n, m, if commit == Done then full else first);
    }
  }

  /** Every event of a boot keeps what it signed tidy; nothing but the local key is assumed. */
  lemma EventLater(c: Config, n: Node, e: Event)
    requires Tidy(c, n)
    ensures Later(c, n, Apply(c, n, e))
  {
    hide PrevoteAndHandle, HandleVote, ImportFinalized, Tidy;
    assert n.writes + [] == n.writes;
    QuietLater(c, n, n, []);
    match e
    case Propose(payload, commit) =>
      if c.me.Some? {
        var h, r := n.rs.height, n.rs.round;
        var b := Block(h, r, c.me.value, payload);
        TakeLater(c, n, b, [Log(ProposalAccepted(h, r, BlockHash(b))), Log(ProposalBroadcast(h, r, BlockHash(b)))], commit);
      }
    case ReceiveProposal(p, verified, commit) =>
      TakeLater(c, n, p.block, [Log(ProposalAccepted(p.height, p.round, BlockHash(p.block)))], commit);
      EvidenceLater(c, n, p, verified, commit);
    case ReceiveVote(v, commit) =>
      HandleVoteLater(c, n, v, commit);
    case Import(b, cert, commit) =>
      ImportLater(c, n, b, cert, commit);
    case TimedOut(commit) =>
      PrevoteLater(c, n, commit);
      var m := PrevoteAndHandle(c, n, commit).n;
      RoundLater(c, m);
      LaterTrans(c, n, m, AdvanceRound(m));
  }

  /** A second proposal only leaves evidence. */
  lemma EvidenceLater(c: Config, n: Node, p: Proposal, verified: bool, commit: Commit)
    requires Tidy(c, n)
    ensures n.rs.proposal.Some? ==> Later(c, n, OnProposal(c, n, p, verified, commit).n)
  {
    hide Tidy;
    if n.rs.proposal.Some? {
      var m := OnProposal(c, n, p, verified, commit).n;
      var ev := Log(EvidenceRecorded(Evidence(p.validator, p.height, p.round, ConflictingProposal)));
      QuietLater(c, n, m, if m == n then [] else [ev]);
    }
  }

  // ------------------------------------------------------------------
  // Across boots
  // ------------------------------------------------------------------

  predicate Below(v: Vote, height: nat, round: nat) {
    LexLeq(v.height, v.round, height, round) && !(v.height == height && v.round == round)
  }

  /** What earlier boots signed. A boot that loses power after some writes has sent nothing logged later. */
  function Earlier(c: Config, h: nat, xs: seq<Happening>): seq<Vote> {
    if xs == [] then []
    else
      var front, x := xs[..|xs| - 1], xs[|xs| - 1];
      if x.Handled? then Earlier(c, h, front)
      else
        var ws := Apply(c, History(c, h, front).node, x.e).writes;
        Earlier(c, h, front) + Broadcasts(Surviving(ws, x.k))
  }

  /** Everything ever signed. */
  function Signed(c: Config, h: nat, xs: seq<Happening>): seq<Vote> {
    Earlier(c, h, xs) + Broadcasts(History(c, h, xs).node.writes)
  }

  /** Every restart recovers a clock past each vote logged before it. */
  predicate RestartsPast(c: Config, h: nat, xs: seq<Happening>) {
    xs != [] ==>
      && RestartsPast(c, h, xs[..|xs| - 1])
      && (xs[|xs| - 1].Crashed? ==>
            var rs := History(c, h, xs).node.rs;
            forall v <- Earlier(c, h, xs) :: Below(v, rs.height, rs.round))
  }

  predicate AllBelow(votes: seq<Vote>, height: nat, round: nat) {
    forall v <- votes :: Below(v, height, round)
  }

  /** Earlier votes lie below the clock, and no slot is used twice so far. */
  predicate Clear(c: Config, past: seq<Vote>, n: Node) {
    Tidy(c, n) && AllBelow(past, n.rs.height, n.rs.round) && NoSlotTwice(past) && NoSlotTwice(past + n.sent)
  }

  lemma StartTidy(c: Config, d: Disk)
    ensures Tidy(c, Start(d)) && Start(d).sent == []
  {
    AllSilent(Start(d).writes);
  }

  lemma StaysClear(c: Config, past: seq<Vote>, n: Node, m: Node)
    requires Clear(c, past, n) && Later(c, n, m)
    ensures Clear(c, past, m)
  {
    var before, after := past + n.sent, past + m.sent;
    forall i, j | 0 <= i < j < |after| ensures !SameSlot(after[i], after[j]) {
      if j < |before| {
        assert before[i] == after[i] && before[j] == after[j];
      } else if i >= |past| {
        assert after[i] == m.sent[i - |past|] && after[j] == m.sent[j - |past|];
      } else {
        assert after[i] in past && Below(after[i], n.rs.height, n.rs.round);
        assert after[j] == m.sent[j - |past|];
      }
    }
  }

  lemma PrefixBroadcasts(ws: seq<Write>, k: nat)
    requires k <= |ws|
    ensures Broadcasts(ws[..k]) <= Broadcasts(ws)
  {
    assert ws == ws[..k] + ws[k..];
    BroadcastsAppend(ws[..k], ws[k..]);
  }

  /** The writes of a boot that survive a loss of power after the first `k`. */
  function Surviving(ws: seq<Write>, k: nat): seq<Write> {
    if k <= |ws| then ws[..k] else ws
  }

  lemma SurvivingOnce(c: Config, past: seq<Vote>, n: Node, k: nat)
    requires Clear(c, past, n)
    ensures NoSlotTwice(past + Broadcasts(Surviving(n.writes, k)))
  {
    hide SignedOnce, Rising, LastSaved, NoSlotTwice;
    PrefixBroadcasts(n.writes, if k <= |n.writes| then k else |n.writes|);
    assert n.writes[..|n.writes|] == n.writes;
    PrefixOnce(past + n.sent, past + Broadcasts(Surviving(n.writes, k)));
  }

  lemma {:induction false} HistoryClear(c: Config, h: nat, xs: seq<Happening>)
    requires RestartsPast(c, h, xs)
    ensures Clear(c, Earlier(c, h, xs), History(c, h, xs).node)
  {
    hide Tidy, Later, Broadcasts, NoSlotTwice, Apply, Start;
    if xs == [] {
      StartTidy(c, EmptyDisk(h));
      NothingOnce();
    } else {
      var front, x := xs[..|xs| - 1], xs[|xs| - 1];
      HistoryClear(c, h, front);
      var p := History(c, h, front);
      EventLater(c, p.node, x.e);
      var n := Apply(c, p.node, x.e);
      StaysClear(c, Earlier(c, h, front), p.node, n);
      if x.Crashed? {
        StartTidy(c, Happen(c, p, x).boot);
        SurvivingOnce(c, Earlier(c, h, front), n, x.k);
        assert Earlier(c, h, xs) + [] == Earlier(c, h, xs);
      }
    }
  }

  lemma NothingOnce()
    ensures NoSlotTwice([]) && NoSlotTwice([] + [])
  {}

  lemma SentIsLogged(c: Config, n: Node)
    requires Tidy(c, n)
    ensures Broadcasts(n.writes) == n.sent
  {}

  lemma PrefixOnce(votes: seq<Vote>, some: seq<Vote>)
    requires NoSlotTwice(votes) && some <= votes
    ensures NoSlotTwice(some)
  {
    assert forall i :: 0 <= i < |some| ==> some[i] == votes[i];
  }

  /** Signing once, over every history with power losses at any write: as long as each restart recovers a clock past
      the votes logged before it, no height, round and step is ever signed twice. */
  lemma SignsOnceAcrossBoots(c: Config, h: nat, xs: seq<Happening>)
    requires RestartsPast(c, h, xs)
    ensures NoSlotTwice(Signed(c, h, xs))
  {
    HistoryClear(c, h, xs);
    SentIsLogged(c, History(c, h, xs).node);
  }

  // ------------------------------------------------------------------
  // The condition is exact
  // ------------------------------------------------------------------

  lemma {:induction false} SavedOnDisk(d: Disk, ws: seq<Write>)
    requires ws != [] && ws[0].Save?
    ensures DiskAfter(d, ws).snapshot == LastSaved(ws)
  {
    if |ws| == 1 {
      assert ws[..0] == [];
    } else {
      assert ws[..|ws| - 1][0] == ws[0];
      SavedOnDisk(d, ws[..|ws| - 1]);
    }
  }

  /** The clock a disk recovers. */
  function Recovers(d: Disk): Snapshot {
    var r := Recover(d.snapshot, d.wal);
    Snapshot(r.height, r.round)
  }

  lemma RecoversPastSnapshot(d: Disk)
    ensures SnapLeq(d.snapshot, Recovers(d))
  {
    CompactionInvisible(d.snapshot, d.wal, 0);
  }

  /** Whatever survives of a boot, it recovers a clock not behind the one booted with, nor behind any surviving vote. */
  lemma CrashClock(c: Config, boot: Disk, n: Node, ws: seq<Write>)
    requires Tidy(c, n) && Start(boot).writes <= n.writes && ws <= n.writes
    ensures var t := Recovers(DiskAfter(boot, ws));
            SnapLeq(Recovers(boot), t) && forall v <- Broadcasts(ws) :: SnapLeq(SlotOf(v), t)
  {
    if ws != [] {
      assert ws == n.writes[..|ws|];
      RisingBounds(n.writes, |ws|);
      RisingBounds(ws, 1);
      assert n.writes[0] == Start(boot).writes[0] == Save(Recovers(boot));
      assert ws[..1] == [ws[0]] && [ws[0]][..0] == [];
      assert LastSaved(ws[..1]) == Recovers(boot);
      SavedOnDisk(boot, ws);
      RecoversPastSnapshot(DiskAfter(boot, ws));
    }
  }

  lemma {:induction false} BootPrefix(c: Config, h: nat, xs: seq<Happening>)
    ensures var p := History(c, h, xs); Tidy(c, p.node) && Start(p.boot).writes <= p.node.writes
  {
    hide Tidy, Apply, Start, DiskAfter;
    if xs == [] {
      StartTidy(c, EmptyDisk(h));
    } else {
      var front, x := xs[..|xs| - 1], xs[|xs| - 1];
      BootPrefix(c, h, front);
      var p := History(c, h, front);
      EventLater(c, p.node, x.e);
      StartTidy(c, Happen(c, p, x).boot);
    }
  }

  /** Votes of earlier boots lie below the clock this boot started with. */
  lemma {:induction false} BelowBoot(c: Config, h: nat, xs: seq<Happening>)
    requires RestartsPast(c, h, xs)
    ensures var t := Recovers(History(c, h, xs).boot); AllBelow(Earlier(c, h, xs), t.height, t.round)
  {
    hide Apply, Broadcasts;
    if xs != [] && xs[|xs| - 1].Handled? {
      BelowBoot(c, h, xs[..|xs| - 1]);
    }
  }

  /** A vote a restart does not recover past is exactly at the recovered clock, and the local validator's own. */
  lemma OffendingVote(c: Config, h: nat, xs: seq<Happening>) returns (v: Vote)
    requires xs != [] && xs[|xs| - 1].Crashed? && RestartsPast(c, h, xs[..|xs| - 1]) && !RestartsPast(c, h, xs)
    ensures v in Earlier(c, h, xs) && SlotOf(v) == ClockOf(History(c, h, xs).node) && c.me == Some(v.validator)
  {
    hide Apply, Tidy, Broadcasts, Start, DiskAfter;
    var front, x := xs[..|xs| - 1], xs[|xs| - 1];
    var p := History(c, h, front);
    var n := Apply(c, p.node, x.e);
    var ws := Surviving(n.writes, x.k);
    BootPrefix(c, h, front);
    EventLater(c, p.node, x.e);
    CrashClock(c, p.boot, n, ws);
    BelowBoot(c, h, front);
    StartClock(DiskAfter(p.boot, ws));
    var t := ClockOf(History(c, h, xs).node);
    v :| v in Earlier(c, h, xs) && !Below(v, t.height, t.round);
    assert v !in Earlier(c, h, front);
    OwnVotes(c, n, ws);
  }

  lemma StartClock(d: Disk)
    ensures ClockOf(Start(d)) == Recovers(d)
  {}

  lemma OwnVotes(c: Config, n: Node, ws: seq<Write>)
    requires Tidy(c, n) && ws <= n.writes
    ensures forall v <- Broadcasts(ws) :: c.me == Some(v.validator)
  {
    hide Rising, LastSaved;
    assert ws == n.writes[..|ws|];
    PrefixBroadcasts(n.writes, |ws|);
    assert forall v <- Broadcasts(ws) :: v in n.sent;
  }

  function Handling(es: seq<Event>): (r: seq<Happening>)
    ensures |r| == |es|
  {
    if es == [] then [] else Handling(es[..|es| - 1]) + [Handled(es[|es| - 1])]
  }

  lemma {:induction false} HandledRun(c: Config, h: nat, xs: seq<Happening>, es: seq<Event>)
    ensures var ys := xs + Handling(es);
            && History(c, h, ys) == Process(History(c, h, xs).boot, Run(c, History(c, h, xs).node, es))
            && Earlier(c, h, ys) == Earlier(c, h, xs)
            && (RestartsPast(c, h, xs) ==> RestartsPast(c, h, ys))
  {
    hide Apply;
    if es == [] {
      assert xs + Handling(es) == xs;
    } else {
      var front := es[..|es| - 1];
      HandledRun(c, h, xs, front);
      var ys := xs + Handling(es);
      assert ys[..|ys| - 1] == xs + Handling(front) && ys[|ys| - 1] == Handled(es[|es| - 1]);
    }
  }

  /** A node that holds no proposal and has recorded only nil votes, prevotes of `voters` among them. */
  predicate Waiting(n: Node, t: Snapshot, voters: set<Address>) {
    && ClockOf(n) == t && n.rs.proposal.None?
    && (forall v <- n.rs.votes :: v.hash == NilHash)
    && Tally(n.rs.prevotes, NilHash) == voters
    && (n.rs.precommitted ==> exists v <- n.sent :: SlotOf(v) == t && v.step == Precommit)
  }

  function NilPrevote(t: Snapshot, a: Address): Vote {
    Vote(t.height, t.round, Prevote, NilHash, a)
  }

  /** One more nil prevote; with a quorum of them the node precommits nil, if it has not precommitted. */
  lemma NilHandled(c: Config, n: Node, t: Snapshot, voters: set<Address>, a: Address)
    requires Waiting(n, t, voters)
    ensures var o := HandleVote(c, n, NilPrevote(t, a), Refused);
            && o.ok && Waiting(o.n, t, voters + {a}) && o.n.rs.prevoted == n.rs.prevoted && n.sent <= o.n.sent
            && (c.me.Some? && |voters + {a}| >= Quorum(c) ==> o.n.rs.precommitted)
  {
    var v := NilPrevote(t, a);
    NilRecorded(c, n, t, voters, v);
    hide RecordVote;
    var r := RecordVote(c, n, v);
    if r.precommit.Some? {
      var (n1, own) := EmitPrecommit(c, r.n, NilHash);
      if own.Some? {
        assert own.value in n1.sent;
        NilRecorded(c, n1, t, voters + {a}, own.value);
      }
    }
  }

  lemma NilRecorded(c: Config, n: Node, t: Snapshot, voters: set<Address>, v: Vote)
    requires Waiting(n, t, voters) && SlotOf(v) == t && v.hash == NilHash
    ensures var r := RecordVote(c, n, v);
            var now := if v.step == Prevote then voters + {v.validator} else voters;
            && Waiting(r.n, t, now) && r.finalize.None? && r.n.sent == n.sent
            && r.n.rs.prevoted == n.rs.prevoted && r.n.rs.precommitted == n.rs.precommitted
            && r.precommit == if v.step == Prevote && |now| >= Quorum(c) then Some(NilHash) else None
  {
    assert !Conflicts(n.rs.votes, v);
    RecordVoteFrame(c, n, v);
  }

  /** The nil prevotes of the first `i` validators, the local one excepted, for the slot of the clock. */
  function OthersPrevoteNil(c: Config, t: Snapshot, i: nat): seq<Event>
    requires i <= |c.validators|
  {
    if i == 0 then []
    else OthersPrevoteNil(c, t, i - 1)
         + if c.me == Some(c.validators[i - 1]) then [] else [ReceiveVote(NilPrevote(t, c.validators[i - 1]), Refused)]
  }

  function OthersAmong(c: Config, i: nat): set<Address>
    requires i <= |c.validators|
  {
    set a | a in c.validators[..i] && c.me != Some(a)
  }

  lemma {:induction false} OthersHandled(c: Config, n: Node, i: nat)
    requires i <= |c.validators| && Waiting(n, ClockOf(n), {}) && !n.rs.prevoted
    ensures var m := Run(c, n, OthersPrevoteNil(c, ClockOf(n), i));
            Waiting(m, ClockOf(n), OthersAmong(c, i)) && !m.rs.prevoted
    ensures forall e <- OthersPrevoteNil(c, ClockOf(n), i) :: FromMembers(c, e)
  {
    hide Waiting, HandleVote;
    if i == 0 {
      assert OthersAmong(c, 0) == {};
    } else {
      OthersHandled(c, n, i - 1);
      var a, es := c.validators[i - 1], OthersPrevoteNil(c, ClockOf(n), i - 1);
      assert c.validators[..i] == c.validators[..i - 1] + [a];
      if c.me == Some(a) {
        assert es + [] == es && OthersAmong(c, i) == OthersAmong(c, i - 1);
      } else {
        var all := OthersPrevoteNil(c, ClockOf(n), i);
        assert all[..|all| - 1] == es;
        NilHandled(c, Run(c, n, es), ClockOf(n), OthersAmong(c, i - 1), a);
        assert OthersAmong(c, i) == OthersAmong(c, i - 1) + {a};
      }
    }
  }

  /** Everybody else prevotes nil and the round times out: a restarted validator prevotes and precommits. */
  function Again(c: Config, t: Snapshot): seq<Event> {
    OthersPrevoteNil(c, t, |c.validators|) + [TimedOut(Refused)]
  }

  predicate Votes(n: Node, t: Snapshot, step: Step) {
    exists v <- n.sent :: SlotOf(v) == t && v.step == step
  }

  lemma SignsBoth(c: Config, d: Disk)
    requires WellFormed(c) && c.me.Some?
    ensures var m := Run(c, Start(d), Again(c, Recovers(d)));
            Votes(m, Recovers(d), Prevote) && Votes(m, Recovers(d), Precommit)
    ensures forall e <- Again(c, Recovers(d)) :: FromMembers(c, e)
  {
    hide HandleVote;
    var n, t := Start(d), Recovers(d);
    assert Waiting(n, t, {});
    OthersHandled(c, n, |c.validators|);
    var es := OthersPrevoteNil(c, t, |c.validators|);
    var m := Run(c, n, es);
    assert Again(c, t)[..|es|] == es;
    assert c.validators[..|c.validators|] == c.validators;
    assert OthersAmong(c, |c.validators|) + {c.me.value} == Members(c);
    TimeoutSigns(c, m, t, OthersAmong(c, |c.validators|));
  }

  lemma TimeoutSigns(c: Config, m: Node, t: Snapshot, others: set<Address>)
    requires WellFormed(c) && c.me.Some? && Waiting(m, t, others) && others + {c.me.value} == Members(c) && !m.rs.prevoted
    ensures var o := Apply(c, m, TimedOut(Refused)); Votes(o, t, Prevote) && Votes(o, t, Precommit)
  {
    hide HandleVote;
    var (m1, own) := EmitPrevote(c, m);
    assert own == Some(NilPrevote(t, c.me.value)) && own.value in m1.sent;
    assert Waiting(m1, t, others) by {
      if m.rs.precommitted {
        var v :| v in m.sent && SlotOf(v) == t && v.step == Precommit;
        assert v in m1.sent;
      }
    }
    NilHandled(c, m1, t, others, c.me.value);
    var o := HandleVote(c, m1, own.value, Refused).n;
    assert own.value in o.sent;
  }

  ghost predicate AllFromMembers(c: Config, es: seq<Event>) {
    forall e <- es :: FromMembers(c, e)
  }

  /** One restart, exactly: it recovers past every vote logged before it if and only if, however the run goes on, no
      slot is used twice. */
  lemma OneRestart(c: Config, h: nat, xs: seq<Happening>)
    requires WellFormed(c) && xs != [] && xs[|xs| - 1].Crashed? && RestartsPast(c, h, xs[..|xs| - 1])
    ensures RestartsPast(c, h, xs) <==>
              forall es :: AllFromMembers(c, es) ==> NoSlotTwice(Signed(c, h, xs + Handling(es)))
  {
    hide NoSlotTwice, Signed, Earlier, Run;
    if RestartsPast(c, h, xs) {
      forall es | AllFromMembers(c, es) ensures NoSlotTwice(Signed(c, h, xs + Handling(es))) {
        HandledRun(c, h, xs, es);
        SignsOnceAcrossBoots(c, h, xs + Handling(es));
      }
    } else {
      var es := SignsAgain(c, h, xs);
    }
  }

  /** A restart that does not recover past some vote can be made to sign that vote's slot again. */
  lemma SignsAgain(c: Config, h: nat, xs: seq<Happening>) returns (es: seq<Event>)
    requires WellFormed(c) && xs != [] && xs[|xs| - 1].Crashed? && RestartsPast(c, h, xs[..|xs| - 1]) && !RestartsPast(c, h, xs)
    ensures AllFromMembers(c, es) && !NoSlotTwice(Signed(c, h, xs + Handling(es)))
  {
    hide RestartsPast, Apply, Start, Earlier, DiskAfter;
    var v := OffendingVote(c, h, xs);
    var p := History(c, h, xs);
    assert p.node == Start(p.boot);
    StartClock(p.boot);
    es := Again(c, Recovers(p.boot));
    SignsBoth(c, p.boot);
    HandledRun(c, h, xs, es);
    BootPrefix(c, h, xs + Handling(es));
    var m := Run(c, p.node, es);
    var w :| w in m.sent && SlotOf(w) == SlotOf(v) && w.step == v.step;
    TwiceAcross(c, Earlier(c, h, xs), m, v, w);
  }

  lemma TwiceAcross(c: Config, past: seq<Vote>, m: Node, v: Vote, w: Vote)
    requires Tidy(c, m) && v in past && w in m.sent && SlotOf(w) == SlotOf(v) && w.step == v.step && c.me == Some(v.validator)
    ensures !NoSlotTwice(past + Broadcasts(m.writes))
  {
    hide Rising, LastSaved, Broadcasts;
    var i :| 0 <= i < |past| && past[i] == v;
    var j :| 0 <= j < |m.sent| && m.sent[j] == w;
    var all := past + m.sent;
    assert all[i] == v && all[|past| + j] == w && SameSlot(v, w);
  }

  /** Signing once, exactly, over every history with power losses at any write: each restart recovers a clock past the
      votes logged before it if and only if no slot is used twice, in any continuation of any part of the history. */
  lemma {:induction false} SignsOnceExactly(c: Config, h: nat, xs: seq<Happening>)
    requires WellFormed(c)
    ensures RestartsPast(c, h, xs) <==>
              forall k: nat, es | k <= |xs| && AllFromMembers(c, es) :: NoSlotTwice(Signed(c, h, xs[..k] + Handling(es)))
  {
    hide NoSlotTwice, Signed, Earlier;
    if RestartsPast(c, h, xs) {
      forall k: nat, es | k <= |xs| && AllFromMembers(c, es) ensures NoSlotTwice(Signed(c, h, xs[..k] + Handling(es))) {
        PartPast(c, h, xs, k);
        HandledRun(c, h, xs[..k], es);
        SignsOnceAcrossBoots(c, h, xs[..k] + Handling(es));
      }
    } else {
      var k := FirstOffence(c, h, xs);
      OneRestart(c, h, xs[..k]);
    }
  }

  lemma {:induction false} PartPast(c: Config, h: nat, xs: seq<Happening>, k: nat)
    requires RestartsPast(c, h, xs) && k <= |xs|
    ensures RestartsPast(c, h, xs[..k])
  {
    if k < |xs| {
      assert xs[..|xs| - 1][..k] == xs[..k];
      PartPast(c, h, xs[..|xs| - 1], k);
    } else {
      assert xs[..k] == xs;
    }
  }

  lemma {:induction false} FirstOffence(c: Config, h: nat, xs: seq<Happening>) returns (k: nat)
    requires !RestartsPast(c, h, xs)
    ensures 0 < k <= |xs| && xs[..k][k - 1].Crashed? && RestartsPast(c, h, xs[..k][..k - 1]) && !RestartsPast(c, h, xs[..k])
  {
    hide Apply;
    var front := xs[..|xs| - 1];
    if RestartsPast(c, h, front) {
      k := |xs|;
      assert xs[..k] == xs;
    } else {
      k := FirstOffence(c, h, front);
      assert front[..k] == xs[..k];
    }
  }

  // ------------------------------------------------------------------
  // A witness
  // ------------------------------------------------------------------

  const NODE := Config([0, 1, 2, 3], Some(2))
  const BLOCK := Block(4, 0, 0, 0)
  const TAKES := ReceiveProposal(Proposal(4, 0, BLOCK, 0), true, Refused)
  const AFTER: nat := |Apply(NODE, FreshNode(4), TAKES).writes|
  const FOR := Vote(4, 0, Prevote, BlockHash(BLOCK), 2)
  const AGAINST := Vote(4, 0, Prevote, NilHash, 2)

  lemma Takes()
    ensures var n := Apply(NODE, FreshNode(4), TAKES);
            n.sent == [FOR] && MemoryOf(n.rs) == Initial(Snapshot(4, 0))
  {
    assert Recover(Snapshot(4, 0), []) == Initial(Snapshot(4, 0));
    var n := FreshNode(4);
    var taken := TakeProposal(n, BLOCK, [Log(ProposalAccepted(4, 0, BlockHash(BLOCK)))]);
    var n1 := EmitPrevote(NODE, taken).0;
    assert EmitPrevote(NODE, taken).1 == Some(FOR);
    OneVote(n1, FOR);
    hide HandleVote;
  }

  /** The first vote of a round only counts. */
  lemma OneVote(n: Node, v: Vote)
    requires n.rs.votes == [] && n.rs.prevotes == map[] && v.step == Prevote
    ensures var o := HandleVote(NODE, n, v, Refused);
            o.ok && o.n.sent == n.sent && MemoryOf(o.n.rs) == MemoryOf(n.rs)
  {
    var n1 := n.(rs := CountVote(n.rs, v), writes := n.writes + [Log(VoteRecorded(v))]);
    assert Tally(n1.rs.prevotes, v.hash) == {v.validator};
    assert Quorum(NODE) == 3;
  }

  lemma TimesOut(d: Disk)
    requires Recover(d.snapshot, d.wal) == Initial(Snapshot(4, 0))
    ensures Apply(NODE, Start(d), TimedOut(Refused)).sent == [AGAINST]
  {
    var n1 := EmitPrevote(NODE, Start(d)).0;
    assert EmitPrevote(NODE, Start(d)).1 == Some(AGAINST);
    OneVote(n1, AGAINST);
    hide HandleVote;
  }

  /** Without that, it fails: a validator takes a proposal and prevotes it, loses power, recovers the same round, times
      out, and prevotes nil. */
  lemma SignsTwice()
    ensures var xs := [Crashed(TAKES, AFTER), Handled(TimedOut(Refused))];
            Signed(NODE, 4, xs) == [FOR, AGAINST] && SameSlot(FOR, AGAINST) && FOR.hash != AGAINST.hash
  {
    Takes();
    CleanRecovery(NODE, 4, [Handled(TAKES)]);
    assert [Handled(TAKES)][..0] == [];
    var first, n := FreshNode(4), Apply(NODE, FreshNode(4), TAKES);
    var d := DiskAfter(EmptyDisk(4), n.writes);
    StartTidy(NODE, EmptyDisk(4));
    EventLater(NODE, first, TAKES);
    SentIsLogged(NODE, n);
    TimesOut(d);
    StartTidy(NODE, d);
    EventLater(NODE, Start(d), TimedOut(Refused));
    SentIsLogged(NODE, Apply(NODE, Start(d), TimedOut(Refused)));
    Unfolds(n);
  }

  lemma Unfolds(n: Node)
    requires n == Apply(NODE, FreshNode(4), TAKES)
    ensures var xs := [Crashed(TAKES, AFTER), Handled(TimedOut(Refused))];
            Signed(NODE, 4, xs) == Broadcasts(n.writes) + Broadcasts(Apply(NODE, Start(DiskAfter(EmptyDisk(4), n.writes)), TimedOut(Refused)).writes)
  {
    hide Apply, Start, DiskAfter, Broadcasts;
    var xs := [Crashed(TAKES, AFTER), Handled(TimedOut(Refused))];
    assert xs[..1] == [Crashed(TAKES, AFTER)] && xs[..1][..0] == [];
    assert n.writes[..|n.writes|] == n.writes;
    var p := History(NODE, 4, xs[..1]);
    assert History(NODE, 4, []) == Process(EmptyDisk(4), FreshNode(4));
    assert p == Process(DiskAfter(EmptyDisk(4), n.writes), Start(DiskAfter(EmptyDisk(4), n.writes)));
    assert [] + Broadcasts(n.writes) == Broadcasts(n.writes) == Earlier(NODE, 4, xs[..1]);
    assert Earlier(NODE, 4, xs) == Earlier(NODE, 4, xs[..1]);
    assert History(NODE, 4, xs) == Happen(NODE, p, xs[1]);
  }
}
