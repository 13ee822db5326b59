/** The log and snapshot a node writes always suffice to rebuild it, wherever it crashes. */
module CrashRecovery {
  import opened Common
  import opened ConsensusTypes
  import opened Recovery
  import opened RoundMachine
  import opened Discipline

  function Perform(d: Disk, w: Write): Disk {
    match w
    case Log(e) => d.(wal := d.wal + [e])
    case Save(s) => d.(snapshot := s)
    case Trim(below) => d.(wal := Compact(d.wal, below))
  }

  /** The disk after a sequence of writes. */
  function DiskAfter(d: Disk, ws: seq<Write>): Disk {
    if ws == [] then d else Perform(DiskAfter(d, ws[..|ws| - 1]), ws[|ws| - 1])
  }

  /** Every image the writes pass through is sound. */
  predicate AllSound(d: Disk, ws: seq<Write>) {
    Sound(DiskAfter(d, ws)) && (ws != [] ==> AllSound(d, ws[..|ws| - 1]))
  }

  lemma WriteKeeps(d: Disk, ws: seq<Write>, w: Write)
    requires AllSound(d, ws) && Sound(Perform(DiskAfter(d, ws), w))
    ensures AllSound(d, ws + [w]) && DiskAfter(d, ws + [w]) == Perform(DiskAfter(d, ws), w)
  {
    assert (ws + [w])[..|ws|] == ws;
  }

  lemma {:induction false} PrefixSound(d: Disk, ws: seq<Write>, k: nat)
    requires AllSound(d, ws) && k <= |ws|
    ensures Sound(DiskAfter(d, ws[..k]))
  {
    if k == |ws| {
      assert ws[..k] == ws;
    } else {
      assert ws[..|ws| - 1][..k] == ws[..k];
      PrefixSound(d, ws[..|ws| - 1], k);
    }
  }

  /** The part of the volatile state that recovery rebuilds. */
  function MemoryOf(rs: RoundState): Recovered {
    Recovered(rs.height, rs.round, rs.lockedRound, rs.lockedBlock, rs.validRound, rs.validBlock)
  }

  /** Memory against disk: all images sound, the snapshot is the clock, and the locks are those logged for the height. */
  predicate Stored(d: Disk, m: Recovered, ws: seq<Write>) {
    && AllSound(d, ws)
    && DiskAfter(d, ws).snapshot == Snapshot(m.height, m.round)
    && LoggedState(DiskAfter(d, ws).wal, m.height, m.round) == m
  }

  // ------------------------------------------------------------------
  // Single writes
  // ------------------------------------------------------------------

  lemma LogUnfolds(wal: seq<Entry>, e: Entry, h: nat)
    ensures LastLock(wal + [e], h) == if e.Locked? && e.height == h then Some((e.lockedRound, e.block)) else LastLock(wal, h)
    ensures LastPolka(wal + [e], h) == if e.PolkaObserved? && e.height == h then Some((e.validRound, e.block)) else LastPolka(wal, h)
    ensures CommitFrontier(wal + [e]) == if e.CommitFinalized? && e.height + 1 > CommitFrontier(wal) then e.height + 1 else CommitFrontier(wal)
  {
    assert (wal + [e])[..|wal|] == wal;
  }

  function LogMemory(m: Recovered, e: Entry): Recovered {
    if e.Locked? then m.(lockedRound := Some(e.lockedRound), lockedBlock := Some(e.block))
    else if e.PolkaObserved? then m.(validRound := Some(e.validRound), validBlock := Some(e.block))
    else m
  }

  /** Logging an entry about the present, with the memory update it records. */
  lemma LogKeeps(d: Disk, m: Recovered, ws: seq<Write>, e: Entry)
    requires Stored(d, m, ws) && Covered(e, Snapshot(m.height, m.round))
    requires e.Locked? || e.PolkaObserved? ==> e.height == m.height
    ensures Stored(d, LogMemory(m, e), ws + [Log(e)])
    ensures var before, after := CommitFrontier(DiskAfter(d, ws).wal), CommitFrontier(DiskAfter(d, ws + [Log(e)]).wal);
            after == if e.CommitFinalized? && e.height + 1 > before then e.height + 1 else before
  {
    WriteKeeps(d, ws, Log(e));
    LogUnfolds(DiskAfter(d, ws).wal, e, m.height);
  }

  lemma CoveredMonotone(e: Entry, s: Snapshot, t: Snapshot)
    requires Covered(e, s) && LexLeq(s.height, s.round, t.height, t.round)
    ensures Covered(e, t)
  {}

  /** Moving the clock: storing the new snapshot first never loses a lock of the new height and never keeps an old one. */
  lemma SaveKeeps(d: Disk, m: Recovered, ws: seq<Write>, h: nat, r: nat)
    requires Stored(d, m, ws) && LexLeq(m.height, m.round, h, r)
    ensures Stored(d, if h > m.height then Recovered(h, r, None, None, None, None) else m.(round := r), ws + [Save(Snapshot(h, r))])
    ensures DiskAfter(d, ws + [Save(Snapshot(h, r))]).wal == DiskAfter(d, ws).wal
  {
    var disk := DiskAfter(d, ws);
    forall e <- disk.wal ensures Covered(e, Snapshot(h, r)) {
      CoveredMonotone(e, disk.snapshot, Snapshot(h, r));
    }
    WriteKeeps(d, ws, Save(Snapshot(h, r)));
    if h > m.height {
      NoLockAbove(disk.snapshot, disk.wal, h);
    }
  }

  lemma {:induction false} CompactLowersFrontier(wal: seq<Entry>, below: nat)
    ensures CommitFrontier(Compact(wal, below)) <= CommitFrontier(wal)
  {
    if wal != [] {
      var front, e := wal[..|wal| - 1], wal[|wal| - 1];
      CompactLowersFrontier(front, below);
      if EntryHeight(e) >= below {
        assert (Compact(front, below) + [e])[..|Compact(front, below)|] == Compact(front, below);
      } else {
        assert Compact(front, below) + [] == Compact(front, below);
      }
    }
  }

  lemma TrimKeeps(d: Disk, m: Recovered, ws: seq<Write>, below: nat)
    requires Stored(d, m, ws) && below <= m.height
    ensures Stored(d, m, ws + [Trim(below)])
    ensures CommitFrontier(DiskAfter(d, ws + [Trim(below)]).wal) <= CommitFrontier(DiskAfter(d, ws).wal)
  {
    var wal := DiskAfter(d, ws).wal;
    CompactIsFilter(wal, below);
    WriteKeeps(d, ws, Trim(below));
    CompactKeepsLocks(wal, below, m.height);
    CompactLowersFrontier(wal, below);
  }

  // ------------------------------------------------------------------
  // Operations
  // ------------------------------------------------------------------

  predicate Kept(d: Disk, n: Node) {
    Stored(d, MemoryOf(n.rs), n.writes) && HeldProposal(n.rs)
  }

  /** No finalized commit in the log outruns the clock. */
  predicate CaughtUp(d: Disk, n: Node) {
    CommitFrontier(DiskAfter(d, n.writes).wal) <= n.rs.height
  }

  /** `m` follows `n`, keeping the disk in step. */
  predicate Preserves(d: Disk, n: Node, m: Node) {
    Kept(d, m) && (CaughtUp(d, n) ==> CaughtUp(d, m))
  }

  /** Logging something that is neither a lock nor a commit leaves what recovery sees alone. */
  predicate Bookkeeping(e: Entry) {
    e.ProposalAccepted? || e.ProposalBroadcast? || e.VoteRecorded? || e.VoteBroadcast? || e.EvidenceRecorded?
  }

  lemma NoteKeeps(d: Disk, n: Node, m: Node, e: Entry)
    requires Kept(d, n) && Bookkeeping(e)
    requires m.writes == n.writes + [Log(e)] && MemoryOf(m.rs) == MemoryOf(n.rs) && HeldProposal(m.rs)
    ensures Preserves(d, n, m)
  {
    LogKeeps(d, MemoryOf(n.rs), n.writes, e);
  }

  lemma LockOnKeeps(d: Disk, n: Node, b: Block)
    requires Kept(d, n) && n.rs.proposal == Some(b)
    ensures Preserves(d, n, LockOn(n, n.rs.round, b))
  {
    hide AllSound, LoggedState, DiskAfter;
    var h, r := n.rs.height, n.rs.round;
    var polka, lock := PolkaObserved(h, r, b), Locked(h, r, b);
    LogKeeps(d, MemoryOf(n.rs), n.writes, polka);
    LogKeeps(d, LogMemory(MemoryOf(n.rs), polka), n.writes + [Log(polka)], lock);
    assert n.writes + [Log(polka)] + [Log(lock)] == n.writes + [Log(polka), Log(lock)];
  }

  lemma RecordKeepsDisk(c: Config, d: Disk, n: Node, v: Vote)
    requires Kept(d, n)
    ensures Preserves(d, n, RecordVote(c, n, v).n)
  {
    hide Stored, Conflicts;
    if v.height == n.rs.height && v.round == n.rs.round {
      if Conflicts(n.rs.votes, v) {
        NoteKeeps(d, n, RecordConflict(n, v), EvidenceRecorded(Evidence(v.validator, v.height, v.round, DuplicateVote)));
      } else {
        var m := n.(rs := CountVote(n.rs, v), writes := n.writes + [Log(VoteRecorded(v))]);
        NoteKeeps(d, n, m, VoteRecorded(v));
        if v.hash.BlockHash? && m.rs.proposal == Some(v.hash.block) {
          LockOnKeeps(d, m, v.hash.block);
        }
      }
    }
  }

  lemma AdvanceHeightKeeps(d: Disk, n: Node, next: nat)
    requires Kept(d, n) && next > n.rs.height
    ensures Kept(d, AdvanceHeight(n, next))
    ensures CommitFrontier(DiskAfter(d, n.writes).wal) <= next ==> CaughtUp(d, AdvanceHeight(n, next))
  {
    var m := Recovered(next, 0, None, None, None, None);
    var w1 := n.writes + [Save(Snapshot(next, 0))];
    var w2 := w1 + [Log(SnapshotPersisted(next, 0))];
    SaveKeeps(d, MemoryOf(n.rs), n.writes, next, 0);
    LogKeeps(d, m, w1, SnapshotPersisted(next, 0));
    LogKeeps(d, m, w2, HeightAdvanced(next));
    assert w2 + [Log(HeightAdvanced(next))] == AdvanceHeight(n, next).writes;
  }

  lemma AdvanceRoundKeeps(d: Disk, n: Node)
    requires Kept(d, n)
    ensures Preserves(d, n, AdvanceRound(n))
  {
    hide Stored, DiskAfter;
    var h, r := n.rs.height, n.rs.round + 1;
    var m := MemoryOf(n.rs).(round := r);
    var w1 := n.writes + [Save(Snapshot(h, r))];
    var w2 := w1 + [Log(SnapshotPersisted(h, r))];
    SaveKeeps(d, MemoryOf(n.rs), n.writes, h, r);
    LogKeeps(d, m, w1, SnapshotPersisted(h, r));
    LogKeeps(d, m, w2, RoundAdvanced(h, r));
    assert w2 + [Log(RoundAdvanced(h, r))] == AdvanceRound(n).writes;
  }

  /** Logging a commit at or above the clock's height and then, unless it failed, advancing past it. */
  lemma CommitKeeps(d: Disk, n: Node, e: Entry, settle: bool)
    requires Kept(d, n) && e.CommitFinalized? && e.height >= n.rs.height
    requires settle ==> e.height == n.rs.height
    ensures Kept(d, LogEntry(n, e))
    ensures var n1 := LogEntry(n, e);
            var m := AdvanceHeight(if settle then Settle(n1, n.rs.height) else n1, e.height + 1);
            Preserves(d, n, m)
  {
    hide Stored, DiskAfter, CommitFrontier;
    LogKeeps(d, MemoryOf(n.rs), n.writes, e);
    var n1 := LogEntry(n, e);
    var n2 := if settle then Settle(n1, n.rs.height) else n1;
    if settle {
      if n.rs.height > 10 {
        TrimKeeps(d, MemoryOf(n.rs), n1.writes, n.rs.height - 10);
      } else {
        assert n1.writes + [] == n1.writes;
      }
    }
    assert Kept(d, n2);
    AdvanceHeightKeeps(d, n2, e.height + 1);
  }

  /** The commit attempt of an event either happened in full or left nothing in the log. */
  predicate Clean(e: Event) {
    e.commit == Done || (e.commit == Refused && !e.Import?)
  }

  predicate Whole(commit: Commit) {
    commit == Done || commit == Refused
  }

  lemma FinalizeKeepsDisk(c: Config, d: Disk, n: Node, hash: Hash, commit: Commit)
    requires Kept(d, n)
    ensures Kept(d, Finalize(c, n, hash, commit).n)
    ensures Whole(commit) ==> Preserves(d, n, Finalize(c, n, hash, commit).n)
  {
    hide Stored, ValidCertificate;
    CommitKeeps(d, n, CommitFinalized(n.rs.height, n.rs.round, hash), true);
  }

  lemma HandleVoteKeepsDisk(c: Config, d: Disk, n: Node, v: Vote, commit: Commit)
    requires Kept(d, n)
    ensures Kept(d, HandleVote(c, n, v, commit).n)
    ensures Whole(commit) ==> Preserves(d, n, HandleVote(c, n, v, commit).n)
  {
    hide Stored;
    RecordKeepsDisk(c, d, n, v);
    var r := RecordVote(c, n, v);
    if r.precommit.Some? {
      var (n1, own) := EmitPrecommit(c, r.n, r.precommit.value);
      if own.Some? {
        NoteKeeps(d, r.n, n1, VoteBroadcast(own.value));
        RecordKeepsDisk(c, d, n1, own.value);
        var r1 := RecordVote(c, n1, own.value);
        if r1.finalize.Some? {
          FinalizeKeepsDisk(c, d, r1.n, r1.finalize.value, commit);
        }
      }
    } else if r.finalize.Some? {
      FinalizeKeepsDisk(c, d, r.n, r.finalize.value, commit);
    }
  }

  lemma PrevoteKeepsDisk(c: Config, d: Disk, n: Node, commit: Commit)
    requires Kept(d, n)
    ensures Kept(d, PrevoteAndHandle(c, n, commit).n)
    ensures Whole(commit) ==> Preserves(d, n, PrevoteAndHandle(c, n, commit).n)
  {
    var (n1, own) := EmitPrevote(c, n);
    if own.Some? {
      NoteKeeps(d, n, n1, VoteBroadcast(own.value));
      HandleVoteKeepsDisk(c, d, n1, own.value, commit);
    }
  }

  lemma ProposeKeepsDisk(c: Config, d: Disk, n: Node, b: Block, broadcast: bool, commit: Commit)
    requires Kept(d, n) && b.height == n.rs.height && b.round == n.rs.round
    ensures var first := Log(ProposalAccepted(b.height, b.round, BlockHash(b)));
            var logged := if broadcast then [first, Log(ProposalBroadcast(b.height, b.round, BlockHash(b)))] else [first];
            var m := PrevoteAndHandle(c, TakeProposal(n, b, logged), commit).n;
            Kept(d, m) && (Whole(commit) ==> Preserves(d, n, m))
  {
    var e1, e2 := ProposalAccepted(b.height, b.round, BlockHash(b)), ProposalBroadcast(b.height, b.round, BlockHash(b));
    var n1 := TakeProposal(n, b, [Log(e1)]);
    NoteKeeps(d, n, n1, e1);
    if broadcast {
      var n2 := TakeProposal(n, b, [Log(e1), Log(e2)]);
      assert n1.writes + [Log(e2)] == n2.writes;
      NoteKeeps(d, n1, n2, e2);
      PrevoteKeepsDisk(c, d, n2, commit);
    } else {
      PrevoteKeepsDisk(c, d, n1, commit);
    }
  }

  lemma OnProposalKeepsDisk(c: Config, d: Disk, n: Node, p: Proposal, verified: bool, commit: Commit)
    requires Kept(d, n)
    ensures Kept(d, OnProposal(c, n, p, verified, commit).n)
    ensures Whole(commit) ==> Preserves(d, n, OnProposal(c, n, p, verified, commit).n)
  {
    if ValidProposal(c, p, verified) && p.height == n.rs.height && p.round == n.rs.round {
      if n.rs.proposal.None? {
        ProposeKeepsDisk(c, d, n, p.block, false, commit);
      } else {
        var m := OnProposal(c, n, p, verified, commit).n;
        if m != n {
          NoteKeeps(d, n, m, EvidenceRecorded(Evidence(p.validator, p.height, p.round, ConflictingProposal)));
        }
      }
    }
  }

  /** Every event keeps memory and disk in step; a clean one also keeps the log from outrunning the clock. */
  lemma EventKeepsDisk(c: Config, d: Disk, n: Node, e: Event)
    requires Kept(d, n)
    ensures Kept(d, Apply(c, n, e))
    ensures Clean(e) ==> Preserves(d, n, Apply(c, n, e))
  {
    hide Stored;
    match e
    case Propose(payload, commit) =>
      if c.me.Some? {
        ProposeKeepsDisk(c, d, n, Block(n.rs.height, n.rs.round, c.me.value, payload), true, commit);
      }
    case ReceiveProposal(p, verified, commit) =>
      OnProposalKeepsDisk(c, d, n, p, verified, commit);
    case ReceiveVote(v, commit) =>
      HandleVoteKeepsDisk(c, d, n, v, commit);
    case Import(b, cert, commit) =>
      if cert.height >= n.rs.height && ValidCertificate(c, b, cert) {
        CommitKeeps(d, n, CommitFinalized(cert.height, cert.round, cert.hash), false);
      }
    case TimedOut(commit) =>
      PrevoteKeepsDisk(c, d, n, commit);
      AdvanceRoundKeeps(d, PrevoteAndHandle(c, n, commit).n);
  }

  // ------------------------------------------------------------------
  // Restart and runs with crashes
  // ------------------------------------------------------------------

  lemma StartKept(d: Disk)
    requires Sound(d)
    ensures Kept(d, Start(d)) && CaughtUp(d, Start(d))
  {
    RecoveredIsLogged(d);
    var r := Recover(d.snapshot, d.wal);
    var save, note := Save(Snapshot(r.height, r.round)), SnapshotPersisted(r.height, r.round);
    forall e <- d.wal ensures Covered(e, Snapshot(r.height, r.round)) {
      CoveredMonotone(e, d.snapshot, Snapshot(r.height, r.round));
    }
    WriteKeeps(d, [], save);
    assert [] + [save] == [save];
    LogKeeps(d, r, [save], note);
    assert [save] + [Log(note)] == Start(d).writes;
  }

  /** A process: the disk it booted from and the node it runs. */
  datatype Process = Process(boot: Disk, node: Node)

  /** Handle an event, and perhaps lose power after the first `k` writes of this boot and restart from that image. */
  datatype Happening = Handled(e: Event) | Crashed(e: Event, k: nat)

  function Happen(c: Config, p: Process, x: Happening): Process {
    var n := Apply(c, p.node, x.e);
    if x.Handled? then Process(p.boot, n)
    else
      var d := DiskAfter(p.boot, if x.k <= |n.writes| then n.writes[..x.k] else n.writes);
      Process(d, Start(d))
  }

  function History(c: Config, h: nat, xs: seq<Happening>): Process {
    if xs == [] then Process(EmptyDisk(h), FreshNode(h))
    else Happen(c, History(c, h, xs[..|xs| - 1]), xs[|xs| - 1])
  }

  lemma {:induction false} HistoryKept(c: Config, h: nat, xs: seq<Happening>)
    ensures var p := History(c, h, xs); Kept(p.boot, p.node)
    ensures (forall x <- xs :: Clean(x.e)) ==> var p := History(c, h, xs); CaughtUp(p.boot, p.node)
  {
    if xs == [] {
      StartKept(EmptyDisk(h));
    } else {
      var front, x := xs[..|xs| - 1], xs[|xs| - 1];
      HistoryKept(c, h, front);
      assert x in xs && forall y <- front :: y in xs;
      var p := History(c, h, front);
      EventKeepsDisk(c, p.boot, p.node, x.e);
      if x.Crashed? {
        var n := Apply(c, p.node, x.e);
        if x.k <= |n.writes| {
          PrefixSound(p.boot, n.writes, x.k);
        }
        StartKept(Happen(c, p, x).boot);
      }
    }
  }

  /** Recovery refines the live node, over every history of events, failed commits and crashes at any write:
      at each event boundary the disk rebuilds exactly the clock, lock and valid block in memory if and only if
      no commit that the node has not advanced past is in the log. */
  lemma RecoveryRefines(c: Config, h: nat, xs: seq<Happening>)
    ensures var p := History(c, h, xs);
            var d := DiskAfter(p.boot, p.node.writes);
            Recover(d.snapshot, d.wal) == MemoryOf(p.node.rs) <==> CommitFrontier(d.wal) <= p.node.rs.height
  {
    HistoryKept(c, h, xs);
    var p := History(c, h, xs);
    var d := DiskAfter(p.boot, p.node.writes);
    RecoverClosedForm(d.snapshot, d.wal);
  }

  /** A history on the other side: an import is logged and then fails, and recovery is a height ahead of the node. */
  lemma FailedCommitParts(h: nat)
    ensures var b := Block(h, 0, 0, 0);
            var cert := Certificate(BlockHash(b), h, 0, [Vote(h, 0, Precommit, BlockHash(b), 0)]);
            var p := History(Config([0], None), h, [Handled(Import(b, cert, LoggedOnly))]);
            var d := DiskAfter(p.boot, p.node.writes);
            Recover(d.snapshot, d.wal) != MemoryOf(p.node.rs)
            && Recover(d.snapshot, d.wal).height == h + 1 && p.node.rs.height == h
  {
    var c, b := Config([0], None), Block(h, 0, 0, 0);
    var v := Vote(h, 0, Precommit, BlockHash(b), 0);
    var cert := Certificate(BlockHash(b), h, 0, [v]);
    var n := FreshNode(h);
    assert Recover(Snapshot(h, 0), []) == Initial(Snapshot(h, 0));
    assert Voters([v]) == {0} by { assert v in [v]; }
    var x := Handled(Import(b, cert, LoggedOnly));
    assert [x][..0] == [];
    var p := History(c, h, [x]);
    var e := CommitFinalized(h, 0, BlockHash(b));
    assert |c.validators| == 1 && Quorum(c) == 1 && ValidCertificate(c, b, cert);
    assert Apply(c, n, x.e) == LogEntry(n, e);
    assert History(c, h, []) == Process(EmptyDisk(h), n);
    assert p == Process(EmptyDisk(h), LogEntry(n, e));
    StartKept(EmptyDisk(h));
    LogKeeps(EmptyDisk(h), MemoryOf(n.rs), n.writes, e);
    RecoveryRefines(c, h, [x]);
    RecoverClosedForm(DiskAfter(p.boot, p.node.writes).snapshot, DiskAfter(p.boot, p.node.writes).wal);
  }

  /** In particular whenever every logged commit succeeds. */
  lemma CleanRecovery(c: Config, h: nat, xs: seq<Happening>)
    requires forall x <- xs :: Clean(x.e)
    ensures var p := History(c, h, xs);
            var d := DiskAfter(p.boot, p.node.writes);
            Recover(d.snapshot, d.wal) == MemoryOf(p.node.rs)
  {
    HistoryKept(c, h, xs);
    RecoveryRefines(c, h, xs);
  }

  /** Crash points: from the image after any write, the recovered locks belong to the recovered height and to a round
      already reached, and the clock does not fall behind the stored snapshot. */
  lemma CrashPointSafe(c: Config, h: nat, xs: seq<Happening>, k: nat)
    requires k <= |History(c, h, xs).node.writes|
    ensures var p := History(c, h, xs);
            var d := DiskAfter(p.boot, p.node.writes[..k]);
            var r := Recover(d.snapshot, d.wal);
            && LexLeq(d.snapshot.height, d.snapshot.round, r.height, r.round)
            && (r.lockedBlock.Some? ==> r.lockedRound.Some? && r.lockedBlock.value.height == r.height && r.lockedRound.value <= r.round)
            && (r.validBlock.Some? ==> r.validRound.Some? && r.validBlock.value.height == r.height && r.validRound.value <= r.round)
  {
    HistoryKept(c, h, xs);
    var p := History(c, h, xs);
    PrefixSound(p.boot, p.node.writes, k);
    RecoveredLockBelongs(DiskAfter(p.boot, p.node.writes[..k]));
    RecoveredIsLogged(DiskAfter(p.boot, p.node.writes[..k]));
  }
}
