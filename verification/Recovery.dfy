/** Crash recovery: `recover_snapshot` folds the log over the stored snapshot; `compact_consensus_wal` trims the log. */
module Recovery {
  import opened Common
  import opened ConsensusTypes

  datatype Recovered = Recovered(height: nat, round: nat,
                                 lockedRound: Option<nat>, lockedBlock: Option<Block>,
                                 validRound: Option<nat>, validBlock: Option<Block>)

  function Initial(s: Snapshot): Recovered {
    Recovered(s.height, s.round, None, None, None, None)
  }

  /** What one log entry does to the state being recovered. */
  function Replay(r: Recovered, e: Entry): Recovered {
    match e
    case SnapshotPersisted(h, rd) =>
      if LexLeq(r.height, r.round, h, rd) then r.(height := h, round := rd) else r
    case HeightAdvanced(next) =>
      if next > r.height then Recovered(next, 0, None, None, None, None) else r
    case RoundAdvanced(h, next) =>
      if h == r.height && next > r.round then r.(round := next) else r
    case CommitFinalized(h, _, _) =>
      if h + 1 > r.height then Recovered(h + 1, 0, None, None, None, None) else r
    case Locked(h, lr, b) =>
      if h == r.height then r.(lockedRound := Some(lr), lockedBlock := Some(b)) else r
    case PolkaObserved(h, vr, b) =>
      if h == r.height then r.(validRound := Some(vr), validBlock := Some(b)) else r
    case _ => r
  }

  /** The whole log replayed in order. */
  function Recover(s: Snapshot, wal: seq<Entry>): Recovered {
    if wal == [] then Initial(s) else Replay(Recover(s, wal[..|wal| - 1]), wal[|wal| - 1])
  }

  /** The recovery loop computes the fold. */
  method RecoverSnapshot(s: Snapshot, wal: seq<Entry>) returns (r: Recovered)
    ensures r == Recover(s, wal)
  {
    var height, round := s.height, s.round;
    var lockedRound: Option<nat>, lockedBlock: Option<Block> := None, None;
    var validRound: Option<nat>, validBlock: Option<Block> := None, None;
    for i := 0 to |wal|
      invariant Recovered(height, round, lockedRound, lockedBlock, validRound, validBlock) == Recover(s, wal[..i])
    {
      assert wal[..i + 1][..i] == wal[..i];
      match wal[i] {
        case SnapshotPersisted(h, rd) =>
          if LexLeq(height, round, h, rd) {
            height, round := h, rd;
          }
        case HeightAdvanced(next) =>
          if next > height {
            height, round := next, 0;
            lockedRound, lockedBlock, validRound, validBlock := None, None, None, None;
          }
        case RoundAdvanced(h, next) =>
          if h == height && next > round {
            round := next;
          }
        case CommitFinalized(h, _, _) =>
          if h + 1 > height {
            height, round := h + 1, 0;
            lockedRound, lockedBlock, validRound, validBlock := None, None, None, None;
          }
        case Locked(h, lr, b) =>
          if h == height {
            lockedRound, lockedBlock := Some(lr), Some(b);
          }
        case PolkaObserved(h, vr, b) =>
          if h == height {
            validRound, validBlock := Some(vr), Some(b);
          }
        case _ =>
      }
    }
    assert wal[..|wal|] == wal;
    r := Recovered(height, round, lockedRound, lockedBlock, validRound, validBlock);
  }

  // ------------------------------------------------------------------
  // Disks the engine leaves behind
  // ------------------------------------------------------------------

  /** An entry that points no further than the stored snapshot. Finalized commits may run ahead of it. */
  predicate Covered(e: Entry, s: Snapshot) {
    match e
    case SnapshotPersisted(h, r) => LexLeq(h, r, s.height, s.round)
    case HeightAdvanced(h) => h <= s.height
    case RoundAdvanced(h, r) => LexLeq(h, r, s.height, s.round)
    case Locked(h, lr, b) => LexLeq(h, lr, s.height, s.round) && b.height == h
    case PolkaObserved(h, vr, b) => LexLeq(h, vr, s.height, s.round) && b.height == h
    case _ => true
  }

  /** Invariant of every disk image, whichever write came last. */
  predicate Sound(d: Disk) {
    forall e <- d.wal :: Covered(e, d.snapshot)
  }

  /** One more than the highest finalized height in the log, 0 if there is none. */
  function CommitFrontier(wal: seq<Entry>): nat {
    if wal == [] then 0 else
      var rest := CommitFrontier(wal[..|wal| - 1]);
      var e := wal[|wal| - 1];
      if e.CommitFinalized? && e.height + 1 > rest then e.height + 1 else rest
  }

  /** The last lock logged for a height. */
  function LastLock(wal: seq<Entry>, h: nat): Option<(nat, Block)> {
    if wal == [] then None else
      var e := wal[|wal| - 1];
      if e.Locked? && e.height == h then Some((e.lockedRound, e.block)) else LastLock(wal[..|wal| - 1], h)
  }

  /** The last polka logged for a height. */
  function LastPolka(wal: seq<Entry>, h: nat): Option<(nat, Block)> {
    if wal == [] then None else
      var e := wal[|wal| - 1];
      if e.PolkaObserved? && e.height == h then Some((e.validRound, e.block)) else LastPolka(wal[..|wal| - 1], h)
  }

  function RoundOf(o: Option<(nat, Block)>): Option<nat> {
    if o.Some? then Some(o.value.0) else None
  }

  function BlockOf(o: Option<(nat, Block)>): Option<Block> {
    if o.Some? then Some(o.value.1) else None
  }

  /** The state at (h, r) with the locks the log holds for h. */
  function LoggedState(wal: seq<Entry>, h: nat, r: nat): Recovered {
    var lock, polka := LastLock(wal, h), LastPolka(wal, h);
    Recovered(h, r, RoundOf(lock), BlockOf(lock), RoundOf(polka), BlockOf(polka))
  }

  /** Recovery without the fold: either a finalized commit outruns the snapshot, or the snapshot's height stands
      with exactly the locks last logged for it. */
  lemma {:induction false} RecoverClosedForm(s: Snapshot, wal: seq<Entry>)
    requires Sound(Disk(s, wal))
    ensures Recover(s, wal) == if CommitFrontier(wal) > s.height then Recovered(CommitFrontier(wal), 0, None, None, None, None)
                               else LoggedState(wal, s.height, s.round)
  {
    if wal != [] {
      var front := wal[..|wal| - 1];
      assert forall e <- front :: e in wal;
      assert wal[|wal| - 1] in wal;
      RecoverClosedForm(s, front);
    }
  }

  /** A height above every logged lock has none. */
  lemma {:induction false} NoLockAbove(s: Snapshot, wal: seq<Entry>, h: nat)
    requires Sound(Disk(s, wal)) && h > s.height
    ensures LastLock(wal, h) == None && LastPolka(wal, h) == None
  {
    if wal != [] {
      assert wal[|wal| - 1] in wal;
      assert forall e <- wal[..|wal| - 1] :: e in wal;
      NoLockAbove(s, wal[..|wal| - 1], h);
    }
  }

  /** Uniform reading of recovery: the locks recovered are always those logged for the recovered height. */
  lemma RecoveredIsLogged(d: Disk)
    requires Sound(d)
    ensures var r := Recover(d.snapshot, d.wal);
            r == LoggedState(d.wal, r.height, r.round)
            && LexLeq(d.snapshot.height, d.snapshot.round, r.height, r.round)
            && r.height == (if CommitFrontier(d.wal) > d.snapshot.height then CommitFrontier(d.wal) else d.snapshot.height)
  {
    RecoverClosedForm(d.snapshot, d.wal);
    if CommitFrontier(d.wal) > d.snapshot.height {
      NoLockAbove(d.snapshot, d.wal, CommitFrontier(d.wal));
    }
  }

  lemma {:induction false} LastLockIsLogged(wal: seq<Entry>, h: nat)
    ensures LastLock(wal, h).Some? ==> Locked(h, LastLock(wal, h).value.0, LastLock(wal, h).value.1) in wal
    ensures LastPolka(wal, h).Some? ==> PolkaObserved(h, LastPolka(wal, h).value.0, LastPolka(wal, h).value.1) in wal
  {
    if wal != [] {
      LastLockIsLogged(wal[..|wal| - 1], h);
      assert forall e <- wal[..|wal| - 1] :: e in wal;
      assert wal[|wal| - 1] in wal;
    }
  }

  /** Crash safety: whatever write was last, a recovered lock is a lock of the recovered height, taken in a round
      the node had already reached, although replaying `SnapshotPersisted` raises the height without clearing locks. */
  lemma RecoveredLockBelongs(d: Disk)
    requires Sound(d)
    ensures var r := Recover(d.snapshot, d.wal);
            && (r.lockedBlock.Some? <==> r.lockedRound.Some?)
            && (r.validBlock.Some? <==> r.validRound.Some?)
            && (r.lockedBlock.Some? ==> r.lockedBlock.value.height == r.height && r.lockedRound.value <= r.round)
            && (r.validBlock.Some? ==> r.validBlock.value.height == r.height && r.validRound.value <= r.round)
  {
    RecoverClosedForm(d.snapshot, d.wal);
    LastLockIsLogged(d.wal, d.snapshot.height);
  }

  // ------------------------------------------------------------------
  // Compaction
  // ------------------------------------------------------------------

  /** The height compaction reads off an entry. */
  function EntryHeight(e: Entry): nat {
    match e
    case VoteRecorded(v) => v.height
    case VoteBroadcast(v) => v.height
    case EvidenceRecorded(ev) => ev.height
    case HeightAdvanced(next) => next
    case _ => e.height
  }

  /** The log without the entries below a height. */
  function Compact(wal: seq<Entry>, below: nat): seq<Entry> {
    if wal == [] then [] else
      var e := wal[|wal| - 1];
      Compact(wal[..|wal| - 1], below) + (if EntryHeight(e) >= below then [e] else [])
  }

  /** The in-place `retain` of the memory store, with the number of entries it drops. */
  method CompactWal(wal: seq<Entry>, below: nat) returns (kept: seq<Entry>, dropped: nat)
    ensures kept == Compact(wal, below) && dropped == |wal| - |kept|
  {
    kept, dropped := [], 0;
    for i := 0 to |wal|
      invariant kept == Compact(wal[..i], below) && dropped == i - |kept|
    {
      assert wal[..i + 1][..i] == wal[..i];
      if EntryHeight(wal[i]) >= below {
        kept := kept + [wal[i]];
      } else {
        dropped := dropped + 1;
      }
    }
    assert wal[..|wal|] == wal;
  }

  lemma {:induction false} CompactIsFilter(wal: seq<Entry>, below: nat)
    ensures forall e :: e in Compact(wal, below) <==> e in wal && EntryHeight(e) >= below
  {
    if wal != [] {
      CompactIsFilter(wal[..|wal| - 1], below);
      assert wal == wal[..|wal| - 1] + [wal[|wal| - 1]];
    }
  }

  /** Compaction is invisible to recovery, for every log and every bound up to the snapshot's height, and recovery
      never falls behind the snapshot. */
  lemma {:induction false} CompactionInvisible(s: Snapshot, wal: seq<Entry>, below: nat)
    requires below <= s.height
    ensures Recover(s, Compact(wal, below)) == Recover(s, wal)
    ensures LexLeq(s.height, s.round, Recover(s, wal).height, Recover(s, wal).round)
  {
    if wal != [] {
      var front, e := wal[..|wal| - 1], wal[|wal| - 1];
      CompactionInvisible(s, front, below);
      if EntryHeight(e) >= below {
        assert (Compact(front, below) + [e])[..|Compact(front, below)|] == Compact(front, below);
      } else {
        assert Compact(front, below) + [] == Compact(front, below);
      }
    }
  }

  /** The bound is tight: one height further and a lock of the snapshot's own height is lost. */
  lemma CompactionVisibleAbove(s: Snapshot, b: Block)
    ensures var wal := [Locked(s.height, s.round, b)];
            Recover(s, Compact(wal, s.height + 1)) != Recover(s, wal)
  {
    var wal := [Locked(s.height, s.round, b)];
    assert wal[..0] == [];
    assert Compact(wal, s.height + 1) == [];
  }

  lemma NoLockDropped(e: Entry, below: nat, h: nat)
    requires EntryHeight(e) < below <= h
    ensures !(e.Locked? && e.height == h) && !(e.PolkaObserved? && e.height == h)
  {}

  /** Compaction below a height keeps the locks logged for it. */
  lemma {:induction false} CompactKeepsLocks(wal: seq<Entry>, below: nat, h: nat)
    requires below <= h
    ensures LastLock(Compact(wal, below), h) == LastLock(wal, h)
    ensures LastPolka(Compact(wal, below), h) == LastPolka(wal, h)
  {
    hide EntryHeight;
    if wal != [] {
      var front, e := wal[..|wal| - 1], wal[|wal| - 1];
      CompactKeepsLocks(front, below, h);
      if EntryHeight(e) >= below {
        assert (Compact(front, below) + [e])[..|Compact(front, below)|] == Compact(front, below);
      } else {
        NoLockDropped(e, below, h);
        assert Compact(front, below) + [] == Compact(front, below);
      }
    }
  }
}
