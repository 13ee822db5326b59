/** The engine itself: the round state, log and snapshot updated in place, every operation computing its function in
    `RoundMachine`, on which the properties are proved. */
module ConsensusEngine {
  import opened Common
  import opened ConsensusTypes
  import opened Recovery
  import opened RoundMachine
  import opened CrashRecovery

  class Engine {
    const cfg: Config
    ghost const boot: Disk

    var height: nat
    var round: nat
    var proposal: Option<Block>
    var prevotes: map<Hash, set<Address>>
    var precommits: map<Hash, set<Address>>
    var votes: seq<Vote>
    var evidence: seq<Evidence>
    var processed: set<(Address, nat, nat)>
    var prevoted: bool
    var precommitted: bool
    var lockedRound: Option<nat>
    var lockedBlock: Option<Block>
    var validRound: Option<nat>
    var validBlock: Option<Block>

    var snapshot: Snapshot
    var wal: seq<Entry>
    var broadcast: seq<Vote>
    ghost var writes: seq<Write>

    ghost function State(): RoundState reads this {
      RoundState(height, round, proposal, prevotes, precommits, votes, evidence, processed, prevoted, precommitted,
                 lockedRound, lockedBlock, validRound, validBlock)
    }

    ghost function View(): Node reads this {
      Node(State(), writes, broadcast)
    }

    /** The stored snapshot and log are what the writes since boot made of the boot disk. */
    ghost predicate Valid() reads this {
      Disk(snapshot, wal) == DiskAfter(boot, writes)
    }

    /** Builds the engine from what the store holds. */
    constructor (c: Config, s: Snapshot, log: seq<Entry>)
      ensures Valid() && cfg == c && boot == Disk(s, log)
      ensures View() == Node(FreshRound(Recover(s, log)), [], [])
    {
      var r := RecoverSnapshot(s, log);
      cfg, boot, snapshot, wal, broadcast, writes := c, Disk(s, log), s, log, [], [];
      height, round := r.height, r.round;
      lockedRound, lockedBlock, validRound, validBlock := r.lockedRound, r.lockedBlock, r.validRound, r.validBlock;
      proposal, prevotes, precommits, votes, evidence, processed := None, map[], map[], [], [], {};
      prevoted, precommitted := false, false;
    }

    method AppendWal(e: Entry)
      requires Valid()
      modifies `wal, `writes
      ensures Valid() && View() == LogEntry(old(View()), e)
    {
      hide DiskAfter, Compact;
      WriteUnfolds(boot, writes, Log(e));
      wal := wal + [e];
      writes := writes + [Log(e)];
    }

    method PutSnapshot(s: Snapshot)
      requires Valid()
      modifies `snapshot, `writes
      ensures Valid() && View() == old(View()).(writes := old(writes) + [Save(s)])
    {
      hide DiskAfter, Compact;
      WriteUnfolds(boot, writes, Save(s));
      snapshot := s;
      writes := writes + [Save(s)];
    }

    method Trim(below: nat)
      requires Valid()
      modifies `wal, `writes
      ensures Valid() && View() == old(View()).(writes := old(writes) + [Write.Trim(below)])
    {
      hide DiskAfter, Compact;
      WriteUnfolds(boot, writes, Write.Trim(below));
      var kept, _ := CompactWal(wal, below);
      wal := kept;
      writes := writes + [Write.Trim(below)];
    }

    method PersistSnapshot()
      requires Valid()
      modifies `snapshot, `wal, `writes
      ensures Valid() && View() == old(View()).(writes := old(writes) + Persist(height, round))
    {
      hide DiskAfter;
      PutSnapshot(Snapshot(height, round));
      AppendWal(SnapshotPersisted(height, round));
      assert writes == old(writes) + Persist(height, round);
    }

    // ----------------------------------------------------------------
    // Voting
    // ----------------------------------------------------------------

    method SignPrevote() returns (own: Option<Vote>)
      requires Valid()
      modifies `prevoted, `wal, `writes, `broadcast
      ensures Valid() && (View(), own) == EmitPrevote(cfg, old(View()))
    {
      hide DiskAfter;
      if cfg.me.None? || prevoted {
        return None;
      }
      var hash := NilHash;
      match (lockedBlock, proposal) {
        case (Some(locked), Some(p)) =>
          if locked == p || (validBlock == Some(p) && RoundGeq(validRound, lockedRound)) {
            hash := BlockHash(p);
          }
        case (None, Some(p)) => hash := BlockHash(p);
        case (_, None) =>
      }
      var v := Vote(height, round, Prevote, hash, cfg.me.value);
      AppendWal(VoteBroadcast(v));
      prevoted := true;
      broadcast := broadcast + [v];
      own := Some(v);
    }

    method SignPrecommit(hash: Hash) returns (own: Option<Vote>)
      requires Valid()
      modifies `precommitted, `wal, `writes, `broadcast
      ensures Valid() && (View(), own) == EmitPrecommit(cfg, old(View()), hash)
    {
      hide DiskAfter;
      if cfg.me.None? || precommitted {
        return None;
      }
      var v := Vote(height, round, Precommit, hash, cfg.me.value);
      AppendWal(VoteBroadcast(v));
      precommitted := true;
      broadcast := broadcast + [v];
      own := Some(v);
    }

    method HasConflict(v: Vote) returns (found: bool)
      ensures found <==> Conflicts(votes, v)
    {
      for i := 0 to |votes|
        invariant !Conflicts(votes[..i], v)
      {
        if SameSlot(votes[i], v) && votes[i].hash != v.hash {
          return true;
        }
      }
      assert votes[..|votes|] == votes;
      return false;
    }

    /** Counting: the vote, then its voter under its hash. */
    method Count(v: Vote) returns (count: nat)
      modifies `votes, `prevotes, `precommits
      ensures State() == CountVote(old(State()), v)
      ensures count == |Tally(if v.step == Prevote then prevotes else precommits, v.hash)|
    {
      votes := votes + [v];
      match v.step {
        case Prevote =>
          var voters := if v.hash in prevotes then prevotes[v.hash] else {};
          prevotes := prevotes[v.hash := voters + {v.validator}];
          count := |prevotes[v.hash]|;
        case Precommit =>
          var voters := if v.hash in precommits then precommits[v.hash] else {};
          precommits := precommits[v.hash := voters + {v.validator}];
          count := |precommits[v.hash]|;
      }
    }

    method Lock(b: Block)
      requires Valid()
      modifies `validRound, `validBlock, `lockedRound, `lockedBlock, `wal, `writes
      ensures Valid() && View() == LockOn(old(View()), round, b)
    {
      hide DiskAfter;
      SetLocks(b);
      AppendWal(PolkaObserved(height, round, b));
      AppendWal(Locked(height, round, b));
      assert old(writes) + [Log(PolkaObserved(height, round, b))] + [Log(Locked(height, round, b))]
          == old(writes) + [Log(PolkaObserved(height, round, b)), Log(Locked(height, round, b))];
    }

    method Record(v: Vote) returns (precommit: Option<Hash>, finalize: Option<Hash>)
      requires Valid()
      modifies this
      ensures Valid() && Recorded(View(), precommit, finalize) == RecordVote(cfg, old(View()), v)
    {
      hide DiskAfter;
      precommit, finalize := None, None;
      if v.height != height || v.round != round {
        return;
      }
      var conflict := HasConflict(v);
      if conflict {
        var key := (v.validator, v.height, v.round);
        if key !in processed {
          processed := processed + {key};
          evidence := evidence + [Evidence(v.validator, v.height, v.round, DuplicateVote)];
        }
        AppendWal(EvidenceRecorded(Evidence(v.validator, v.height, v.round, DuplicateVote)));
        return;
      }
      AppendWal(VoteRecorded(v));
      var count := Count(v);
      if v.step == Prevote && count >= Quorum(cfg) {
        precommit := Some(v.hash);
        if v.hash != NilHash && proposal == Some(v.hash.block) {
          Lock(v.hash.block);
        }
      }
      if v.step == Precommit && count >= Quorum(cfg) && v.hash != NilHash {
        finalize := Some(v.hash);
      }
    }

    // ----------------------------------------------------------------
    // Certificates and commits
    // ----------------------------------------------------------------

    method CollectPrecommits(hash: Hash) returns (chosen: seq<Vote>)
      ensures chosen == PrecommitsFor(votes, hash)
    {
      chosen := [];
      for i := 0 to |votes|
        invariant chosen == PrecommitsFor(votes[..i], hash)
      {
        assert votes[..i + 1][..i] == votes[..i];
        if votes[i].step == Precommit && votes[i].hash == hash {
          chosen := chosen + [votes[i]];
        }
      }
      assert votes[..|votes|] == votes;
    }

    /** The certificate check, collecting distinct voters as it goes. */
    method ValidateCertificate(b: Block, cert: Certificate) returns (ok: bool)
      ensures ok <==> ValidCertificate(cfg, b, cert)
    {
      if cert.hash != BlockHash(b) || cert.height != b.height || cert.round != b.round {
        return false;
      }
      var unique: set<Address> := {};
      for i := 0 to |cert.votes|
        invariant unique == Voters(cert.votes[..i])
        invariant forall v <- cert.votes[..i] ::
                    v.height == cert.height && v.round == cert.round && v.step == Precommit && v.hash == cert.hash
      {
        var v := cert.votes[i];
        assert cert.votes[..i + 1] == cert.votes[..i] + [v];
        if v.height != cert.height || v.round != cert.round || v.step != Precommit || v.hash != cert.hash {
          assert v in cert.votes;
          return false;
        }
        unique := unique + {v.validator};
      }
      assert cert.votes[..|cert.votes|] == cert.votes;
      return |unique| >= Quorum(cfg);
    }

    method ClearRound(h: nat, r: nat)
      modifies `height, `round, `proposal, `prevotes, `precommits, `votes, `prevoted, `precommitted
      ensures State() == ResetRound(old(State()), h, r)
    {
      hide DiskAfter;
      height, round := h, r;
      proposal, prevotes, precommits, votes := None, map[], map[], [];
      prevoted, precommitted := false, false;
    }

    method ClearLocks()
      modifies `lockedRound, `lockedBlock, `validRound, `validBlock
      ensures State() == old(State()).(lockedRound := None, lockedBlock := None, validRound := None, validBlock := None)
    {
      lockedRound, lockedBlock, validRound, validBlock := None, None, None, None;
    }

    method SetLocks(b: Block)
      modifies `lockedRound, `lockedBlock, `validRound, `validBlock
      ensures State() == old(State()).(lockedRound := Some(round), lockedBlock := Some(b), validRound := Some(round), validBlock := Some(b))
    {
      validRound, validBlock := Some(round), Some(b);
      lockedRound, lockedBlock := Some(round), Some(b);
    }

    method ToHeight(next: nat)
      requires Valid()
      modifies this
      ensures Valid() && View() == AdvanceHeight(old(View()), next)
    {
      hide DiskAfter;
      ClearRound(next, 0);
      ClearLocks();
      PersistSnapshot();
      AppendWal(HeightAdvanced(next));
    }

    method ToNextRound()
      requires Valid()
      modifies this
      ensures Valid() && View() == AdvanceRound(old(View()))
    {
      hide DiskAfter;
      ClearRound(height, round + 1);
      PersistSnapshot();
      AppendWal(RoundAdvanced(height, round));
    }

    method FinalizeBlock(hash: Hash, commit: Commit) returns (ok: bool)
      requires Valid()
      modifies this
      ensures Valid() && Outcome(View(), ok) == Finalize(cfg, old(View()), hash, commit)
    {
      hide DiskAfter;
      if proposal.None? {
        return false;
      }
      if BlockHash(proposal.value) != hash {
        return true;
      }
      var chosen := CollectPrecommits(hash);
      var valid := ValidateCertificate(proposal.value, Certificate(hash, height, round, chosen));
      if !valid || commit == Refused {
        return false;
      }
      AppendWal(CommitFinalized(height, round, hash));
      if commit == LoggedOnly {
        return false;
      }
      evidence := [];
      if commit == Unsettled {
        return false;
      }
      if height > 10 {
        Trim(height - 10);
      } else {
        assert writes + [] == writes;
      }
      ToHeight(height + 1);
      return true;
    }

    method HandleVoteActions(v: Vote, commit: Commit) returns (ok: bool)
      requires Valid()
      modifies this
      ensures Valid() && Outcome(View(), ok) == HandleVote(cfg, old(View()), v, commit)
    {
      hide RecordVote, EmitPrecommit, Finalize, DiskAfter;
      ok := true;
      var precommit, finalize := Record(v);
      OneRequest(cfg, old(View()), v);
      if precommit.Some? {
        var own := SignPrecommit(precommit.value);
        if own.Some? {
          var _, localFinalize := Record(own.value);
          finalize := if finalize.Some? then finalize else localFinalize;
        }
      }
      if finalize.Some? {
        ok := FinalizeBlock(finalize.value, commit);
      }
    }

    method PrevoteNow(commit: Commit) returns (ok: bool)
      requires Valid()
      modifies this
      ensures Valid() && Outcome(View(), ok) == PrevoteAndHandle(cfg, old(View()), commit)
    {
      hide EmitPrevote, HandleVote, DiskAfter;
      ok := true;
      var own := SignPrevote();
      if own.Some? {
        ok := HandleVoteActions(own.value, commit);
      }
    }

    // ----------------------------------------------------------------
    // Events
    // ----------------------------------------------------------------

    method ReceiveProposal(p: Proposal, verified: bool, commit: Commit) returns (ok: bool)
      requires Valid()
      modifies this
      ensures Valid() && Outcome(View(), ok) == OnProposal(cfg, old(View()), p, verified, commit)
    {
      hide PrevoteAndHandle, DiskAfter;
      if !ValidProposal(cfg, p, verified) {
        return false;
      }
      if p.height != height || p.round != round {
        return true;
      }
      if proposal.Some? {
        var key := (p.validator, p.height, p.round);
        if proposal.value != p.block && key !in processed {
          var ev := Evidence(p.validator, p.height, p.round, ConflictingProposal);
          AppendWal(EvidenceRecorded(ev));
          processed := processed + {key};
          evidence := evidence + [ev];
        }
        return true;
      }
      AppendWal(ProposalAccepted(p.height, p.round, BlockHash(p.block)));
      proposal := Some(p.block);
      ok := PrevoteNow(commit);
    }

    method ProposeBlock(payload: int, commit: Commit) returns (ok: bool)
      requires Valid()
      modifies this
      ensures Valid() && Outcome(View(), ok) == MaybePropose(cfg, old(View()), payload, commit)
    {
      hide PrevoteAndHandle, DiskAfter;
      if cfg.me.None? || cfg.validators == [] || cfg.me.value != ProposerFor(cfg, height, round) || proposal.Some? {
        return true;
      }
      var b := Block(height, round, cfg.me.value, payload);
      AppendWal(ProposalAccepted(height, round, BlockHash(b)));
      proposal := Some(b);
      AppendWal(ProposalBroadcast(height, round, BlockHash(b)));
      assert writes == old(writes) + [Log(ProposalAccepted(height, round, BlockHash(b))), Log(ProposalBroadcast(height, round, BlockHash(b)))];
      ok := PrevoteNow(commit);
    }

    method ImportBlock(b: Block, cert: Certificate, commit: Commit) returns (ok: bool)
      requires Valid()
      modifies this
      ensures Valid() && Outcome(View(), ok) == ImportFinalized(cfg, old(View()), b, cert, commit)
    {
      hide DiskAfter;
      if cert.height < height {
        return true;
      }
      var valid := ValidateCertificate(b, cert);
      if !valid {
        return false;
      }
      AppendWal(CommitFinalized(cert.height, cert.round, cert.hash));
      if commit != Done {
        return false;
      }
      ToHeight(b.height + 1);
      return true;
    }

    method TimeOut(commit: Commit) returns (ok: bool)
      requires Valid()
      modifies this
      ensures Valid() && Outcome(View(), ok) == OnTimeout(cfg, old(View()), commit)
    {
      hide PrevoteAndHandle, DiskAfter;
      ok := PrevoteNow(commit);
      if ok {
        ToNextRound();
      }
    }
  }

  lemma WriteUnfolds(d: Disk, ws: seq<Write>, w: Write)
    ensures DiskAfter(d, ws + [w]) == Perform(DiskAfter(d, ws), w)
  {
    assert (ws + [w])[..|ws|] == ws;
  }

  /** Recording asks for a precommit or for finalization, never both. */
  lemma OneRequest(c: Config, n: Node, v: Vote)
    ensures RecordVote(c, n, v).precommit.None? || RecordVote(c, n, v).finalize.None?
  {
    hide CountVote, Conflicts;
  }
}
