/** Blocks against the store: proposer, finalizing node and follower on the same chain. */
module Replication {
  import opened Common
  import opened Arith
  import opened Execution
  import Staking
  import StakingSnapshot

  // ------------------------------------------------------------------
  // Epoch accounting
  // ------------------------------------------------------------------

  /** The part of the staking records an epoch transition is computed from. */
  datatype Records = Records(epoch: nat, validators: map<Address, Staking.Stake>)

  datatype Protocol = Protocol(params: Staking.Params, epochLength: nat, genesis: seq<Address>)

  datatype Transition = Transition(epoch: nat, height: nat, validators: seq<Address>)

  function Bps(p: Option<Protocol>): Option<nat> {
    if p.Some? then Some(p.value.params.treasuryBps) else None
  }

  predicate Boundary(p: Option<Protocol>, height: nat) {
    p.Some? && p.value.epochLength != 0 && height % p.value.epochLength == 0
  }

  /** The records after the accounting of a block: at a boundary the stale are slashed and the epoch closes. */
  function NextRecords(p: Option<Protocol>, r: Records, height: nat): Records {
    if p.None? then r
    else
      var known := Records(r.epoch, Staking.SeededAll(r.validators, r.epoch, p.value.genesis));
      if !Boundary(p, height) then known
      else Records(known.epoch + 1, Staking.AfterDowntime(known.validators, known.epoch, p.value.params.downtimeBps))
  }

  ghost function TransitionOf(p: Option<Protocol>, r: Records, height: nat): Option<Transition> {
    if !Boundary(p, height) then None
    else
      var closed := NextRecords(p, r, height);
      Some(Transition(closed.epoch, height, Staking.EffectiveValidators(closed.validators, p.value.params)))
  }

  /** The staking side of `apply_block_accounting`, on the ledger itself: seeding, the treasury's cut, and at a boundary
      downtime slashing and the settlement of nothing. */
  method AccountForBlock(staking: StakingSnapshot.Snapshot, p: Protocol, height: nat, fees: nat)
    requires Staking.Sound(staking.View())
    modifies staking
    ensures Staking.Sound(staking.View())
    ensures Records(staking.epoch, staking.validators)
         == NextRecords(Some(p), old(Records(staking.epoch, staking.validators)), height)
    ensures staking.treasury == Cap(old(staking.treasury) + TreasuryCut(fees, p.params.treasuryBps))
  {
    hide Staking.Sound, Staking.Settle, Staking.Punished, Staking.Held, TreasuryCut;
    Staking.SeedingSound(staking.View(), p.genesis);
    staking.EnsureValidators(p.genesis);
    SoundAside(staking.View(), Cap(staking.treasury + TreasuryCut(fees, p.params.treasuryBps)));
    staking.treasury := Cap(staking.treasury + TreasuryCut(fees, p.params.treasuryBps));
    if p.epochLength != 0 && height % p.epochLength == 0 {
      ghost var known := staking.View();
      staking.ApplyDowntimeSlashing(p.params);
      Staking.DowntimeLeaves(known, staking.View(), p.params.downtimeBps);
      PunishedFrame(known, staking.View(), Staking.Stale(known.validators, known.epoch), p.params.downtimeBps);
      ghost var slashed := staking.View();
      Staking.SettleSound(slashed, 0, 0, p.params.treasuryBps);
      Staking.SettlesNothing(slashed, p.params.treasuryBps);
      SettleFrame(slashed, p.params.treasuryBps);
      var _ := staking.SettleEpochRewards(0, 0, p.params);
    }
  }

  lemma SoundAside(l: Staking.Ledger, treasury: nat)
    requires Staking.Sound(l)
    ensures Staking.Sound(l.(treasury := treasury))
  {
    forall v <- l.validators ensures Staking.Backed(l.(treasury := treasury), v) {
      assert Staking.Backed(l, v);
    }
  }

  lemma PunishedFrame(l: Staking.Ledger, m: Staking.Ledger, who: set<Address>, bps: nat)
    requires Staking.Punished(l, m, who, bps)
    ensures m.epoch == l.epoch && m.treasury == l.treasury
  {}

  lemma SettleFrame(l: Staking.Ledger, bps: nat)
    ensures var m := Staking.Settle(l, 0, 0, bps).0; m.validators == l.validators && m.epoch == l.epoch + 1
  {}

  // ------------------------------------------------------------------
  // The store
  // ------------------------------------------------------------------

  /** A finalized block as it is sent and stored; its certificate is checked by consensus. */
  datatype Bundle = Bundle(block: Block, receipts: seq<Receipt>, transition: Option<Transition>)

  /** What block execution reads and writes in the store. */
  datatype Store = Store(accounts: Accounts, blocks: map<nat, Bundle>, byId: map<int, Bundle>, receipts: map<int, Receipt>,
                         records: Records, transitions: map<nat, Transition>)

  /** `latest_block`: the entry of the greatest height. */
  ghost predicate IsLatest(blocks: map<nat, Bundle>, h: nat) {
    h in blocks && forall g <- blocks :: g <= h
  }

  lemma {:induction false} LatestExists(blocks: map<nat, Bundle>)
    requires blocks != map[]
    ensures exists h: nat :: IsLatest(blocks, h)
    decreases |blocks|
  {
    var k :| k in blocks;
    var rest := blocks - {k};
    assert forall g <- blocks :: g == k || g in rest;
    if rest == map[] {
      assert IsLatest(blocks, k);
    } else {
      LatestExists(rest);
      var h: nat :| IsLatest(rest, h);
      assert IsLatest(blocks, if h <= k then k else h);
    }
  }

  ghost function ParentOf(st: Store): int {
    if st.blocks == map[] then 0
    else
      LatestExists(st.blocks);
      var h: nat :| IsLatest(st.blocks, h);
      st.blocks[h].block.id
  }

  function Ids(txs: seq<Tx>): seq<int> {
    seq(|txs|, i requires 0 <= i < |txs| => txs[i].id)
  }

  datatype Rejection = BadSignature | BadParent | BadTx(error: Error) | BadTxRoot | BadReceiptRoot | BadStateRoot
                     | BadReceipts | BadTransition

  datatype Verdict<+T> = Accept(value: T) | Reject(reason: Rejection)

  /** `prepare_block`; a root stands for the list or map it commits to. */
  ghost function Prepare(st: Store, b: Block, p: Option<Protocol>): Verdict<Executed> {
    if !b.signed then Reject(BadSignature)
    else if b.parent != ParentOf(st) then Reject(BadParent)
    else
      match ExecuteBlock(st.accounts, b.height, b.proposer, b.txs, Bps(p))
      case Err(e) => Reject(BadTx(e))
      case Ok(x) =>
        if b.txRoot != Ids(b.txs) then Reject(BadTxRoot)
        else if b.receiptRoot != x.receipts then Reject(BadReceiptRoot)
        else if b.stateRoot != x.accounts then Reject(BadStateRoot)
        else Accept(x)
  }

  /** The block a proposer signs: the dry run with its payout, then the header built on the same store. */
  ghost function Build(st: Store, height: nat, proposer: Address, txs: seq<Tx>, p: Option<Protocol>, id: int): Result<Block> {
    match DryRun(st.accounts, height, txs, [], 0)
    case Err(e) => Err(e)
    case Ok(x) =>
      var after := Distribute(x.accounts, proposer, x.fees, Bps(p));
      Ok(Block(height, ParentOf(st), proposer, txs, Ids(txs), x.receipts, after, true, id))
  }

  /** A block built by the dry run is accepted by the block check, and is built exactly when the proposal check accepts
      its transactions: three loops, one verdict. */
  lemma BuiltBlockAccepted(st: Store, height: nat, proposer: Address, txs: seq<Tx>, p: Option<Protocol>, id: int)
    requires Supply(st.accounts) < MAX && forall tx <- txs :: tx.nonce < MAX_NONCE
    ensures var built := Build(st, height, proposer, txs, p, id);
            && (built.Ok? ==> Prepare(st, built.value, p).Accept?)
            && (built.Ok? <==> Check(st.accounts, height, txs).Ok?)
  {
    hide DryRun, Distribute, Check;
    assert [] + txs == txs;
    DryRunAgrees(st.accounts, height, [], txs);
    CheckAgrees(st.accounts, height, txs);
  }

  function Persist(st: Store, s: Accounts, records: Records, transition: Option<Transition>): Store {
    st.(accounts := st.accounts + s, records := records,
        transitions := if transition.Some? then st.transitions[transition.value.epoch := transition.value] else st.transitions)
  }

  function AddReceipts(m: map<int, Receipt>, rs: seq<Receipt>): map<int, Receipt> {
    if rs == [] then m else AddReceipts(m, rs[..|rs| - 1])[rs[|rs| - 1].txId := rs[|rs| - 1]]
  }

  function CommitBlock(st: Store, f: Bundle, s: Accounts): Store {
    st.(accounts := st.accounts + s, receipts := AddReceipts(st.receipts, f.receipts),
        byId := st.byId[f.block.id := f], blocks := st.blocks[f.block.height := f])
  }

  /** The finalizing node: execute and persist, then commit with the certificate. */
  ghost function FinalizeLocally(st: Store, b: Block, p: Option<Protocol>): Verdict<(Store, Bundle)> {
    match Prepare(st, b, p)
    case Reject(r) => Reject(r)
    case Accept(x) =>
      var transition := TransitionOf(p, st.records, b.height);
      var f := Bundle(b, x.receipts, transition);
      Accept((CommitBlock(Persist(st, x.accounts, NextRecords(p, st.records, b.height), transition), f, x.accounts), f))
  }

  /** The follower: replay, compare receipts and transition, commit, then persist. */
  ghost function ImportFinalized(st: Store, f: Bundle, p: Option<Protocol>): Verdict<Store> {
    match Prepare(st, f.block, p)
    case Reject(r) => Reject(r)
    case Accept(x) =>
      var transition := TransitionOf(p, st.records, f.block.height);
      if x.receipts != f.receipts then Reject(BadReceipts)
      else if transition != f.transition then Reject(BadTransition)
      else Accept(Persist(CommitBlock(st, f, x.accounts), x.accounts, NextRecords(p, st.records, f.block.height), transition))
  }

  // ------------------------------------------------------------------
  // One block
  // ------------------------------------------------------------------

  lemma {:induction false} ExecuteKeepsKeys(s: Accounts, height: nat, txs: seq<Tx>)
    requires Execute(s, height, txs).Ok?
    ensures s.Keys <= Execute(s, height, txs).value.accounts.Keys
  {
    if txs != [] {
      ExecuteKeepsKeys(s, height, txs[..|txs| - 1]);
    }
  }

  lemma DistributeKeepsKeys(s: Accounts, proposer: Address, fees: nat, bps: Option<nat>)
    ensures s.Keys <= Distribute(s, proposer, fees, bps).Keys
  {}

  /** An accepted block leaves exactly the accounts its header commits to. */
  lemma PersistExact(st: Store, b: Block, p: Option<Protocol>)
    requires Prepare(st, b, p).Accept?
    ensures st.accounts + Prepare(st, b, p).value.accounts == b.stateRoot
    ensures FinalizeLocally(st, b, p).value.0.accounts == b.stateRoot
  {
    hide Execute, Distribute, TransitionOf, NextRecords, ParentOf;
    ExecuteKeepsKeys(st.accounts, b.height, b.txs);
    var x := Execute(st.accounts, b.height, b.txs).value;
    DistributeKeepsKeys(x.accounts, b.proposer, x.fees, Bps(p));
    assert st.accounts + b.stateRoot == b.stateRoot;
  }

  /** The two orders leave the same store, holding exactly the accounts the header commits to; a follower refuses
      exactly the bundles it would not have made itself, by receipts or by transition. */
  lemma OrdersAgree(st: Store, f: Bundle, p: Option<Protocol>)
    ensures var local := FinalizeLocally(st, f.block, p);
            var imported := ImportFinalized(st, f, p);
            && (imported.Accept? <==> local.Accept? && local.value.1 == f)
            && (imported.Accept? ==> imported.value == local.value.0 && imported.value.accounts == f.block.stateRoot)
  {
    hide Distribute, Execute, TransitionOf, NextRecords, ParentOf;
    if Prepare(st, f.block, p).Accept? {
      PersistExact(st, f.block, p);
    }
  }

  lemma SameParent(a: Store, b: Store)
    requires a.blocks.Keys == b.blocks.Keys && forall h <- a.blocks :: a.blocks[h].block == b.blocks[h].block
    ensures ParentOf(a) == ParentOf(b)
  {
    if a.blocks != map[] {
      LatestExists(a.blocks);
      LatestExists(b.blocks);
      assert forall h, g: nat :: IsLatest(a.blocks, h) && IsLatest(b.blocks, g) ==> h == g;
    }
  }

  /** A block is accepted exactly when it is signed, names the latest block as its parent, its transactions execute, and
      its header commits to their hashes in order, to the receipts of their execution and to the accounts after it. */
  lemma AcceptedExactly(st: Store, b: Block, p: Option<Protocol>)
    ensures Prepare(st, b, p).Accept? <==>
              && b.signed && b.parent == ParentOf(st)
              && |b.txRoot| == |b.txs| && (forall i :: 0 <= i < |b.txs| ==> b.txRoot[i] == b.txs[i].id)
              && ExecuteBlock(st.accounts, b.height, b.proposer, b.txs, Bps(p)).Ok?
              && var x := ExecuteBlock(st.accounts, b.height, b.proposer, b.txs, Bps(p)).value;
                 b.receiptRoot == x.receipts && b.stateRoot == x.accounts
    ensures Prepare(st, b, p).Accept? ==>
              Ok(Prepare(st, b, p).value) == ExecuteBlock(st.accounts, b.height, b.proposer, b.txs, Bps(p))
  {
    hide ExecuteBlock, ParentOf;
    if |b.txRoot| == |b.txs| && forall i :: 0 <= i < |b.txs| ==> b.txRoot[i] == b.txs[i].id {
      assert b.txRoot == Ids(b.txs);
    }
  }

  /** With economics an accepted block's header commits to the accounts after the split by the protocol's rate, without
      to those after the whole fees went to its proposer. */
  lemma AcceptedPays(st: Store, b: Block, p: Option<Protocol>)
    requires Prepare(st, b, p).Accept?
    ensures var x := Execute(st.accounts, b.height, b.txs);
            && x.Ok?
            && b.stateRoot == Distribute(x.value.accounts, b.proposer, x.value.fees,
                                         if p.Some? then Some(p.value.params.treasuryBps) else None)
  {
    hide Execute, Distribute, ParentOf;
  }

  /** The parent is the block of the greatest height, or the default hash in an empty store. */
  lemma ParentIsLatest(st: Store, h: nat)
    requires h in st.blocks && forall g <- st.blocks :: g <= h
    ensures ParentOf(st) == st.blocks[h].block.id
  {
    assert IsLatest(st.blocks, h);
    assert forall g: nat :: IsLatest(st.blocks, g) ==> g == h;
  }

  /** The last receipt of a transaction among some, if there is one. */
  function LastReceipt(rs: seq<Receipt>, id: int): Option<Receipt> {
    if rs == [] then None
    else if rs[|rs| - 1].txId == id then Some(rs[|rs| - 1])
    else LastReceipt(rs[..|rs| - 1], id)
  }

  lemma {:induction false} LastReceiptAt(rs: seq<Receipt>, i: nat)
    requires i < |rs| && forall j :: i < j < |rs| ==> rs[j].txId != rs[i].txId
    ensures LastReceipt(rs, rs[i].txId) == Some(rs[i])
  {
    if i < |rs| - 1 {
      LastReceiptAt(rs[..|rs| - 1], i);
    }
  }

  lemma {:induction false} ReceiptsFound(m: map<int, Receipt>, rs: seq<Receipt>, id: int)
    ensures var n, last := AddReceipts(m, rs), LastReceipt(rs, id);
            if last.Some? then id in n && n[id] == last.value else (id in n <==> id in m) && (id in m ==> n[id] == m[id])
  {
    if rs != [] {
      ReceiptsFound(m, rs[..|rs| - 1], id);
    }
  }

  /** After a committed block: its bundle is found by its height and by its hash, the written accounts by address, the
      last receipt of each transaction by its hash; every other entry stands, and so do records and transitions. */
  lemma CommitFound(st: Store, f: Bundle, s: Accounts)
    ensures var t := CommitBlock(st, f, s);
            && f.block.height in t.blocks && t.blocks[f.block.height] == f && f.block.id in t.byId && t.byId[f.block.id] == f
            && t.blocks.Keys == st.blocks.Keys + {f.block.height} && t.byId.Keys == st.byId.Keys + {f.block.id}
            && (forall h <- st.blocks :: h != f.block.height ==> t.blocks[h] == st.blocks[h])
            && (forall i <- st.byId :: i != f.block.id ==> t.byId[i] == st.byId[i])
            && t.accounts.Keys == st.accounts.Keys + s.Keys
            && (forall a <- t.accounts :: t.accounts[a] == if a in s then s[a] else st.accounts[a])
            && t.receipts == AddReceipts(st.receipts, f.receipts) && t.records == st.records && t.transitions == st.transitions
  {}

  /** What a follower's store holds after an accepted block. */
  lemma ImportFound(st: Store, f: Bundle, p: Option<Protocol>, i: nat)
    requires ImportFinalized(st, f, p).Accept? && i < |f.receipts|
    requires forall j :: i < j < |f.receipts| ==> f.receipts[j].txId != f.receipts[i].txId
    ensures var t := ImportFinalized(st, f, p).value;
            && f.block.height in t.blocks && t.blocks[f.block.height] == f && f.block.id in t.byId && t.byId[f.block.id] == f
            && f.receipts[i].txId in t.receipts && t.receipts[f.receipts[i].txId] == f.receipts[i]
            && t.records == NextRecords(p, st.records, f.block.height)
            && (f.transition.Some? ==> f.transition.value.epoch in t.transitions
                                       && t.transitions[f.transition.value.epoch] == f.transition.value)
  {
    hide Prepare, TransitionOf, NextRecords;
    LastReceiptAt(f.receipts, i);
    ReceiptsFound(st.receipts, f.receipts, f.receipts[i].txId);
  }

  /** Exactly one height in every epoch length of them closes an epoch, and then the transition names it. */
  lemma BoundaryOnce(p: Protocol, from: nat) returns (h: nat)
    requires p.epochLength > 0
    ensures from <= h < from + p.epochLength && Boundary(Some(p), h)
    ensures forall g: nat :: from <= g < from + p.epochLength && Boundary(Some(p), g) ==> g == h
  {
    var n := p.epochLength;
    h := if from % n == 0 then from else from + (n - from % n);
    forall g: nat | from <= g < from + n ensures Boundary(Some(p), g) <==> g == h {
      var at, q := from % n, from / n;
      assert from == n * q + at;
      if at + (g - from) < n {
        DivModUnique(g, n, q, at + (g - from));
      } else {
        assert n * (q + 1) == n * q + n;
        DivModUnique(g, n, q + 1, at + (g - from) - n);
      }
    }
  }

  // ------------------------------------------------------------------
  // Power lost between the two writes of a block
  // ------------------------------------------------------------------

  /** The store of a finalizing node that persisted a block's accounts and did not get to commit it. */
  ghost function HalfPersisted(st: Store, b: Block, p: Option<Protocol>): Store
    requires Prepare(st, b, p).Accept?
  {
    Persist(st, Prepare(st, b, p).value.accounts, NextRecords(p, st.records, b.height), TransitionOf(p, st.records, b.height))
  }

  /** Transactions that have run do not run again: the first one's nonce is spent. */
  lemma SpentNonce(s: Accounts, height: nat, txs: seq<Tx>, after: Accounts)
    requires Execute(s, height, txs).Ok? && txs != []
    requires forall a: Address :: Get(after, a).nonce == Get(Execute(s, height, txs).value.accounts, a).nonce
    ensures Execute(after, height, txs) == Err(WrongNonce)
  {
    var first, a := txs[..1], txs[0].sender;
    ExecuteNonces(s, height, txs, a);
    CountPrefix(txs, 0, a);
    if Execute(s, height, first).Err? {
      ErrorSticks(s, height, txs, 1);
    }
    FirstRuns(s, height, txs[0]);
    assert first == [txs[0]];
    FirstRuns(after, height, txs[0]);
    assert Get(after, a).nonce > txs[0].nonce;
    ErrorSticks(after, height, txs, 1);
  }

  lemma FirstRuns(s: Accounts, height: nat, tx: Tx)
    ensures Execute(s, height, [tx]) == match ApplyTx(s, height, tx)
                                        case Err(e) => Err(e)
                                        case Ok(s1) => Ok(Executed(s1, [Receipt(tx.id, height, tx.fee)], tx.fee))
  {
    hide ApplyTx;
    assert [tx][..0] == [];
    assert [] + [Receipt(tx.id, height, tx.fee)] == [Receipt(tx.id, height, tx.fee)];
  }

  lemma DistributeNothing(s: Accounts, proposer: Address, bps: Option<nat>)
    ensures var once := Distribute(s, proposer, 0, bps); Distribute(once, proposer, 0, bps) == once
  {
    if bps.Some? {
      assert 0 * bps.value == 0;
      assert TreasuryCut(0, bps.value) == 0;
    }
  }

  lemma HalfAccounts(st: Store, b: Block, p: Option<Protocol>)
    requires Prepare(st, b, p).Accept?
    ensures var half := HalfPersisted(st, b, p);
            && half.accounts == b.stateRoot && half.blocks == st.blocks && ParentOf(half) == b.parent
            && Execute(st.accounts, b.height, b.txs).Ok?
            && b.stateRoot == Distribute(Execute(st.accounts, b.height, b.txs).value.accounts, b.proposer,
                                         Execute(st.accounts, b.height, b.txs).value.fees, Bps(p))
  {
    PersistExact(st, b, p);
    hide Execute, Distribute, TransitionOf, NextRecords, ParentOf;
    SameParent(HalfPersisted(st, b, p), st);
  }

  /** The block that was lost is accepted again if and only if it has no transactions; otherwise its first transaction
      is refused for its nonce. */
  lemma LostBlockRefused(st: Store, b: Block, p: Option<Protocol>)
    requires Prepare(st, b, p).Accept?
    ensures var again := Prepare(HalfPersisted(st, b, p), b, p);
            if b.txs == [] then again.Accept? else again == Reject(BadTx(WrongNonce))
  {
    var half, x := HalfPersisted(st, b, p), Execute(st.accounts, b.height, b.txs).value;
    HalfAccounts(st, b, p);
    hide ParentOf, HalfPersisted;
    if b.txs == [] {
      hide Distribute;
      DistributeNothing(st.accounts, b.proposer, Bps(p));
    } else {
      hide Distribute, ApplyTx;
      forall a: Address ensures Get(half.accounts, a).nonce == Get(x.accounts, a).nonce {
        DistributeNonces(x.accounts, b.proposer, x.fees, Bps(p), a);
      }
      SpentNonce(st.accounts, b.height, b.txs, half.accounts);
    }
  }

  // ------------------------------------------------------------------
  // Chains
  // ------------------------------------------------------------------

  /** A node that finalizes a chain itself. Before each block its staking records are whatever its own liveness notes
      and evidence have made of them. */
  ghost function FinalizeChain(st: Store, blocks: seq<Block>, notes: seq<Records>, p: Option<Protocol>): Verdict<(Store, seq<Bundle>)>
    requires |notes| == |blocks|
  {
    if blocks == [] then Accept((st, []))
    else
      var n := |blocks| - 1;
      match FinalizeChain(st, blocks[..n], notes[..n], p)
      case Reject(r) => Reject(r)
      case Accept(before) =>
        match FinalizeLocally(before.0.(records := notes[n]), blocks[n], p)
        case Reject(r) => Reject(r)
        case Accept(now) => Accept((now.0, before.1 + [now.1]))
  }

  /** A follower fed some bundles. */
  ghost function ImportChain(st: Store, bundles: seq<Bundle>, notes: seq<Records>, p: Option<Protocol>): Verdict<Store>
    requires |notes| == |bundles|
  {
    if bundles == [] then Accept(st)
    else
      var n := |bundles| - 1;
      match ImportChain(st, bundles[..n], notes[..n], p)
      case Reject(r) => Reject(r)
      case Accept(before) => ImportFinalized(before.(records := notes[n]), bundles[n], p)
  }

  function Blocks(bundles: seq<Bundle>): (r: seq<Block>)
    ensures |r| == |bundles|
  {
    seq(|bundles|, i requires 0 <= i < |bundles| => bundles[i].block)
  }

  lemma {:induction false} BundleCount(st: Store, blocks: seq<Block>, notes: seq<Records>, p: Option<Protocol>)
    requires |notes| == |blocks| && FinalizeChain(st, blocks, notes, p).Accept?
    ensures |FinalizeChain(st, blocks, notes, p).value.1| == |blocks|
  {
    hide FinalizeLocally;
    if blocks != [] {
      var n := |blocks| - 1;
      BundleCount(st, blocks[..n], notes[..n], p);
    }
  }

  /** Importing a chain is finalizing it: a follower accepts exactly the bundles it would have made, and ends with the
      store it would have had. */
  lemma {:induction false} ImportIsFinalize(st: Store, bundles: seq<Bundle>, notes: seq<Records>, p: Option<Protocol>)
    requires |notes| == |bundles|
    ensures var local := FinalizeChain(st, Blocks(bundles), notes, p);
            var imported := ImportChain(st, bundles, notes, p);
            && (imported.Accept? <==> local.Accept? && local.value.1 == bundles)
            && (imported.Accept? ==> imported.value == local.value.0)
  {
    hide FinalizeLocally, ImportFinalized;
    if bundles != [] {
      var n := |bundles| - 1;
      ImportIsFinalize(st, bundles[..n], notes[..n], p);
      assert Blocks(bundles)[..n] == Blocks(bundles[..n]);
      var local := FinalizeChain(st, Blocks(bundles[..n]), notes[..n], p);
      if local.Accept? {
        OrdersAgree(local.value.0.(records := notes[n]), bundles[n], p);
        assert bundles == bundles[..n] + [bundles[n]];
        BundleCount(st, Blocks(bundles[..n]), notes[..n], p);
      }
    }
  }

  /** Equal but for the staking records. */
  predicate SameChain(a: Store, b: Store) {
    a.(records := b.records) == b
  }

  /** The same accounts and blocks, whatever transitions they carry. */
  predicate SameBlocks(a: Store, b: Store) {
    && a.accounts == b.accounts && a.blocks.Keys == b.blocks.Keys
    && forall h <- a.blocks :: a.blocks[h].block == b.blocks[h].block
  }

  lemma SamePrepare(a: Store, b: Store, x: Block, p: Option<Protocol>)
    requires SameBlocks(a, b)
    ensures Prepare(a, x, p) == Prepare(b, x, p)
  {
    SameParent(a, b);
    hide ExecuteBlock, ParentOf, SameBlocks;
    assert a.accounts == b.accounts by { SameAccounts(a, b); }
  }

  lemma SameAccounts(a: Store, b: Store)
    requires SameBlocks(a, b)
    ensures a.accounts == b.accounts
  {}

  /** The writes of one block on two stores. */
  lemma SameWrites(a: Store, b: Store, f: Bundle, g: Bundle, s: Accounts, q: Records, r: Records)
    requires f.block == g.block && f.receipts == g.receipts
    ensures var l, m := CommitBlock(Persist(a, s, q, f.transition), f, s), CommitBlock(Persist(b, s, r, g.transition), g, s);
            && (SameBlocks(a, b) ==> SameBlocks(l, m))
            && (SameChain(a, b) && f == g ==> SameChain(l, m))
  {
    hide AddReceipts;
  }

  /** A follower commits first: whatever power it then loses, its store takes the same blocks as the finished one. */
  lemma CommittedFirst(st: Store, f: Bundle, next: Block, p: Option<Protocol>)
    requires ImportFinalized(st, f, p).Accept?
    ensures var half := CommitBlock(st, f, Prepare(st, f.block, p).value.accounts);
            && half.accounts == f.block.stateRoot && half.blocks == st.blocks[f.block.height := f]
            && Prepare(half, next, p) == Prepare(ImportFinalized(st, f, p).value, next, p)
  {
    PersistExact(st, f.block, p);
    OrdersAgree(st, f, p);
    var half, full := CommitBlock(st, f, Prepare(st, f.block, p).value.accounts), ImportFinalized(st, f, p).value;
    assert SameBlocks(half, full) by {
      hide Prepare, TransitionOf, NextRecords;
      assert half.accounts == f.block.stateRoot;
    }
    SamePrepare(half, full, next, p);
    hide Prepare, TransitionOf, NextRecords;
  }

  /** Never again: a finalizing node that lost power after persisting a block with transactions accepts no chain that
      starts with that block. */
  lemma {:induction false} LostForGood(st: Store, b: Block, bundles: seq<Bundle>, notes: seq<Records>, p: Option<Protocol>)
    requires Prepare(st, b, p).Accept? && b.txs != []
    requires |notes| == |bundles| > 0 && bundles[0].block == b
    ensures ImportChain(HalfPersisted(st, b, p), bundles, notes, p).Reject?
  {
    hide Prepare, HalfPersisted, TransitionOf, NextRecords;
    var half, n := HalfPersisted(st, b, p), |bundles| - 1;
    if n == 0 {
      LostBlockRefused(st, b, p);
      SamePrepare(half, half.(records := notes[0]), b, p);
      assert bundles[..0] == [];
    } else {
      LostForGood(st, b, bundles[..n], notes[..n], p);
    }
  }

  /** One block on two stores that differ in their records. */
  lemma RecordsAside(a: Store, b: Store, x: Block, p: Option<Protocol>)
    requires SameBlocks(a, b)
    ensures var l, m := FinalizeLocally(a, x, p), FinalizeLocally(b, x, p);
            && (l.Accept? <==> m.Accept?)
            && (l.Accept? ==>
                  && SameBlocks(l.value.0, m.value.0)
                  && (l.value.1 == m.value.1 <==> SameTransition(p, x.height, a.records, b.records))
                  && (SameChain(a, b) && l.value.1 == m.value.1 ==> SameChain(l.value.0, m.value.0)))
  {
    SamePrepare(a, b, x, p);
    hide Prepare, SameBlocks, SameChain, TransitionOf, NextRecords, CommitBlock, Persist;
    var l, m := FinalizeLocally(a, x, p), FinalizeLocally(b, x, p);
    if l.Accept? {
      SameWrites(a, b, l.value.1, m.value.1, Prepare(a, x, p).value.accounts,
                 NextRecords(p, a.records, x.height), NextRecords(p, b.records, x.height));
    }
  }

  ghost predicate SameTransition(p: Option<Protocol>, height: nat, own: Records, theirs: Records) {
    TransitionOf(p, own, height) == TransitionOf(p, theirs, height)
  }

  /** Two nodes' records give the same transition at every boundary. */
  ghost predicate SameTransitions(p: Option<Protocol>, blocks: seq<Block>, own: seq<Records>, theirs: seq<Records>)
    requires |own| == |theirs| == |blocks|
  {
    forall i :: 0 <= i < |blocks| ==> SameTransition(p, blocks[i].height, own[i], theirs[i])
  }

  lemma TransitionsSnoc(p: Option<Protocol>, blocks: seq<Block>, own: seq<Records>, theirs: seq<Records>)
    requires |own| == |theirs| == |blocks| > 0
    ensures var n := |blocks| - 1;
            SameTransitions(p, blocks, own, theirs) <==>
              SameTransitions(p, blocks[..n], own[..n], theirs[..n]) && SameTransition(p, blocks[n].height, own[n], theirs[n])
  {
    hide SameTransition;
    var n := |blocks| - 1;
    if SameTransitions(p, blocks, own, theirs) {
      forall i | 0 <= i < n ensures SameTransition(p, blocks[..n][i].height, own[..n][i], theirs[..n][i]) {
        assert SameTransition(p, blocks[i].height, own[i], theirs[i]);
      }
    } else if SameTransitions(p, blocks[..n], own[..n], theirs[..n]) && SameTransition(p, blocks[n].height, own[n], theirs[n]) {
      forall i | 0 <= i <= n ensures SameTransition(p, blocks[i].height, own[i], theirs[i]) {
        if i < n {
          assert SameTransition(p, blocks[..n][i].height, own[..n][i], theirs[..n][i]);
        }
      }
    }
  }

  lemma SameRecordsAside(a: Store, b: Store, q: Records, r: Records)
    ensures SameBlocks(a, b) <==> SameBlocks(a.(records := q), b.(records := r))
    ensures SameChain(a, b) <==> SameChain(a.(records := q), b.(records := r))
  {}

  /** Two nodes with the same blocks and their own records. */
  lemma {:induction false} RecordsMatterAtBoundaries(st: Store, blocks: seq<Block>, own: seq<Records>, theirs: seq<Records>, p: Option<Protocol>)
    requires |own| == |theirs| == |blocks|
    ensures var l, m := FinalizeChain(st, blocks, own, p), FinalizeChain(st, blocks, theirs, p);
            && (l.Accept? <==> m.Accept?)
            && (l.Accept? ==>
                  && SameBlocks(l.value.0, m.value.0)
                  && (l.value.1 == m.value.1 <==> SameTransitions(p, blocks, own, theirs))
                  && (l.value.1 == m.value.1 ==> SameChain(l.value.0, m.value.0)))
  {
    hide FinalizeLocally, SameBlocks, SameChain, SameTransition, SameTransitions;
    if blocks == [] {
      StartSame(st, p, own, theirs);
    } else {
      var n := |blocks| - 1;
      RecordsMatterAtBoundaries(st, blocks[..n], own[..n], theirs[..n], p);
      TransitionsSnoc(p, blocks, own, theirs);
      var l, m := FinalizeChain(st, blocks[..n], own[..n], p), FinalizeChain(st, blocks[..n], theirs[..n], p);
      if l.Accept? {
        BundleCount(st, blocks[..n], own[..n], p);
        BundleCount(st, blocks[..n], theirs[..n], p);
        SameRecordsAside(l.value.0, m.value.0, own[n], theirs[n]);
        var a, b := l.value.0.(records := own[n]), m.value.0.(records := theirs[n]);
        RecordsAside(a, b, blocks[n], p);
        if FinalizeLocally(a, blocks[n], p).Accept? {
          LastApart(l.value.1, m.value.1, FinalizeLocally(a, blocks[n], p).value.1, FinalizeLocally(b, blocks[n], p).value.1);
        }
      }
    }
  }

  lemma StartSame(st: Store, p: Option<Protocol>, own: seq<Records>, theirs: seq<Records>)
    requires own == theirs == []
    ensures SameBlocks(st, st) && SameChain(st, st) && SameTransitions(p, [], own, theirs)
  {}

  lemma LastApart<T>(a: seq<T>, b: seq<T>, x: T, y: T)
    requires |a| == |b|
    ensures a + [x] == b + [y] <==> a == b && x == y
  {
    if a + [x] == b + [y] {
      assert a == (a + [x])[..|a|] == (b + [y])[..|a|] == b;
      assert x == (a + [x])[|a|] == (b + [y])[|a|] == y;
    }
  }

  /** Replication: of a chain one node finalized, with its own staking records, a follower with its own accepts the
      bundles if and only if both nodes' records give the same transition at every boundary; then the two stores agree
      in accounts, blocks, receipts and transitions. */
  lemma ReplicasAgree(st: Store, blocks: seq<Block>, own: seq<Records>, theirs: seq<Records>, p: Option<Protocol>)
    requires |own| == |theirs| == |blocks| && FinalizeChain(st, blocks, theirs, p).Accept?
    ensures var (final, bundles) := FinalizeChain(st, blocks, theirs, p).value;
            && |bundles| == |blocks|
            && (ImportChain(st, bundles, own, p).Accept? <==> SameTransitions(p, blocks, own, theirs))
            && (ImportChain(st, bundles, own, p).Accept? ==> SameChain(ImportChain(st, bundles, own, p).value, final))
  {
    hide SameTransitions, SameChain, SameBlocks;
    var (final, bundles) := FinalizeChain(st, blocks, theirs, p).value;
    BundleCount(st, blocks, theirs, p);
    BundlesOf(st, blocks, theirs, p);
    ImportIsFinalize(st, bundles, own, p);
    RecordsMatterAtBoundaries(st, blocks, own, theirs, p);
    hide FinalizeChain, ImportChain;
  }

  lemma {:induction false} BundlesOf(st: Store, blocks: seq<Block>, notes: seq<Records>, p: Option<Protocol>)
    requires |notes| == |blocks| && FinalizeChain(st, blocks, notes, p).Accept?
    ensures Blocks(FinalizeChain(st, blocks, notes, p).value.1) == blocks
  {
    hide FinalizeLocally;
    if blocks != [] {
      var n := |blocks| - 1;
      BundlesOf(st, blocks[..n], notes[..n], p);
      var before := FinalizeChain(st, blocks[..n], notes[..n], p).value;
      BundleOf(before.0.(records := notes[n]), blocks[n], p);
      BlocksSnoc(before.1, FinalizeLocally(before.0.(records := notes[n]), blocks[n], p).value.1);
      hide Blocks;
      assert blocks == blocks[..n] + [blocks[n]];
    }
  }

  lemma BlocksSnoc(bundles: seq<Bundle>, f: Bundle)
    ensures Blocks(bundles + [f]) == Blocks(bundles) + [f.block]
  {}

  lemma BundleOf(st: Store, b: Block, p: Option<Protocol>)
    requires FinalizeLocally(st, b, p).Accept?
    ensures FinalizeLocally(st, b, p).value.1.block == b
  {
    hide Prepare, TransitionOf, NextRecords;
  }

  /** Off the boundaries, and without economics, the records do not matter at all. */
  lemma NoBoundaryNoMatter(p: Option<Protocol>, blocks: seq<Block>, own: seq<Records>, theirs: seq<Records>)
    requires |own| == |theirs| == |blocks| && forall b <- blocks :: !Boundary(p, b.height)
    ensures SameTransitions(p, blocks, own, theirs)
  {
    assert forall i :: 0 <= i < |blocks| ==> blocks[i] in blocks;
  }

  const LIVE := Records(1, map[0 := Staking.Stake(1, 1, 0, Staking.Active, 1)])
  const STALE := Records(1, map[0 := Staking.Stake(1, 1, 0, Staking.Active, 0)])

  /** At a boundary they do: two nodes that differ in when they last heard a validator never accept each other's
      block, whatever it holds. */
  lemma LivenessSplits(st: Store, b: Block, params: Staking.Params)
    requires params.minimumSelfBond <= 1
    requires var p := Some(Protocol(params, 1, [])); Prepare(st.(records := LIVE), b, p).Accept?
    ensures var p := Some(Protocol(params, 1, []));
            var bundle := FinalizeLocally(st.(records := LIVE), b, p).value.1;
            ImportFinalized(st.(records := STALE), bundle, p) == Reject(BadTransition)
  {
    var p := Some(Protocol(params, 1, []));
    LiveSet(params);
    StaleSet(params);
    SamePrepare(st.(records := LIVE), st.(records := STALE), b, p);
    hide Prepare, Staking.EffectiveValidators;
  }

  lemma LiveSet(params: Staking.Params)
    requires params.minimumSelfBond <= 1
    ensures var c := Staking.AfterDowntime(LIVE.validators, 1, params.downtimeBps);
            |Staking.EffectiveValidators(c, params)| == 1
  {
    var c := Staking.AfterDowntime(LIVE.validators, 1, params.downtimeBps);
    assert Staking.EffectiveSet(c, params) == {0};
    Staking.RankedSorts(c, {0});
  }

  lemma StaleSet(params: Staking.Params)
    ensures var c := Staking.AfterDowntime(STALE.validators, 1, params.downtimeBps);
            |Staking.EffectiveValidators(c, params)| == 0
  {
    var c := Staking.AfterDowntime(STALE.validators, 1, params.downtimeBps);
    assert Staking.EffectiveSet(c, params) == {};
  }

  lemma LocalStep(st: Store, b: Block, p: Option<Protocol>)
    requires FinalizeLocally(st, b, p).Accept?
    ensures var x := ExecuteBlock(st.accounts, b.height, b.proposer, b.txs, Bps(p));
            x.Ok? && x.value.accounts == FinalizeLocally(st, b, p).value.0.accounts
  {
    PersistExact(st, b, p);
    hide ExecuteBlock, ParentOf, TransitionOf, NextRecords;
  }

  /** What any accepted chain leaves in the store: the replayed accounts, hence the same supply. */
  lemma {:induction false} StoreFollowsChain(st: Store, blocks: seq<Block>, notes: seq<Records>, p: Option<Protocol>)
    requires |notes| == |blocks| && FinalizeChain(st, blocks, notes, p).Accept?
    ensures Chain(st.accounts, blocks, Bps(p)) == Ok(FinalizeChain(st, blocks, notes, p).value.0.accounts)
    ensures Supply(st.accounts) <= MAX && (p.Some? ==> p.value.params.treasuryBps <= 10000) ==>
              Supply(FinalizeChain(st, blocks, notes, p).value.0.accounts) == Supply(st.accounts)
  {
    hide Supply, ExecuteBlock, FinalizeLocally;
    if blocks != [] {
      var n := |blocks| - 1;
      StoreFollowsChain(st, blocks[..n], notes[..n], p);
      LocalStep(FinalizeChain(st, blocks[..n], notes[..n], p).value.0.(records := notes[n]), blocks[n], p);
    }
    if Supply(st.accounts) <= MAX && (p.Some? ==> p.value.params.treasuryBps <= 10000) {
      ChainConserves(st.accounts, blocks, Bps(p));
    }
  }

  // ------------------------------------------------------------------
  // The in-memory store
  // ------------------------------------------------------------------

  class MemoryStore {
    var accounts: Accounts
    var blocks: map<nat, Bundle>
    var byId: map<int, Bundle>
    var receipts: map<int, Receipt>
    var records: Records
    var transitions: map<nat, Transition>

    constructor ()
      ensures View() == Store(map[], map[], map[], map[], Records(0, map[]), map[])
    {
      accounts, blocks, byId, receipts, records, transitions := map[], map[], map[], map[], Records(0, map[]), map[];
    }

    ghost function View(): Store
      reads this
    {
      Store(accounts, blocks, byId, receipts, records, transitions)
    }

    /** All writes of one block; a later receipt for the same transaction overwrites an earlier one. */
    method AtomicCommitBlock(f: Bundle, written: Accounts)
      modifies `accounts, `blocks, `byId, `receipts
      ensures View() == CommitBlock(old(View()), f, written)
    {
      accounts := accounts + written;
      for i := 0 to |f.receipts|
        invariant accounts == old(accounts) + written && blocks == old(blocks) && byId == old(byId)
        invariant receipts == AddReceipts(old(receipts), f.receipts[..i])
      {
        assert f.receipts[..i + 1][..i] == f.receipts[..i];
        receipts := receipts[f.receipts[i].txId := f.receipts[i]];
      }
      assert f.receipts[..|f.receipts|] == f.receipts;
      byId := byId[f.block.id := f];
      blocks := blocks[f.block.height := f];
    }
  }
}
