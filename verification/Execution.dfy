/** Native block execution: the transaction rules, the fee split, and the three paths that run them. */
module Execution {
  import opened Common
  import opened Arith
  import opened Sums

  type Address = nat

  const MAX_NONCE: nat := 0x1_0000_0000_0000_0000 - 1
  const TREASURY: Address := 0

  datatype Account = Account(nonce: nat, balance: nat)

  type Accounts = map<Address, Account>

  /** A native transaction; `authentic` stands for the size, chain, memo, key and signature checks. */
  datatype Tx = Tx(sender: Address, recipient: Address, amount: nat, fee: nat, nonce: nat,
                   validUntil: Option<nat>, authentic: bool, id: int)

  datatype Receipt = Receipt(txId: int, height: nat, fee: nat)

  datatype Error = ZeroAmount | ZeroFee | Expired | NotAuthentic | WrongNonce | Poor | AmountOverflow | NonceOverflow

  datatype Result<+T> = Ok(value: T) | Err(error: Error)

  // ------------------------------------------------------------------
  // One transaction
  // ------------------------------------------------------------------

  function Get(s: Accounts, a: Address): Account {
    if a in s then s[a] else Account(0, 0)
  }

  /** `verify_transaction` and the state checks of `validate_transaction`; the total saturates. */
  function Validate(s: Accounts, height: nat, tx: Tx): Option<Error> {
    if tx.amount == 0 then Some(ZeroAmount)
    else if tx.fee == 0 then Some(ZeroFee)
    else if tx.validUntil.Some? && height > tx.validUntil.value then Some(Expired)
    else if !tx.authentic then Some(NotAuthentic)
    else if Get(s, tx.sender).nonce != tx.nonce then Some(WrongNonce)
    else if Get(s, tx.sender).balance < Cap(tx.amount + tx.fee) then Some(Poor)
    else None
  }

  /** Debit and count up the sender, then credit the recipient, who may be the sender. */
  function Transfer(s: Accounts, tx: Tx, total: nat, nonce: nat): Accounts
    requires Get(s, tx.sender).balance >= total
  {
    var s1 := s[tx.sender := Account(nonce, Get(s, tx.sender).balance - total)];
    var to := Get(s1, tx.recipient);
    s1[tx.recipient := to.(balance := Cap(to.balance + tx.amount))]
  }

  /** `apply_transaction`: after validation the arithmetic is checked once more. */
  function ApplyTx(s: Accounts, height: nat, tx: Tx): Result<Accounts> {
    var invalid := Validate(s, height, tx);
    if invalid.Some? then Err(invalid.value)
    else if tx.amount + tx.fee > MAX then Err(AmountOverflow)
    else if Get(s, tx.sender).nonce == MAX_NONCE then Err(NonceOverflow)
    else Ok(Transfer(s, tx, tx.amount + tx.fee, tx.nonce + 1))
  }

  /** The proposal check's own step: a saturated total and a wrapping nonce. */
  function CheckTx(s: Accounts, height: nat, tx: Tx): Result<Accounts> {
    var invalid := Validate(s, height, tx);
    if invalid.Some? then Err(invalid.value)
    else Ok(Transfer(s, tx, Cap(tx.amount + tx.fee), (tx.nonce + 1) % (MAX_NONCE + 1)))
  }

  /** The two steps differ exactly on valid transactions whose total or nonce is out of range. */
  lemma StepsDiffer(s: Accounts, height: nat, tx: Tx)
    requires forall a <- s :: s[a].nonce <= MAX_NONCE
    ensures CheckTx(s, height, tx) != ApplyTx(s, height, tx) <==>
              Validate(s, height, tx).None? && (tx.amount + tx.fee > MAX || tx.nonce == MAX_NONCE)
  {}

  // ------------------------------------------------------------------
  // Lists of transactions and fees
  // ------------------------------------------------------------------

  datatype Executed = Executed(accounts: Accounts, receipts: seq<Receipt>, fees: nat)

  /** The execution loop shared by proposer and validator; it stops at the first error. */
  function Execute(s: Accounts, height: nat, txs: seq<Tx>): Result<Executed> {
    if txs == [] then Ok(Executed(s, [], 0))
    else
      match Execute(s, height, txs[..|txs| - 1])
      case Err(e) => Err(e)
      case Ok(x) =>
        var tx := txs[|txs| - 1];
        match ApplyTx(x.accounts, height, tx)
        case Err(e) => Err(e)
        case Ok(s1) => Ok(Executed(s1, x.receipts + [Receipt(tx.id, height, tx.fee)], x.fees + tx.fee))
  }

  /** The proposal check's loop. */
  function Check(s: Accounts, height: nat, txs: seq<Tx>): Result<Accounts> {
    if txs == [] then Ok(s)
    else
      match Check(s, height, txs[..|txs| - 1])
      case Err(e) => Err(e)
      case Ok(s1) => CheckTx(s1, height, txs[|txs| - 1])
  }

  function Credit(s: Accounts, a: Address, amount: nat): Accounts {
    s[a := Get(s, a).(balance := Cap(Get(s, a).balance + amount))]
  }

  /** Fees go to the proposer, under protocol economics after the treasury's share. */
  function Distribute(s: Accounts, proposer: Address, fees: nat, treasuryBps: Option<nat>): Accounts {
    if treasuryBps.None? then s[proposer := Get(s, proposer).(balance := Get(s, proposer).balance + fees)]
    else
      var cut := TreasuryCut(fees, treasuryBps.value);
      var reward := if cut > fees then 0 else fees - cut;
      Credit(Credit(s, proposer, reward), TREASURY, cut)
  }

  /** The header's roots stand for what they commit to, `id` for the block's hash (0 is the default hash). */
  datatype Block = Block(height: nat, parent: int, proposer: Address, txs: seq<Tx>,
                         txRoot: seq<int>, receiptRoot: seq<Receipt>, stateRoot: Accounts, signed: bool, id: int)

  function ExecuteBlock(s: Accounts, height: nat, proposer: Address, txs: seq<Tx>, bps: Option<nat>): Result<Executed> {
    match Execute(s, height, txs)
    case Err(e) => Err(e)
    case Ok(x) => Ok(x.(accounts := Distribute(x.accounts, proposer, x.fees, bps)))
  }

  // ------------------------------------------------------------------
  // Conservation
  // ------------------------------------------------------------------

  function Balances(s: Accounts): map<Address, nat> {
    map a | a in s :: s[a].balance
  }

  ghost function Supply(s: Accounts): nat {
    Sum(Balances(s))
  }

  lemma PutSupply(s: Accounts, a: Address, x: Account)
    ensures Supply(s[a := x]) + Get(s, a).balance == Supply(s) + x.balance
  {
    assert Balances(s[a := x]) == Balances(s)[a := x.balance];
    SumSet(Balances(s), a, x.balance);
  }

  lemma BalanceWithin(s: Accounts, a: Address)
    ensures Get(s, a).balance <= Supply(s)
  {
    if a in s {
      SumHas(Balances(s), a);
    }
  }

  lemma CreditSupply(s: Accounts, a: Address, amount: nat)
    requires Supply(s) + amount <= MAX
    ensures Supply(Credit(s, a, amount)) == Supply(s) + amount
  {
    BalanceWithin(s, a);
    PutSupply(s, a, Get(s, a).(balance := Get(s, a).balance + amount));
  }

  lemma TransferSupply(s: Accounts, tx: Tx, total: nat, nonce: nat)
    requires Supply(s) <= MAX && tx.amount <= total <= Get(s, tx.sender).balance
    ensures Supply(Transfer(s, tx, total, nonce)) == Supply(s) + tx.amount - total
  {
    var debited := Account(nonce, Get(s, tx.sender).balance - total);
    PutSupply(s, tx.sender, debited);
    CreditSupply(s[tx.sender := debited], tx.recipient, tx.amount);
  }

  lemma {:induction false} ExecuteSupply(s: Accounts, height: nat, txs: seq<Tx>)
    requires Supply(s) <= MAX && Execute(s, height, txs).Ok?
    ensures var x := Execute(s, height, txs).value; Supply(x.accounts) + x.fees == Supply(s)
  {
    if txs != [] {
      ExecuteSupply(s, height, txs[..|txs| - 1]);
      var x := Execute(s, height, txs[..|txs| - 1]).value;
      var tx := txs[|txs| - 1];
      TransferSupply(x.accounts, tx, tx.amount + tx.fee, tx.nonce + 1);
    }
  }

  lemma DistributeSupply(s: Accounts, proposer: Address, fees: nat, bps: Option<nat>)
    requires Supply(s) + fees <= MAX && (bps.Some? ==> bps.value <= 10000)
    ensures Supply(Distribute(s, proposer, fees, bps)) == Supply(s) + fees
  {
    hide Sum, Supply, Credit;
    if bps.None? {
      PutSupply(s, proposer, Get(s, proposer).(balance := Get(s, proposer).balance + fees));
    } else {
      CutFits(fees, bps.value);
      var cut := TreasuryCut(fees, bps.value);
      CreditSupply(s, proposer, fees - cut);
      CreditSupply(Credit(s, proposer, fees - cut), TREASURY, cut);
    }
  }

  /** A block moves value but creates and destroys none: amounts, proposer reward and treasury cut included. */
  lemma BlockConserves(s: Accounts, height: nat, proposer: Address, txs: seq<Tx>, bps: Option<nat>)
    requires Supply(s) <= MAX && (bps.Some? ==> bps.value <= 10000)
    requires ExecuteBlock(s, height, proposer, txs, bps).Ok?
    ensures Supply(ExecuteBlock(s, height, proposer, txs, bps).value.accounts) == Supply(s)
  {
    hide Supply, Distribute, Execute;
    ExecuteSupply(s, height, txs);
    var x := Execute(s, height, txs).value;
    DistributeSupply(x.accounts, proposer, x.fees, bps);
  }

  // ------------------------------------------------------------------
  // Replay safety
  // ------------------------------------------------------------------

  function Count(txs: seq<Tx>, a: Address): nat {
    if txs == [] then 0 else Count(txs[..|txs| - 1], a) + (if txs[|txs| - 1].sender == a then 1 else 0)
  }

  lemma {:induction false} CountPrefix(txs: seq<Tx>, i: nat, a: Address)
    requires i <= |txs|
    ensures Count(txs[..i], a) <= Count(txs, a)
    ensures i < |txs| && txs[i].sender == a ==> Count(txs[..i], a) < Count(txs, a)
  {
    if i == |txs| {
      assert txs[..i] == txs;
    } else {
      assert txs[..|txs| - 1][..i] == txs[..i];
      CountPrefix(txs[..|txs| - 1], i, a);
    }
  }

  /** Transactions in the order executed: each carries its sender's starting nonce plus the number before it. */
  predicate InOrder(s: Accounts, txs: seq<Tx>) {
    forall i :: 0 <= i < |txs| ==> txs[i].nonce == Get(s, txs[i].sender).nonce + Count(txs[..i], txs[i].sender)
  }

  predicate NoncesAdvance(s: Accounts, t: Accounts, txs: seq<Tx>, a: Address) {
    Get(t, a).nonce == Get(s, a).nonce + Count(txs, a)
  }

  lemma {:induction false} ExecuteNonces(s: Accounts, height: nat, txs: seq<Tx>, a: Address)
    requires Execute(s, height, txs).Ok?
    ensures NoncesAdvance(s, Execute(s, height, txs).value.accounts, txs, a)
  {
    if txs != [] {
      ExecuteNonces(s, height, txs[..|txs| - 1], a);
    }
  }

  lemma {:induction false} ExecuteInOrder(s: Accounts, height: nat, txs: seq<Tx>)
    requires Execute(s, height, txs).Ok?
    ensures InOrder(s, txs)
  {
    if txs != [] {
      var front, tx := txs[..|txs| - 1], txs[|txs| - 1];
      ExecuteInOrder(s, height, front);
      ExecuteNonces(s, height, front, tx.sender);
      forall i | 0 <= i < |txs| ensures txs[i].nonce == Get(s, txs[i].sender).nonce + Count(txs[..i], txs[i].sender) {
        if i < |txs| - 1 {
          assert txs[..i] == front[..i] && txs[i] == front[i];
        }
      }
    }
  }

  lemma DistributeNonces(s: Accounts, proposer: Address, fees: nat, bps: Option<nat>, a: Address)
    ensures Get(Distribute(s, proposer, fees, bps), a).nonce == Get(s, a).nonce
  {}

  // ------------------------------------------------------------------
  // Chains
  // ------------------------------------------------------------------

  /** The accounts after a chain of blocks, if every one executes. */
  function Chain(s: Accounts, blocks: seq<Block>, bps: Option<nat>): Result<Accounts> {
    if blocks == [] then Ok(s)
    else
      match Chain(s, blocks[..|blocks| - 1], bps)
      case Err(e) => Err(e)
      case Ok(s1) =>
        var b := blocks[|blocks| - 1];
        match ExecuteBlock(s1, b.height, b.proposer, b.txs, bps)
        case Err(e) => Err(e)
        case Ok(x) => Ok(x.accounts)
  }

  function AllTxs(blocks: seq<Block>): seq<Tx> {
    if blocks == [] then [] else AllTxs(blocks[..|blocks| - 1]) + blocks[|blocks| - 1].txs
  }

  /** The supply is the same after any chain of native blocks. */
  lemma {:induction false} ChainConserves(s: Accounts, blocks: seq<Block>, bps: Option<nat>)
    requires Supply(s) <= MAX && (bps.Some? ==> bps.value <= 10000) && Chain(s, blocks, bps).Ok?
    ensures Supply(Chain(s, blocks, bps).value) == Supply(s)
  {
    if blocks != [] {
      ChainConserves(s, blocks[..|blocks| - 1], bps);
      var b := blocks[|blocks| - 1];
      BlockConserves(Chain(s, blocks[..|blocks| - 1], bps).value, b.height, b.proposer, b.txs, bps);
    }
  }

  lemma {:induction false} CountAppend(a: seq<Tx>, b: seq<Tx>, x: Address)
    ensures Count(a + b, x) == Count(a, x) + Count(b, x)
  {
    if b == [] {
      assert a + b == a;
    } else {
      assert (a + b)[..|a + b| - 1] == a + b[..|b| - 1];
      CountAppend(a, b[..|b| - 1], x);
    }
  }

  /** Each sender's nonce grows by exactly the number of its transactions in the chain. */
  lemma {:induction false} ChainNonces(s: Accounts, blocks: seq<Block>, bps: Option<nat>, a: Address)
    requires Chain(s, blocks, bps).Ok?
    ensures NoncesAdvance(s, Chain(s, blocks, bps).value, AllTxs(blocks), a)
  {
    hide Execute, Distribute;
    if blocks != [] {
      var front, b := blocks[..|blocks| - 1], blocks[|blocks| - 1];
      ChainNonces(s, front, bps, a);
      var s1 := Chain(s, front, bps).value;
      ExecuteNonces(s1, b.height, b.txs, a);
      var x := Execute(s1, b.height, b.txs).value;
      DistributeNonces(x.accounts, b.proposer, x.fees, bps, a);
      CountAppend(AllTxs(front), b.txs, a);
    }
  }

  lemma InOrderAppend(s: Accounts, s1: Accounts, before: seq<Tx>, txs: seq<Tx>)
    requires InOrder(s, before) && InOrder(s1, txs)
    requires forall a: Address :: NoncesAdvance(s, s1, before, a)
    ensures InOrder(s, before + txs)
  {
    var all := before + txs;
    forall i | 0 <= i < |all| ensures all[i].nonce == Get(s, all[i].sender).nonce + Count(all[..i], all[i].sender) {
      if i < |before| {
        assert all[..i] == before[..i];
      } else {
        var j := i - |before|;
        assert all[..i] == before + txs[..j] && all[i] == txs[j];
        CountAppend(before, txs[..j], all[i].sender);
        assert NoncesAdvance(s, s1, before, all[i].sender);
      }
    }
  }

  /** Every transaction of the chain ran at its sender's starting nonce plus the number that sender ran before it. */
  lemma {:induction false} ChainInOrder(s: Accounts, blocks: seq<Block>, bps: Option<nat>)
    requires Chain(s, blocks, bps).Ok?
    ensures InOrder(s, AllTxs(blocks))
  {
    hide Execute, Distribute, Count, NoncesAdvance;
    if blocks != [] {
      var front, b := blocks[..|blocks| - 1], blocks[|blocks| - 1];
      ChainInOrder(s, front, bps);
      var s1 := Chain(s, front, bps).value;
      ExecuteInOrder(s1, b.height, b.txs);
      forall a: Address ensures NoncesAdvance(s, s1, AllTxs(front), a) {
        ChainNonces(s, front, bps, a);
      }
      InOrderAppend(s, s1, AllTxs(front), b.txs);
    }
  }

  /** Replay safety: over a whole chain no pair of sender and nonce executes twice; later means a larger nonce. */
  lemma NoReplay(s: Accounts, blocks: seq<Block>, bps: Option<nat>, i: nat, j: nat)
    requires Chain(s, blocks, bps).Ok? && i < j < |AllTxs(blocks)| && AllTxs(blocks)[i].sender == AllTxs(blocks)[j].sender
    ensures AllTxs(blocks)[i].nonce < AllTxs(blocks)[j].nonce
  {
    ChainInOrder(s, blocks, bps);
    var txs := AllTxs(blocks);
    hide Chain, AllTxs;
    CountPrefix(txs[..j], i, txs[i].sender);
    assert txs[..j][..i] == txs[..i] && txs[..j][i] == txs[i];
  }

  // ------------------------------------------------------------------
  // Proposer, validator and follower
  // ------------------------------------------------------------------

  /** On one transaction: what the sender holds is below the largest amount, so nothing saturates or wraps. */
  lemma StepsAgree(s: Accounts, height: nat, tx: Tx)
    requires Supply(s) < MAX && tx.nonce < MAX_NONCE
    ensures CheckTx(s, height, tx) == ApplyTx(s, height, tx)
  {
    hide Sum, Transfer, Balances;
    BalanceWithin(s, tx.sender);
  }

  /** The proposal check accepts exactly the lists execution accepts, and reaches the same accounts, as long as the
      supply is below the largest amount and no transaction carries the last nonce. */
  lemma {:induction false} CheckAgrees(s: Accounts, height: nat, txs: seq<Tx>)
    requires Supply(s) < MAX && forall tx <- txs :: tx.nonce < MAX_NONCE
    ensures Check(s, height, txs) == match Execute(s, height, txs) case Err(e) => Err(e) case Ok(x) => Ok(x.accounts)
  {
    if txs != [] {
      var front, tx := txs[..|txs| - 1], txs[|txs| - 1];
      hide CheckTx, ApplyTx, Supply;
      assert tx in txs && forall t <- front :: t in txs;
      CheckAgrees(s, height, front);
      if Execute(s, height, front).Ok? {
        ExecuteSupply(s, height, front);
        StepsAgree(Execute(s, height, front).value.accounts, height, tx);
      }
    }
  }

  /** The dry run as its loop goes: from the front, with what has accumulated. */
  function DryRun(s: Accounts, height: nat, txs: seq<Tx>, receipts: seq<Receipt>, fees: nat): Result<Executed>
    decreases |txs|
  {
    if txs == [] then Ok(Executed(s, receipts, fees))
    else
      match ApplyTx(s, height, txs[0])
      case Err(e) => Err(e)
      case Ok(s1) => DryRun(s1, height, txs[1..], receipts + [Receipt(txs[0].id, height, txs[0].fee)], fees + txs[0].fee)
  }

  lemma ExecuteSnoc(s: Accounts, height: nat, done: seq<Tx>, tx: Tx)
    requires Execute(s, height, done).Ok?
    ensures var x := Execute(s, height, done).value;
            Execute(s, height, done + [tx]) ==
              match ApplyTx(x.accounts, height, tx)
              case Err(e) => Err(e)
              case Ok(s1) => Ok(Executed(s1, x.receipts + [Receipt(tx.id, height, tx.fee)], x.fees + tx.fee))
  {
    hide ApplyTx;
    assert (done + [tx])[..|done|] == done;
  }

  lemma {:induction false} DryRunAgrees(s: Accounts, height: nat, done: seq<Tx>, rest: seq<Tx>)
    requires Execute(s, height, done).Ok?
    ensures var x := Execute(s, height, done).value;
            DryRun(x.accounts, height, rest, x.receipts, x.fees) == Execute(s, height, done + rest)
    decreases |rest|
  {
    hide ApplyTx, Execute;
    if rest == [] {
      assert done + rest == done;
    } else {
      var next := done + [rest[0]];
      assert next + rest[1..] == done + rest;
      ExecuteSnoc(s, height, done, rest[0]);
      if Execute(s, height, next).Ok? {
        DryRunAgrees(s, height, next, rest[1..]);
      } else {
        assert (done + rest)[..|next|] == next;
        ErrorSticks(s, height, done + rest, |next|);
      }
    }
  }

  // ------------------------------------------------------------------
  // The loops, on a snapshot updated in place
  // ------------------------------------------------------------------

  class StateSnapshot {
    var accounts: Accounts

    constructor (loaded: Accounts)
      ensures accounts == loaded
    {
      accounts := loaded;
    }

    function Lookup(a: Address): Account
      reads this
    {
      if a in accounts then accounts[a] else Account(0, 0)
    }

    /** Changes nothing on an error. */
    method ApplyTransaction(height: nat, tx: Tx) returns (r: Result<Receipt>)
      modifies this
      ensures match ApplyTx(old(accounts), height, tx)
              case Err(e) => r == Err(e) && accounts == old(accounts)
              case Ok(s) => r == Ok(Receipt(tx.id, height, tx.fee)) && accounts == s
    {
      var invalid := Validate(accounts, height, tx);
      if invalid.Some? {
        return Err(invalid.value);
      }
      var sender := Lookup(tx.sender);
      if tx.amount + tx.fee > MAX {
        return Err(AmountOverflow);
      }
      if sender.nonce == MAX_NONCE {
        return Err(NonceOverflow);
      }
      accounts := accounts[tx.sender := Account(sender.nonce + 1, sender.balance - (tx.amount + tx.fee))];
      var recipient := Lookup(tx.recipient);
      accounts := accounts[tx.recipient := recipient.(balance := Cap(recipient.balance + tx.amount))];
      return Ok(Receipt(tx.id, height, tx.fee));
    }

    /** The loop of `dry_run_transactions`, and the payout that follows it. */
    method DryRunTransactions(height: nat, proposer: Address, txs: seq<Tx>, bps: Option<nat>) returns (r: Result<Executed>)
      modifies this
      ensures match DryRun(old(accounts), height, txs, [], 0)
              case Err(e) => r == Err(e)
              case Ok(x) => accounts == Distribute(x.accounts, proposer, x.fees, bps) && r == Ok(x.(accounts := accounts))
    {
      hide ApplyTx, Distribute;
      var receipts: seq<Receipt>, fees: nat := [], 0;
      for i := 0 to |txs|
        invariant DryRun(old(accounts), height, txs, [], 0) == DryRun(accounts, height, txs[i..], receipts, fees)
      {
        assert txs[i..][1..] == txs[i + 1..];
        var one := ApplyTransaction(height, txs[i]);
        if one.Err? {
          return Err(one.error);
        }
        fees := fees + one.value.fee;
        receipts := receipts + [one.value];
      }
      PayOut(proposer, fees, bps);
      return Ok(Executed(accounts, receipts, fees));
    }

    /** The loop of `prepare_block`: fees and receipts accumulate until an error. */
    method Run(height: nat, txs: seq<Tx>) returns (r: Result<Executed>)
      modifies this
      ensures r == Execute(old(accounts), height, txs)
      ensures r.Ok? ==> accounts == r.value.accounts
    {
      var receipts: seq<Receipt>, fees: nat := [], 0;
      for i := 0 to |txs|
        invariant Execute(old(accounts), height, txs[..i]) == Ok(Executed(accounts, receipts, fees))
      {
        assert txs[..i + 1][..i] == txs[..i];
        var one := ApplyTransaction(height, txs[i]);
        if one.Err? {
          ErrorSticks(old(accounts), height, txs, i + 1);
          return Err(one.error);
        }
        fees := fees + one.value.fee;
        receipts := receipts + [one.value];
      }
      assert txs[..|txs|] == txs;
      return Ok(Executed(accounts, receipts, fees));
    }

    method PayOut(proposer: Address, fees: nat, bps: Option<nat>)
      modifies this
      ensures accounts == Distribute(old(accounts), proposer, fees, bps)
    {
      match bps {
        case None =>
          var to := Lookup(proposer);
          accounts := accounts[proposer := to.(balance := to.balance + fees)];
        case Some(share) =>
          var cut := TreasuryCut(fees, share);
          var reward := if cut > fees then 0 else fees - cut;
          Add(proposer, reward);
          Add(TREASURY, cut);
      }
    }

    /** A saturating credit. */
    method Add(a: Address, amount: nat)
      modifies this
      ensures accounts == Credit(old(accounts), a, amount)
    {
      var to := Lookup(a);
      accounts := accounts[a := to.(balance := Cap(to.balance + amount))];
    }

    /** The transaction loop of the proposal check. */
    method CheckProposal(height: nat, txs: seq<Tx>) returns (r: Result<Accounts>)
      modifies this
      ensures r == Check(old(accounts), height, txs)
    {
      for i := 0 to |txs|
        invariant Check(old(accounts), height, txs[..i]) == Ok(accounts)
      {
        assert txs[..i + 1][..i] == txs[..i];
        var invalid := CheckOne(height, txs[i]);
        if invalid.Some? {
          CheckSticks(old(accounts), height, txs, i + 1);
          return Err(invalid.value);
        }
      }
      assert txs[..|txs|] == txs;
      return Ok(accounts);
    }

    method CheckOne(height: nat, tx: Tx) returns (invalid: Option<Error>)
      modifies this
      ensures match CheckTx(old(accounts), height, tx)
              case Err(e) => invalid == Some(e) && accounts == old(accounts)
              case Ok(s) => invalid == None && accounts == s
    {
      invalid := Validate(accounts, height, tx);
      if invalid.Some? {
        return;
      }
      var sender := Lookup(tx.sender);
      accounts := accounts[tx.sender := Account((sender.nonce + 1) % (MAX_NONCE + 1), sender.balance - Cap(tx.amount + tx.fee))];
      var recipient := Lookup(tx.recipient);
      accounts := accounts[tx.recipient := recipient.(balance := Cap(recipient.balance + tx.amount))];
    }
  }

  lemma {:induction false} ErrorSticks(s: Accounts, height: nat, txs: seq<Tx>, i: nat)
    requires i <= |txs| && Execute(s, height, txs[..i]).Err?
    ensures Execute(s, height, txs) == Execute(s, height, txs[..i])
  {
    if i == |txs| {
      assert txs[..i] == txs;
    } else {
      assert txs[..|txs| - 1][..i] == txs[..i];
      ErrorSticks(s, height, txs[..|txs| - 1], i);
    }
  }

  lemma {:induction false} CheckSticks(s: Accounts, height: nat, txs: seq<Tx>, i: nat)
    requires i <= |txs| && Check(s, height, txs[..i]).Err?
    ensures Check(s, height, txs) == Check(s, height, txs[..i])
  {
    if i == |txs| {
      assert txs[..i] == txs;
    } else {
      assert txs[..|txs| - 1][..i] == txs[..i];
      CheckSticks(s, height, txs[..|txs| - 1], i);
    }
  }
}
