/** Who pays and who is paid: execution read off the list of transactions, address by address. */
module Payments {
  import opened Common
  import opened Arith
  import opened Sums
  import opened Execution
  import Mempool

  // ------------------------------------------------------------------
  // Admission
  // ------------------------------------------------------------------

  /** A transaction runs exactly when it is authentic, unexpired at its height and positive in amount and fee, carries
      its sender's nonce, and the sender holds its total; total and next nonce in range. */
  lemma RunsExactly(s: Accounts, height: nat, tx: Tx)
    requires forall a <- s :: s[a].balance <= MAX && s[a].nonce <= MAX_NONCE
    ensures ApplyTx(s, height, tx).Ok? <==>
              && tx.authentic && tx.amount > 0 && tx.fee > 0
              && (tx.validUntil.Some? ==> height <= tx.validUntil.value)
              && tx.nonce == Get(s, tx.sender).nonce && tx.nonce < MAX_NONCE
              && tx.amount + tx.fee <= Get(s, tx.sender).balance
  {}

  /** What running a transaction needs and does: the sender pays amount and fee and spends a nonce, the recipient gets
      the amount, also when they are one; everybody else stands. */
  lemma RunMoves(s: Accounts, height: nat, tx: Tx, a: Address)
    requires Supply(s) <= MAX && ApplyTx(s, height, tx).Ok?
    ensures var t := ApplyTx(s, height, tx).value;
            && Get(t, a).balance + (if a == tx.sender then tx.amount + tx.fee else 0)
               == Get(s, a).balance + (if a == tx.recipient then tx.amount else 0)
            && Get(t, a).nonce == Get(s, a).nonce + (if a == tx.sender then 1 else 0)
  {
    var debited := Account(tx.nonce + 1, Get(s, tx.sender).balance - (tx.amount + tx.fee));
    PutSupply(s, tx.sender, debited);
    BalanceWithin(s[tx.sender := debited], tx.recipient);
    hide Supply, Sum, Balances;
  }

  /** The pool evicts a transaction for its age exactly when execution would refuse it for that. */
  lemma ExpiryAgrees(s: Accounts, height: nat, tx: Tx, pooled: Mempool.Tx)
    requires pooled.validUntil == tx.validUntil && tx.amount > 0 && tx.fee > 0
    ensures Mempool.Expired(pooled, height) <==> ApplyTx(s, height, tx) == Err(Expired)
  {}

  // ------------------------------------------------------------------
  // Lists
  // ------------------------------------------------------------------

  function Sent(txs: seq<Tx>, a: Address): nat {
    if txs == [] then 0
    else
      var tx := txs[|txs| - 1];
      Sent(txs[..|txs| - 1], a) + if tx.sender == a then tx.amount + tx.fee else 0
  }

  function Received(txs: seq<Tx>, a: Address): nat {
    if txs == [] then 0
    else
      var tx := txs[|txs| - 1];
      Received(txs[..|txs| - 1], a) + if tx.recipient == a then tx.amount else 0
  }

  function Fees(txs: seq<Tx>): nat {
    if txs == [] then 0 else Fees(txs[..|txs| - 1]) + txs[|txs| - 1].fee
  }

  /** Every balance after a list is the one before, less what the address sent, plus what it received. */
  lemma {:induction false} BalanceMoves(s: Accounts, height: nat, txs: seq<Tx>, a: Address)
    requires Supply(s) <= MAX && Execute(s, height, txs).Ok?
    ensures Get(Execute(s, height, txs).value.accounts, a).balance + Sent(txs, a) == Get(s, a).balance + Received(txs, a)
  {
    hide Supply, ApplyTx;
    if txs != [] {
      var front, tx := txs[..|txs| - 1], txs[|txs| - 1];
      BalanceMoves(s, height, front, a);
      ExecuteSupply(s, height, front);
      RunMoves(Execute(s, height, front).value.accounts, height, tx, a);
    }
  }

  /** One receipt a transaction, with its hash, height and fee, and the sum of the fees. */
  lemma {:induction false} ReceiptsMatch(s: Accounts, height: nat, txs: seq<Tx>)
    requires Execute(s, height, txs).Ok?
    ensures var x := Execute(s, height, txs).value;
            && |x.receipts| == |txs| && x.fees == Fees(txs)
            && forall i :: 0 <= i < |txs| ==> x.receipts[i] == Receipt(txs[i].id, height, txs[i].fee)
  {
    hide ApplyTx;
    if txs != [] {
      ReceiptsMatch(s, height, txs[..|txs| - 1]);
    }
  }

  /** What held when a transaction of the list ran. */
  predicate Sanctioned(s: Accounts, height: nat, tx: Tx) {
    && tx.authentic && tx.amount > 0 && tx.fee > 0 && (tx.validUntil.Some? ==> height <= tx.validUntil.value)
    && Get(s, tx.sender).nonce == tx.nonce && tx.amount + tx.fee <= Get(s, tx.sender).balance
  }

  /** Every transaction of an executed list was authentic, unexpired and positive, in turn, and covered by its sender's
      balance just before. */
  lemma {:induction false} AllSanctioned(s: Accounts, height: nat, txs: seq<Tx>, i: nat)
    requires Supply(s) <= MAX && Execute(s, height, txs).Ok? && i < |txs|
    ensures Execute(s, height, txs[..i]).Ok? && Sanctioned(Execute(s, height, txs[..i]).value.accounts, height, txs[i])
  {
    var front := txs[..|txs| - 1];
    if i == |txs| - 1 {
      ExecuteSupply(s, height, front);
      BalanceWithin(Execute(s, height, front).value.accounts, txs[i].sender);
      hide Supply;
    } else {
      hide ApplyTx, Supply;
      assert front[..i] == txs[..i];
      AllSanctioned(s, height, front, i);
    }
  }

  // ------------------------------------------------------------------
  // Fees
  // ------------------------------------------------------------------

  /** The treasury gets its basis points of the fees, rounded down, and the proposer the rest; if they are one account it
      gets all; nobody else gets anything, and nonces stand. */
  lemma FeeSplit(s: Accounts, proposer: Address, fees: nat, bps: nat, a: Address)
    requires bps <= 10000 && fees * bps <= MAX && Supply(s) + fees <= MAX
    ensures var t := Distribute(s, proposer, fees, Some(bps));
            var g := Get(t, TREASURY).balance - Get(s, TREASURY).balance;
            if proposer == TREASURY then g == fees
            else
              && 10000 * g <= fees * bps < 10000 * (g + 1)
              && Get(t, proposer).balance == Get(s, proposer).balance + fees - g
    ensures var t := Distribute(s, proposer, fees, Some(bps));
            && (a != proposer && a != TREASURY ==> Get(t, a) == Get(s, a))
            && Get(t, a).nonce == Get(s, a).nonce
  {
    CutExact(fees, bps);
    CutFits(fees, bps);
    BalanceWithin(s, proposer);
    BalanceWithin(s, TREASURY);
    hide Supply, TreasuryCut;
  }

  /** Without economics the proposer gets all the fees. */
  lemma FeeWhole(s: Accounts, proposer: Address, fees: nat, a: Address)
    ensures var t := Distribute(s, proposer, fees, None);
            Get(t, a) == if a == proposer then Account(Get(s, a).nonce, Get(s, a).balance + fees) else Get(s, a)
  {}

  // ------------------------------------------------------------------
  // Chains
  // ------------------------------------------------------------------

  /** What an address earns in fees from a block. */
  function Earned(b: Block, bps: Option<nat>, a: Address): nat {
    var fees := Fees(b.txs);
    var cut := if bps.Some? then fees * bps.value / 10000 else 0;
    (if a == b.proposer && cut <= fees then fees - cut else 0) + if bps.Some? && a == TREASURY then cut else 0
  }

  function AllEarned(blocks: seq<Block>, bps: Option<nat>, a: Address): nat {
    if blocks == [] then 0 else AllEarned(blocks[..|blocks| - 1], bps, a) + Earned(blocks[|blocks| - 1], bps, a)
  }

  lemma FeeEarned(s: Accounts, b: Block, bps: Option<nat>, a: Address)
    requires bps.Some? ==> bps.value <= 10000 && Fees(b.txs) * bps.value <= MAX
    requires Supply(s) + Fees(b.txs) <= MAX
    ensures Get(Distribute(s, b.proposer, Fees(b.txs), bps), a).balance == Get(s, a).balance + Earned(b, bps, a)
  {
    var fees := Fees(b.txs);
    if bps.None? {
      FeeWhole(s, b.proposer, fees, a);
    } else {
      FeeSplit(s, b.proposer, fees, bps.value, a);
      FeeSplit(s, b.proposer, fees, bps.value, b.proposer);
      CutExact(fees, bps.value);
      CutFits(fees, bps.value);
      assert TreasuryCut(fees, bps.value) == fees * bps.value / 10000;
      if b.proposer != TREASURY {
        EarnedCut(s, b.proposer, fees, bps.value);
      }
      hide Distribute, TreasuryCut, Supply;
    }
  }

  lemma EarnedCut(s: Accounts, proposer: Address, fees: nat, bps: nat)
    requires bps <= 10000 && fees * bps <= MAX && Supply(s) + fees <= MAX && proposer != TREASURY
    ensures Get(Distribute(s, proposer, fees, Some(bps)), TREASURY).balance == Get(s, TREASURY).balance + fees * bps / 10000
  {
    FeeSplit(s, proposer, fees, bps, proposer);
    var g := Get(Distribute(s, proposer, fees, Some(bps)), TREASURY).balance - Get(s, TREASURY).balance;
    hide Distribute, Supply;
    DivModUnique(fees * bps, 10000, g, fees * bps - 10000 * g);
  }

  lemma {:induction false} AppendMoves(x: seq<Tx>, y: seq<Tx>, a: Address)
    ensures Sent(x + y, a) == Sent(x, a) + Sent(y, a) && Received(x + y, a) == Received(x, a) + Received(y, a)
  {
    if y == [] {
      assert x + y == x;
    } else {
      assert (x + y)[..|x + y| - 1] == x + y[..|y| - 1];
      AppendMoves(x, y[..|y| - 1], a);
    }
  }

  /** Over a whole chain: every balance at the end is the one at the start, less what the address sent, plus what it
      received, plus the fees it earned as proposer or treasury. */
  lemma {:induction false} ChainMoves(s: Accounts, blocks: seq<Block>, bps: Option<nat>, a: Address)
    requires Chain(s, blocks, bps).Ok? && Supply(s) <= MAX
    requires bps.Some? ==> bps.value <= 10000 && Supply(s) * bps.value <= MAX
    ensures Get(Chain(s, blocks, bps).value, a).balance + Sent(AllTxs(blocks), a)
         == Get(s, a).balance + Received(AllTxs(blocks), a) + AllEarned(blocks, bps, a)
  {
    hide Supply, Distribute, Execute, Earned;
    if blocks != [] {
      var front, b := blocks[..|blocks| - 1], blocks[|blocks| - 1];
      ChainMoves(s, front, bps, a);
      ChainConserves(s, front, bps);
      var s1 := Chain(s, front, bps).value;
      BlockMoves(s1, b, bps, a);
      AppendMoves(AllTxs(front), b.txs, a);
    }
  }

  lemma BlockMoves(s: Accounts, b: Block, bps: Option<nat>, a: Address)
    requires Supply(s) <= MAX && ExecuteBlock(s, b.height, b.proposer, b.txs, bps).Ok?
    requires bps.Some? ==> bps.value <= 10000 && Supply(s) * bps.value <= MAX
    ensures Get(ExecuteBlock(s, b.height, b.proposer, b.txs, bps).value.accounts, a).balance + Sent(b.txs, a)
         == Get(s, a).balance + Received(b.txs, a) + Earned(b, bps, a)
  {
    hide Supply, Distribute, Execute, Earned, Sent, Received;
    BalanceMoves(s, b.height, b.txs, a);
    ExecuteSupply(s, b.height, b.txs);
    ReceiptsMatch(s, b.height, b.txs);
    var x := Execute(s, b.height, b.txs).value;
    if bps.Some? {
      MulMono(bps.value, x.fees, Supply(s));
    }
    FeeEarned(x.accounts, b, bps, a);
  }
}
