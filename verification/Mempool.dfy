/** The pool of pending transactions: five indexes that stand for one map from sender and nonce to transaction. */
module Mempool {
  import opened Common

  const MAX_POOL: nat := 10000
  const MAX_PER_SENDER: nat := 64
  const MAX_U64: nat := 0xFFFF_FFFF_FFFF_FFFF
  const PRIORITY_FEE: nat := 1000

  type Address = nat
  type Key = (Address, nat)
  type Rank = (nat, nat)
  type Pool = map<Key, Tx>

  /** `id` stands for the transaction's hash. */
  datatype Tx = Tx(id: nat, sender: Address, nonce: nat, fee: nat, validUntil: Option<nat>)

  datatype Error = Duplicate | ReplacementFeeTooLow | Full | SenderLimitExceeded | NonceGap(expected: nat, actual: nat)

  /** What the indexes represent: the pending transactions, and the highest nonce ever accepted from each sender. */
  datatype Pending = Pending(pool: Pool, highest: map<Address, nat>)

  function KeyOf(tx: Tx): Key {
    (tx.sender, tx.nonce)
  }

  function RankOf(tx: Tx): Rank {
    (tx.fee, tx.id)
  }

  /** The order of the fee index: by fee, then by hash. */
  predicate AtMost(a: Rank, b: Rank) {
    a.0 < b.0 || (a.0 == b.0 && a.1 <= b.1)
  }

  predicate Expired(tx: Tx, height: nat) {
    tx.validUntil.Some? && height > tx.validUntil.value
  }

  function KeysOf(pool: Pool, a: Address): set<Key> {
    set k | k in pool && k.0 == a
  }

  predicate Has(pool: Pool, id: nat) {
    exists k <- pool :: pool[k].id == id
  }

  // ------------------------------------------------------------------
  // The simple pool
  // ------------------------------------------------------------------

  predicate IsLowest(pool: Pool, k: Key) {
    k in pool && forall j <- pool :: AtMost(RankOf(pool[k]), RankOf(pool[j]))
  }

  lemma {:induction false} GreatestExists(s: set<Rank>)
    requires s != {}
    ensures exists m <- s :: forall x <- s :: AtMost(x, m)
  {
    var k :| k in s;
    var rest := s - {k};
    assert forall x <- s :: x == k || x in rest;
    if rest == {} {
      assert forall x <- s :: AtMost(x, k);
    } else {
      GreatestExists(rest);
      var m :| m in rest && forall x <- rest :: AtMost(x, m);
      var top := if AtMost(k, m) then m else k;
      assert forall x <- s :: AtMost(x, top);
    }
  }

  lemma {:induction false} LeastExists(s: set<Rank>)
    requires s != {}
    ensures exists m <- s :: forall x <- s :: AtMost(m, x)
  {
    var k :| k in s;
    var rest := s - {k};
    assert forall x <- s :: x == k || x in rest;
    if rest == {} {
      assert forall x <- s :: AtMost(k, x);
    } else {
      LeastExists(rest);
      var m :| m in rest && forall x <- rest :: AtMost(m, x);
      var low := if AtMost(m, k) then m else k;
      assert forall x <- s :: AtMost(low, x);
    }
  }

  lemma LowestExists(pool: Pool)
    requires pool != map[]
    ensures exists k: Key :: IsLowest(pool, k)
  {
    var ranks := set k | k in pool :: RankOf(pool[k]);
    var some :| some in pool;
    assert RankOf(pool[some]) in ranks;
    LeastExists(ranks);
    hide AtMost;
    var low :| low in ranks && forall x <- ranks :: AtMost(low, x);
    var k :| k in pool && RankOf(pool[k]) == low;
    forall j | j in pool ensures AtMost(RankOf(pool[k]), RankOf(pool[j])) {
      assert RankOf(pool[j]) in ranks;
    }
    assert IsLowest(pool, k);
  }

  ghost function Lowest(pool: Pool): (k: Key)
    requires pool != map[]
    ensures k in pool && IsLowest(pool, k)
  {
    LowestExists(pool);
    var k: Key :| IsLowest(pool, k);
    k
  }

  /** A per-sender entry, zero when there is none. */
  function OrZero(m: map<Address, nat>, a: Address): nat {
    if a in m then m[a] else 0
  }

  function NonceLimit(highest: map<Address, nat>, a: Address): nat {
    var limit := OrZero(highest, a) + MAX_PER_SENDER;
    if limit > MAX_U64 then MAX_U64 else limit
  }

  /** Why a transaction is refused, if it is; a full pool refuses one that outbids nobody. */
  function Refusal(p: Pending, tx: Tx): Option<Error> {
    if Has(p.pool, tx.id) then Some(Duplicate)
    else if KeyOf(tx) in p.pool then
      if tx.fee <= p.pool[KeyOf(tx)].fee then Some(ReplacementFeeTooLow) else None
    else if |KeysOf(p.pool, tx.sender)| >= MAX_PER_SENDER then Some(SenderLimitExceeded)
    else if tx.nonce > NonceLimit(p.highest, tx.sender) then Some(NonceGap(NonceLimit(p.highest, tx.sender), tx.nonce))
    else if |p.pool| >= MAX_POOL && forall k <- p.pool :: tx.fee <= p.pool[k].fee then Some(Full)
    else None
  }

  ghost function Inserted(p: Pending, tx: Tx): Pending {
    var room := if KeyOf(tx) !in p.pool && |p.pool| >= MAX_POOL then p.pool - {Lowest(p.pool)} else p.pool;
    var h := OrZero(p.highest, tx.sender);
    Pending(room[KeyOf(tx) := tx], p.highest[tx.sender := if tx.nonce > h then tx.nonce else h])
  }

  function Committed(p: Pending, ids: set<nat>): Pending {
    p.(pool := map k | k in p.pool && p.pool[k].id !in ids :: p.pool[k])
  }

  function Unexpired(p: Pending, height: nat): Pending {
    p.(pool := map k | k in p.pool && !Expired(p.pool[k], height) :: p.pool[k])
  }

  // ------------------------------------------------------------------
  // What every operation keeps
  // ------------------------------------------------------------------

  ghost predicate DistinctIds(pool: Pool) {
    forall j, k | j in pool && k in pool && pool[j].id == pool[k].id :: j == k
  }

  ghost predicate Keyed(pool: Pool) {
    forall k <- pool :: KeyOf(pool[k]) == k
  }

  ghost predicate WithinLimits(pool: Pool) {
    |pool| <= MAX_POOL && forall a: Address :: |KeysOf(pool, a)| <= MAX_PER_SENDER
  }

  ghost predicate NoncesSeen(p: Pending) {
    forall k <- p.pool :: k.1 <= OrZero(p.highest, k.0)
  }

  ghost predicate Good(p: Pending) {
    Keyed(p.pool) && DistinctIds(p.pool) && WithinLimits(p.pool) && NoncesSeen(p)
  }

  lemma KeysPut(pool: Pool, tx: Tx, a: Address)
    ensures KeysOf(pool[KeyOf(tx) := tx], a) == KeysOf(pool, a) + (if tx.sender == a then {KeyOf(tx)} else {})
    ensures |KeysOf(pool[KeyOf(tx) := tx], a)| == |KeysOf(pool, a)| + (if tx.sender == a && KeyOf(tx) !in pool then 1 else 0)
  {
    var put := KeysOf(pool[KeyOf(tx) := tx], a);
    assert put == KeysOf(pool, a) + (if tx.sender == a then {KeyOf(tx)} else {});
  }

  lemma KeysTake(pool: Pool, k: Key, a: Address)
    requires k in pool
    ensures |KeysOf(pool - {k}, a)| == |KeysOf(pool, a)| - (if k.0 == a then 1 else 0)
  {
    assert KeysOf(pool - {k}, a) == KeysOf(pool, a) - {k};
  }

  lemma SizeTake(pool: Pool, k: Key)
    requires k in pool
    ensures |pool - {k}| == |pool| - 1
  {
    assert (pool - {k}).Keys == pool.Keys - {k};
  }

  lemma SubPoolGood(p: Pending, pool: Pool)
    requires Good(p) && pool.Keys <= p.pool.Keys && forall k <- pool :: pool[k] == p.pool[k]
    ensures Good(p.(pool := pool))
  {
    SubsetSize(pool.Keys, p.pool.Keys);
    forall a: Address ensures |KeysOf(pool, a)| <= MAX_PER_SENDER {
      SubsetSize(KeysOf(pool, a), KeysOf(p.pool, a));
    }
  }

  lemma PutWithin(pool: Pool, tx: Tx)
    requires WithinLimits(pool)
    requires KeyOf(tx) in pool || (|pool| < MAX_POOL && |KeysOf(pool, tx.sender)| < MAX_PER_SENDER)
    ensures WithinLimits(pool[KeyOf(tx) := tx])
  {
    var put := pool[KeyOf(tx) := tx];
    if KeyOf(tx) in pool {
      assert put.Keys == pool.Keys;
    }
    forall a: Address ensures |KeysOf(put, a)| <= MAX_PER_SENDER {
      KeysPut(pool, tx, a);
    }
  }

  lemma PutGood(p: Pending, tx: Tx, highest: map<Address, nat>)
    requires Good(p) && !Has(p.pool, tx.id)
    requires KeyOf(tx) in p.pool || (|p.pool| < MAX_POOL && |KeysOf(p.pool, tx.sender)| < MAX_PER_SENDER)
    requires forall a: Address :: OrZero(p.highest, a) <= OrZero(highest, a)
    requires tx.nonce <= OrZero(highest, tx.sender)
    ensures Good(Pending(p.pool[KeyOf(tx) := tx], highest))
  {
    PutWithin(p.pool, tx);
    hide WithinLimits, KeysOf, OrZero;
  }

  lemma InsertKeeps(p: Pending, tx: Tx)
    requires Good(p) && Refusal(p, tx).None?
    ensures Good(Inserted(p, tx))
  {
    hide AtMost;
    var room := if KeyOf(tx) !in p.pool && |p.pool| >= MAX_POOL then p.pool - {Lowest(p.pool)} else p.pool;
    SubPoolGood(p, room);
    if room != p.pool {
      SizeTake(p.pool, Lowest(p.pool));
      KeysTake(p.pool, Lowest(p.pool), tx.sender);
    }
    PutGood(p.(pool := room), tx, Inserted(p, tx).highest);
  }

  datatype Op = Insert(tx: Tx) | RemoveCommitted(ids: set<nat>) | EvictExpired(height: nat)

  ghost function Step(p: Pending, op: Op): Pending {
    match op
    case Insert(tx) => if Refusal(p, tx).Some? then p else Inserted(p, tx)
    case RemoveCommitted(ids) => Committed(p, ids)
    case EvictExpired(height) => Unexpired(p, height)
  }

  ghost function Run(ops: seq<Op>): Pending {
    if ops == [] then Pending(map[], map[]) else Step(Run(ops[..|ops| - 1]), ops[|ops| - 1])
  }

  /** After any operations: at most 10000 transactions, at most 64 from one sender, one for each sender and nonce, no
      two with one hash, none above its sender's recorded nonce. */
  lemma {:induction false} RunKeeps(ops: seq<Op>)
    ensures Good(Run(ops))
  {
    hide Refusal, Inserted;
    if ops == [] {
      assert forall a: Address :: KeysOf(map[], a) == {};
    } else {
      var p := Run(ops[..|ops| - 1]);
      RunKeeps(ops[..|ops| - 1]);
      match ops[|ops| - 1]
      case Insert(tx) => if Refusal(p, tx).None? { InsertKeeps(p, tx); }
      case RemoveCommitted(ids) => SubPoolGood(p, Committed(p, ids).pool);
      case EvictExpired(height) => SubPoolGood(p, Unexpired(p, height).pool);
    }
  }

  /** A full pool that lets a transaction in has a lowest one with a strictly lower fee. */
  lemma LowestOutbid(p: Pending, tx: Tx)
    requires |p.pool| == MAX_POOL && Refusal(p, tx).None? && KeyOf(tx) !in p.pool
    ensures p.pool[Lowest(p.pool)].fee < tx.fee
  {
    hide KeysOf;
    var low := Lowest(p.pool);
    var beaten :| beaten in p.pool && p.pool[beaten].fee < tx.fee;
    assert AtMost(RankOf(p.pool[low]), RankOf(p.pool[beaten]));
  }

  /** The inserts among some operations that name a sender. */
  function InsertsBy(ops: seq<Op>, a: Address): nat {
    if ops == [] then 0
    else
      var op := ops[|ops| - 1];
      InsertsBy(ops[..|ops| - 1], a) + if op.Insert? && op.tx.sender == a then 1 else 0
  }

  lemma StepReach(p: Pending, op: Op, a: Address)
    requires Good(p)
    ensures OrZero(Step(p, op).highest, a)
         <= OrZero(p.highest, a) + if op.Insert? && op.tx.sender == a then MAX_PER_SENDER else 0
  {
    hide KeysOf, Has;
    if op.Insert? && KeyOf(op.tx) in p.pool && Refusal(p, op.tx).None? {
      assert op.tx.nonce <= OrZero(p.highest, op.tx.sender);
    }
  }

  /** Nonces climb by at most 64 an insert from zero, whatever the account's nonce on the chain: a pool that has not
      seen a sender refuses any nonce above 64 from it. */
  lemma {:induction false} NonceReach(ops: seq<Op>, a: Address)
    ensures OrZero(Run(ops).highest, a) <= MAX_PER_SENDER * InsertsBy(ops, a)
    ensures InsertsBy(ops, a) == 0 ==>
              forall tx: Tx :: tx.sender == a && tx.nonce > MAX_PER_SENDER ==> Refusal(Run(ops), tx).Some?
  {
    RunKeeps(ops);
    hide Step, KeysOf, Has;
    if ops != [] {
      RunKeeps(ops[..|ops| - 1]);
      NonceReach(ops[..|ops| - 1], a);
      StepReach(Run(ops[..|ops| - 1]), ops[|ops| - 1], a);
    }
  }

  /** When an insert is accepted, exactly: its hash is new, and it either outbids the pending transaction of its sender
      and nonce, or is within the sender's 64 and at most 64 nonces ahead and finds room, a full pool having room if it
      holds something cheaper. */
  lemma AcceptedExactly(p: Pending, tx: Tx)
    ensures Refusal(p, tx).None? <==>
              && (forall k <- p.pool :: p.pool[k].id != tx.id)
              && if (tx.sender, tx.nonce) in p.pool then p.pool[(tx.sender, tx.nonce)].fee < tx.fee
                 else
                   && |set k | k in p.pool && k.0 == tx.sender| < 64
                   && tx.nonce <= (if tx.sender in p.highest then p.highest[tx.sender] else 0) + 64
                   && tx.nonce <= MAX_U64
                   && (|p.pool| < 10000 || exists k <- p.pool :: p.pool[k].fee < tx.fee)
  {
    assert KeysOf(p.pool, tx.sender) == set k | k in p.pool && k.0 == tx.sender;
  }

  /** Which reason is given: the first that applies, a pending hash before everything, the replaced fee only for a
      replacement, and a full pool last. */
  lemma RefusedFor(p: Pending, tx: Tx)
    ensures var again, taken := (exists k <- p.pool :: p.pool[k].id == tx.id), (tx.sender, tx.nonce) in p.pool;
            var count := |set k | k in p.pool && k.0 == tx.sender|;
            var far := tx.nonce > NonceLimit(p.highest, tx.sender);
            && (Refusal(p, tx) == Some(Duplicate) <==> again)
            && (Refusal(p, tx) == Some(ReplacementFeeTooLow) <==>
                  !again && taken && tx.fee <= p.pool[(tx.sender, tx.nonce)].fee)
            && (Refusal(p, tx) == Some(SenderLimitExceeded) <==> !again && !taken && count >= 64)
            && (Refusal(p, tx) == Some(NonceGap(NonceLimit(p.highest, tx.sender), tx.nonce)) <==>
                  !again && !taken && count < 64 && far)
            && (Refusal(p, tx) == Some(Full) <==>
                  !again && !taken && count < 64 && !far && |p.pool| >= 10000 && forall k <- p.pool :: p.pool[k].fee >= tx.fee)
  {
    assert KeysOf(p.pool, tx.sender) == set k | k in p.pool && k.0 == tx.sender;
  }

  /** A replacement of a pending transaction is accepted exactly on a strictly higher fee, and takes its place. */
  lemma ReplacedExactly(p: Pending, tx: Tx)
    requires KeyOf(tx) in p.pool && !Has(p.pool, tx.id)
    ensures Refusal(p, tx) == if p.pool[KeyOf(tx)].fee < tx.fee then None else Some(ReplacementFeeTooLow)
    ensures Inserted(p, tx).pool == p.pool[KeyOf(tx) := tx]
  {}

  lemma EvictDisplaces(p: Pool, low: Key, tx: Tx)
    requires low in p && IsLowest(p, low) && p[low].fee < tx.fee && KeyOf(tx) !in p && |p| == MAX_POOL
    ensures Displaces(p, (p - {low})[KeyOf(tx) := tx], tx)
  {
    hide IsLowest;
    SizeTake(p, low);
  }

  lemma PutDisplaces(p: Pool, tx: Tx)
    requires if KeyOf(tx) in p then p[KeyOf(tx)].fee < tx.fee else |p| < MAX_POOL
    ensures Displaces(p, p[KeyOf(tx) := tx], tx)
  {
    hide IsLowest;
    if KeyOf(tx) in p {
      assert p[KeyOf(tx) := tx].Keys == p.Keys;
    }
  }

  /** An accepted insert is there afterwards and displaces at most one transaction, with a strictly lower fee: the one
      it replaces, or the lowest of a full pool. */
  lemma InsertDisplaces(p: Pending, tx: Tx)
    requires Good(p) && Refusal(p, tx).None?
    ensures Displaces(p.pool, Inserted(p, tx).pool, tx)
  {
    hide Good, KeysOf, IsLowest, Has, NonceLimit, Displaces;
    GoodSize(p);
    if KeyOf(tx) !in p.pool && |p.pool| == MAX_POOL {
      LowestOutbid(p, tx);
      EvictDisplaces(p.pool, Lowest(p.pool), tx);
    } else {
      PutDisplaces(p.pool, tx);
    }
  }

  lemma GoodSize(p: Pending)
    requires Good(p)
    ensures |p.pool| <= MAX_POOL
  {}

  ghost predicate Displaces(p: Pool, q: Pool, tx: Tx) {
    && KeyOf(tx) in q && q[KeyOf(tx)] == tx
    && (forall k <- q :: k == KeyOf(tx) || (k in p && q[k] == p[k]))
    && (forall k <- p :: (k in q && q[k] == p[k])
                         || (p[k].fee < tx.fee && (k == KeyOf(tx) || (|p| == MAX_POOL && IsLowest(p, k)))))
    && (KeyOf(tx) in p ==> p[KeyOf(tx)].fee < tx.fee)
    && (KeyOf(tx) !in p && |p| == MAX_POOL ==> exists k <- p :: k !in q && IsLowest(p, k) && p[k].fee < tx.fee)
    && |q| == (if KeyOf(tx) in p || |p| == MAX_POOL then |p| else |p| + 1)
  }

  /** An insert, accepted or refused, never lowers the least fee of a full pool, and leaves it full. */
  lemma FullPoolFloor(p: Pending, tx: Tx, floor: nat)
    requires Good(p) && |p.pool| == MAX_POOL && forall k <- p.pool :: floor <= p.pool[k].fee
    ensures var q := Step(p, Insert(tx)).pool; |q| == MAX_POOL && forall k <- q :: floor <= q[k].fee
  {
    hide Good, Refusal, Inserted, IsLowest;
    if Refusal(p, tx).None? {
      InsertDisplaces(p, tx);
    }
  }
}
