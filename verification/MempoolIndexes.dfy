/** The pool as it is stored: five indexes updated in place, and the two selections that read them. */
module MempoolIndexes {
  import opened Common
  import opened Mempool

  ghost predicate HashIndex(byHash: map<nat, Tx>, pool: Pool) {
    && (forall k <- pool :: KeyOf(pool[k]) == k && pool[k].id in byHash && byHash[pool[k].id] == pool[k])
    && (forall id <- byHash :: byHash[id].id == id && KeyOf(byHash[id]) in pool && pool[KeyOf(byHash[id])] == byHash[id])
    && |byHash| == |pool|
  }

  ghost predicate NonceIndex(bySenderNonce: map<Key, nat>, pool: Pool) {
    && bySenderNonce.Keys == pool.Keys
    && forall k <- pool :: bySenderNonce[k] == pool[k].id
  }

  ghost predicate FeeIndex(order: set<Rank>, pool: Pool) {
    && (forall k <- pool :: RankOf(pool[k]) in order)
    && (forall r <- order :: exists k <- pool :: RankOf(pool[k]) == r)
  }

  /** A sender without transactions may have a zero entry or none. */
  ghost predicate CountIndex(counts: map<Address, nat>, pool: Pool) {
    forall a: Address :: OrZero(counts, a) == |KeysOf(pool, a)|
  }

  lemma HashTake(byHash: map<nat, Tx>, pool: Pool, k: Key)
    requires HashIndex(byHash, pool) && k in pool
    ensures HashIndex(byHash - {pool[k].id}, pool - {k})
  {
    SizeTake(pool, k);
    assert (byHash - {pool[k].id}).Keys == byHash.Keys - {pool[k].id};
    forall j | j in pool && pool[j].id == pool[k].id ensures j == k {
      assert byHash[pool[j].id] == pool[j];
    }
  }

  lemma HashPut(byHash: map<nat, Tx>, pool: Pool, tx: Tx)
    requires HashIndex(byHash, pool) && KeyOf(tx) !in pool && tx.id !in byHash
    ensures HashIndex(byHash[tx.id := tx], pool[KeyOf(tx) := tx])
  {}

  lemma NoncePut(bySenderNonce: map<Key, nat>, pool: Pool, tx: Tx)
    requires NonceIndex(bySenderNonce, pool)
    ensures NonceIndex(bySenderNonce[KeyOf(tx) := tx.id], pool[KeyOf(tx) := tx])
    ensures KeyOf(tx) in bySenderNonce <==> KeyOf(tx) in pool
    ensures KeyOf(tx) in pool ==> bySenderNonce[KeyOf(tx)] == pool[KeyOf(tx)].id
  {}

  lemma FeeTake(order: set<Rank>, pool: Pool, k: Key)
    requires FeeIndex(order, pool) && DistinctIds(pool) && k in pool
    ensures FeeIndex(order - {RankOf(pool[k])}, pool - {k})
  {
    var rest := pool - {k};
    forall r | r in order - {RankOf(pool[k])} ensures exists j <- rest :: RankOf(rest[j]) == r {
      var j :| j in pool && RankOf(pool[j]) == r;
      assert RankOf(rest[j]) == r;
    }
  }

  lemma FeePut(order: set<Rank>, pool: Pool, tx: Tx)
    requires FeeIndex(order, pool) && KeyOf(tx) !in pool
    ensures FeeIndex(order + {RankOf(tx)}, pool[KeyOf(tx) := tx])
  {
    var put := pool[KeyOf(tx) := tx];
    forall r | r in order + {RankOf(tx)} ensures exists j <- put :: RankOf(put[j]) == r {
      if r in order {
        var j :| j in pool && RankOf(pool[j]) == r;
        assert RankOf(put[j]) == r;
      } else {
        assert RankOf(put[KeyOf(tx)]) == r;
      }
    }
  }

  /** The counter after one transaction less; an entry that reaches zero may stay or go. */
  lemma CountTake(counts: map<Address, nat>, pool: Pool, k: Key)
    requires CountIndex(counts, pool) && k in pool
    ensures k.0 in counts && counts[k.0] >= 1
    ensures CountIndex(counts[k.0 := counts[k.0] - 1], pool - {k})
    ensures counts[k.0] == 1 ==> CountIndex(counts - {k.0}, pool - {k})
  {
    hide KeysOf;
    forall a: Address ensures |KeysOf(pool - {k}, a)| == OrZero(counts, a) - (if k.0 == a then 1 else 0) {
      KeysTake(pool, k, a);
      assert OrZero(counts, a) == |KeysOf(pool, a)|;
    }
    assert |KeysOf(pool - {k}, k.0)| == OrZero(counts, k.0) - 1;
  }

  lemma CountPut(counts: map<Address, nat>, pool: Pool, tx: Tx)
    requires CountIndex(counts, pool) && KeyOf(tx) !in pool
    ensures CountIndex(counts[tx.sender := OrZero(counts, tx.sender) + 1], pool[KeyOf(tx) := tx])
  {
    hide KeysOf;
    var more := counts[tx.sender := OrZero(counts, tx.sender) + 1];
    forall a: Address ensures OrZero(more, a) == |KeysOf(pool[KeyOf(tx) := tx], a)| {
      KeysPut(pool, tx, a);
      assert OrZero(counts, a) == |KeysOf(pool, a)|;
    }
  }

  // ------------------------------------------------------------------
  // Selection
  // ------------------------------------------------------------------

  ghost predicate NoDuplicates(s: seq<Tx>) {
    forall i, j :: 0 <= i < j < |s| ==> s[i] != s[j]
  }

  /** Up to `limit` transactions in descending fee order, with nothing better left behind. */
  ghost predicate TopByFee(s: seq<Tx>, from: set<Tx>, limit: nat) {
    && |s| <= limit
    && NoDuplicates(s)
    && (forall x <- s :: x in from)
    && (forall i, j :: 0 <= i < j < |s| ==> s[i].fee >= s[j].fee)
    && (forall x <- from :: x in s || (|s| == limit && forall y <- s :: x.fee <= y.fee))
  }

  lemma {:induction false} DistinctCount(s: seq<Tx>, t: seq<Tx>)
    requires NoDuplicates(s) && forall x <- s :: x in t
    ensures |s| <= |t|
  {
    if s != [] {
      var last := s[|s| - 1];
      assert last in t;
      var k :| 0 <= k < |t| && t[k] == last;
      var front, rest := s[..|s| - 1], t[..k] + t[k + 1..];
      forall x | x in front ensures x in rest {
        var i :| 0 <= i < |front| && front[i] == x;
        assert s[i] != last && x in t;
        var j :| 0 <= j < |t| && t[j] == x;
        assert x == rest[if j < k then j else j - 1];
      }
      DistinctCount(front, rest);
    }
  }

  lemma DearerEarlier(a: seq<Tx>, from: set<Tx>, limit: nat, i: nat, x: Tx)
    requires TopByFee(a, from, limit) && i < |a| && x in from && x.fee > a[i].fee
    ensures x in a[..i]
  {
    assert a[i] in a;
    var m :| 0 <= m < |a| && a[m] == x;
    assert a[..i][m] == x;
  }

  lemma NoBetter(a: seq<Tx>, b: seq<Tx>, from: set<Tx>, limit: nat, i: nat)
    requires TopByFee(a, from, limit) && TopByFee(b, from, limit) && i < |b|
    ensures i < |a| && b[i].fee <= a[i].fee
  {
    if i >= |a| {
      DistinctCount(b, a);
      assert false;
    } else if b[i].fee > a[i].fee {
      forall j | 0 <= j < i + 1 ensures b[j] in a[..i] {
        assert b[j].fee >= b[i].fee && b[j] in from;
        DearerEarlier(a, from, limit, i, b[j]);
      }
      DistinctCount(b[..i + 1], a[..i]);
    }
  }

  function Fees(s: seq<Tx>): seq<nat> {
    seq(|s|, i requires 0 <= i < |s| => s[i].fee)
  }

  /** Any two selections of the best transactions carry the same fees in the same order. */
  lemma SelectionsAgree(a: seq<Tx>, b: seq<Tx>, from: set<Tx>, limit: nat)
    requires TopByFee(a, from, limit) && TopByFee(b, from, limit)
    ensures Fees(a) == Fees(b)
  {
    hide TopByFee;
    if |a| < |b| {
      NoBetter(a, b, from, limit, |a|);
    } else if |b| < |a| {
      NoBetter(b, a, from, limit, |b|);
    }
    forall i: nat | i < |a| ensures a[i].fee == b[i].fee {
      NoBetter(a, b, from, limit, i);
      NoBetter(b, a, from, limit, i);
    }
  }

  /** The comparison of the prioritized selection: the lane of high fees first, then the fee. */
  predicate Before(a: Tx, b: Tx) {
    var high, other := a.fee >= PRIORITY_FEE, b.fee >= PRIORITY_FEE;
    (high && !other) || (high == other && a.fee > b.fee)
  }

  lemma {:induction false} FirstExists(s: set<Tx>)
    requires s != {}
    ensures exists m <- s :: forall x <- s :: !Before(x, m)
  {
    var k :| k in s;
    var rest := s - {k};
    assert forall x <- s :: x == k || x in rest;
    if rest == {} {
      assert forall x <- s :: !Before(x, k);
    } else {
      FirstExists(rest);
      var m :| m in rest && forall x <- rest :: !Before(x, m);
      var top := if Before(k, m) then k else m;
      assert forall x <- s :: !Before(x, top);
    }
  }

  lemma FeeIndexed(byHash: map<nat, Tx>, order: set<Rank>, pool: Pool, r: Rank)
    requires HashIndex(byHash, pool) && FeeIndex(order, pool) && r in order
    ensures r.1 in byHash && RankOf(byHash[r.1]) == r && byHash[r.1] in pool.Values
    ensures forall x <- pool.Values :: RankOf(x) == r ==> x == byHash[r.1]
  {
    var k :| k in pool && RankOf(pool[k]) == r;
    assert byHash[pool[k].id] == pool[k];
    forall x | x in pool.Values && RankOf(x) == r ensures x == byHash[r.1] {
      var j :| j in pool && pool[j] == x;
      assert byHash[pool[j].id] == x;
    }
  }

  /** Part of the way down the fee index: `rest` is still to come. */
  ghost predicate Walking(s: seq<Tx>, from: set<Tx>, rest: set<Rank>, limit: nat) {
    && |s| <= limit
    && (forall x <- s :: x in from && RankOf(x) !in rest)
    && (forall x <- from :: x in s || RankOf(x) in rest)
    && (forall i, j :: 0 <= i < j < |s| ==> AtMost(RankOf(s[j]), RankOf(s[i])) && s[i] != s[j])
    && (forall x, r | x in s && r in rest :: AtMost(r, RankOf(x)))
  }

  lemma WalkStep(s: seq<Tx>, from: set<Tx>, rest: set<Rank>, limit: nat, top: Tx)
    requires Walking(s, from, rest, limit) && |s| < limit && RankOf(top) in rest && top in from
    requires forall r <- rest :: AtMost(r, RankOf(top))
    requires forall x <- from :: RankOf(x) == RankOf(top) ==> x == top
    ensures Walking(s + [top], from, rest - {RankOf(top)}, limit)
  {
    hide AtMost, RankOf;
  }

  lemma WalkStart(order: set<Rank>, pool: Pool, limit: nat)
    requires FeeIndex(order, pool)
    ensures Walking([], pool.Values, order, limit)
  {
    forall x | x in pool.Values ensures RankOf(x) in order {
      var k :| k in pool && pool[k] == x;
    }
  }

  lemma WalkIsTop(s: seq<Tx>, from: set<Tx>, rest: set<Rank>, limit: nat)
    requires Walking(s, from, rest, limit) && (|s| == limit || rest == {})
    ensures TopByFee(s, from, limit) && Descending(s)
  {
    forall x | x in from && x !in s ensures |s| == limit && forall y <- s :: x.fee <= y.fee {
      assert RankOf(x) in rest;
    }
  }

  /** The order of the walk, ties decided by the hash. */
  ghost predicate Descending(s: seq<Tx>) {
    forall i, j :: 0 <= i < j < |s| ==> AtMost(RankOf(s[j]), RankOf(s[i]))
  }

  /** Part of the way through the sorted candidates. */
  ghost predicate Sorting(s: seq<Tx>, from: set<Tx>, rest: set<Tx>, limit: nat) {
    && |s| <= limit
    && (forall x <- s :: x in from && x !in rest)
    && rest <= from
    && (forall x <- from :: x in s || x in rest)
    && (forall i, j :: 0 <= i < j < |s| ==> s[j].fee <= s[i].fee && s[i] != s[j])
    && (forall x, y | x in s && y in rest :: y.fee <= x.fee)
  }

  lemma SortStep(s: seq<Tx>, from: set<Tx>, rest: set<Tx>, limit: nat, top: Tx)
    requires Sorting(s, from, rest, limit) && |s| < limit && top in rest && forall x <- rest :: !Before(x, top)
    ensures Sorting(s + [top], from, rest - {top}, limit)
  {
    forall x | x in rest ensures x.fee <= top.fee {
      assert !Before(x, top);
    }
    hide Before;
  }

  lemma SortStart(from: set<Tx>, limit: nat)
    ensures Sorting([], from, from, limit)
  {}

  lemma SortIsTop(s: seq<Tx>, from: set<Tx>, rest: set<Tx>, limit: nat)
    requires Sorting(s, from, rest, limit) && (|s| == limit || rest == {})
    ensures TopByFee(s, from, limit)
  {}

  lemma CandidatesIndexed(byHash: map<nat, Tx>, p: Pending, height: nat)
    requires HashIndex(byHash, p.pool)
    ensures (set id | id in byHash && !Expired(byHash[id], height) :: byHash[id]) == Unexpired(p, height).pool.Values
  {
    var candidates := set id | id in byHash && !Expired(byHash[id], height) :: byHash[id];
    var left := Unexpired(p, height).pool;
    forall x | x in left.Values ensures x in candidates {
      var k :| k in left && left[k] == x;
      assert byHash[p.pool[k].id] == x;
    }
    forall x | x in candidates ensures x in left.Values {
      var id :| id in byHash && byHash[id] == x;
      assert left[KeyOf(x)] == x;
    }
  }

  /** With nothing expired, both selections carry the same descending fees: the lanes change nothing. */
  lemma LanesChangeNothing(p: Pending, height: nat, walked: seq<Tx>, sorted: seq<Tx>, limit: nat)
    requires TopByFee(walked, p.pool.Values, limit) && TopByFee(sorted, Unexpired(p, height).pool.Values, limit)
    requires forall k <- p.pool :: !Expired(p.pool[k], height)
    ensures Fees(walked) == Fees(sorted)
  {
    assert Unexpired(p, height).pool == p.pool;
    SelectionsAgree(walked, sorted, p.pool.Values, limit);
  }

  // ------------------------------------------------------------------
  // The mempool
  // ------------------------------------------------------------------

  class IndexedPool {
    var byHash: map<nat, Tx>
    var bySenderNonce: map<Key, nat>
    var order: set<Rank>
    var bySenderCount: map<Address, nat>
    var highestNonce: map<Address, nat>
    ghost var pool: Pool

    ghost predicate Valid()
      reads this
    {
      && Good(View())
      && HashIndex(byHash, pool)
      && NonceIndex(bySenderNonce, pool)
      && FeeIndex(order, pool)
      && CountIndex(bySenderCount, pool)
    }

    ghost function View(): Pending
      reads this
    {
      Pending(pool, highestNonce)
    }

    constructor ()
      ensures Valid() && View() == Pending(map[], map[])
    {
      byHash, bySenderNonce, order, bySenderCount, highestNonce, pool := map[], map[], {}, map[], map[], map[];
      new;
      assert forall a: Address :: KeysOf(map[], a) == {};
    }

    /** Drops one transaction from every index; `keepZero` keeps a sender's counter that reaches zero. */
    method Drop(tx: Tx, keepZero: bool)
      requires Valid() && KeyOf(tx) in pool && pool[KeyOf(tx)] == tx
      modifies this
      ensures Valid() && View() == old(View()).(pool := old(pool) - {KeyOf(tx)})
      ensures byHash == old(byHash) - {tx.id}
    {
      hide Good, KeyOf, RankOf, OrZero, KeysOf, CountIndex, HashIndex, FeeIndex;
      GoodDistinct(View());
      TakeKeeps(byHash, order, bySenderCount, View(), KeyOf(tx));
      byHash := byHash - {tx.id};
      bySenderNonce := bySenderNonce - {KeyOf(tx)};
      order := order - {RankOf(tx)};
      var count := bySenderCount[KeyOf(tx).0];
      bySenderCount := if count == 1 && !keepZero then bySenderCount - {KeyOf(tx).0} else bySenderCount[KeyOf(tx).0 := count - 1];
      pool := pool - {KeyOf(tx)};
    }

    /** Same-sender replacement by fee, the sender's limits, and eviction from a full pool. A refusal changes nothing. */
    method Insert(tx: Tx) returns (error: Option<Error>)
      requires Valid()
      modifies this
      ensures Valid() && error == Refusal(old(View()), tx)
      ensures error.None? ==> View() == Inserted(old(View()), tx)
      ensures error.Some? ==> byHash == old(byHash) && bySenderNonce == old(bySenderNonce) && order == old(order)
      ensures error.Some? ==> bySenderCount == old(bySenderCount) && highestNonce == old(highestNonce) && pool == old(pool)
    {
      hide Good, KeyOf, RankOf, OrZero, KeysOf, CountIndex, HashIndex, FeeIndex, NonceIndex, Has;
      IdIndexed(byHash, pool, tx.id);
      NoncePut(bySenderNonce, pool, tx);
      if tx.id in byHash {
        return Some(Duplicate);
      }
      if KeyOf(tx) in bySenderNonce {
        PoolIndexed(byHash, pool, KeyOf(tx));
        if tx.fee <= byHash[bySenderNonce[KeyOf(tx)]].fee {
          return Some(ReplacementFeeTooLow);
        }
        Place(tx);
        return None;
      }
      CountIndexed(bySenderCount, pool, tx.sender);
      if OrZero(bySenderCount, tx.sender) >= MAX_PER_SENDER {
        return Some(SenderLimitExceeded);
      }
      if tx.nonce > NonceLimit(highestNonce, tx.sender) {
        return Some(NonceGap(NonceLimit(highestNonce, tx.sender), tx.nonce));
      }
      SizeIndexed(byHash, pool);
      if |byHash| >= MAX_POOL {
        var refused := MakeRoom(tx);
        if refused {
          return Some(Full);
        }
        RoomMade(old(View()), tx);
      }
      Place(tx);
      return None;
    }

    /** Evicts the lowest transaction of a full pool for one that pays more. */
    method MakeRoom(tx: Tx) returns (refused: bool)
      requires Valid() && |pool| >= MAX_POOL && !Has(pool, tx.id) && KeyOf(tx) !in pool
      modifies this
      ensures Valid() && refused == (forall k <- old(pool) :: tx.fee <= old(pool)[k].fee)
      ensures refused ==> byHash == old(byHash) && bySenderNonce == old(bySenderNonce) && order == old(order)
      ensures refused ==> bySenderCount == old(bySenderCount) && View() == old(View())
      ensures !refused ==> View() == old(View()).(pool := old(pool) - {Lowest(old(pool))})
    {
      hide Good, KeyOf, RankOf, OrZero, KeysOf, CountIndex, NonceIndex, Has;
      LowestIndexed(byHash, order, View());
      hide HashIndex, FeeIndex, AtMost, IsLowest;
      var lowest :| lowest in order && forall r <- order :: AtMost(lowest, r);
      if tx.fee <= lowest.0 {
        return true;
      }
      Drop(byHash[lowest.1], true);
      return false;
    }

    /** Drops the transactions of a committed block. Hashes are ideal: a pending transaction with a committed one's hash
        is that transaction. */
    method RemoveCommitted(txs: seq<Tx>)
      requires Valid() && forall t <- txs :: t.id in byHash ==> byHash[t.id] == t
      modifies this
      ensures Valid() && View() == Committed(old(View()), Ids(txs))
    {
      hide Good, KeyOf, RankOf, OrZero, KeysOf, CountIndex, FeeIndex, NonceIndex, HashIndex;
      NothingCommitted(View());
      for i := 0 to |txs|
        invariant Valid() && View() == Committed(old(View()), Ids(txs[..i]))
        invariant forall id <- byHash :: id in old(byHash) && byHash[id] == old(byHash)[id]
      {
        IdsStep(txs, i);
        CommitStep(byHash, old(View()), Ids(txs[..i]), txs[i]);
        if txs[i].id in byHash {
          Drop(txs[i], false);
        }
      }
      assert txs[..|txs|] == txs;
    }

    /** Drops every transaction whose last valid height is past. */
    method EvictExpired(height: nat)
      requires Valid()
      modifies this
      ensures Valid() && View() == Unexpired(old(View()), height)
    {
      hide Good, KeyOf, RankOf, OrZero, KeysOf, CountIndex, FeeIndex, NonceIndex, HashIndex;
      var expired := set id | id in byHash && Expired(byHash[id], height);
      ghost var before := expired;
      NothingCommitted(View());
      while expired != {}
        invariant Valid() && expired <= before
        invariant View() == Committed(old(View()), before - expired)
        invariant forall id <- byHash :: id in old(byHash) && byHash[id] == old(byHash)[id]
        decreases |expired|
      {
        var id :| id in expired;
        assert before - (expired - {id}) == (before - expired) + {id};
        OldIndexed(old(byHash), old(pool), id);
        CommitStep(byHash, old(View()), before - expired, old(byHash)[id]);
        if id in byHash {
          Drop(byHash[id], false);
        }
        expired := expired - {id};
      }
      ExpiredAll(old(byHash), old(View()), height);
    }

    /** Walks the fee index downwards and looks each hash up. */
    method SelectForBlock(limit: nat) returns (txs: seq<Tx>)
      requires Valid()
      ensures TopByFee(txs, pool.Values, limit) && Descending(txs)
    {
      hide Good, KeyOf, OrZero, KeysOf, CountIndex, NonceIndex, Walking, AtMost, TopByFee, Descending;
      txs := [];
      var rest := order;
      WalkStart(order, pool, limit);
      hide FeeIndex, HashIndex;
      while |txs| < limit && rest != {}
        invariant rest <= order && Walking(txs, pool.Values, rest, limit) && |txs| <= limit
        decreases |rest|
      {
        GreatestExists(rest);
        var top :| top in rest && forall r <- rest :: AtMost(r, top);
        FeeIndexed(byHash, order, pool, top);
        WalkStep(txs, pool.Values, rest, limit, byHash[top.1]);
        txs := txs + [byHash[top.1]];
        rest := rest - {top};
      }
      WalkIsTop(txs, pool.Values, rest, limit);
    }

    /** Drops the expired, sorts by lane and then fee, ties in any order, and takes the first `limit`. */
    method SelectForBlockPrioritized(limit: nat, height: nat) returns (txs: seq<Tx>)
      requires Valid()
      ensures TopByFee(txs, Unexpired(View(), height).pool.Values, limit)
    {
      hide Good, KeyOf, CountIndex, NonceIndex, FeeIndex, HashIndex, Sorting, Before, Expired, TopByFee;
      var candidates := set id | id in byHash && !Expired(byHash[id], height) :: byHash[id];
      CandidatesIndexed(byHash, View(), height);
      txs := [];
      var rest := candidates;
      SortStart(candidates, limit);
      while |txs| < limit && rest != {}
        invariant Sorting(txs, candidates, rest, limit) && |txs| <= limit
        decreases |rest|
      {
        FirstExists(rest);
        var top :| top in rest && forall x <- rest :: !Before(x, top);
        SortStep(txs, candidates, rest, limit, top);
        txs := txs + [top];
        rest := rest - {top};
      }
      SortIsTop(txs, candidates, rest, limit);
    }

    /** The writes that end an insert: a replaced transaction leaves two of the indexes first. */
    method Place(tx: Tx)
      requires Valid() && !Has(pool, tx.id)
      requires KeyOf(tx) in pool || (|pool| < MAX_POOL && |KeysOf(pool, tx.sender)| < MAX_PER_SENDER)
      modifies this
      ensures Valid() && View() == Placed(old(View()), tx)
    {
      hide Good, KeyOf, RankOf, OrZero, KeysOf, CountIndex, HashIndex, FeeIndex, NonceIndex, Has;
      PlacedGood(View(), tx);
      PlaceIndexes(byHash, order, bySenderCount, View(), tx);
      NoncePut(bySenderNonce, pool, tx);
      if KeyOf(tx) in bySenderNonce {
        var existing := byHash[bySenderNonce[KeyOf(tx)]];
        order := (order - {RankOf(existing)}) + {RankOf(tx)};
        byHash := (byHash - {existing.id})[tx.id := tx];
      } else {
        bySenderCount := bySenderCount[tx.sender := OrZero(bySenderCount, tx.sender) + 1];
        order := order + {RankOf(tx)};
        byHash := byHash[tx.id := tx];
      }
      bySenderNonce := bySenderNonce[KeyOf(tx) := tx.id];
      var highest := OrZero(highestNonce, tx.sender);
      highestNonce := highestNonce[tx.sender := if tx.nonce > highest then tx.nonce else highest];
      pool := pool[KeyOf(tx) := tx];
    }
  }

  ghost function Placed(p: Pending, tx: Tx): Pending {
    var h := OrZero(p.highest, tx.sender);
    Pending(p.pool[KeyOf(tx) := tx], p.highest[tx.sender := if tx.nonce > h then tx.nonce else h])
  }

  lemma PlacedGood(p: Pending, tx: Tx)
    requires Good(p) && !Has(p.pool, tx.id)
    requires KeyOf(tx) in p.pool || (|p.pool| < MAX_POOL && |KeysOf(p.pool, tx.sender)| < MAX_PER_SENDER)
    ensures Good(Placed(p, tx))
  {
    hide Good, Has, KeysOf;
    PutGood(p, tx, Placed(p, tx).highest);
  }

  lemma ReplaceHash(byHash: map<nat, Tx>, pool: Pool, tx: Tx)
    requires HashIndex(byHash, pool) && KeyOf(tx) in pool && tx.id !in byHash
    ensures HashIndex((byHash - {pool[KeyOf(tx)].id})[tx.id := tx], pool[KeyOf(tx) := tx])
  {
    hide HashIndex;
    HashTake(byHash, pool, KeyOf(tx));
    HashPut(byHash - {pool[KeyOf(tx)].id}, pool - {KeyOf(tx)}, tx);
    assert (pool - {KeyOf(tx)})[KeyOf(tx) := tx] == pool[KeyOf(tx) := tx];
  }

  lemma ReplaceFee(order: set<Rank>, pool: Pool, tx: Tx)
    requires FeeIndex(order, pool) && KeyOf(tx) in pool && DistinctIds(pool)
    ensures FeeIndex((order - {RankOf(pool[KeyOf(tx)])}) + {RankOf(tx)}, pool[KeyOf(tx) := tx])
  {
    hide FeeIndex;
    FeeTake(order, pool, KeyOf(tx));
    FeePut(order - {RankOf(pool[KeyOf(tx)])}, pool - {KeyOf(tx)}, tx);
    assert (pool - {KeyOf(tx)})[KeyOf(tx) := tx] == pool[KeyOf(tx) := tx];
  }

  lemma ReplaceCount(counts: map<Address, nat>, pool: Pool, tx: Tx)
    requires CountIndex(counts, pool) && KeyOf(tx) in pool
    ensures CountIndex(counts, pool[KeyOf(tx) := tx])
  {
    forall a: Address ensures OrZero(counts, a) == |KeysOf(pool[KeyOf(tx) := tx], a)| {
      KeysPut(pool, tx, a);
    }
  }

  lemma PlaceIndexes(byHash: map<nat, Tx>, order: set<Rank>, counts: map<Address, nat>, p: Pending, tx: Tx)
    requires Good(p) && HashIndex(byHash, p.pool) && FeeIndex(order, p.pool) && CountIndex(counts, p.pool)
    requires !Has(p.pool, tx.id)
    ensures var q := p.pool[KeyOf(tx) := tx];
            if KeyOf(tx) in p.pool then
              var existing := p.pool[KeyOf(tx)];
              && existing.id in byHash && byHash[existing.id] == existing
              && HashIndex((byHash - {existing.id})[tx.id := tx], q)
              && FeeIndex((order - {RankOf(existing)}) + {RankOf(tx)}, q)
              && CountIndex(counts, q)
            else
              && HashIndex(byHash[tx.id := tx], q)
              && FeeIndex(order + {RankOf(tx)}, q)
              && CountIndex(counts[tx.sender := OrZero(counts, tx.sender) + 1], q)
  {
    hide FeeIndex, CountIndex, Good, Has, KeysOf, OrZero, HashIndex, RankOf;
    IdIndexed(byHash, p.pool, tx.id);
    GoodDistinct(p);
    if KeyOf(tx) in p.pool {
      PoolIndexed(byHash, p.pool, KeyOf(tx));
      ReplaceHash(byHash, p.pool, tx);
      ReplaceFee(order, p.pool, tx);
      ReplaceCount(counts, p.pool, tx);
    } else {
      HashPut(byHash, p.pool, tx);
      FeePut(order, p.pool, tx);
      CountPut(counts, p.pool, tx);
    }
  }

  /** The first entry of the fee index is the lowest transaction, and the hash index holds it. */
  lemma LowestIndexed(byHash: map<nat, Tx>, order: set<Rank>, p: Pending)
    requires Good(p) && HashIndex(byHash, p.pool) && FeeIndex(order, p.pool) && p.pool != map[]
    ensures exists r <- order :: forall q <- order :: AtMost(r, q)
    ensures forall r | r in order && forall q <- order :: AtMost(r, q) ::
              r.1 in byHash && byHash[r.1] == p.pool[Lowest(p.pool)] && KeyOf(byHash[r.1]) == Lowest(p.pool)
              && r.0 == p.pool[Lowest(p.pool)].fee
    ensures forall k <- p.pool :: p.pool[Lowest(p.pool)].fee <= p.pool[k].fee
  {
    var low := Lowest(p.pool);
    var least := RankOf(p.pool[low]);
    forall q | q in order ensures AtMost(least, q) {
      var k :| k in p.pool && RankOf(p.pool[k]) == q;
    }
    forall k | k in p.pool ensures p.pool[low].fee <= p.pool[k].fee {
      assert AtMost(least, RankOf(p.pool[k]));
    }
    forall r | r in order && forall q <- order :: AtMost(r, q) ensures r == least {
      assert AtMost(r, least) && AtMost(least, r);
    }
  }

  function Ids(txs: seq<Tx>): set<nat> {
    set t | t in txs :: t.id
  }

  lemma IdsStep(txs: seq<Tx>, i: nat)
    requires i < |txs|
    ensures Ids(txs[..i + 1]) == Ids(txs[..i]) + {txs[i].id}
  {
    assert txs[..i + 1] == txs[..i] + [txs[i]];
  }

  lemma NothingCommitted(p: Pending)
    ensures Committed(p, {}) == p && Ids([]) == {}
  {
    assert Committed(p, {}).pool == p.pool;
  }

  lemma OldIndexed(byHash: map<nat, Tx>, pool: Pool, id: nat)
    requires HashIndex(byHash, pool) && id in byHash
    ensures byHash[id].id == id && KeyOf(byHash[id]) in pool && pool[KeyOf(byHash[id])] == byHash[id]
  {}

  lemma CommitHeld(p: Pending, ids: set<nat>, k: Key)
    requires DistinctIds(p.pool) && k in Committed(p, ids).pool
    ensures var left := Committed(p, ids);
            Committed(p, ids + {p.pool[k].id}) == left.(pool := left.pool - {k})
  {
    var left := Committed(p, ids).pool;
    assert Committed(p, ids + {p.pool[k].id}).pool == left - {k};
  }

  lemma CommitAbsent(p: Pending, ids: set<nat>, id: nat)
    requires !Has(Committed(p, ids).pool, id)
    ensures Committed(p, ids + {id}) == Committed(p, ids)
  {
    var left := Committed(p, ids).pool;
    assert forall k <- left :: left[k].id != id;
    assert Committed(p, ids + {id}).pool == left;
  }

  /** Removing one more committed transaction from what is left of the pool. */
  lemma CommitStep(byHash: map<nat, Tx>, p: Pending, ids: set<nat>, tx: Tx)
    requires Good(p) && HashIndex(byHash, Committed(p, ids).pool) && (tx.id in byHash ==> byHash[tx.id] == tx)
    ensures tx.id in byHash ==>
              var left := Committed(p, ids);
              KeyOf(tx) in left.pool && left.pool[KeyOf(tx)] == tx
              && Committed(p, ids + {tx.id}) == left.(pool := left.pool - {KeyOf(tx)})
    ensures tx.id !in byHash ==> Committed(p, ids + {tx.id}) == Committed(p, ids)
  {
    hide HashIndex, Good, Has;
    GoodDistinct(p);
    if tx.id in byHash {
      OldIndexed(byHash, Committed(p, ids).pool, tx.id);
      CommitHeld(p, ids, KeyOf(tx));
    } else {
      IdIndexed(byHash, Committed(p, ids).pool, tx.id);
      CommitAbsent(p, ids, tx.id);
    }
  }

  lemma ExpiredAll(byHash: map<nat, Tx>, p: Pending, height: nat)
    requires HashIndex(byHash, p.pool)
    ensures Committed(p, set id | id in byHash && Expired(byHash[id], height)) == Unexpired(p, height)
  {
    var ids := set id | id in byHash && Expired(byHash[id], height);
    assert Committed(p, ids).pool == Unexpired(p, height).pool;
  }

  lemma RoomMade(p: Pending, tx: Tx)
    requires Good(p) && p.pool != map[] && !Has(p.pool, tx.id)
    ensures var q := p.pool - {Lowest(p.pool)};
            !Has(q, tx.id) && |q| < MAX_POOL && |KeysOf(q, tx.sender)| <= |KeysOf(p.pool, tx.sender)|
  {
    hide IsLowest;
    SizeTake(p.pool, Lowest(p.pool));
    KeysTake(p.pool, Lowest(p.pool), tx.sender);
  }

  lemma CountIndexed(counts: map<Address, nat>, pool: Pool, a: Address)
    requires CountIndex(counts, pool)
    ensures OrZero(counts, a) == |KeysOf(pool, a)|
  {}

  lemma SizeIndexed(byHash: map<nat, Tx>, pool: Pool)
    requires HashIndex(byHash, pool)
    ensures |byHash| == |pool|
  {}

  lemma PoolIndexed(byHash: map<nat, Tx>, pool: Pool, k: Key)
    requires HashIndex(byHash, pool) && k in pool
    ensures pool[k].id in byHash && byHash[pool[k].id] == pool[k] && KeyOf(pool[k]) == k
  {}

  lemma IdIndexed(byHash: map<nat, Tx>, pool: Pool, id: nat)
    requires HashIndex(byHash, pool)
    ensures Has(pool, id) <==> id in byHash
  {}

  lemma TakeKeeps(byHash: map<nat, Tx>, order: set<Rank>, counts: map<Address, nat>, p: Pending, k: Key)
    requires Good(p) && HashIndex(byHash, p.pool) && FeeIndex(order, p.pool) && CountIndex(counts, p.pool) && k in p.pool
    ensures k.0 in counts && counts[k.0] >= 1
    ensures Good(p.(pool := p.pool - {k}))
    ensures HashIndex(byHash - {p.pool[k].id}, p.pool - {k})
    ensures FeeIndex(order - {RankOf(p.pool[k])}, p.pool - {k})
    ensures CountIndex(counts[k.0 := counts[k.0] - 1], p.pool - {k})
    ensures counts[k.0] == 1 ==> CountIndex(counts - {k.0}, p.pool - {k})
  {
    hide HashIndex, FeeIndex, CountIndex, KeyOf, OrZero, KeysOf;
    GoodDistinct(p);
    HashTake(byHash, p.pool, k);
    FeeTake(order, p.pool, k);
    CountTake(counts, p.pool, k);
    SubPoolGood(p, p.pool - {k});
  }

  lemma GoodDistinct(p: Pending)
    requires Good(p)
    ensures DistinctIds(p.pool)
  {}
}
