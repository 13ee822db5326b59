/** The staking ledger: stakes, delegations, unbonding, slashing and epoch rewards. */
module Staking {
  import opened Arith
  import opened Sums

  type Address = nat

  datatype Status = Active | Jailed | Inactive

  datatype Stake = Stake(selfBond: nat, total: nat, commission: nat, status: Status, lastLive: nat)

  datatype Unbonding = Unbonding(delegator: Address, validator: Address, amount: nat, release: nat)

  datatype Params = Params(minimumSelfBond: nat, unbondingEpochs: nat, treasuryBps: nat, doubleSignBps: nat, downtimeBps: nat)

  type Delegations = map<(Address, Address), nat>

  datatype Ledger = Ledger(epoch: nat, validators: map<Address, Stake>, delegations: Delegations,
                           unbonding: seq<Unbonding>, treasury: nat, slashes: seq<(Address, nat, nat)>)

  // ------------------------------------------------------------------
  // Operations
  // ------------------------------------------------------------------

  /** A validator not present yet starts active and without stake. */
  function Seeded(validators: map<Address, Stake>, epoch: nat, v: Address): map<Address, Stake> {
    if v in validators then validators else validators[v := Stake(0, 0, 0, Active, epoch)]
  }

  function SeededAll(validators: map<Address, Stake>, epoch: nat, vs: seq<Address>): map<Address, Stake> {
    if vs == [] then validators else Seeded(SeededAll(validators, epoch, vs[..|vs| - 1]), epoch, vs[|vs| - 1])
  }

  function Registered(l: Ledger, v: Address): Ledger {
    l.(validators := Seeded(l.validators, l.epoch, v))
  }

  function Amount(d: Delegations, k: (Address, Address)): nat {
    if k in d then d[k] else 0
  }

  datatype Outcome = Done | UnknownValidator | NotFound | Insufficient | Underflow

  function Delegate(l: Ledger, d: Address, v: Address, amount: nat, isSelfBond: bool): (Ledger, Outcome) {
    if v !in l.validators then (l, UnknownValidator)
    else
      var s := l.validators[v];
      (l.(delegations := l.delegations[(d, v) := Cap(Amount(l.delegations, (d, v)) + amount)],
          validators := l.validators[v := s.(total := Cap(s.total + amount),
                                             selfBond := if isSelfBond then Cap(s.selfBond + amount) else s.selfBond)]), Done)
  }

  /** The delegation is reduced before the validator is looked up and before the total is subtracted from, so an
      unknown validator leaves the ledger half changed, and a total below the amount is an arithmetic underflow. */
  function BeginUnbonding(l: Ledger, d: Address, v: Address, amount: nat, params: Params): (Ledger, Outcome) {
    var k := (d, v);
    if k !in l.delegations then (l, NotFound)
    else if l.delegations[k] < amount then (l, Insufficient)
    else
      var l1 := l.(delegations := l.delegations[k := l.delegations[k] - amount]);
      if v !in l.validators then (l1, UnknownValidator)
      else if l.validators[v].total < amount then (l1, Underflow)
      else
        var s := l.validators[v];
        var s1 := s.(total := s.total - amount,
                     selfBond := if d != v then s.selfBond else if s.selfBond < amount then 0 else s.selfBond - amount);
        (l1.(validators := l.validators[v := s1],
             unbonding := l.unbonding + [Unbonding(d, v, amount, l.epoch + params.unbondingEpochs)]), Done)
  }

  function SlashAmount(s: Stake, bps: nat): nat {
    Cap(s.total * bps) / 10000
  }

  function SlashedStake(s: Stake, bps: nat, jail: bool): Stake {
    var cut := SlashAmount(s, bps);
    var total := if cut > s.total then 0 else s.total - cut;
    s.(total := total, selfBond := if s.selfBond < total then s.selfBond else total,
       status := if jail then Jailed else s.status)
  }

  /** `keys` lists each delegation to `v` once. */
  ghost predicate Lists(keys: seq<(Address, Address)>, d: Delegations, v: Address) {
    && (forall k :: k in keys <==> k in d && k.1 == v)
    && (forall i, j :: 0 <= i < j < |keys| ==> keys[i] != keys[j])
  }

  function FreezeAll(d: Delegations, keys: seq<(Address, Address)>): Delegations {
    if keys == [] then d else FreezeAll(d, keys[..|keys| - 1])[keys[|keys| - 1] := 0]
  }

  /** The unbonding entries jailing creates, in the order the delegations are visited. */
  function Released(d: Delegations, v: Address, keys: seq<(Address, Address)>, release: nat): seq<Unbonding> {
    if keys == [] then []
    else
      var k := keys[|keys| - 1];
      Released(d, v, keys[..|keys| - 1], release) + [Unbonding(k.0, v, Amount(d, k), release)]
  }

  /** Slashing; with `jail` every delegation moves to unbonding in full. */
  function Slash(l: Ledger, v: Address, bps: nat, jail: bool, keys: seq<(Address, Address)>): Ledger
    requires v in l.validators
  {
    var l1 := l.(validators := l.validators[v := SlashedStake(l.validators[v], bps, jail)],
                 slashes := l.slashes + [(v, l.epoch, bps)]);
    if !jail then l1
    else l1.(delegations := FreezeAll(l.delegations, keys),
             unbonding := l.unbonding + Released(l.delegations, v, keys, l.epoch + 1))
  }

  function Actives(l: Ledger): map<Address, nat> {
    map v | v in l.validators && l.validators[v].status == Active :: l.validators[v].total
  }

  ghost function ActiveStake(l: Ledger): nat {
    Sum(Actives(l))
  }

  /** The sum a release build takes: unchecked, it wraps at 128 bits. */
  ghost function SummedStake(l: Ledger): nat {
    ActiveStake(l) % (MAX + 1)
  }

  function Pool(fees: nat, budget: nat, bps: nat): nat {
    var d := Cap(fees + budget);
    if TreasuryCut(d, bps) > d then 0 else d - TreasuryCut(d, bps)
  }

  /** The validators an epoch rewards. */
  function Weights(l: Ledger): map<Address, nat> {
    map v | v in l.validators && l.validators[v].status == Active && l.validators[v].total > 0 :: l.validators[v].total
  }

  function Rewards(w: map<Address, nat>, pool: nat, active: nat): map<Address, nat>
    requires active > 0
  {
    map v | v in w :: Cap(pool * w[v]) / active
  }

  function Commission(reward: nat, bps: nat): nat {
    Cap(reward * bps) / 10000
  }

  function Commissions(l: Ledger, r: map<Address, nat>): map<Address, nat> {
    map v | v in r && v in l.validators :: Commission(r[v], l.validators[v].commission)
  }

  function StillBonded(us: seq<Unbonding>, epoch: nat): seq<Unbonding> {
    if us == [] then []
    else
      var u := us[|us| - 1];
      StillBonded(us[..|us| - 1], epoch) + if u.release > epoch then [u] else []
  }

  /** One epoch: with an active stake that sums to zero everything goes to the treasury and nothing is released from unbonding. */
  ghost function Settle(l: Ledger, fees: nat, budget: nat, bps: nat): (Ledger, map<Address, nat>) {
    var active := SummedStake(l);
    if active == 0 then (l.(treasury := Cap(Cap(l.treasury + fees) + budget), epoch := l.epoch + 1), map[])
    else
      var rewards := Rewards(Weights(l), Pool(fees, budget, bps), active);
      (l.(treasury := Cap(l.treasury + TreasuryCut(Cap(fees + budget), bps) + Sum(Commissions(l, rewards))),
          epoch := l.epoch + 1,
          unbonding := StillBonded(l.unbonding, l.epoch + 1)), rewards)
  }

  // ------------------------------------------------------------------
  // The ledger invariant
  // ------------------------------------------------------------------

  function Others(d: Delegations, v: Address): Delegations {
    map k | k in d && k.1 == v && k.0 != v :: d[k]
  }

  /** The own delegation is inside the self bond, and the self bond beside all other delegations inside the total. */
  ghost predicate Backed(l: Ledger, v: Address)
    requires v in l.validators
  {
    && Amount(l.delegations, (v, v)) <= l.validators[v].selfBond
    && l.validators[v].selfBond + Sum(Others(l.delegations, v)) <= l.validators[v].total <= MAX
  }

  ghost predicate Sound(l: Ledger) {
    && (forall k <- l.delegations :: k.1 in l.validators)
    && (forall v <- l.validators :: Backed(l, v))
  }

  lemma OthersSet(d: Delegations, k: (Address, Address), x: nat, v: Address)
    ensures Sum(Others(d[k := x], v)) == if k.1 == v && k.0 != v then Sum(Others(d, v)) - Amount(d, k) + x else Sum(Others(d, v))
  {
    if k.1 == v && k.0 != v {
      assert Others(d[k := x], v) == Others(d, v)[k := x];
      SumSet(Others(d, v), k, x);
    } else {
      assert Others(d[k := x], v) == Others(d, v);
    }
  }

  lemma OthersBound(d: Delegations, k: (Address, Address))
    requires k in d && k.0 != k.1
    ensures d[k] <= Sum(Others(d, k.1))
  {
    SumHas(Others(d, k.1), k);
  }

  /** Changing one delegation and the stake of its validator. */
  lemma OneChanged(l: Ledger, l': Ledger, k: (Address, Address), x: nat, s: Stake)
    requires Sound(l) && k.1 in l.validators
    requires l'.delegations == l.delegations[k := x] && l'.validators == l.validators[k.1 := s]
    requires var others := Sum(Others(l.delegations, k.1));
             if k.0 == k.1 then x <= s.selfBond && s.selfBond + others <= s.total <= MAX
             else Amount(l.delegations, (k.1, k.1)) <= s.selfBond
                  && s.selfBond + others - Amount(l.delegations, k) + x <= s.total <= MAX
    ensures Sound(l')
  {
    forall w <- l'.validators ensures Backed(l', w) {
      assert Backed(l, w);
      OthersSet(l.delegations, k, x, w);
    }
  }

  lemma DelegateSound(l: Ledger, d: Address, v: Address, amount: nat)
    requires Sound(l) && (v in l.validators ==> l.validators[v].total + amount <= MAX)
    ensures Sound(Delegate(l, d, v, amount, d == v).0)
  {
    if v in l.validators {
      var l' := Delegate(l, d, v, amount, d == v).0;
      var k := (d, v);
      assert Backed(l, v);
      if d != v && k in l.delegations {
        OthersBound(l.delegations, k);
      }
      OneChanged(l, l', k, l'.delegations[k], l'.validators[v]) by { hide Sound; }
    }
  }

  lemma UnbondingFits(l: Ledger, d: Address, v: Address)
    requires Sound(l) && (d, v) in l.delegations
    ensures v in l.validators && Backed(l, v)
    ensures d != v ==> l.delegations[(d, v)] <= Sum(Others(l.delegations, v))
    ensures l.delegations[(d, v)] <= l.validators[v].total
  {
    assert (d, v).1 in l.validators;
    if d != v {
      OthersBound(l.delegations, (d, v));
    }
  }

  /** On a sound ledger unbonding never underflows and never stops halfway: it completes, or changes nothing. */
  lemma UnbondingSound(l: Ledger, d: Address, v: Address, amount: nat, params: Params)
    requires Sound(l)
    ensures var (l', o) := BeginUnbonding(l, d, v, amount, params);
            && Sound(l') && (o == Done || ((o == NotFound || o == Insufficient) && l' == l))
            && (o == Done <==> (d, v) in l.delegations && l.delegations[(d, v)] >= amount)
  {
    var k := (d, v);
    if k in l.delegations && l.delegations[k] >= amount {
      UnbondingFits(l, d, v);
      hide Sound;
      var l' := BeginUnbonding(l, d, v, amount, params).0;
      OneChanged(l, l', k, l.delegations[k] - amount, l'.validators[v]);
    }
  }

  lemma {:induction false} FreezeAllAt(d: Delegations, keys: seq<(Address, Address)>)
    requires forall k <- keys :: k in d
    ensures FreezeAll(d, keys).Keys == d.Keys
    ensures forall k <- d :: FreezeAll(d, keys)[k] == if k in keys then 0 else d[k]
  {
    if keys != [] {
      var front := keys[..|keys| - 1];
      assert keys == front + [keys[|keys| - 1]];
      FreezeAllAt(d, front);
    }
  }

  lemma SlashSound(l: Ledger, v: Address, bps: nat, keys: seq<(Address, Address)>)
    requires Sound(l) && v in l.validators && Lists(keys, l.delegations, v)
    ensures Sound(Slash(l, v, bps, true, keys))
  {
    hide FreezeAll, Released, Sum, Cap;
    var l' := Slash(l, v, bps, true, keys);
    FreezeAllAt(l.delegations, keys);
    forall w <- l'.validators ensures Backed(l', w) {
      assert Backed(l, w);
      if w == v {
        SumZero(Others(l'.delegations, v));
      } else {
        assert Others(l'.delegations, w) == Others(l.delegations, w);
      }
    }
  }

  /** Slashing without jailing keeps the ledger sound exactly when the cut fits in the validator's slack, or there is
      nobody else's stake and the own delegation survives the cut. */
  lemma SlashWithoutJail(l: Ledger, v: Address, bps: nat)
    requires Sound(l) && v in l.validators
    ensures var s := l.validators[v];
            var others := Sum(Others(l.delegations, v));
            var cut := SlashAmount(s, bps);
            Sound(Slash(l, v, bps, false, [])) <==>
              s.selfBond + others + cut <= s.total
              || (others == 0 && Amount(l.delegations, (v, v)) + cut <= s.total)
              || (others == 0 && Amount(l.delegations, (v, v)) == 0)
  {
    var l' := Slash(l, v, bps, false, []);
    assert Backed(l, v);
    forall w <- l.validators | w != v ensures Backed(l', w) {
      assert Backed(l, w);
    }
    assert Sound(l') ==> Backed(l', v);
  }

  // ------------------------------------------------------------------
  // Conservation
  // ------------------------------------------------------------------

  function Pending(us: seq<Unbonding>): nat {
    if us == [] then 0 else Pending(us[..|us| - 1]) + us[|us| - 1].amount
  }

  /** Everything delegators have bonded or are waiting for. */
  ghost function Held(l: Ledger): nat {
    Sum(l.delegations) + Pending(l.unbonding)
  }

  lemma {:induction false} PendingAppend(a: seq<Unbonding>, b: seq<Unbonding>)
    ensures Pending(a + b) == Pending(a) + Pending(b)
  {
    if b == [] {
      assert a + b == a;
    } else {
      assert (a + b)[..|a + b| - 1] == a + b[..|b| - 1];
      PendingAppend(a, b[..|b| - 1]);
    }
  }

  lemma UnbondingConserves(l: Ledger, d: Address, v: Address, amount: nat, params: Params)
    requires BeginUnbonding(l, d, v, amount, params).1 == Done
    ensures Held(BeginUnbonding(l, d, v, amount, params).0) == Held(l)
  {
    SumSet(l.delegations, (d, v), l.delegations[(d, v)] - amount);
    PendingAppend(l.unbonding, [Unbonding(d, v, amount, l.epoch + params.unbondingEpochs)]);
  }

  lemma {:induction false} FreezeConserves(d: Delegations, v: Address, keys: seq<(Address, Address)>, release: nat)
    requires forall k <- keys :: k in d
    requires forall i, j :: 0 <= i < j < |keys| ==> keys[i] != keys[j]
    ensures Sum(FreezeAll(d, keys)) + Pending(Released(d, v, keys, release)) == Sum(d)
  {
    if keys != [] {
      var front, k := keys[..|keys| - 1], keys[|keys| - 1];
      FreezeConserves(d, v, front, release);
      FreezeAllAt(d, front);
      assert k !in front;
      SumSet(FreezeAll(d, front), k, 0);
      PendingAppend(Released(d, v, front, release), [Unbonding(k.0, v, d[k], release)]);
    }
  }

  /** A slash with jailing moves every delegated amount to unbonding: nothing bonded or pending is lost. */
  lemma SlashConserves(l: Ledger, v: Address, bps: nat, jail: bool, keys: seq<(Address, Address)>)
    requires v in l.validators && Lists(keys, l.delegations, v)
    ensures Held(Slash(l, v, bps, jail, keys)) == Held(l)
  {
    if jail {
      FreezeConserves(l.delegations, v, keys, l.epoch + 1);
      PendingAppend(l.unbonding, Released(l.delegations, v, keys, l.epoch + 1));
    }
  }

  // ------------------------------------------------------------------
  // Rewards
  // ------------------------------------------------------------------

  /** The saturating products the shares are cut from. */
  function Products(w: map<Address, nat>, pool: nat): map<Address, nat> {
    map v | v in w :: Cap(pool * w[v])
  }

  /** `paid` is `total` in `t`-ths, rounded down in `n` places. */
  predicate Rounds(t: nat, total: nat, paid: nat, n: nat) {
    t * paid <= total <= t * paid + t * n && (n > 0 ==> total < t * paid + t * n)
  }

  lemma RoundsOne(t: nat, product: nat, total: nat, paid: nat, n: nat)
    requires t > 0 && Rounds(t, total, paid, n)
    ensures Rounds(t, product + total, product / t + paid, n + 1)
  {
    FloorBounds(product, t);
    assert t * (product / t + paid) == t * (product / t) + t * paid;
    assert t * (n + 1) == t * n + t;
  }

  lemma RoundsNothing(t: nat)
    ensures Rounds(t, 0, 0, 0)
  {}

  lemma SharesRest(w: map<Address, nat>, pool: nat, t: nat, v: Address)
    requires t > 0 && v in w
    ensures var r, p := Rewards(w, pool, t), Products(w, pool);
            && v in r && v in p && r[v] == p[v] / t
            && r - {v} == Rewards(w - {v}, pool, t) && p - {v} == Products(w - {v}, pool)
  {
    hide Cap;
  }

  lemma CountRest(w: map<Address, nat>, v: Address)
    requires v in w
    ensures |w| == |w - {v}| + 1
  {
    assert w.Keys == (w - {v}).Keys + {v};
  }

  lemma {:induction false} FloorSum(w: map<Address, nat>, pool: nat, t: nat)
    requires t > 0
    ensures Rounds(t, Sum(Products(w, pool)), Sum(Rewards(w, pool, t)), |w|)
    decreases |w|
  {
    hide Rounds, Cap;
    var r, p := Rewards(w, pool, t), Products(w, pool);
    if w == map[] {
      assert r == map[] && p == map[];
      RoundsNothing(t);
    } else {
      hide Rewards, Products;
      var v := Pick(w);
      SharesRest(w, pool, t, v);
      CountRest(w, v);
      FloorSum(w - {v}, pool, t);
      SumRemove(p, v);
      SumRemove(r, v);
      hide Sum;
      RoundsOne(t, p[v], Sum(p - {v}), Sum(r - {v}), |w - {v}|);
    }
  }

  lemma ProductStep(pool: nat, w: nat, ws: nat, product: nat, products: nat)
    requires product <= pool * w && products <= pool * ws
    ensures product + products <= pool * (w + ws)
    ensures product == pool * w && products == pool * ws ==> product + products == pool * (w + ws)
  {
    assert pool * (w + ws) == pool * w + pool * ws;
  }

  predicate Unsaturated(w: map<Address, nat>, pool: nat) {
    forall v <- w :: pool * w[v] <= MAX
  }

  /** The products never sum to more than the pool times the weights, and to exactly that when none saturates. */
  lemma {:induction false} ProductSum(w: map<Address, nat>, pool: nat)
    ensures Sum(Products(w, pool)) <= pool * Sum(w)
    ensures Unsaturated(w, pool) ==> Sum(Products(w, pool)) == pool * Sum(w)
    decreases |w|
  {
    var p := Products(w, pool);
    if w == map[] {
      assert p == map[];
    } else {
      var v := Pick(w);
      var rest := w - {v};
      ProductSum(rest, pool);
      SumRemove(w, v);
      SumRemove(p, v);
      assert p - {v} == Products(rest, pool);
      assert Unsaturated(w, pool) ==> Unsaturated(rest, pool) && p[v] == pool * w[v];
      assert p[v] <= pool * w[v];
      hide Sum, Products, Unsaturated, Cap;
      ProductStep(pool, w[v], Sum(rest), p[v], Sum(p - {v}));
    }
  }

  /** Nor to more than the largest amount each. */
  lemma {:induction false} ProductCeiling(w: map<Address, nat>, pool: nat)
    ensures Sum(Products(w, pool)) <= MAX * |w|
    decreases |w|
  {
    var p := Products(w, pool);
    if w == map[] {
      assert p == map[];
    } else {
      var v := Pick(w);
      var rest := w - {v};
      ProductCeiling(rest, pool);
      SumRemove(p, v);
      assert p - {v} == Products(rest, pool);
      assert w.Keys == rest.Keys + {v};
      assert MAX * |w| == MAX * |rest| + MAX;
    }
  }

  /** Shares of a pool by weight, rounded down: never more than the pool together, and, when no product saturates, short
      of it by less than one unit each. */
  lemma ShareBound(w: map<Address, nat>, pool: nat)
    requires Sum(w) > 0
    ensures var r := Rewards(w, pool, Sum(w));
            && |r| == |w| && Sum(r) <= pool
            && (Unsaturated(w, pool) ==> pool < Sum(r) + |r|)
  {
    var r := Rewards(w, pool, Sum(w));
    assert r.Keys == w.Keys && w != map[];
    FloorSum(w, pool, Sum(w));
    ProductSum(w, pool);
    hide Sum;
    Unrounded(Sum(w), pool, Sum(Products(w, pool)), Sum(r), |w|);
  }

  lemma Unrounded(t: nat, pool: nat, total: nat, paid: nat, n: nat)
    requires t > 0 && n > 0 && Rounds(t, total, paid, n) && total <= pool * t
    ensures paid <= pool && (total == pool * t ==> pool < paid + n)
  {
    assert pool * t == t * pool && t * paid + t * n == t * (paid + n);
    MulCancel(t, paid, pool);
    MulCancel(t, pool, paid + n);
  }

  /** What is paid out, whatever wraps or saturates: the sum of the products in parts of the summed stake, short by less
      than one unit each. */
  lemma RewardShares(l: Ledger, fees: nat, budget: nat, bps: nat)
    requires SummedStake(l) > 0
    ensures var rewards := Settle(l, fees, budget, bps).1;
            && |rewards| == |Weights(l)|
            && Rounds(SummedStake(l), Sum(Products(Weights(l), Pool(fees, budget, bps))), Sum(rewards), |rewards|)
  {
    hide Weights, SummedStake, TreasuryCut, Cap, Rounds, Sum;
    FloorSum(Weights(l), Pool(fees, budget, bps), SummedStake(l));
    assert Settle(l, fees, budget, bps).1.Keys == Weights(l).Keys;
  }

  /** When `n` payments from a pool exceed it, and when not: they do if the products reach `t` once more for every unit
      of the pool and every payment; they do not below `t` for every unit and one more, in particular if the pool
      exceeds the share of a saturated product for each payment. */
  predicate Paid(t: nat, pool: nat, products: nat, paid: nat, n: nat) {
    && (products >= t * (pool + n) && n > 0 ==> paid > pool)
    && (products < t * (pool + 1) ==> paid <= pool)
    && (MAX * n < t * (pool + 1) ==> paid <= pool)
  }

  lemma OverOrUnder(t: nat, pool: nat, products: nat, paid: nat, n: nat)
    requires t > 0 && Rounds(t, products, paid, n) && products <= MAX * n
    ensures Paid(t, pool, products, paid, n)
  {
    assert t * (pool + n) == t * pool + t * n;
    MulCancel(t, pool, paid);
    MulCancel(t, paid, pool + 1);
  }

  /** Overpayment, whatever wraps or saturates. */
  lemma Overpayment(l: Ledger, fees: nat, budget: nat, bps: nat)
    requires SummedStake(l) > 0
    ensures var pool := Pool(fees, budget, bps);
            Paid(SummedStake(l), pool, Sum(Products(Weights(l), pool)), Sum(Settle(l, fees, budget, bps).1), |Weights(l)|)
  {
    var pool := Pool(fees, budget, bps);
    RewardShares(l, fees, budget, bps);
    ProductCeiling(Weights(l), pool);
    hide Weights, SummedStake, TreasuryCut, Cap, Sum, Settle, Pool, Products, Rounds, Paid;
    OverOrUnder(SummedStake(l), pool, Sum(Products(Weights(l), pool)), Sum(Settle(l, fees, budget, bps).1), |Weights(l)|);
  }

  /** Epoch reward bound: while the active stake is within 128 bits the rewards never exceed the pool, and leave less
      than one unit per rewarded validator of it undistributed unless a product saturates; treasury cut and pool split
      the fees and budget exactly. */
  lemma RewardBound(l: Ledger, fees: nat, budget: nat, bps: nat)
    requires 0 < ActiveStake(l) <= MAX
    ensures var rewards, pool := Settle(l, fees, budget, bps).1, Pool(fees, budget, bps);
            && Sum(rewards) <= pool
            && (Unsaturated(Weights(l), pool) ==> pool < Sum(rewards) + |rewards|)
    ensures bps <= 10000 && fees + budget <= MAX ==>
              TreasuryCut(Cap(fees + budget), bps) + Pool(fees, budget, bps) == fees + budget
  {
    if bps <= 10000 && fees + budget <= MAX {
      PoolSplits(fees, budget, bps);
    }
    WeightsSum(l);
    SummedExactly(l);
    hide Weights, ActiveStake, SummedStake, TreasuryCut, Cap, Sum;
    ShareBound(Weights(l), Pool(fees, budget, bps));
  }

  lemma SummedExactly(l: Ledger)
    ensures ActiveStake(l) <= MAX ==> SummedStake(l) == ActiveStake(l)
  {
    if ActiveStake(l) <= MAX {
      DivModUnique(ActiveStake(l), MAX + 1, 0, ActiveStake(l));
    }
  }

  lemma WeightsSum(l: Ledger)
    ensures Sum(Weights(l)) == ActiveStake(l)
  {
    SumPositive(Actives(l));
    assert Positive(Actives(l)) == Weights(l);
  }

  lemma PoolSplits(fees: nat, budget: nat, bps: nat)
    requires bps <= 10000 && fees + budget <= MAX
    ensures TreasuryCut(Cap(fees + budget), bps) + Pool(fees, budget, bps) == fees + budget
  {
    CutFits(fees + budget, bps);
  }

  // ------------------------------------------------------------------
  // Release
  // ------------------------------------------------------------------

  lemma {:induction false} StillBondedIsFilter(us: seq<Unbonding>, epoch: nat)
    ensures forall u :: u in StillBonded(us, epoch) <==> u in us && u.release > epoch
  {
    if us != [] {
      StillBondedIsFilter(us[..|us| - 1], epoch);
      assert us == us[..|us| - 1] + [us[|us| - 1]];
    }
  }

  /** Whether nothing due is left pending. */
  predicate NothingDue(l: Ledger) {
    forall u <- l.unbonding :: u.release > l.epoch
  }

  /** Closing an epoch releases what is due if and only if the summed active stake is positive, or nothing is due. */
  lemma CloseReleases(l: Ledger, fees: nat, budget: nat, bps: nat)
    ensures NothingDue(Settle(l, fees, budget, bps).0) <==>
              SummedStake(l) > 0 || forall u <- l.unbonding :: u.release > l.epoch + 1
  {
    hide SummedStake, Sum;
    StillBondedIsFilter(l.unbonding, l.epoch + 1);
  }

  // ------------------------------------------------------------------
  // Batches of slashes
  // ------------------------------------------------------------------

  /** Exactly the validators `who` were slashed and jailed, each once; the rest of the ledger stands. */
  ghost predicate Punished(l: Ledger, m: Ledger, who: set<Address>, bps: nat) {
    && m.validators.Keys == l.validators.Keys && who <= l.validators.Keys
    && (forall v <- l.validators :: m.validators[v] == if v in who then SlashedStake(l.validators[v], bps, true) else l.validators[v])
    && m.delegations.Keys == l.delegations.Keys
    && (forall k <- l.delegations :: m.delegations[k] == if k.1 in who then 0 else l.delegations[k])
    && m.epoch == l.epoch && m.treasury == l.treasury && l.unbonding <= m.unbonding
    && l.slashes <= m.slashes && |m.slashes| == |l.slashes| + |who|
  }

  lemma PunishedNone(l: Ledger, bps: nat)
    ensures Punished(l, l, {}, bps)
  {}

  lemma PunishOne(l: Ledger, m: Ledger, who: set<Address>, bps: nat, v: Address, keys: seq<(Address, Address)>)
    requires Punished(l, m, who, bps) && v in m.validators && v !in who && Lists(keys, m.delegations, v)
    ensures Punished(l, Slash(m, v, bps, true, keys), who + {v}, bps)
  {
    hide SlashedStake, Released;
    FreezeAllAt(m.delegations, keys);
  }

  // ------------------------------------------------------------------
  // Runs
  // ------------------------------------------------------------------

  datatype Op =
    | Register(v: Address)
    | Bond(d: Address, v: Address, amount: nat)
    | Unbond(d: Address, v: Address, amount: nat)
    | Punish(v: Address, bps: nat, keys: seq<(Address, Address)>)
    | CloseEpoch(fees: nat, budget: nat)
    | Alive(v: Address)

  ghost function Apply(l: Ledger, op: Op, params: Params): Ledger {
    match op
    case Register(v) => Registered(l, v)
    case Bond(d, v, amount) => Delegate(l, d, v, amount, d == v).0
    case Unbond(d, v, amount) => BeginUnbonding(l, d, v, amount, params).0
    case Punish(v, bps, keys) => if v in l.validators then Slash(l, v, bps, true, keys) else l
    case CloseEpoch(fees, budget) => Settle(l, fees, budget, params.treasuryBps).0
    case Alive(v) => if v in l.validators then l.(validators := l.validators[v := l.validators[v].(lastLive := l.epoch)]) else l
  }

  /** Amounts stay within 128 bits, and jailing visits the delegations there are. */
  ghost predicate Fits(l: Ledger, op: Op) {
    match op
    case Bond(_, v, amount) => v in l.validators ==> l.validators[v].total + amount <= MAX
    case Punish(v, _, keys) => Lists(keys, l.delegations, v)
    case _ => true
  }

  lemma ApplySound(l: Ledger, op: Op, params: Params)
    requires Sound(l) && Fits(l, op)
    ensures Sound(Apply(l, op, params))
  {
    match op
    case Register(v) => RegisterSound(l, v);
    case Bond(d, v, amount) => DelegateSound(l, d, v, amount);
    case Unbond(d, v, amount) => UnbondingSound(l, d, v, amount, params);
    case Punish(v, bps, keys) =>
      if v in l.validators {
        SlashSound(l, v, bps, keys);
      }
    case CloseEpoch(fees, budget) =>
      SettleSound(l, fees, budget, params.treasuryBps);
    case Alive(v) =>
      var l' := Apply(l, op, params);
      forall w <- l'.validators ensures Backed(l', w) {
        assert Backed(l, w);
      }
  }

  lemma RegisterSound(l: Ledger, v: Address)
    requires Sound(l)
    ensures Sound(Registered(l, v))
  {
    if v !in l.validators {
      assert Others(l.delegations, v) == map[];
      forall w <- l.validators ensures Backed(Registered(l, v), w) {
        assert Backed(l, w);
      }
    }
  }

  lemma {:induction false} SeedingSound(l: Ledger, vs: seq<Address>)
    requires Sound(l)
    ensures Sound(l.(validators := SeededAll(l.validators, l.epoch, vs)))
  {
    hide Sound;
    if vs != [] {
      SeedingSound(l, vs[..|vs| - 1]);
      RegisterSound(l.(validators := SeededAll(l.validators, l.epoch, vs[..|vs| - 1])), vs[|vs| - 1]);
    }
  }

  lemma SettleSound(l: Ledger, fees: nat, budget: nat, bps: nat)
    requires Sound(l)
    ensures Sound(Settle(l, fees, budget, bps).0)
  {
    hide SummedStake, Weights, Rewards, Pool, Sum;
    var l' := Settle(l, fees, budget, bps).0;
    forall v <- l'.validators ensures Backed(l', v) {
      assert Backed(l, v);
    }
  }

  /** Settling nothing, as block execution does, pays nobody and leaves the treasury alone. */
  lemma SettlesNothing(l: Ledger, bps: nat)
    ensures var (m, rewards) := Settle(l, 0, 0, bps);
            m.treasury == Cap(l.treasury) && forall v <- rewards :: rewards[v] == 0
  {
    var active := SummedStake(l);
    if active > 0 {
      hide SummedStake;
      var rewards := Settle(l, 0, 0, bps).1;
      assert Pool(0, 0, bps) == 0 && TreasuryCut(Cap(0), bps) == 0;
      ZeroShares(Weights(l), active);
      SumZero(Commissions(l, rewards));
    }
  }

  lemma ZeroShares(w: map<Address, nat>, t: nat)
    requires t > 0
    ensures forall v <- Rewards(w, 0, t) :: Rewards(w, 0, t)[v] == 0
  {
    DivModUnique(0, t, 0, 0);
  }

  /** No operation gives a jailed validator back. */
  lemma JailedStays(l: Ledger, op: Op, params: Params, v: Address)
    requires v in l.validators && l.validators[v].status == Jailed
    ensures v in Apply(l, op, params).validators && Apply(l, op, params).validators[v].status == Jailed
  {}

  function EffectiveSet(validators: map<Address, Stake>, params: Params): set<Address> {
    set v | v in validators && validators[v].status == Active && validators[v].selfBond >= params.minimumSelfBond
  }

  /** The order of the effective set: more stake first, then the smaller address. */
  predicate Outranks(validators: map<Address, Stake>, a: Address, b: Address)
    requires a in validators && b in validators
  {
    validators[a].total > validators[b].total || (validators[a].total == validators[b].total && a < b)
  }

  lemma {:induction false} FirstExists(validators: map<Address, Stake>, s: set<Address>)
    requires s <= validators.Keys && s != {}
    ensures exists a <- s :: forall b <- s :: b == a || Outranks(validators, a, b)
  {
    var k :| k in s;
    var rest := s - {k};
    assert forall b <- s :: b == k || b in rest;
    if rest == {} {
      assert forall b <- s :: b == k || Outranks(validators, k, b);
    } else {
      FirstExists(validators, rest);
      var a :| a in rest && forall b <- rest :: b == a || Outranks(validators, a, b);
      var top := if Outranks(validators, k, a) then k else a;
      assert forall b <- s :: b == top || Outranks(validators, top, b);
    }
  }

  ghost function Ranked(validators: map<Address, Stake>, s: set<Address>): seq<Address>
    requires s <= validators.Keys
    decreases |s|
  {
    if s == {} then []
    else
      FirstExists(validators, s);
      var a :| a in s && forall b <- s :: b == a || Outranks(validators, a, b);
      [a] + Ranked(validators, s - {a})
  }

  /** `effective_validator_set`, as the list it returns. */
  ghost function EffectiveValidators(validators: map<Address, Stake>, params: Params): seq<Address> {
    Ranked(validators, EffectiveSet(validators, params))
  }

  lemma {:induction false} RankedSorts(validators: map<Address, Stake>, s: set<Address>)
    requires s <= validators.Keys
    ensures var r := Ranked(validators, s);
            && (forall a :: a in r <==> a in s) && |r| == |s|
            && forall i, j :: 0 <= i < j < |r| ==> r[i] in s && r[j] in s && Outranks(validators, r[i], r[j])
    decreases |s|
  {
    if s != {} {
      var r := Ranked(validators, s);
      RankedSorts(validators, s - {r[0]});
      assert r == [r[0]] + Ranked(validators, s - {r[0]});
    }
  }

  /** The validators after an epoch's downtime slashing, and those it slashes. */
  function Stale(validators: map<Address, Stake>, epoch: nat): set<Address> {
    set v | v in validators && validators[v].status == Active && validators[v].lastLive + 1 < epoch + 1
  }

  function AfterDowntime(validators: map<Address, Stake>, epoch: nat, bps: nat): map<Address, Stake> {
    map v | v in validators :: if v in Stale(validators, epoch) then SlashedStake(validators[v], bps, true) else validators[v]
  }

  /** What a batch of slashes for downtime leaves of the validators. */
  lemma DowntimeLeaves(l: Ledger, m: Ledger, bps: nat)
    requires Punished(l, m, Stale(l.validators, l.epoch), bps)
    ensures m.validators == AfterDowntime(l.validators, l.epoch, bps)
  {}

  const EMPTY := Ledger(0, map[], map[], [], 0, [])

  ghost function Run(ops: seq<Op>, params: Params): Ledger {
    if ops == [] then EMPTY else Apply(Run(ops[..|ops| - 1], params), ops[|ops| - 1], params)
  }

  ghost predicate AllFit(ops: seq<Op>, params: Params) {
    ops != [] ==> AllFit(ops[..|ops| - 1], params) && Fits(Run(ops[..|ops| - 1], params), ops[|ops| - 1])
  }

  /** A run from some ledger on. */
  ghost function RunFrom(l: Ledger, ops: seq<Op>, params: Params): Ledger {
    if ops == [] then l else Apply(RunFrom(l, ops[..|ops| - 1], params), ops[|ops| - 1], params)
  }

  function Closings(ops: seq<Op>): nat {
    if ops == [] then 0 else Closings(ops[..|ops| - 1]) + if ops[|ops| - 1].CloseEpoch? then 1 else 0
  }

  lemma NoStake(l: Ledger)
    ensures ActiveStake(l) == 0 <==> forall v <- l.validators :: l.validators[v].status == Active ==> l.validators[v].total == 0
  {
    if ActiveStake(l) == 0 {
      forall v | v in l.validators && l.validators[v].status == Active ensures l.validators[v].total == 0 {
        SumHas(Actives(l), v);
      }
    } else if forall v <- Actives(l) :: Actives(l)[v] == 0 {
      SumZero(Actives(l));
    }
  }

  /** Without active stake, only a bond brings any, and nothing leaves the unbonding list. */
  lemma IdleStep(l: Ledger, op: Op, params: Params)
    requires ActiveStake(l) == 0 && !op.Bond?
    ensures var m := Apply(l, op, params);
            && ActiveStake(m) == 0 && l.unbonding <= m.unbonding
            && m.epoch == l.epoch + if op.CloseEpoch? then 1 else 0
  {
    NoStake(l);
    NoStake(Apply(l, op, params));
    hide ActiveStake, FreezeAll, Released, Weights, Rewards;
  }

  /** Entries that are due stay pending however many epochs close, until somebody bonds. */
  lemma {:induction false} StuckUntilBond(l: Ledger, ops: seq<Op>, params: Params)
    requires ActiveStake(l) == 0 && forall op <- ops :: !op.Bond?
    ensures var m := RunFrom(l, ops, params);
            ActiveStake(m) == 0 && l.unbonding <= m.unbonding && m.epoch == l.epoch + Closings(ops)
  {
    hide ActiveStake, Apply;
    if ops != [] {
      var front, op := ops[..|ops| - 1], ops[|ops| - 1];
      assert op in ops && forall o <- front :: o in ops;
      StuckUntilBond(l, front, params);
      IdleStep(RunFrom(l, front, params), op, params);
    }
  }

  /** Over every run the ledger stays sound; so the next unbonding completes or changes nothing. */
  lemma {:induction false} RunSound(ops: seq<Op>, params: Params)
    requires AllFit(ops, params)
    ensures Sound(Run(ops, params))
  {
    if ops != [] {
      RunSound(ops[..|ops| - 1], params);
      ApplySound(Run(ops[..|ops| - 1], params), ops[|ops| - 1], params);
    }
  }

  /** Once punished, never effective again, whatever follows. */
  lemma {:induction false} JailedForever(ops: seq<Op>, i: nat, params: Params, v: Address)
    requires i < |ops| && ops[i].Punish? && ops[i].v == v && v in Run(ops[..i], params).validators
    ensures v in Run(ops, params).validators && Run(ops, params).validators[v].status == Jailed
    ensures v !in EffectiveSet(Run(ops, params).validators, params)
  {
    var front := ops[..|ops| - 1];
    if i < |ops| - 1 {
      assert front[..i] == ops[..i];
      JailedForever(front, i, params, v);
      JailedStays(Run(front, params), ops[|ops| - 1], params, v);
    }
  }

  // ------------------------------------------------------------------
  // Witnesses
  // ------------------------------------------------------------------

  lemma RunSnoc(ops: seq<Op>, op: Op, params: Params)
    ensures Run(ops + [op], params) == Apply(Run(ops, params), op, params)
    ensures AllFit(ops, params) && Fits(Run(ops, params), op) ==> AllFit(ops + [op], params)
  {
    assert (ops + [op])[..|ops|] == ops;
  }

  const BONDED := Ledger(0, map[0 := Stake(0, 100, 0, Active, 0)], map[(7, 0) := 100], [], 0, [])

  lemma BondedIsRun(params: Params)
    ensures var ops := [Register(0), Bond(7, 0, 100)]; AllFit(ops, params) && Run(ops, params) == BONDED
  {
    RunSnoc([], Register(0), params);
    assert [] + [Register(0)] == [Register(0)];
    RunSnoc([Register(0)], Bond(7, 0, 100), params);
    assert [Register(0)] + [Bond(7, 0, 100)] == [Register(0), Bond(7, 0, 100)];
  }

  lemma PunishBonded()
    ensures var m := Slash(BONDED, 0, 0, true, [(7, 0)]);
            && m.unbonding == [Unbonding(7, 0, 100, 1)] && m.epoch == 0 && ActiveStake(m) == 0
            && Lists([(7, 0)], BONDED.delegations, 0)
  {
    var keys := [(7, 0)];
    assert keys[..0] == [];
    assert Released(BONDED.delegations, 0, keys, 1) == [Unbonding(7, 0, 100, 1)];
    var m := Slash(BONDED, 0, 0, true, keys);
    NoStake(m);
  }

  /** A run in which an entry is due and stays: the only validator is punished before the epoch closes. */
  lemma DueEntryStays(params: Params)
    ensures var ops := [Register(0), Bond(7, 0, 100), Punish(0, 0, [(7, 0)]), CloseEpoch(0, 0)];
            var l := Run(ops, params);
            AllFit(ops, params) && l.epoch == 1 && l.unbonding == [Unbonding(7, 0, 100, 1)] && !NothingDue(l)
  {
    hide Run, AllFit, Slash, ActiveStake, Lists;
    BondedIsRun(params);
    PunishBonded();
    var ops := [Register(0), Bond(7, 0, 100)];
    RunSnoc(ops, Punish(0, 0, [(7, 0)]), params);
    RunSnoc(ops + [Punish(0, 0, [(7, 0)])], CloseEpoch(0, 0), params);
    assert ops + [Punish(0, 0, [(7, 0)])] + [CloseEpoch(0, 0)]
        == [Register(0), Bond(7, 0, 100), Punish(0, 0, [(7, 0)]), CloseEpoch(0, 0)];
  }

  const HALF: nat := 0x8000_0000_0000_0000 * 0x1_0000_0000_0000_0000

  predicate TwoEqualStakes(l: Ledger, x: nat) {
    && l.validators.Keys == {0, 1}
    && forall v <- l.validators :: l.validators[v].status == Active && l.validators[v].total == x
  }

  lemma TwoBonds(x: nat, params: Params)
    requires x <= MAX
    ensures var ops := [Register(0), Register(1), Bond(0, 0, x), Bond(1, 1, x)];
            AllFit(ops, params) && Sound(Run(ops, params)) && TwoEqualStakes(Run(ops, params), x)
  {
    var ops := [Register(0)];
    RunSnoc([], Register(0), params);
    assert [] + [Register(0)] == ops;
    RunSnoc(ops, Register(1), params);
    var ops2 := ops + [Register(1)];
    RunSnoc(ops2, Bond(0, 0, x), params);
    var ops3 := ops2 + [Bond(0, 0, x)];
    RunSnoc(ops3, Bond(1, 1, x), params);
    var ops4 := ops3 + [Bond(1, 1, x)];
    assert ops4 == [Register(0), Register(1), Bond(0, 0, x), Bond(1, 1, x)];
    RunSound(ops4, params);
  }

  lemma TwoStakes(l: Ledger, x: nat)
    requires TwoEqualStakes(l, x)
    ensures ActiveStake(l) == x + x
  {
    var one: map<Address, nat> := map[0 := x];
    assert Actives(l) == one[1 := x] && one == map[][0 := x];
    SumSet(one, 1, x);
    SumSet<Address>(map[], 0, x);
    SumZero<Address>(map[]);
  }

  lemma TwoPaid(l: Ledger, x: nat, fees: nat, each: nat)
    requires TwoEqualStakes(l, x) && x > 0 && fees <= MAX && SummedStake(l) > 0 && Cap(fees * x) / SummedStake(l) == each
    ensures Pool(fees, 0, 0) == fees && Settle(l, fees, 0, 0).1 == map[0 := each, 1 := each]
  {
    hide SummedStake, Commissions, StillBonded, Sum;
    assert TreasuryCut(fees, 0) == 0;
    assert Weights(l).Keys == {0, 1} && Weights(l)[0] == x && Weights(l)[1] == x;
  }

  /** A run whose active stake sums to 2 after wrapping: out of a pool of 1 each of two validators is due 2^126. */
  lemma WrappedRewards(params: Params)
    ensures var ops := [Register(0), Register(1), Bond(0, 0, HALF + 1), Bond(1, 1, HALF + 1)];
            var l := Run(ops, params);
            && AllFit(ops, params) && Sound(l) && SummedStake(l) == 2 && Pool(1, 0, 0) == 1
            && Settle(l, 1, 0, 0).1 == map[0 := HALF / 2, 1 := HALF / 2]
  {
    hide Run, AllFit, ActiveStake, Settle, Pool, Sound, Sum;
    TwoBonds(HALF + 1, params);
    var l := Run([Register(0), Register(1), Bond(0, 0, HALF + 1), Bond(1, 1, HALF + 1)], params);
    TwoStakes(l, HALF + 1);
    assert HALF + 1 + (HALF + 1) == 2 + (MAX + 1);
    DivModUnique(HALF + 1 + (HALF + 1), MAX + 1, 1, 2);
    assert SummedStake(l) == 2;
    TwoPaid(l, HALF + 1, 1, HALF / 2);
  }

  const QUARTERS: nat := 0xC000_0000_0000_0000 * 0x1_0000_0000_0000_0000

  /** A run whose active stake wraps to 2^127: out of a pool of 1000 each of two validators is due 1. */
  lemma WrappedUnderpays(params: Params)
    ensures var ops := [Register(0), Register(1), Bond(0, 0, QUARTERS), Bond(1, 1, QUARTERS)];
            var l := Run(ops, params);
            && AllFit(ops, params) && SummedStake(l) == HALF && Pool(1000, 0, 0) == 1000
            && Settle(l, 1000, 0, 0).1 == map[0 := 1, 1 := 1]
  {
    hide Run, AllFit, ActiveStake, Settle, Pool, Sound, Sum;
    TwoBonds(QUARTERS, params);
    var l := Run([Register(0), Register(1), Bond(0, 0, QUARTERS), Bond(1, 1, QUARTERS)], params);
    TwoStakes(l, QUARTERS);
    assert QUARTERS + QUARTERS == HALF + (MAX + 1);
    DivModUnique(QUARTERS + QUARTERS, MAX + 1, 1, HALF);
    assert SummedStake(l) == HALF;
    TwoPaid(l, QUARTERS, 1000, 1);
  }
}
