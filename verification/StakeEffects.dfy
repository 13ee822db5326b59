/** What each operation of the staking ledger moves, in numbers. */
module StakeEffects {
  import opened Arith
  import opened Sums
  import opened Staking

  // ------------------------------------------------------------------
  // Slashing
  // ------------------------------------------------------------------

  /** What a slash takes: `bps` ten-thousandths of the total stake, rounded down; the self bond is clamped to what is
      left, and the rest of the record stands but for the status. */
  predicate Loses(s: Stake, t: Stake, bps: nat, jail: bool) {
    && 10000 * (s.total - t.total) <= s.total * bps < 10000 * (s.total - t.total + 1)
    && (bps == 10000 ==> t.total == 0)
    && (t.selfBond == s.selfBond || t.selfBond == t.total) && t.selfBond <= s.selfBond && t.selfBond <= t.total
    && t.status == (if jail then Jailed else s.status) && t.commission == s.commission && t.lastLive == s.lastLive
  }

  lemma SlashTakes(s: Stake, bps: nat, jail: bool)
    requires bps <= 10000 && s.total * bps <= MAX
    ensures Loses(s, SlashedStake(s, bps, jail), bps, jail)
  {
    var cut := SlashAmount(s, bps);
    FloorBounds(s.total * bps, 10000);
    MulMono(s.total, bps, 10000);
    assert s.total * bps <= 10000 * s.total;
  }

  /** One slash on the ledger: the validator loses its share, the slash is recorded with its rate, and without jailing
      nothing else changes. */
  lemma SlashHits(l: Ledger, v: Address, bps: nat, jail: bool, keys: seq<(Address, Address)>)
    requires v in l.validators && bps <= 10000 && l.validators[v].total * bps <= MAX
    ensures var m := Slash(l, v, bps, jail, keys);
            && m.validators.Keys == l.validators.Keys && Loses(l.validators[v], m.validators[v], bps, jail)
            && (forall w <- l.validators :: w != v ==> m.validators[w] == l.validators[w])
            && m.slashes == l.slashes + [(v, l.epoch, bps)] && m.epoch == l.epoch && m.treasury == l.treasury
            && (!jail ==> m.delegations == l.delegations && m.unbonding == l.unbonding)
  {
    SlashTakes(l.validators[v], bps, jail);
    hide Loses, SlashedStake;
  }

  /** A batch takes the same from every one of those punished. */
  lemma BatchTakes(l: Ledger, m: Ledger, who: set<Address>, bps: nat, v: Address)
    requires Punished(l, m, who, bps) && v in l.validators && bps <= 10000 && l.validators[v].total * bps <= MAX
    ensures if v in who then Loses(l.validators[v], m.validators[v], bps, true) else m.validators[v] == l.validators[v]
  {
    SlashTakes(l.validators[v], bps, true);
    hide Loses, SlashedStake;
  }

  /** Jailing releases each delegation in full, due at the next epoch, and leaves zero behind. */
  lemma JailReleases(l: Ledger, v: Address, bps: nat, keys: seq<(Address, Address)>, k: (Address, Address))
    requires v in l.validators && Lists(keys, l.delegations, v) && k in l.delegations
    ensures var m := Slash(l, v, bps, true, keys);
            && m.delegations.Keys == l.delegations.Keys
            && m.delegations[k] == (if k.1 == v then 0 else l.delegations[k])
            && l.unbonding <= m.unbonding
            && (k.1 == v ==> Unbonding(k.0, v, l.delegations[k], l.epoch + 1) in m.unbonding)
  {
    FreezeAllAt(l.delegations, keys);
    if k.1 == v {
      ReleasedHas(l.delegations, v, keys, l.epoch + 1, k);
    }
    hide FreezeAll, Staking.Released, SlashedStake;
  }

  lemma {:induction false} ReleasedHas(d: Delegations, v: Address, keys: seq<(Address, Address)>, release: nat, k: (Address, Address))
    requires k in keys && k in d
    ensures Unbonding(k.0, v, d[k], release) in Staking.Released(d, v, keys, release)
  {
    var front := keys[..|keys| - 1];
    if keys[|keys| - 1] != k {
      assert k in front;
      ReleasedHas(d, v, front, release, k);
    }
  }

  // ------------------------------------------------------------------
  // Bonding and unbonding
  // ------------------------------------------------------------------

  /** A bond adds its amount to one delegation, to the validator's total and, if it is a self bond, to its self bond, and
      so to everything held. */
  lemma BondAdds(l: Ledger, d: Address, v: Address, amount: nat, isSelfBond: bool)
    requires v in l.validators
    requires l.validators[v].total + amount <= MAX && l.validators[v].selfBond + amount <= MAX
             && Amount(l.delegations, (d, v)) + amount <= MAX
    ensures var (m, o) := Delegate(l, d, v, amount, isSelfBond);
            && o == Done && Held(m) == Held(l) + amount
            && m.delegations == l.delegations[(d, v) := Amount(l.delegations, (d, v)) + amount]
            && m.validators.Keys == l.validators.Keys && m.validators[v].total == l.validators[v].total + amount
            && m.validators[v].selfBond == l.validators[v].selfBond + (if isSelfBond then amount else 0)
            && m.unbonding == l.unbonding && m.treasury == l.treasury && m.epoch == l.epoch
            && forall w <- l.validators :: w != v ==> m.validators[w] == l.validators[w]
  {
    SumSet(l.delegations, (d, v), Amount(l.delegations, (d, v)) + amount);
    hide Sum;
  }

  /** A bond to an unknown validator changes nothing. */
  lemma BondRefused(l: Ledger, d: Address, v: Address, amount: nat, isSelfBond: bool)
    requires v !in l.validators
    ensures Delegate(l, d, v, amount, isSelfBond) == (l, UnknownValidator)
  {}

  /** Unbonding on a sound ledger takes the amount from the delegation, the total and, of one's own, the self bond, and
      makes it due after the unbonding period. */
  lemma UnbondMoves(l: Ledger, d: Address, v: Address, amount: nat, params: Params)
    requires Sound(l) && (d, v) in l.delegations && amount <= l.delegations[(d, v)]
    ensures var (m, o) := BeginUnbonding(l, d, v, amount, params);
            && o == Done && v in l.validators && m.validators.Keys == l.validators.Keys
            && m.delegations == l.delegations[(d, v) := l.delegations[(d, v)] - amount]
            && m.validators[v].total + amount == l.validators[v].total
            && m.validators[v].selfBond + (if d == v then amount else 0) == l.validators[v].selfBond
            && m.unbonding == l.unbonding + [Unbonding(d, v, amount, l.epoch + params.unbondingEpochs)]
            && m.treasury == l.treasury && m.epoch == l.epoch
            && forall w <- l.validators :: w != v ==> m.validators[w] == l.validators[w]
  {
    UnbondingFits(l, d, v);
  }

  /** With active stake, closing an epoch keeps exactly the entries due later: an entry leaves at the closing that reaches its
      release epoch, and not before. */
  lemma CloseKeeps(l: Ledger, fees: nat, budget: nat, bps: nat, u: Unbonding)
    requires SummedStake(l) > 0
    ensures var m := Settle(l, fees, budget, bps).0;
            m.epoch == l.epoch + 1 && (u in m.unbonding <==> u in l.unbonding && u.release > m.epoch)
  {
    StillBondedIsFilter(l.unbonding, l.epoch + 1);
    hide SummedStake, Sum;
  }

  // ------------------------------------------------------------------
  // Epochs
  // ------------------------------------------------------------------

  /** Each active validator with stake is rewarded its share of the pool by stake, rounded down, and nobody else is. */
  lemma RewardOf(l: Ledger, fees: nat, budget: nat, bps: nat, v: Address)
    requires 0 < ActiveStake(l) <= MAX && Unsaturated(Weights(l), Pool(fees, budget, bps))
    ensures var rewards, t := Settle(l, fees, budget, bps).1, ActiveStake(l);
            && (v in rewards <==> v in l.validators && l.validators[v].status == Active && l.validators[v].total > 0)
            && (v in rewards ==>
                  t * rewards[v] <= Pool(fees, budget, bps) * l.validators[v].total < t * (rewards[v] + 1))
  {
    SummedExactly(l);
    hide ActiveStake, SummedStake, Pool, Sum;
    if v in Weights(l) {
      FloorBounds(Pool(fees, budget, bps) * l.validators[v].total, ActiveStake(l));
      assert ActiveStake(l) * (Settle(l, fees, budget, bps).1[v] + 1) == ActiveStake(l) * Settle(l, fees, budget, bps).1[v] + ActiveStake(l);
    }
  }

  /** A commission is its basis points of the reward, rounded down. */
  lemma CommissionExact(reward: nat, bps: nat)
    requires reward * bps <= MAX
    ensures 10000 * Commission(reward, bps) <= reward * bps < 10000 * (Commission(reward, bps) + 1)
  {}

  /** The treasury gets its cut of fees and budget and a commission on every reward; without active stake it gets
      everything. Validators, delegations and slashes stand. */
  lemma TreasuryGets(l: Ledger, fees: nat, budget: nat, bps: nat)
    requires fees + budget <= MAX
    ensures var (m, rewards) := Settle(l, fees, budget, bps);
            && m.validators == l.validators && m.delegations == l.delegations && m.slashes == l.slashes && m.epoch == l.epoch + 1
            && (ActiveStake(l) == 0 && l.treasury + fees + budget <= MAX ==>
                  m.treasury == l.treasury + fees + budget && rewards == map[])
            && (SummedStake(l) > 0 ==>
                  var due := l.treasury + TreasuryCut(fees + budget, bps) + Sum(Commissions(l, rewards));
                  due <= MAX ==> m.treasury == due)
  {
    if ActiveStake(l) == 0 {
      SummedExactly(l);
    }
    hide SummedStake, ActiveStake, Rewards, Weights, Commissions, Sum, StillBonded;
  }

  /** A validator is slashed for downtime exactly if it is active and was last live in an earlier epoch; noting that it is
      live spares it. */
  lemma StaleExactly(l: Ledger, v: Address, params: Params)
    ensures v in Stale(l.validators, l.epoch) <==>
              v in l.validators && l.validators[v].status == Active && l.validators[v].lastLive < l.epoch
    ensures var m := Apply(l, Alive(v), params);
            v !in Stale(m.validators, m.epoch) && (v in l.validators ==> m.validators[v] == l.validators[v].(lastLive := l.epoch))
  {}

  /** A validator is effective exactly if it is active and its self bond reaches the minimum. */
  lemma EffectiveExactly(validators: map<Address, Stake>, params: Params, v: Address)
    ensures v in EffectiveValidators(validators, params) <==>
              v in validators && validators[v].status == Active && validators[v].selfBond >= params.minimumSelfBond
  {
    RankedSorts(validators, EffectiveSet(validators, params));
  }

  /** The effective set is listed by stake, the most first, and at equal stake by address, each validator once. */
  lemma EffectiveOrder(validators: map<Address, Stake>, params: Params, i: nat, j: nat)
    requires i < j < |EffectiveValidators(validators, params)|
    ensures var r := EffectiveValidators(validators, params);
            && r[i] in validators && r[j] in validators
            && validators[r[i]].total >= validators[r[j]].total
            && (validators[r[i]].total == validators[r[j]].total ==> r[i] < r[j])
  {
    RankedSorts(validators, EffectiveSet(validators, params));
  }

  /** A new validator starts active, without stake, and live in the current epoch. */
  lemma SeedingAdds(l: Ledger, v: Address)
    ensures Registered(l, v) == if v in l.validators then l
                                else l.(validators := l.validators[v := Stake(0, 0, 0, Active, l.epoch)])
  {}
}
