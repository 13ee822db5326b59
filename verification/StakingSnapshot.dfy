/** The staking snapshot updated in place, each method computing its function in `Staking`. */
module StakingSnapshot {
  import opened Arith
  import opened Sums
  import opened Staking

  datatype Evidence = Evidence(validator: Address, equivocation: bool)

  class Snapshot {
    var epoch: nat
    var validators: map<Address, Stake>
    var delegations: Delegations
    var unbonding: seq<Unbonding>
    var treasury: nat
    var slashes: seq<(Address, nat, nat)>

    ghost function View(): Ledger reads this {
      Ledger(epoch, validators, delegations, unbonding, treasury, slashes)
    }

    constructor ()
      ensures View() == EMPTY
    {
      epoch, validators, delegations, unbonding, treasury, slashes := 0, map[], map[], [], 0, [];
    }

    /** Seeds the validators not present yet. */
    method EnsureValidators(vs: seq<Address>)
      modifies `validators
      ensures View() == old(View()).(validators := SeededAll(old(validators), epoch, vs))
    {
      for i := 0 to |vs|
        invariant View() == old(View()).(validators := SeededAll(old(validators), epoch, vs[..i]))
      {
        assert vs[..i + 1][..i] == vs[..i];
        if vs[i] !in validators {
          validators := validators[vs[i] := Stake(0, 0, 0, Active, epoch)];
        }
      }
      assert vs[..|vs|] == vs;
    }

    method Delegate(d: Address, v: Address, amount: nat, isSelfBond: bool) returns (o: Outcome)
      modifies `validators, `delegations
      ensures (View(), o) == Staking.Delegate(old(View()), d, v, amount, isSelfBond)
    {
      if v !in validators {
        return UnknownValidator;
      }
      var s := validators[v];
      delegations := delegations[(d, v) := Cap((if (d, v) in delegations then delegations[(d, v)] else 0) + amount)];
      s := s.(total := Cap(s.total + amount));
      if isSelfBond {
        s := s.(selfBond := Cap(s.selfBond + amount));
      }
      validators := validators[v := s];
      return Done;
    }

    method BeginUnbonding(d: Address, v: Address, amount: nat, params: Params) returns (o: Outcome)
      modifies `validators, `delegations, `unbonding
      ensures (View(), o) == Staking.BeginUnbonding(old(View()), d, v, amount, params)
    {
      if (d, v) !in delegations {
        return NotFound;
      }
      if delegations[(d, v)] < amount {
        return Insufficient;
      }
      delegations := delegations[(d, v) := delegations[(d, v)] - amount];
      if v !in validators {
        return UnknownValidator;
      }
      var s := validators[v];
      if s.total < amount {
        return Underflow;
      }
      s := s.(total := s.total - amount);
      if d == v {
        s := s.(selfBond := if s.selfBond < amount then 0 else s.selfBond - amount);
      }
      validators := validators[v := s];
      unbonding := unbonding + [Unbonding(d, v, amount, epoch + params.unbondingEpochs)];
      return Done;
    }

    /** Slashes; when jailing, visits the delegations one by one and moves each to unbonding. `keys` is the order. */
    method Slash(v: Address, bps: nat, jail: bool) returns (o: Outcome, ghost keys: seq<(Address, Address)>)
      modifies `validators, `delegations, `unbonding, `slashes
      ensures v !in old(validators) ==> o == UnknownValidator && View() == old(View())
      ensures v in old(validators) ==>
                && o == Done && View() == Staking.Slash(old(View()), v, bps, jail, keys)
                && (jail ==> Lists(keys, old(delegations), v))
    {
      hide FreezeAll, Staking.Released, Lists;
      keys := [];
      if v !in validators {
        return UnknownValidator, keys;
      }
      var s := SlashedStake(validators[v], bps, jail);
      validators := validators[v := s];
      if jail {
        keys := Freeze(v);
      }
      slashes := slashes + [(v, epoch, bps)];
      return Done, keys;
    }

    method Freeze(v: Address) returns (ghost keys: seq<(Address, Address)>)
      modifies `delegations, `unbonding
      ensures Lists(keys, old(delegations), v)
      ensures delegations == FreezeAll(old(delegations), keys)
      ensures unbonding == old(unbonding) + Released(old(delegations), v, keys, epoch + 1)
    {
      hide Visited, Lists, FreezeAll, Staking.Released;
      keys := [];
      FreezeNothing(delegations, v, epoch + 1);
      var left := DelegationsTo(delegations, v);
      VisitNone(delegations, v);
      while left != {}
        invariant Visited(keys, left, old(delegations), v)
        invariant delegations == FreezeAll(old(delegations), keys)
        invariant unbonding == old(unbonding) + Released(old(delegations), v, keys, epoch + 1)
        decreases |left|
      {
        var k :| k in left;
        VisitOne(keys, left, old(delegations), v, k);
        FreezeOne(keys, old(delegations), v, k, epoch + 1);
        unbonding := unbonding + [Unbonding(k.0, v, delegations[k], epoch + 1)];
        delegations := delegations[k := 0];
        keys := keys + [k];
        left := left - {k};
      }
      VisitAll(keys, old(delegations), v);
    }

    /** Sums the active stake, shares the pool out, adds the commissions, and releases what is due. */
    method SettleEpochRewards(fees: nat, budget: nat, params: Params) returns (rewards: map<Address, nat>)
      modifies `treasury, `epoch, `unbonding
      ensures (View(), rewards) == Settle(old(View()), fees, budget, params.treasuryBps)
    {
      hide Sum, Cap, TreasuryCut, Weights, Rewards, Commissions, StillBonded, SummedStake;
      rewards := map[];
      var active := TotalActiveStake();
      if active == 0 {
        treasury := Cap(Cap(treasury + fees) + budget);
        epoch := epoch + 1;
        return;
      }
      var amount := Cap(fees + budget);
      var cut := TreasuryCut(amount, params.treasuryBps);
      var pool := if cut > amount then 0 else amount - cut;
      ghost var commissions;
      var due;
      CapAgain(treasury, cut);
      rewards, due, commissions := ShareOut(treasury + cut, pool, active);
      treasury := due;
      epoch := epoch + 1;
      Release();
    }

    /** The reward loop: a share for every active validator with stake, its commission on top for the treasury. */
    method ShareOut(start: nat, pool: nat, active: nat) returns (rewards: map<Address, nat>, due: nat, ghost total: nat)
      requires active > 0
      ensures rewards == Rewards(Weights(View()), pool, active)
      ensures total == Sum(Commissions(View(), rewards)) && due == Cap(start + total)
    {
      hide Cap, Commission, Commissions, Rewards, Weights, Sum;
      rewards, due, total := map[], Cap(start), 0;
      ghost var done: map<Address, nat> := map[];
      var left := validators.Keys;
      NoRewards(View(), pool, active, start);
      while left != {}
        invariant left <= validators.Keys
        invariant done == map v | v in Weights(View()) && v !in left :: Weights(View())[v]
        invariant rewards == Rewards(done, pool, active)
        invariant total == Sum(Commissions(View(), rewards)) && due == Cap(start + total)
        decreases |left|
      {
        var v :| v in left;
        var s := validators[v];
        WeightOf(View(), v);
        if s.status == Active && s.total != 0 {
          var gross := Cap(pool * s.total) / active;
          var commission := Commission(gross, s.commission);
          OneMoreReward(View(), done, pool, active, v);
          CapAgain(start + total, commission);
          done := done[v := s.total];
          rewards := rewards[v := gross];
          total := total + commission;
          due := Cap(due + commission);
        }
        left := left - {v};
      }
      WeightsKnown(View());
      assert done == Weights(View());
    }

    method Release()
      modifies `unbonding
      ensures unbonding == StillBonded(old(unbonding), epoch)
    {
      var kept: seq<Unbonding> := [];
      for i := 0 to |unbonding|
        invariant unbonding == old(unbonding)
        invariant kept == StillBonded(unbonding[..i], epoch)
      {
        assert unbonding[..i + 1][..i] == unbonding[..i];
        if unbonding[i].release > epoch {
          kept := kept + [unbonding[i]];
        }
      }
      assert unbonding[..|unbonding|] == unbonding;
      unbonding := kept;
    }

    /** Slash-and-jail for equivocations, each validator at most once per batch; an unknown one stops the batch. */
    method ApplyEvidence(items: seq<Evidence>, params: Params) returns (o: Outcome)
      requires Sound(View())
      modifies this
      ensures Sound(View()) && Held(View()) == old(Held(View()))
      ensures o == if Stopped(items, old(validators).Keys) then UnknownValidator else Done
      ensures Punished(old(View()), View(), Offenders(items, old(validators).Keys), params.doubleSignBps)
    {
      hide Sound, Held, Staking.Slash, Lists, Punished, SlashedStake;
      var slashed: set<Address> := {};
      OffendersNone(items, validators.Keys);
      hide Stopped, Offenders;
      PunishedNone(View(), params.doubleSignBps);
      for i := 0 to |items|
        invariant Sound(View()) && Held(View()) == old(Held(View())) && validators.Keys == old(validators).Keys
        invariant slashed == Offenders(items[..i], validators.Keys) && slashed <= validators.Keys
        invariant !Stopped(items[..i], validators.Keys)
        invariant Punished(old(View()), View(), slashed, params.doubleSignBps)
      {
        OffendersStep(items, i, validators.Keys);
        var item := items[i];
        if item.validator !in slashed && item.equivocation {
          ghost var before := View();
          var r, keys := Slash(item.validator, params.doubleSignBps, true);
          if r != Done {
            OffendersStopped(items, i + 1, validators.Keys);
            return r;
          }
          SlashSound(before, item.validator, params.doubleSignBps, keys);
          SlashConserves(before, item.validator, params.doubleSignBps, true, keys);
          PunishOne(old(View()), before, slashed, params.doubleSignBps, item.validator, keys);
          SlashJails(before, item.validator, params.doubleSignBps, keys);
          slashed := slashed + {item.validator};
        }
      }
      assert items[..|items|] == items;
      return Done;
    }

    /** Slashes and jails every active validator that missed the epoch. */
    method ApplyDowntimeSlashing(params: Params)
      requires Sound(View())
      modifies this
      ensures Sound(View()) && Held(View()) == old(Held(View()))
      ensures Punished(old(View()), View(), Stale(old(validators), old(epoch)), params.downtimeBps)
    {
      hide Sound, Held, Staking.Slash, Lists, Punished;
      var stale := Stale(validators, epoch);
      ghost var all := stale;
      PunishedNone(View(), params.downtimeBps);
      assert all - stale == {};
      while stale != {}
        invariant stale <= all && validators.Keys == old(validators).Keys
        invariant Sound(View()) && Held(View()) == old(Held(View()))
        invariant Punished(old(View()), View(), all - stale, params.downtimeBps)
        decreases |stale|
      {
        var v :| v in stale;
        ghost var before := View();
        var _, keys := Slash(v, params.downtimeBps, true);
        SlashSound(before, v, params.downtimeBps, keys);
        SlashConserves(before, v, params.downtimeBps, true, keys);
        SlashJails(before, v, params.downtimeBps, keys);
        PunishOne(old(View()), before, all - stale, params.downtimeBps, v, keys);
        assert all - (stale - {v}) == (all - stale) + {v};
        stale := stale - {v};
      }
      assert all - {} == all;
    }

    method TotalActiveStake() returns (total: nat)
      ensures total == SummedStake(View())
    {
      hide Sum;
      total := 0;
      ghost var seen: map<Address, nat> := map[];
      SumZero(seen);
      var left := validators.Keys;
      while left != {}
        invariant left <= validators.Keys && total == Sum(seen) % (MAX + 1)
        invariant seen == map v | v in Actives(View()) && v !in left :: Actives(View())[v]
        decreases |left|
      {
        var v :| v in left;
        if validators[v].status == Active {
          SumSet(seen, v, validators[v].total);
          ModAdd(Sum(seen), validators[v].total, MAX + 1);
          seen := seen[v := validators[v].total];
          total := (total + validators[v].total) % (MAX + 1);
        }
        left := left - {v};
      }
      assert seen == Actives(View());
    }
  }

  /** Whether evidence against an unknown validator stops the batch. */
  predicate Stopped(items: seq<Evidence>, known: set<Address>) {
    exists e <- items :: e.equivocation && e.validator !in known
  }

  /** The validators a batch punishes: those with an equivocation before the batch stops. */
  function Offenders(items: seq<Evidence>, known: set<Address>): set<Address> {
    if items == [] then {}
    else
      var e := items[|items| - 1];
      Offenders(items[..|items| - 1], known)
      + if e.equivocation && !Stopped(items, known) then {e.validator} else {}
  }

  lemma OffendersNone(items: seq<Evidence>, known: set<Address>)
    ensures Offenders(items[..0], known) == {} && !Stopped(items[..0], known)
  {}

  lemma OffendersStep(items: seq<Evidence>, i: nat, known: set<Address>)
    requires i < |items| && !Stopped(items[..i], known)
    ensures var e := items[i];
            && Stopped(items[..i + 1], known) == (e.equivocation && e.validator !in known)
            && Offenders(items[..i + 1], known) ==
                 Offenders(items[..i], known) + if e.equivocation && e.validator in known then {e.validator} else {}
  {
    assert items[..i + 1] == items[..i] + [items[i]];
  }

  lemma {:induction false} OffendersStopped(items: seq<Evidence>, i: nat, known: set<Address>)
    requires i <= |items| && Stopped(items[..i], known)
    ensures Stopped(items, known) && Offenders(items, known) == Offenders(items[..i], known)
  {
    if i == |items| {
      assert items[..i] == items;
    } else {
      assert items[..|items| - 1][..i] == items[..i];
      OffendersStopped(items[..|items| - 1], i, known);
      assert forall e <- items[..|items| - 1] :: e in items;
    }
  }

  function DelegationsTo(d: Delegations, v: Address): set<(Address, Address)> {
    set k | k in d && k.1 == v
  }

  /** `keys` are visited, `left` are to come, and together they are the delegations to `v`. */
  ghost predicate Visited(keys: seq<(Address, Address)>, left: set<(Address, Address)>, d: Delegations, v: Address) {
    && (forall k <- left :: k !in keys && k in d && k.1 == v)
    && (forall k <- d :: k.1 == v ==> k in keys || k in left)
    && (forall k <- keys :: k in d && k.1 == v)
    && (forall i, j :: 0 <= i < j < |keys| ==> keys[i] != keys[j])
  }

  lemma VisitNone(d: Delegations, v: Address)
    ensures Visited([], DelegationsTo(d, v), d, v)
  {}

  lemma VisitOne(keys: seq<(Address, Address)>, left: set<(Address, Address)>, d: Delegations, v: Address, k: (Address, Address))
    requires Visited(keys, left, d, v) && k in left
    ensures Visited(keys + [k], left - {k}, d, v)
    ensures k in d && k !in keys && forall x <- keys :: x in d
  {}

  lemma FreezeNothing(d: Delegations, v: Address, release: nat)
    ensures FreezeAll(d, []) == d && Released(d, v, [], release) == []
  {}

  lemma FreezeOne(keys: seq<(Address, Address)>, d: Delegations, v: Address, k: (Address, Address), release: nat)
    requires k in d && k !in keys && forall x <- keys :: x in d
    ensures FreezeAll(d, keys).Keys == d.Keys && FreezeAll(d, keys)[k] == d[k]
    ensures FreezeAll(d, keys + [k]) == FreezeAll(d, keys)[k := 0]
    ensures Released(d, v, keys + [k], release) == Released(d, v, keys, release) + [Unbonding(k.0, v, d[k], release)]
  {
    FreezeAllAt(d, keys);
    assert (keys + [k])[..|keys|] == keys;
  }

  lemma VisitAll(keys: seq<(Address, Address)>, d: Delegations, v: Address)
    requires Visited(keys, {}, d, v)
    ensures Lists(keys, d, v)
  {}

  lemma CapAgain(a: nat, b: nat)
    ensures Cap(Cap(a) + b) == Cap(a + b)
  {}

  lemma NoRewards(l: Ledger, pool: nat, active: nat, start: nat)
    requires active > 0
    ensures Rewards(map[], pool, active) == map[] && Sum(Commissions(l, map[])) == 0
    ensures (map v | v in Weights(l) && v !in l.validators.Keys :: Weights(l)[v]) == map[]
  {
    assert Commissions(l, map[]) == map[];
  }

  lemma WeightOf(l: Ledger, v: Address)
    requires v in l.validators
    ensures v in Weights(l) <==> l.validators[v].status == Active && l.validators[v].total != 0
    ensures v in Weights(l) ==> Weights(l)[v] == l.validators[v].total
  {}

  lemma WeightsKnown(l: Ledger)
    ensures Weights(l).Keys <= l.validators.Keys
  {}

  lemma OneMoreReward(l: Ledger, w: map<Address, nat>, pool: nat, active: nat, v: Address)
    requires active > 0 && v in l.validators && v !in w
    ensures var s := l.validators[v];
            var gross := Cap(pool * s.total) / active;
            && Rewards(w[v := s.total], pool, active) == Rewards(w, pool, active)[v := gross]
            && Sum(Commissions(l, Rewards(w, pool, active)[v := gross]))
               == Sum(Commissions(l, Rewards(w, pool, active))) + Commission(gross, s.commission)
  {
    hide Cap;
    var s := l.validators[v];
    var gross := Cap(pool * s.total) / active;
    var r := Rewards(w, pool, active);
    assert Commissions(l, r[v := gross]) == Commissions(l, r)[v := Commission(gross, s.commission)];
    SumSet(Commissions(l, r), v, Commission(gross, s.commission));
  }

  lemma SlashJails(l: Ledger, v: Address, bps: nat, keys: seq<(Address, Address)>)
    requires v in l.validators
    ensures var l' := Staking.Slash(l, v, bps, true, keys);
            && l'.validators.Keys == l.validators.Keys && l'.epoch == l.epoch
            && forall w <- l.validators :: l'.validators[w].status == (if w == v then Jailed else l.validators[w].status)
                                           && l'.validators[w].lastLive == l.validators[w].lastLive
  {}
}
