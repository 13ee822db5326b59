/** Sums over finite maps. */
module Sums {

  ghost function Pick<K>(m: map<K, nat>): (k: K)
    requires m != map[]
    ensures k in m
  {
    var k :| k in m; k
  }

  ghost function Sum<K>(m: map<K, nat>): nat
    decreases |m|
  {
    if m == map[] then 0 else m[Pick(m)] + Sum(m - {Pick(m)})
  }

  /** Any key may be taken out first. */
  lemma {:induction false} SumRemove<K>(m: map<K, nat>, k: K)
    requires k in m
    ensures Sum(m) == m[k] + Sum(m - {k})
    decreases |m|
  {
    var p := Pick(m);
    if k != p {
      SumRemove(m - {p}, k);
      SumRemove(m - {k}, p);
      assert m - {p} - {k} == m - {k} - {p};
    }
  }

  lemma SumSet<K>(m: map<K, nat>, k: K, x: nat)
    ensures Sum(m[k := x]) + (if k in m then m[k] else 0) == Sum(m) + x
  {
    SumRemove(m[k := x], k);
    if k in m {
      SumRemove(m, k);
      assert m[k := x] - {k} == m - {k};
    } else {
      assert m[k := x] - {k} == m;
    }
  }

  lemma {:induction false} SumZero<K>(m: map<K, nat>)
    requires forall k <- m :: m[k] == 0
    ensures Sum(m) == 0
    decreases |m|
  {
    if m != map[] {
      SumZero(m - {Pick(m)});
    }
  }

  lemma SumHas<K>(m: map<K, nat>, k: K)
    requires k in m
    ensures m[k] <= Sum(m)
  {
    SumRemove(m, k);
  }

  function Positive<K>(m: map<K, nat>): map<K, nat> {
    map k | k in m && m[k] > 0 :: m[k]
  }

  /** Dropping zero entries does not change a sum. */
  lemma {:induction false} SumPositive<K>(m: map<K, nat>)
    ensures Sum(m) == Sum(Positive(m))
    decreases |m|
  {
    if m != map[] {
      var p := Pick(m);
      SumPositive(m - {p});
      if m[p] > 0 {
        SumRemove(Positive(m), p);
        assert Positive(m) - {p} == Positive(m - {p});
      } else {
        assert Positive(m) == Positive(m - {p});
      }
    }
  }
}
