/** Saturating 128-bit amounts, and the multiplication and division facts the other modules need. */
module Arith {
  /** Largest 128-bit amount; saturating operations stop here. */
  const MAX: nat := 0x1_0000_0000_0000_0000 * 0x1_0000_0000_0000_0000 - 1

  function Cap(x: nat): nat {
    if x > MAX then MAX else x
  }

  /** The treasury's share of an amount, in basis points. */
  function TreasuryCut(amount: nat, bps: nat): nat {
    Cap(amount * bps) / 10000
  }

  /** The cut never exceeds the amount, saturated or not. */
  lemma CutFits(amount: nat, bps: nat)
    requires bps <= 10000
    ensures TreasuryCut(amount, bps) <= amount
  {
    MulMono(amount, bps, 10000);
  }

  /** Unless its product saturates, the cut is the share rounded down. */
  lemma CutExact(amount: nat, bps: nat)
    requires amount * bps <= MAX
    ensures 10000 * TreasuryCut(amount, bps) <= amount * bps < 10000 * (TreasuryCut(amount, bps) + 1)
  {}

  lemma MulBounds(m: nat, d: int)
    ensures d >= 1 ==> m * d >= m
    ensures d <= -1 ==> m * d <= 0 - m
  {
    if d >= 1 {
      assert m * d == m * (d - 1) + m;
    } else if d <= -1 {
      assert m * d == m * (d + 1) - m;
      assert m * -(d + 1) >= 0;
    }
  }

  lemma MulMono(x: nat, a: nat, b: nat)
    requires a <= b
    ensures x * a <= x * b
  {
    assert x * b == x * a + x * (b - a);
  }

  /** A common factor cancels. */
  lemma MulCancel(t: nat, a: int, b: int)
    requires t > 0
    ensures t * a <= t * b ==> a <= b
    ensures t * a < t * b ==> a < b
  {
    assert t * a == t * b + t * (a - b);
    MulBounds(t, a - b);
  }

  /** Reducing a sum term by term is reducing the sum. */
  lemma ModAdd(a: nat, b: nat, m: nat)
    requires m > 0
    ensures (a % m + b) % m == (a + b) % m
  {
    var x := a % m + b;
    assert a == m * (a / m) + a % m && x == m * (x / m) + x % m;
    assert m * (a / m + x / m) == m * (a / m) + m * (x / m);
    DivModUnique(a + b, m, a / m + x / m, x % m);
  }

  lemma DivModUnique(a: nat, m: nat, q: nat, r: nat)
    requires m > 0 && r < m && a == m * q + r
    ensures a / m == q && a % m == r
  {
    assert a == m * (a / m) + a % m;
    assert m * (a / m - q) == m * (a / m) - m * q;
    MulBounds(m, a / m - q);
  }

  lemma FloorBounds(a: nat, t: nat)
    requires t > 0
    ensures t * (a / t) <= a < t * (a / t) + t
  {
    assert a == t * (a / t) + a % t;
  }

  lemma DivMono(a: nat, b: nat, t: nat)
    requires t > 0 && a <= b
    ensures a / t <= b / t
  {
    FloorBounds(a, t);
    FloorBounds(b, t);
    assert t * (b / t - a / t) == t * (b / t) - t * (a / t);
    MulBounds(t, b / t - a / t);
  }
}
