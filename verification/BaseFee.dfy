/** The base fee update (Specification section of EIP-1559), in saturating 128-bit arithmetic. */
module BaseFee {
  import opened Arith

  const DENOMINATOR: nat := 8
  const MIN_BASE_FEE: nat := 1

  function Max(a: nat, b: nat): nat {
    if a > b then a else b
  }

  function Start(baseFee: nat): nat {
    if baseFee == 0 then MIN_BASE_FEE else baseFee
  }

  /** The share of the base that a gas difference moves it by. */
  function Delta(base: nat, difference: nat, target: nat): nat
    requires target > 0
  {
    Cap(base * difference) / target / DENOMINATOR
  }

  /** `update_base_fee`; a zero target would divide by zero. */
  function Update(baseFee: nat, used: nat, target: nat): nat
    requires target > 0
  {
    var base := Start(baseFee);
    if used > target then Cap(base + Max(Delta(base, used - target, target), 1))
    else
      var delta := Delta(base, target - used, target);
      Max(if delta > base then 0 else base - delta, MIN_BASE_FEE)
  }

  lemma DeltaMono(base: nat, a: nat, b: nat, target: nat)
    requires target > 0 && a <= b
    ensures Delta(base, a, target) <= Delta(base, b, target)
  {
    MulMono(base, a, b);
    DivMono(Cap(base * a), Cap(base * b), target);
    DivMono(Cap(base * a) / target, Cap(base * b) / target, DENOMINATOR);
  }

  lemma DivExact(base: nat, target: nat)
    requires target > 0
    ensures base * target / target == base
  {
    DivModUnique(base * target, target, base, 0);
  }

  /** A difference of at most the target moves the fee by at most an eighth. */
  lemma DeltaAtMostEighth(base: nat, difference: nat, target: nat)
    requires target > 0 && difference <= target
    ensures Delta(base, difference, target) <= base / DENOMINATOR
  {
    MulMono(base, difference, target);
    DivMono(Cap(base * difference), base * target, target);
    DivExact(base, target);
    DivMono(Cap(base * difference) / target, base, DENOMINATOR);
  }

  /** Bounds: never below one, never down by more than an eighth, and, up to twice the target, never up by more than
      an eighth or one unit. */
  lemma UpdateBounds(baseFee: nat, used: nat, target: nat)
    requires target > 0 && baseFee <= MAX
    ensures var base, next := Start(baseFee), Update(baseFee, used, target);
            && 1 <= next <= MAX
            && next + base / DENOMINATOR >= base
            && (used <= 2 * target ==> next <= base + Max(base / DENOMINATOR, 1))
            && (used > target && base < MAX ==> next > base)
            && (used <= target ==> next <= base)
  {
    var base := Start(baseFee);
    if used <= target {
      DeltaAtMostEighth(base, target - used, target);
    } else if used <= 2 * target {
      DeltaAtMostEighth(base, used - target, target);
    }
  }

  /** Monotone in the gas used. */
  lemma UpdateMonotone(baseFee: nat, a: nat, b: nat, target: nat)
    requires target > 0 && baseFee <= MAX && a <= b
    ensures Update(baseFee, a, target) <= Update(baseFee, b, target)
  {
    var base := Start(baseFee);
    if a <= target {
      UpdateBounds(baseFee, a, target);
      if b <= target {
        DeltaMono(base, target - b, target - a, target);
      }
    } else {
      DeltaMono(base, a - target, b - target, target);
    }
  }

  /** The reference: the next base fee as EIP-1559 specifies it, in unbounded integers. */
  function Eip1559(base: nat, used: nat, target: nat): int
    requires target > 0
  {
    if used == target then base
    else if used > target then base + Max(base * (used - target) / target / DENOMINATOR, 1)
    else base - base * (target - used) / target / DENOMINATOR
  }

  /** With a positive base fee the update is the specified one unless a product or the sum saturates. */
  lemma UpdateIsEip1559(base: nat, used: nat, target: nat)
    requires target > 0 && 1 <= base <= MAX
    requires base * (if used > target then used - target else target - used) <= MAX
    requires used > target ==> Eip1559(base, used, target) <= MAX
    ensures Update(base, used, target) == Eip1559(base, used, target)
  {
    if used <= target {
      DeltaAtMostEighth(base, target - used, target);
      assert base / DENOMINATOR < base;
    }
  }
}
