/** Fees in basis points, rounded down as Math.floor does. */
module BasisPoints {
  const BPS_DENOM: int := 10000

  function FloorBps(amount: int, bps: int): int {
    amount * bps / BPS_DENOM
  }

  lemma FloorBpsBounds(amount: int, bps: int)
    ensures BPS_DENOM * FloorBps(amount, bps) <= amount * bps < BPS_DENOM * FloorBps(amount, bps) + BPS_DENOM
  {
  }

  lemma FloorBpsMonotone(a: int, b: int, bps: int)
    requires a <= b && 0 <= bps
    ensures FloorBps(a, bps) <= FloorBps(b, bps)
  {
    assert a * bps <= b * bps;
  }

  /** A share of at most max basis points. */
  lemma FloorBpsCap(amount: int, bps: int, max: int)
    requires 0 <= amount && 0 <= bps <= max
    ensures 0 <= FloorBps(amount, bps) && BPS_DENOM * FloorBps(amount, bps) <= amount * max
  {
    assert 0 <= amount * bps <= amount * max;
  }

  lemma FloorBpsShare(amount: int, bps: int)
    requires 0 <= amount && 0 <= bps <= BPS_DENOM
    ensures 0 <= FloorBps(amount, bps) <= amount
  {
    assert 0 <= amount * bps <= amount * BPS_DENOM;
  }
}
