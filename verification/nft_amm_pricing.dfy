module NftAmmPricing {
  import opened Arithmetic
  import opened BasisPoints
  import opened NftAmmModel
  import opened NftAmmTheorems

  // ---- Runs of purchases ----

  function PriceAfter(curve: Curve, delta: int, spot: int, n: nat): int
    decreases n
  {
    if n == 0 then spot else PriceAfter(curve, delta, PriceUp(curve, delta, spot), n - 1)
  }

  /** The sum of the first n spot prices. */
  function PricesPaid(curve: Curve, delta: int, spot: int, n: nat): int
    decreases n
  {
    if n == 0 then 0 else spot + PricesPaid(curve, delta, PriceUp(curve, delta, spot), n - 1)
  }

  /** The sum of the floored pool fees on the first n spot prices. */
  function FeesPaid(curve: Curve, delta: int, spot: int, feeBps: int, n: nat): int
    decreases n
  {
    if n == 0 then 0
    else FloorBps(spot, feeBps) + FeesPaid(curve, delta, PriceUp(curve, delta, spot), feeBps, n - 1)
  }

  /** Accepted purchases, all from one pool. */
  ghost predicate AcceptedBuys(s: State, rs: seq<Request>, id: int)
    requires Consistent(s)
  {
    && (forall r <- rs :: r.Buy? && r.id == id)
    && (forall reply <- Replies(s, rs) :: reply.Bought?)
  }

  lemma {:induction false} BuyRun(s: State, rs: seq<Request>, id: int)
    requires Inv(s) && id in s.pools && AcceptedBuys(s, rs, id)
    ensures id in Run(s, rs).pools && |rs| <= |s.pools[id].nftIds|
    ensures var p, p1, n := s.pools[id], Run(s, rs).pools[id], |rs|;
      && p1.spotPrice == PriceAfter(p.curve, p.delta, p.spotPrice, n)
      && p1.tokenBalance == p.tokenBalance + PricesPaid(p.curve, p.delta, p.spotPrice, n)
                          + FeesPaid(p.curve, p.delta, p.spotPrice, p.feeBps, n)
      && p1.nftIds == p.nftIds[..|p.nftIds| - n]
    decreases |rs|
  {
    if rs == [] {
      assert s.pools[id].nftIds[..|s.pools[id].nftIds|] == s.pools[id].nftIds;
    } else {
      var s1 := Step(s, rs[0]).0;
      assert rs[0] in rs && Replies(s, rs)[0] in Replies(s, rs);
      InvStep(s, rs[0]);
      assert forall reply <- Replies(s1, rs[1..]) :: reply in Replies(s, rs);
      BuyRun(s1, rs[1..], id);
      var ids, n := s.pools[id].nftIds, |rs|;
      assert ids[..|ids| - 1][..|ids| - 1 - (n - 1)] == ids[..|ids| - n];
    }
  }

  // ---- Linear curve ----

  /** S is n * spot + delta * n * (n - 1) / 2. */
  predicate IsLinearSum(S: int, spot: int, delta: int, n: nat) {
    2 * S == 2 * n * spot + delta * (n * (n - 1))
  }

  /** F is the fee on S, less at most one unit for each of n roundings. */
  predicate NearShare(F: int, S: int, feeBps: int, n: nat) {
    BPS_DENOM * F <= feeBps * S && (1 <= n ==> feeBps * S < BPS_DENOM * (F + n))
  }

  lemma {:induction false} LinearPrices(delta: int, spot: int, n: nat)
    ensures PriceAfter(Linear, delta, spot, n) == spot + n * delta
    ensures IsLinearSum(PricesPaid(Linear, delta, spot, n), spot, delta, n)
    decreases n
  {
    if n != 0 {
      LinearPrices(delta, spot + delta, n - 1);
      assert (spot + delta) + (n - 1) * delta == spot + n * delta;
      assert 2 * (n - 1) * (spot + delta) + 2 * spot == 2 * n * spot + 2 * (n - 1) * delta;
      assert (n - 1) * (n - 2) + 2 * (n - 1) == n * (n - 1);
      assert delta * ((n - 1) * (n - 2)) + 2 * (n - 1) * delta == delta * (n * (n - 1)) by {
        assert delta * ((n - 1) * (n - 2) + 2 * (n - 1)) == delta * ((n - 1) * (n - 2)) + delta * (2 * (n - 1));
      }
    }
  }

  lemma {:induction false} FeesNearShare(curve: Curve, delta: int, spot: int, feeBps: int, n: nat)
    ensures NearShare(FeesPaid(curve, delta, spot, feeBps, n), PricesPaid(curve, delta, spot, n), feeBps, n)
    decreases n
  {
    if n != 0 {
      var next := PriceUp(curve, delta, spot);
      var S1 := PricesPaid(curve, delta, next, n - 1);
      FeesNearShare(curve, delta, next, feeBps, n - 1);
      FloorBpsBounds(spot, feeBps);
      assert feeBps * (spot + S1) == spot * feeBps + feeBps * S1;
    }
  }

  /** Main result: n accepted purchases from a Linear pool move its price by n * delta and pay it the n
      prices and their floored fees, which lose less than one unit each. */
  lemma LinearBuyRun(s: State, rs: seq<Request>, id: int)
    requires Inv(s) && id in s.pools && s.pools[id].curve == Linear && AcceptedBuys(s, rs, id)
    ensures id in Run(s, rs).pools
    ensures var p, p1, n := s.pools[id], Run(s, rs).pools[id], |rs|;
      var S, F := PricesPaid(Linear, p.delta, p.spotPrice, n), FeesPaid(Linear, p.delta, p.spotPrice, p.feeBps, n);
      && p1.spotPrice == p.spotPrice + n * p.delta
      && p1.tokenBalance == p.tokenBalance + S + F
      && IsLinearSum(S, p.spotPrice, p.delta, n) && NearShare(F, S, p.feeBps, n)
  {
    var p := s.pools[id];
    BuyRun(s, rs, id);
    LinearPrices(p.delta, p.spotPrice, |rs|);
    FeesNearShare(p.curve, p.delta, p.spotPrice, p.feeBps, |rs|);
  }

  // ---- Exponential curve ----

  function Pow(b: int, n: nat): int {
    if n == 0 then 1 else b * Pow(b, n - 1)
  }

  lemma {:induction false} PowPositive(b: int, n: nat)
    requires 0 < b
    ensures 0 < Pow(b, n)
  {
    if n != 0 {
      PowPositive(b, n - 1);
    }
  }

  /** The scaled error after one more step: b times the old one, and the remainder of this step. */
  lemma ScaledError(b: int, d: int, s: int, next: int, r: int, end: int, p: int, q: int)
    requires b * next + r == s * (b + d)
    ensures s * ((b + d) * p) - end * (b * q) == b * (next * p - end * q) + r * p
  {
    MulAssociates(s, b + d, p);
    MulDistributes(b * next, r, p);
    MulAssociates(b, next, p);
    MulAssociates(end, b, q);
    MulAssociates(b, end, q);
    MulDistributes(next * p, end * q, b);
  }

  lemma ScaledBound(b: int, d: int, gap: int, r: int, p: int, q: int)
    requires 0 < b && 0 <= d && 0 <= r < b && 0 <= p
    requires d * gap <= (b - 1) * (p - q)
    ensures d * (b * gap + r * p) <= (b - 1) * ((b + d) * p - b * q)
  {
    MulMonotone(b, d * gap, (b - 1) * (p - q));
    assert 0 <= d * p;
    MulMonotone(d * p, r, b - 1);
    MulDistributes(b * gap, r * p, d);
    MulAssociates(d, b, gap);
    MulAssociates(b, d, gap);
    MulAssociates(d, r, p);
    MulAssociates(r, d, p);
    MulAssociates(b, b - 1, p - q);
    MulAssociates(b - 1, b, p - q);
    MulDistributes(b * (p - q), d * p, b - 1);
    MulDistributes(p, q, b);
    MulDistributes(b, d, p);
  }

  lemma ScaledStep(b: int, d: int, s: int, next: int, r: int, end: int, p: int, q: int)
    requires 0 < b && 0 <= d && 0 <= r < b && 0 < p
    requires b * next + r == s * (b + d)
    requires end * q <= next * p
    requires d * (next * p - end * q) <= (b - 1) * (p - q)
    ensures end * (b * q) <= s * ((b + d) * p)
    ensures d * (s * ((b + d) * p) - end * (b * q)) <= (b - 1) * ((b + d) * p - b * q)
  {
    var gap := next * p - end * q;
    ScaledError(b, d, s, next, r, end, p, q);
    ScaledBound(b, d, gap, r, p, q);
    MulMonotone(b, 0, gap);
    MulMonotone(r, 0, p);
  }

  /** end is at most spot * (1 + delta / b)^n, and short of it by an error that delta and n bound;
      both sides are multiplied by b^n, and b is 10000. */
  predicate WithinErrorBound(spot: int, delta: int, n: nat, end: int) {
    var b := BPS_DENOM;
    && end * Pow(b, n) <= spot * Pow(b + delta, n)
    && delta * (spot * Pow(b + delta, n) - end * Pow(b, n)) <= (b - 1) * (Pow(b + delta, n) - Pow(b, n))
  }

  /** The floor error of n iterated exponential steps. */
  lemma {:induction false} ExponentialError(delta: int, spot: int, n: nat)
    requires 0 <= delta
    ensures WithinErrorBound(spot, delta, n, PriceAfter(Exponential, delta, spot, n))
    decreases n
  {
    if n != 0 {
      var b, next := BPS_DENOM, PriceUp(Exponential, delta, spot);
      ExponentialError(delta, next, n - 1);
      PowPositive(b, n - 1);
      PowPositive(b + delta, n - 1);
      FloorBpsBounds(spot, delta);
      ScaledStep(b, delta, spot, next, spot * (b + delta) - b * next,
                 PriceAfter(Exponential, delta, next, n - 1), Pow(b + delta, n - 1), Pow(b, n - 1));
    }
  }

  /** Main result: after n accepted purchases from an Exponential pool its price is at most the exact
      exponential one, and short of it by an accumulated rounding error that is bounded for every n. */
  lemma ExponentialBuyRun(s: State, rs: seq<Request>, id: int)
    requires Inv(s) && id in s.pools && s.pools[id].curve == Exponential && AcceptedBuys(s, rs, id)
    ensures id in Run(s, rs).pools
    ensures WithinErrorBound(s.pools[id].spotPrice, s.pools[id].delta, |rs|, Run(s, rs).pools[id].spotPrice)
  {
    BuyRun(s, rs, id);
    ExponentialError(s.pools[id].delta, s.pools[id].spotPrice, |rs|);
  }

  // ---- Buy, then sell ----

  lemma RoundTripBound(b: int, s: int, d: int, rise: int, r: int, loss: int)
    requires 0 < b && 0 <= d && 0 <= r < b
    requires b * rise == s * d - r
    requires b * loss <= r + rise * d
    ensures b * (b * loss) < b * b + s * (d * d)
  {
    MulMonotone(b, b * loss, r + rise * d);
    MulDistributes(r, rise * d, b);
    MulAssociates(b, rise, d);
    MulDistributes(s * d, r, d);
    MulAssociates(s, d, d);
    MulMonotone(d, 0, r);
    MulMonotone(b, r, b - 1);
  }

  lemma ExponentialRoundTrip(delta: int, spot: int)
    requires 0 <= delta && 1 <= spot
    ensures var end := PriceDown(Exponential, delta, PriceUp(Exponential, delta, spot));
      && 1 <= end <= spot
      && BPS_DENOM * (BPS_DENOM * (spot - end)) < BPS_DENOM * BPS_DENOM + spot * (delta * delta)
  {
    var b, up := BPS_DENOM, PriceUp(Exponential, delta, spot);
    var rise, fall := FloorBps(spot, delta), FloorBps(up, delta);
    FloorBpsBounds(spot, delta);
    FloorBpsBounds(up, delta);
    MulMonotone(spot, 0, delta);
    FloorBpsMonotone(spot, up, delta);
    MulDistributes(spot, rise, delta);
    RoundTripBound(b, spot, delta, rise, spot * delta - b * rise, fall - rise);
    MulMonotone(spot, 0, delta * delta);
    MulMonotone(delta, 0, delta);
  }

  /** Main result: a purchase followed by a sale to the same Trade pool restores a Linear price exactly,
      and leaves an Exponential one between 1 and where it was, lower by a bounded amount. */
  lemma BuyThenSell(s: State, buy: Request, sell: Request)
    requires Inv(s) && buy.Buy? && sell.Sell? && buy.id == sell.id
    requires Step(s, buy).1.Bought? && Step(Step(s, buy).0, sell).1.Sold?
    ensures var id, s2 := buy.id, Step(Step(s, buy).0, sell).0;
      && id in s.pools && id in s2.pools && s.pools[id].poolType == Trade
      && var p, end := s.pools[id], s2.pools[id].spotPrice;
         && (p.curve == Linear ==> end == p.spotPrice)
         && (p.curve == Exponential ==>
               && 1 <= end <= p.spotPrice
               && BPS_DENOM * (BPS_DENOM * (p.spotPrice - end))
                  < BPS_DENOM * BPS_DENOM + p.spotPrice * (p.delta * p.delta))
  {
    var p := s.pools[buy.id];
    ExponentialRoundTrip(p.delta, p.spotPrice);
    assert p.poolType != BuyOnly && Step(s, buy).0.pools[buy.id].poolType != SellOnly;
  }

  /** Both fees at a spot price. */
  function FeesAt(p: Pool, spot: int): int {
    FloorBps(spot, p.feeBps) + FloorBps(spot, DEFAULT_PROTOCOL_FEE_BPS)
  }

  /** What a trader gains by a purchase and then a sale: the rise of the price, less the four fees. */
  function CycleGain(p: Pool): int {
    var up := PriceUp(p.curve, p.delta, p.spotPrice);
    up - p.spotPrice - FeesAt(p, p.spotPrice) - FeesAt(p, up)
  }

  /** What the same costs the pool: the rise of the price, less the two pool fees. */
  function CycleCost(p: Pool): int {
    var up := PriceUp(p.curve, p.delta, p.spotPrice);
    up - p.spotPrice - FloorBps(p.spotPrice, p.feeBps) - FloorBps(up, p.feeBps)
  }

  /** An accepted purchase from a pool and then an accepted sale to it. */
  ghost predicate Cycle(s: State, buy: Request, sell: Request, id: int)
    requires Consistent(s)
  {
    && buy.Buy? && sell.Sell? && buy.id == sell.id == id
    && Step(s, buy).1.Bought? && Step(Step(s, buy).0, sell).1.Sold?
  }

  lemma CycleEffect(s: State, buy: Request, sell: Request, id: int)
    requires Inv(s) && Cycle(s, buy, sell, id)
    ensures var s1 := Step(s, buy).0; var s2 := Step(s1, sell).0;
      && id in s.pools && id in s2.pools
      && var p, p2 := s.pools[id], s2.pools[id];
         && Step(s1, sell).1.payout - Step(s, buy).1.price == CycleGain(p)
         && p2.tokenBalance == p.tokenBalance - CycleCost(p)
         && |p2.nftIds| == |p.nftIds|
         && p2.spotPrice == PriceDown(p.curve, p.delta, PriceUp(p.curve, p.delta, p.spotPrice))
         && (p2.curve, p2.delta, p2.feeBps) == (p.curve, p.delta, p.feeBps)
  {
    InvStep(s, buy);
  }

  /** Main result: a trader gains by a purchase and then a sale exactly when the price rises by more than the
      four fees. */
  lemma CyclePaysExactly(s: State, buy: Request, sell: Request, id: int)
    requires Inv(s) && Cycle(s, buy, sell, id)
    ensures id in s.pools
    ensures var p := s.pools[id]; var up := PriceUp(p.curve, p.delta, p.spotPrice);
      Step(s, buy).1.price < Step(Step(s, buy).0, sell).1.payout <==>
      FeesAt(p, p.spotPrice) + FeesAt(p, up) < up - p.spotPrice
  {
    CycleEffect(s, buy, sell, id);
  }

  /** A purchase, a sale, a purchase, ..., all about one pool. */
  predicate Alternates(rs: seq<Request>, id: int) {
    rs != [] ==>
    && 2 <= |rs| && rs[0].Buy? && rs[1].Sell? && rs[0].id == rs[1].id == id
    && Alternates(rs[2..], id)
  }

  predicate Accepted(replies: seq<Reply>) {
    forall reply <- replies :: !reply.Rejected?
  }

  /** A run of accepted cycles, one after another. */
  ghost predicate Cycles(s: State, rs: seq<Request>, id: int)
    requires Consistent(s)
  {
    Alternates(rs, id) && Accepted(Replies(s, rs))
  }

  lemma TwoSteps(s: State, rs: seq<Request>)
    requires Consistent(s) && 2 <= |rs|
    ensures var (s1, reply1) := Step(s, rs[0]); var (s2, reply2) := Step(s1, rs[1]);
      && Run(s, rs) == Run(s2, rs[2..])
      && Replies(s, rs) == [reply1, reply2] + Replies(s2, rs[2..])
  {
    var (s1, reply1) := Step(s, rs[0]);
    assert rs[1..][1..] == rs[2..];
    assert Replies(s, rs)[1..] == Replies(s1, rs[1..]);
    assert Replies(s1, rs[1..])[1..] == Replies(Step(s1, rs[1]).0, rs[2..]);
  }

  /** A pool that is back at its price and has paid this much. */
  predicate Returned(p: Pool, p1: Pool, cost: int) {
    && (p1.curve, p1.delta, p1.feeBps, p1.spotPrice) == (p.curve, p.delta, p.feeBps, p.spotPrice)
    && |p1.nftIds| == |p.nftIds|
    && p1.tokenBalance == p.tokenBalance - cost
  }

  lemma CycleReturns(s: State, buy: Request, sell: Request, id: int)
    requires Inv(s) && Cycle(s, buy, sell, id) && id in s.pools && s.pools[id].curve == Linear
    ensures var s2 := Step(Step(s, buy).0, sell).0;
      Inv(s2) && id in s2.pools && Returned(s.pools[id], s2.pools[id], CycleCost(s.pools[id]))
  {
    CycleEffect(s, buy, sell, id);
    InvStep(s, buy);
    InvStep(Step(s, buy).0, sell);
  }

  lemma CyclesUnfold(s: State, rs: seq<Request>, id: int)
    requires Consistent(s) && Cycles(s, rs, id) && rs != []
    ensures 2 <= |rs| && Cycle(s, rs[0], rs[1], id) && Cycles(Step(Step(s, rs[0]).0, rs[1]).0, rs[2..], id)
  {
    var s1 := Step(s, rs[0]).0;
    var s2 := Step(s1, rs[1]).0;
    TwoSteps(s, rs);
  }

  /** What the cycles of a Linear pool need. */
  ghost predicate Cycling(s: State, rs: seq<Request>, id: int, gain: int, cost: int) {
    && Inv(s) && id in s.pools && s.pools[id].curve == Linear && Cycles(s, rs, id)
    && gain == CycleGain(s.pools[id]) && cost == CycleCost(s.pools[id])
  }

  /** The first cycle of a run, and the state it leads to. */
  lemma FirstCycle(s: State, rs: seq<Request>, id: int, gain: int, cost: int) returns (s2: State)
    requires Cycling(s, rs, id, gain, cost) && rs != []
    ensures |rs| >= 2 && Cycling(s2, rs[2..], id, gain, cost)
    ensures Run(s, rs) == Run(s2, rs[2..])
    ensures s2 == Step(Step(s, rs[0]).0, rs[1]).0
    ensures Returned(s.pools[id], s2.pools[id], cost)
  {
    CyclesUnfold(s, rs, id);
    TwoSteps(s, rs);
    CycleReturns(s, rs[0], rs[1], id);
    s2 := Step(Step(s, rs[0]).0, rs[1]).0;
  }

  /** n times x, as a sum. */
  function Times(n: nat, x: int): int {
    if n == 0 then 0 else x + Times(n - 1, x)
  }

  lemma {:induction false} TimesIsProduct(n: nat, x: int)
    ensures Times(n, x) == n * x
    decreases n
  {
    if n != 0 {
      TimesIsProduct(n - 1, x);
      MulDistributes(n - 1, 1, x);
    }
  }

  lemma {:induction false} CyclesReturn(s: State, rs: seq<Request>, id: int, n: nat, gain: int, cost: int, end: State)
    requires Cycling(s, rs, id, gain, cost) && |rs| == 2 * n && end == Run(s, rs)
    ensures id in end.pools && Returned(s.pools[id], end.pools[id], Times(n, cost))
    decreases n
  {
    if n != 0 {
      var s2 := FirstCycle(s, rs, id, gain, cost);
      CyclesReturn(s2, rs[2..], id, n - 1, gain, cost, end);
    }
  }

  lemma FirstGain(s: State, rs: seq<Request>, id: int, gain: int, cost: int) returns (s2: State)
    requires Cycling(s, rs, id, gain, cost) && rs != []
    ensures |rs| >= 2 && Cycling(s2, rs[2..], id, gain, cost)
    ensures Run(s, rs) == Run(s2, rs[2..])
    ensures Held(s2) == Held(s) - gain
  {
    s2 := FirstCycle(s, rs, id, gain, cost);
    CyclesUnfold(s, rs, id);
    InvStep(s, rs[0]);
    ConservationStep(s, rs[0]);
    ConservationStep(Step(s, rs[0]).0, rs[1]);
  }

  lemma {:induction false} CyclesGain(s: State, rs: seq<Request>, id: int, n: nat, gain: int, cost: int, end: State)
    requires Cycling(s, rs, id, gain, cost) && |rs| == 2 * n && end == Run(s, rs)
    ensures Inv(end) && Held(end) == Held(s) - Times(n, gain)
    decreases n
  {
    if n != 0 {
      var s2 := FirstGain(s, rs, id, gain, cost);
      CyclesGain(s2, rs[2..], id, n - 1, gain, cost, end);
    }
  }

  lemma {:induction false} AlternatesEven(rs: seq<Request>, id: int)
    requires Alternates(rs, id)
    ensures |rs| == 2 * (|rs| / 2)
    decreases |rs|
  {
    if rs != [] {
      AlternatesEven(rs[2..], id);
    }
  }

  /** Main result: a Linear pool is back at its price after any number n of cycles; the trader's gain is n
      times that of one, and so is the cost to the pool's balance, which bounds how often it can be done. */
  lemma LinearCycles(s: State, rs: seq<Request>, id: int)
    requires Inv(s) && id in s.pools && s.pools[id].curve == Linear && Cycles(s, rs, id)
    ensures id in Run(s, rs).pools
    ensures var p, n := s.pools[id], |rs| / 2;
      && -TotalInflow(Replies(s, rs)) == n * CycleGain(p)
      && Returned(p, Run(s, rs).pools[id], n * CycleCost(p))
      && n * CycleCost(p) <= p.tokenBalance
  {
    var n, gain, cost := |rs| / 2, CycleGain(s.pools[id]), CycleCost(s.pools[id]);
    AlternatesEven(rs, id);
    CyclesReturn(s, rs, id, n, gain, cost, Run(s, rs));
    CyclesGain(s, rs, id, n, gain, cost, Run(s, rs));
    ConservationRun(s, rs);
    TimesIsProduct(n, gain);
    TimesIsProduct(n, cost);
  }
}
