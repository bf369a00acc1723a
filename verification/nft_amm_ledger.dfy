/** The trade history against the counters of each pool. */
module NftAmmLedger {
  import opened Wrappers
  import opened Addresses
  import opened BasisPoints
  import opened NftAmmModel
  import opened NftAmmTheorems

  /** The records of one pool. */
  function TradesOf(trades: seq<TradeRecord>, id: int): int {
    if trades == [] then 0
    else TradesOf(trades[..|trades| - 1], id) + if trades[|trades| - 1].poolId == id then 1 else 0
  }

  /** The money buyers paid and sellers received in one pool's trades. */
  function MoneyMoved(trades: seq<TradeRecord>, id: int): int {
    if trades == [] then 0
    else MoneyMoved(trades[..|trades| - 1], id)
         + if trades[|trades| - 1].poolId == id then trades[|trades| - 1].price else 0
  }

  ghost predicate LedgerAgrees(s: State) {
    && (forall id :: id in s.pools ==> s.pools[id].tradeCount == TradesOf(s.trades, id))
    && (forall t <- s.trades :: t.poolId in s.pools)
  }

  /** Volume that no record of the pool shows as money. */
  function Surplus(s: State, id: int): int {
    if id in s.pools then s.pools[id].totalVolume - MoneyMoved(s.trades, id) else 0
  }

  predicate SaleTo(s: State, r: Request, id: int)
    requires Consistent(s)
  {
    r.Sell? && r.id == id && Step(s, r).1.Sold?
  }

  /** The fees a sale to the pool keeps from its seller. */
  function FeesKept(s: State, r: Request, id: int): int
    requires Consistent(s)
  {
    if SaleTo(s, r, id) && id in s.pools then PoolFee(s.pools[id]) + ProtocolFee(s.pools[id], s.protocolFeeBps) else 0
  }

  function SaleFees(s: State, rs: seq<Request>, id: int): int
    requires Consistent(s)
    decreases |rs|
  {
    if rs == [] then 0 else FeesKept(s, rs[0], id) + SaleFees(Step(s, rs[0]).0, rs[1..], id)
  }

  /** Every accepted sale to the pool is at a price too low for either fee. */
  predicate OnlyFeelessSales(s: State, rs: seq<Request>, id: int)
    requires Consistent(s)
    decreases |rs|
  {
    rs != [] ==>
    && (SaleTo(s, rs[0], id) && id in s.pools ==>
          var p := s.pools[id];
          p.spotPrice * p.feeBps < BPS_DENOM && p.spotPrice * s.protocolFeeBps < BPS_DENOM)
    && OnlyFeelessSales(Step(s, rs[0]).0, rs[1..], id)
  }

  lemma {:induction false} NoTrades(trades: seq<TradeRecord>, id: int)
    requires forall t <- trades :: t.poolId != id
    ensures TradesOf(trades, id) == 0 && MoneyMoved(trades, id) == 0
    decreases |trades|
  {
    if trades != [] {
      NoTrades(trades[..|trades| - 1], id);
    }
  }

  /** A seller receives at least 99/200 of the spot price. */
  lemma SellerShare(p: Pool)
    requires PoolOk(p)
    ensures 99 * p.spotPrice <= 200 * CalcSellPrice(p, DEFAULT_PROTOCOL_FEE_BPS) <= 200 * p.spotPrice
  {
    FloorBpsCap(p.spotPrice, p.feeBps, MAX_FEE_BPS);
    FloorBpsCap(p.spotPrice, DEFAULT_PROTOCOL_FEE_BPS, DEFAULT_PROTOCOL_FEE_BPS);
  }

  lemma TradeKeepsLedger(s: State, r: Request, id: int)
    requires Inv(s) && LedgerAgrees(s) && (r.Buy? || r.Sell?) && Error(s, r).None?
    ensures LedgerAgrees(Step(s, r).0)
    ensures Surplus(Step(s, r).0, id) == Surplus(s, id) + FeesKept(s, r, id)
  {
    var s1 := Step(s, r).0;
    var t := s1.trades[|s1.trades| - 1];
    assert s1.trades == s.trades + [t];
    assert forall i :: i in s1.pools ==> s1.pools[i].tradeCount == TradesOf(s1.trades, i);
  }

  /** Every other request leaves the counters and the history alone. */
  lemma QuietKeepsLedger(s: State, r: Request, id: int)
    requires Inv(s) && LedgerAgrees(s) && !r.Buy? && !r.Sell?
    ensures LedgerAgrees(Step(s, r).0)
    ensures Surplus(Step(s, r).0, id) == Surplus(s, id)
  {
    if r.CreatePool? {
      NoTrades(s.trades, s.nextId);
    }
  }

  lemma LedgerStep(s: State, r: Request, id: int)
    requires Inv(s) && LedgerAgrees(s)
    ensures LedgerAgrees(Step(s, r).0)
    ensures Surplus(Step(s, r).0, id) == Surplus(s, id) + FeesKept(s, r, id)
  {
    if (r.Buy? || r.Sell?) && Error(s, r).None? {
      TradeKeepsLedger(s, r, id);
    } else if !r.Buy? && !r.Sell? {
      QuietKeepsLedger(s, r, id);
    }
  }

  lemma {:induction false} LedgerRun(s: State, rs: seq<Request>, id: int)
    requires Inv(s) && LedgerAgrees(s)
    ensures LedgerAgrees(Run(s, rs))
    ensures Surplus(Run(s, rs), id) == Surplus(s, id) + SaleFees(s, rs, id)
    decreases |rs|
  {
    if rs != [] {
      InvStep(s, rs[0]);
      LedgerStep(s, rs[0], id);
      LedgerRun(Step(s, rs[0]).0, rs[1..], id);
    }
  }

  lemma FeesAreFloors(p: Pool)
    requires PoolOk(p)
    ensures 0 <= PoolFee(p) && 0 <= ProtocolFee(p, DEFAULT_PROTOCOL_FEE_BPS)
    ensures PoolFee(p) + ProtocolFee(p, DEFAULT_PROTOCOL_FEE_BPS) == 0 <==>
            p.spotPrice * p.feeBps < BPS_DENOM && p.spotPrice * DEFAULT_PROTOCOL_FEE_BPS < BPS_DENOM
  {
    FloorBpsCap(p.spotPrice, p.feeBps, MAX_FEE_BPS);
    FloorBpsBounds(p.spotPrice, p.feeBps);
    FloorBpsCap(p.spotPrice, DEFAULT_PROTOCOL_FEE_BPS, DEFAULT_PROTOCOL_FEE_BPS);
    FloorBpsBounds(p.spotPrice, DEFAULT_PROTOCOL_FEE_BPS);
  }

  lemma {:induction false} SaleFeesAreZeroExactly(s: State, rs: seq<Request>, id: int)
    requires Inv(s)
    ensures 0 <= SaleFees(s, rs, id)
    ensures SaleFees(s, rs, id) == 0 <==> OnlyFeelessSales(s, rs, id)
    decreases |rs|
  {
    if rs != [] {
      InvStep(s, rs[0]);
      SaleFeesAreZeroExactly(Step(s, rs[0]).0, rs[1..], id);
      if id in s.pools {
        FeesAreFloors(s.pools[id]);
      }
    }
  }

  /** Main result: over every run a pool's tradeCount is the number of its records in the history, and its
      totalVolume is the money its trades moved and the fees its sales kept; so it is the money moved if
      and only if every sale to the pool was at a price too low for either fee. */
  lemma HistoryMatchesCounters(rs: seq<Request>, id: int)
    requires id in Run(Initial(), rs).pools
    ensures var s := Run(Initial(), rs); var p := s.pools[id];
      && p.tradeCount == TradesOf(s.trades, id)
      && p.totalVolume == MoneyMoved(s.trades, id) + SaleFees(Initial(), rs, id)
      && (p.totalVolume == MoneyMoved(s.trades, id) <==> OnlyFeelessSales(Initial(), rs, id))
  {
    LedgerRun(Initial(), rs, id);
    SaleFeesAreZeroExactly(Initial(), rs, id);
  }

  /** A pool with 20,000 tokens and a spot price of 10,000 buys one NFT. */
  function OneSale(): seq<Request> {
    var account := AnAddress();
    [CreatePool(account, account, account, Some(Linear), Some(BuyOnly), Some(10_000), Some(0), Some(0)),
     DepositTokens(1, account, Some(20_000)),
     Sell(1, account, Some("nft"), Some(1))]
  }

  /** Its seller receives 9,950, and its volume is 10,000. */
  lemma SaleFeeCountsAsVolume()
    ensures var s := Run(Initial(), OneSale());
      1 in s.pools && s.pools[1].totalVolume == 10_000 && MoneyMoved(s.trades, 1) == 9_950
  {
    var rs := OneSale();
    var s1 := Step(Initial(), rs[0]).0;
    var s2 := Step(s1, rs[1]).0;
    var s3 := Step(s2, rs[2]).0;
    assert rs[1..][1..] == [rs[2]] && [rs[2]][1..] == [];
    assert Run(s2, [rs[2]]) == s3;
    assert Run(s1, rs[1..]) == s3;
    assert s3.trades == [TradeRecord(false, 1, "nft", 9_950, AnAddress())];
  }
}
