/** Which requests the market accepts, and what each of them changes. */
module NftAmmLaws {
  import opened Wrappers
  import opened Addresses
  import opened NftAmmModel
  import opened NftAmmTheorems

  predicate Accepted(s: State, r: Request)
    requires Consistent(s)
  {
    !Step(s, r).1.Rejected?
  }

  // ---- What is accepted ----

  /** A new pool has valid addresses, a price of at least 1, a delta that is not negative and a fee of at most
      half the price, which only a Trade pool may have. */
  predicate Creatable(r: Request)
    requires r.CreatePool?
  {
    && ValidAddress(r.owner) && ValidAddress(r.nftCollection) && ValidAddress(r.paymentToken)
    && r.curve.Some? && r.poolType.Some?
    && r.spotPrice.Some? && 1 <= r.spotPrice.value
    && r.delta.Some? && 0 <= r.delta.value
    && r.feeBps.Some? && 0 <= r.feeBps.value <= 5000 && (r.feeBps.value == 0 || r.poolType == Some(Trade))
  }

  /** The owner of an existing pool asks. */
  predicate ByOwner(s: State, id: int, owner: string) {
    ValidAddress(owner) && id in s.pools && s.pools[id].owner == owner
  }

  predicate AtLeastOne(n: Option<int>) { n.Some? && 1 <= n.value }

  /** The price of an NFT: the spot price and both floored fees. */
  function Asked(p: Pool): int {
    p.spotPrice + p.spotPrice * p.feeBps / 10_000 + p.spotPrice * 50 / 10_000
  }

  /** What a seller is offered: the spot price less both fees; the pool pays the protocol fee as well. */
  function Offered(p: Pool): int {
    p.spotPrice - p.spotPrice * p.feeBps / 10_000 - p.spotPrice * 50 / 10_000
  }

  function CostOfSale(p: Pool): int {
    p.spotPrice - p.spotPrice * p.feeBps / 10_000
  }

  /** Main result: each kind of request is accepted exactly in the situation it is for. */
  lemma AcceptedExactly(s: State, r: Request)
    requires Inv(s)
    ensures Accepted(s, r) <==>
      match r
      case CreatePool(_, _, _, _, _, _, _, _) => !s.paused && Creatable(r)
      case UpdateParams(id, owner, spotPrice, delta) =>
        !s.paused && ByOwner(s, id, owner) && s.pools[id].active
        && AtLeastOne(spotPrice) && delta.Some? && 0 <= delta.value
      case Deactivate(id, owner) => ByOwner(s, id, owner)
      case DepositTokens(id, owner, amount) =>
        !s.paused && ByOwner(s, id, owner) && s.pools[id].active && s.pools[id].poolType in {BuyOnly, Trade}
        && AtLeastOne(amount)
      case DepositNfts(id, owner, nftIds) =>
        !s.paused && ByOwner(s, id, owner) && s.pools[id].active && s.pools[id].poolType in {SellOnly, Trade}
        && nftIds != []
      case WithdrawTokens(id, owner, amount) =>
        ByOwner(s, id, owner) && AtLeastOne(amount) && amount.value <= s.pools[id].tokenBalance
      case WithdrawNfts(id, owner, count) =>
        ByOwner(s, id, owner) && AtLeastOne(count) && count.value <= |s.pools[id].nftIds|
      case Buy(id, buyer, maxPrice) =>
        !s.paused && ValidAddress(buyer) && id in s.pools && s.pools[id].active
        && s.pools[id].poolType in {SellOnly, Trade} && s.pools[id].nftIds != []
        && maxPrice.Some? && Asked(s.pools[id]) <= maxPrice.value
      case Sell(id, seller, nftId, minPrice) =>
        !s.paused && ValidAddress(seller) && nftId.Some? && id in s.pools && s.pools[id].active
        && s.pools[id].poolType in {BuyOnly, Trade}
        && minPrice.Some? && minPrice.value <= Offered(s.pools[id])
        && CostOfSale(s.pools[id]) <= s.pools[id].tokenBalance
      case SetPaused(admin, paused) => ValidAddress(admin) && paused.Some?
  {
  }

  /** The market can be paused for these requests. */
  predicate Pausable(r: Request) {
    !r.Deactivate? && !r.WithdrawTokens? && !r.WithdrawNfts? && !r.SetPaused?
  }

  predicate OwnersRequest(r: Request) {
    AboutPool(r) && !r.Buy? && !r.Sell?
  }

  /** What is wrong with a request whatever pools there are. */
  predicate Malformed(r: Request) {
    match r
    case CreatePool(_, _, _, _, _, _, _, _) => !Creatable(r)
    case SetPaused(admin, paused) => !ValidAddress(admin) || paused.None?
    case Buy(_, buyer, _) => !ValidAddress(buyer)
    case Sell(_, seller, nftId, _) => !ValidAddress(seller) || nftId.None?
    case DepositNfts(_, owner, nftIds) => !ValidAddress(owner) || nftIds == []
    case _ => !ValidAddress(r.owner)
  }

  /** What the kind, the state or the holdings of a pool rule out for its owner. */
  predicate Conflicts(p: Pool, r: Request) {
    match r
    case UpdateParams(_, _, _, _) => !p.active
    case DepositTokens(_, _, _) => !p.active || p.poolType == SellOnly
    case DepositNfts(_, _, _) => !p.active || p.poolType == BuyOnly
    case WithdrawTokens(_, _, amount) => AtLeastOne(amount) && p.tokenBalance < amount.value
    case WithdrawNfts(_, _, count) => AtLeastOne(count) && |p.nftIds| < count.value
    case _ => false
  }

  /** A rejection says the first of these that applies: 503 that the market is paused, 400 that the request is
      malformed, 404 that there is no such pool, 403 that it has another owner, 409 that the pool, or a limit
      of the trade, rules it out, and 400 that a number is not one its owner may ask for. */
  lemma RejectionSays(s: State, r: Request)
    requires Inv(s) && !Accepted(s, r)
    ensures Step(s, r) == (s, Rejected(
      if s.paused && Pausable(r) then 503
      else if Malformed(r) then 400
      else if AboutPool(r) && r.id !in s.pools then 404
      else if OwnersRequest(r) && s.pools[r.id].owner != r.owner then 403
      else if r.Buy? || r.Sell? then 409
      else if AboutPool(r) && Conflicts(s.pools[r.id], r) then 409
      else 400))
  {
  }

  // ---- What is changed ----

  /** A market starts empty, not paused, with a protocol fee of 0.5%. */
  lemma EmptyMarket()
    ensures var s := Initial();
      && s.pools == map[] && s.nextId == 1 && !s.paused && s.trades == []
      && s.protocolFeeBps == 50 && s.protocolFeeBalance == 0
  {
  }

  /** A request that creates a pool, or changes one, does nothing else. */
  predicate OnlyPools(s: State, s1: State) {
    && s1.paused == s.paused && s1.protocolFeeBps == s.protocolFeeBps
    && s1.protocolFeeBalance == s.protocolFeeBalance && s1.trades == s.trades
  }

  /** Main result: in every reachable state an accepted creation replies with a new id, and the pool under it has
      exactly what was asked for, holds nothing, has traded nothing and is active; every other pool stays. */
  lemma Creation(rs: seq<Request>, r: Request)
    requires r.CreatePool? && Step(Run(Initial(), rs), r).1.Created?
    ensures var s, s1, id := Run(Initial(), rs), Step(Run(Initial(), rs), r).0, Step(Run(Initial(), rs), r).1.id;
      && id !in s.pools && s1.pools.Keys == s.pools.Keys + {id} && OnlyPools(s, s1)
      && (forall other <- s.pools :: s1.pools[other] == s.pools[other])
      && var p := s1.pools[id];
         && p.owner == r.owner && p.nftCollection == r.nftCollection && p.paymentToken == r.paymentToken
         && Some(p.curve) == r.curve && Some(p.poolType) == r.poolType
         && Some(p.spotPrice) == r.spotPrice && Some(p.delta) == r.delta && Some(p.feeBps) == r.feeBps
         && p.nftIds == [] && p.nftCount == 0 && p.tokenBalance == 0
         && p.totalVolume == 0 && p.tradeCount == 0 && p.active
  {
    InvRun(Initial(), rs);
  }

  /** Only its holdings differ. */
  predicate SameTerms(p: Pool, p1: Pool) {
    && p1.owner == p.owner && p1.nftCollection == p.nftCollection && p1.paymentToken == p.paymentToken
    && p1.curve == p.curve && p1.poolType == p.poolType && p1.feeBps == p.feeBps
  }

  predicate SameCounters(p: Pool, p1: Pool) {
    p1.totalVolume == p.totalVolume && p1.tradeCount == p.tradeCount
  }

  /** What an accepted request of its owner does to a pool: new terms of trade, its end, or other holdings. */
  lemma OwnerChanges(s: State, r: Request)
    requires Inv(s) && OwnersRequest(r) && Accepted(s, r)
    ensures r.id in s.pools && r.id in Step(s, r).0.pools && OnlyPools(s, Step(s, r).0)
    ensures var p, p1, reply := s.pools[r.id], Step(s, r).0.pools[r.id], Step(s, r).1;
      && SameTerms(p, p1) && SameCounters(p, p1)
      && (if r.UpdateParams? then Some(p1.spotPrice) == r.spotPrice && Some(p1.delta) == r.delta
          else p1.spotPrice == p.spotPrice && p1.delta == p.delta)
      && p1.active == (p.active && !r.Deactivate?)
      && p1.tokenBalance - p.tokenBalance == (match r
           case DepositTokens(_, _, amount) => amount.value
           case WithdrawTokens(_, _, amount) => -amount.value
           case _ => 0)
      && (match r
          case DepositNfts(_, _, nftIds) => p1.nftIds == p.nftIds + nftIds && reply == NftsIn(nftIds)
          case WithdrawNfts(_, _, count) =>
            |p1.nftIds| == |p.nftIds| - count.value && reply.NftsOut? && p.nftIds == p1.nftIds + reply.nftIds
          case _ => p1.nftIds == p.nftIds)
      && (r.DepositTokens? ==> reply == TokensIn(r.amount.value))
      && (r.WithdrawTokens? ==> reply == TokensOut(r.amount.value))
  {
  }

  /** What an accepted purchase or sale does: the price moves as the curve says, money and one NFT change hands,
      the protocol fee is kept, and the trade is recorded. */
  lemma TradeChanges(s: State, r: Request)
    requires Inv(s) && (r.Buy? || r.Sell?) && Accepted(s, r)
    ensures r.id in s.pools && r.id in Step(s, r).0.pools
    ensures var s1, p, p1, reply := Step(s, r).0, s.pools[r.id], Step(s, r).0.pools[r.id], Step(s, r).1;
      && SameTerms(p, p1) && p1.delta == p.delta && p1.active
      && s1.paused == s.paused && s1.protocolFeeBps == s.protocolFeeBps && s1.nextId == s.nextId
      && s1.protocolFeeBalance == s.protocolFeeBalance + p.spotPrice * 50 / 10_000
      && p1.tradeCount == p.tradeCount + 1
      && (r.Buy? ==>
            && reply == Bought(p.nftIds[|p.nftIds| - 1], Asked(p)) && p.nftIds == p1.nftIds + [reply.nftId]
            && p1.tokenBalance == p.tokenBalance + p.spotPrice + p.spotPrice * p.feeBps / 10_000
            && p1.totalVolume == p.totalVolume + Asked(p)
            && p1.spotPrice == p.spotPrice + (if p.curve == Linear then p.delta else p.spotPrice * p.delta / 10_000)
            && s1.trades == s.trades + [TradeRecord(true, r.id, reply.nftId, reply.price, r.buyer)])
      && (r.Sell? ==>
            && reply == Sold(r.nftId.value, Offered(p)) && p1.nftIds == p.nftIds + [reply.nftId]
            && p1.tokenBalance == p.tokenBalance - CostOfSale(p)
            && p1.totalVolume == p.totalVolume + p.spotPrice
            && (var lower := p.spotPrice - if p.curve == Linear then p.delta else p.spotPrice * p.delta / 10_000;
                p1.spotPrice == if 1 <= lower then lower else 1)
            && s1.trades == s.trades + [TradeRecord(false, r.id, reply.nftId, reply.payout, r.seller)])
  {
  }

  lemma PauseChanges(s: State, r: Request)
    requires Inv(s) && r.SetPaused? && Accepted(s, r)
    ensures Some(Step(s, r).0.paused) == r.paused && Step(s, r).0 == s.(paused := r.paused.value)
  {
  }

  // ---- A run through an Exponential pool ----

  /** A Trade pool with a fee of 1% is created and given an NFT, which is bought from it. */
  function OnePurchase(): seq<Request> {
    var who := AnAddress();
    [CreatePool(who, who, who, Some(Exponential), Some(Trade), Some(1000), Some(500), Some(100)),
     DepositNfts(1, who, ["nft"]),
     Buy(1, who, Some(1015))]
  }

  /** The buyer pays 1015; the price rises by 5% to 1050, where a Linear pool's would be 1500. */
  lemma ExponentialPurchase()
    ensures var s := Run(Initial(), OnePurchase());
      && Replies(Initial(), OnePurchase()) == [Created(1), NftsIn(["nft"]), Bought("nft", 1015)]
      && 1 in s.pools && s.pools[1].curve == Exponential && s.pools[1].spotPrice == 1050
      && s.pools[1].tokenBalance == 1010 && s.protocolFeeBalance == 5 && s.pools[1].nftIds == []
  {
    var rs := OnePurchase();
    var s1 := Step(Initial(), rs[0]).0;
    var s2 := Step(s1, rs[1]).0;
    var s3 := Step(s2, rs[2]).0;
    assert rs[1..] == [rs[1], rs[2]] && rs[1..][1..] == [rs[2]] && [rs[2]][1..] == [];
    assert s2.pools[1].nftIds == ["nft"];
    assert Run(s2, [rs[2]]) == s3 && Replies(s2, [rs[2]]) == [Bought("nft", 1015)];
    assert Run(s1, rs[1..]) == s3 && Replies(s1, rs[1..]) == [NftsIn(["nft"]), Bought("nft", 1015)];
  }
}
