/** The NFT automated market maker of backend/src/routes/nftAmm.js as values: one function per route. */
module NftAmmModel {
  import opened Wrappers
  import opened Addresses
  import opened BasisPoints

  datatype Curve = Linear | Exponential

  datatype PoolType = BuyOnly | SellOnly | Trade

  datatype Pool = Pool(
    owner: string, nftCollection: string, paymentToken: string, curve: Curve, poolType: PoolType,
    spotPrice: int, delta: int, feeBps: int, nftCount: int, nftIds: seq<string>,
    tokenBalance: int, totalVolume: int, tradeCount: int, active: bool)

  datatype TradeRecord = TradeRecord(isBuy: bool, poolId: int, nftId: string, price: int, trader: string)

  datatype State = State(
    pools: map<int, Pool>, nextId: int, paused: bool,
    protocolFeeBps: int, protocolFeeBalance: int, trades: seq<TradeRecord>)

  const DEFAULT_PROTOCOL_FEE_BPS := 50
  const MAX_FEE_BPS := 5000

  function Initial(): State {
    State(map[], 1, false, DEFAULT_PROTOCOL_FEE_BPS, 0, [])
  }

  /** nftCount agrees with the list of NFTs, so that popping and splicing stay inside it. */
  ghost predicate Consistent(s: State) {
    forall id :: id in s.pools ==> s.pools[id].nftCount == |s.pools[id].nftIds|
  }

  // ---- Pricing ----

  function PoolFee(p: Pool): int { FloorBps(p.spotPrice, p.feeBps) }

  function ProtocolFee(p: Pool, protocolFeeBps: int): int { FloorBps(p.spotPrice, protocolFeeBps) }

  function CalcBuyPrice(p: Pool, protocolFeeBps: int): int {
    p.spotPrice + PoolFee(p) + ProtocolFee(p, protocolFeeBps)
  }

  function CalcSellPrice(p: Pool, protocolFeeBps: int): int {
    p.spotPrice - PoolFee(p) - ProtocolFee(p, protocolFeeBps)
  }

  function PriceUp(curve: Curve, delta: int, spot: int): int {
    match curve
    case Linear => spot + delta
    case Exponential => spot + FloorBps(spot, delta)
  }

  function PriceDown(curve: Curve, delta: int, spot: int): int {
    var lower := match curve
      case Linear => spot - delta
      case Exponential => spot - FloorBps(spot, delta);
    if lower < 1 then 1 else lower
  }

  // ---- Requests ----

  /** Numbers arrive through parseInt: None is NaN. A curve, pool type or pause flag that is not one
      of the accepted values is None. An id that does not parse is any id no pool has. */
  datatype Request =
    | CreatePool(owner: string, nftCollection: string, paymentToken: string,
                 curve: Option<Curve>, poolType: Option<PoolType>,
                 spotPrice: Option<int>, delta: Option<int>, feeBps: Option<int>)
    | UpdateParams(id: int, owner: string, spotPrice: Option<int>, delta: Option<int>)
    | Deactivate(id: int, owner: string)
    | DepositTokens(id: int, owner: string, amount: Option<int>)
    | DepositNfts(id: int, owner: string, nftIds: seq<string>)
    | WithdrawTokens(id: int, owner: string, amount: Option<int>)
    | WithdrawNfts(id: int, owner: string, count: Option<int>)
    | Buy(id: int, buyer: string, maxPrice: Option<int>)
    | Sell(id: int, seller: string, nftId: Option<string>, minPrice: Option<int>)
    | SetPaused(admin: string, paused: Option<bool>)

  datatype Reply =
    | Rejected(status: int)
    | Created(id: int)
    | Updated
    | TokensIn(amount: int)
    | NftsIn(nftIds: seq<string>)
    | TokensOut(amount: int)
    | NftsOut(nftIds: seq<string>)
    | Bought(nftId: string, price: int)
    | Sold(nftId: string, payout: int)

  predicate NonNegative(n: Option<int>) { n.Some? && 0 <= n.value }

  /** The status of a request about a pool that only its owner may make, or None. */
  function OwnerError(s: State, id: int, owner: string): Option<int> {
    if id !in s.pools then Some(404)
    else if s.pools[id].owner != owner then Some(403)
    else None
  }

  function CreateError(s: State, r: Request): Option<int>
    requires r.CreatePool?
  {
    if s.paused then Some(503)
    else if !ValidAddress(r.owner) || !ValidAddress(r.nftCollection) || !ValidAddress(r.paymentToken) then Some(400)
    else if r.curve.None? || r.poolType.None? then Some(400)
    else if !Positive(r.spotPrice) || !NonNegative(r.delta) then Some(400)
    else if !NonNegative(r.feeBps) || MAX_FEE_BPS < r.feeBps.value then Some(400)
    else if r.poolType.value != Trade && 0 < r.feeBps.value then Some(400)
    else None
  }

  function ParamsError(s: State, r: Request): Option<int>
    requires r.UpdateParams?
  {
    if s.paused then Some(503)
    else if !ValidAddress(r.owner) then Some(400)
    else if OwnerError(s, r.id, r.owner).Some? then OwnerError(s, r.id, r.owner)
    else if !s.pools[r.id].active then Some(409)
    else if !Positive(r.spotPrice) || !NonNegative(r.delta) then Some(400)
    else None
  }

  function DeactivateError(s: State, r: Request): Option<int>
    requires r.Deactivate?
  {
    if !ValidAddress(r.owner) then Some(400) else OwnerError(s, r.id, r.owner)
  }

  function DepositTokensError(s: State, r: Request): Option<int>
    requires r.DepositTokens?
  {
    if s.paused then Some(503)
    else if !ValidAddress(r.owner) then Some(400)
    else if OwnerError(s, r.id, r.owner).Some? then OwnerError(s, r.id, r.owner)
    else if !s.pools[r.id].active || s.pools[r.id].poolType == SellOnly then Some(409)
    else if !Positive(r.amount) then Some(400)
    else None
  }

  function DepositNftsError(s: State, r: Request): Option<int>
    requires r.DepositNfts?
  {
    if s.paused then Some(503)
    else if !ValidAddress(r.owner) || r.nftIds == [] then Some(400)
    else if OwnerError(s, r.id, r.owner).Some? then OwnerError(s, r.id, r.owner)
    else if !s.pools[r.id].active || s.pools[r.id].poolType == BuyOnly then Some(409)
    else None
  }

  function WithdrawTokensError(s: State, r: Request): Option<int>
    requires r.WithdrawTokens?
  {
    if !ValidAddress(r.owner) then Some(400)
    else if OwnerError(s, r.id, r.owner).Some? then OwnerError(s, r.id, r.owner)
    else if !Positive(r.amount) then Some(400)
    else if s.pools[r.id].tokenBalance < r.amount.value then Some(409)
    else None
  }

  function WithdrawNftsError(s: State, r: Request): Option<int>
    requires r.WithdrawNfts?
  {
    if !ValidAddress(r.owner) then Some(400)
    else if OwnerError(s, r.id, r.owner).Some? then OwnerError(s, r.id, r.owner)
    else if !Positive(r.count) then Some(400)
    else if s.pools[r.id].nftCount < r.count.value then Some(409)
    else None
  }

  function BuyError(s: State, r: Request): Option<int>
    requires r.Buy?
  {
    if s.paused then Some(503)
    else if !ValidAddress(r.buyer) then Some(400)
    else if r.id !in s.pools then Some(404)
    else var p := s.pools[r.id];
      if !p.active || p.poolType == BuyOnly || p.nftCount == 0 then Some(409)
      else if r.maxPrice.None? || r.maxPrice.value < CalcBuyPrice(p, s.protocolFeeBps) then Some(409)
      else None
  }

  function SellError(s: State, r: Request): Option<int>
    requires r.Sell?
  {
    if s.paused then Some(503)
    else if !ValidAddress(r.seller) || r.nftId.None? then Some(400)
    else if r.id !in s.pools then Some(404)
    else var p := s.pools[r.id];
      var payout := CalcSellPrice(p, s.protocolFeeBps);
      if !p.active || p.poolType == SellOnly then Some(409)
      else if r.minPrice.None? || payout < r.minPrice.value then Some(409)
      else if p.tokenBalance < payout + ProtocolFee(p, s.protocolFeeBps) then Some(409)
      else None
  }

  function Error(s: State, r: Request): Option<int> {
    match r
    case CreatePool(_, _, _, _, _, _, _, _) => CreateError(s, r)
    case UpdateParams(_, _, _, _) => ParamsError(s, r)
    case Deactivate(_, _) => DeactivateError(s, r)
    case DepositTokens(_, _, _) => DepositTokensError(s, r)
    case DepositNfts(_, _, _) => DepositNftsError(s, r)
    case WithdrawTokens(_, _, _) => WithdrawTokensError(s, r)
    case WithdrawNfts(_, _, _) => WithdrawNftsError(s, r)
    case Buy(_, _, _) => BuyError(s, r)
    case Sell(_, _, _, _) => SellError(s, r)
    case SetPaused(admin, paused) => if !ValidAddress(admin) || paused.None? then Some(400) else None
  }

  function NewPool(r: Request): Pool
    requires r.CreatePool? && r.curve.Some? && r.poolType.Some?
    requires r.spotPrice.Some? && r.delta.Some? && r.feeBps.Some?
  {
    Pool(r.owner, r.nftCollection, r.paymentToken, r.curve.value, r.poolType.value,
         r.spotPrice.value, r.delta.value, r.feeBps.value, 0, [], 0, 0, 0, true)
  }

  function WithNfts(p: Pool, nftIds: seq<string>): Pool {
    p.(nftIds := nftIds, nftCount := |nftIds|)
  }

  function BoughtFrom(p: Pool, protocolFeeBps: int): Pool
    requires p.nftIds != []
  {
    WithNfts(p, p.nftIds[..|p.nftIds| - 1]).(
      tokenBalance := p.tokenBalance + (p.spotPrice + PoolFee(p)),
      totalVolume := p.totalVolume + CalcBuyPrice(p, protocolFeeBps),
      tradeCount := p.tradeCount + 1,
      spotPrice := PriceUp(p.curve, p.delta, p.spotPrice))
  }

  function SoldTo(p: Pool, nftId: string, protocolFeeBps: int): Pool {
    WithNfts(p, p.nftIds + [nftId]).(
      tokenBalance := p.tokenBalance - (CalcSellPrice(p, protocolFeeBps) + ProtocolFee(p, protocolFeeBps)),
      totalVolume := p.totalVolume + p.spotPrice,
      tradeCount := p.tradeCount + 1,
      spotPrice := PriceDown(p.curve, p.delta, p.spotPrice))
  }

  function Put(s: State, id: int, p: Pool): State {
    s.(pools := s.pools[id := p])
  }

  /** What a request that is not rejected does. */
  function Apply(s: State, r: Request): (State, Reply)
    requires Consistent(s) && Error(s, r).None?
  {
    match r
    case CreatePool(_, _, _, _, _, _, _, _) =>
      (Put(s, s.nextId, NewPool(r)).(nextId := s.nextId + 1), Created(s.nextId))
    case UpdateParams(id, _, spotPrice, delta) =>
      (Put(s, id, s.pools[id].(spotPrice := spotPrice.value, delta := delta.value)), Updated)
    case Deactivate(id, _) => (Put(s, id, s.pools[id].(active := false)), Updated)
    case DepositTokens(id, _, amount) =>
      (Put(s, id, s.pools[id].(tokenBalance := s.pools[id].tokenBalance + amount.value)), TokensIn(amount.value))
    case DepositNfts(id, _, nftIds) =>
      (Put(s, id, WithNfts(s.pools[id], s.pools[id].nftIds + nftIds)), NftsIn(nftIds))
    case WithdrawTokens(id, _, amount) =>
      (Put(s, id, s.pools[id].(tokenBalance := s.pools[id].tokenBalance - amount.value)), TokensOut(amount.value))
    case WithdrawNfts(id, _, count) =>
      var ids := s.pools[id].nftIds;
      (Put(s, id, WithNfts(s.pools[id], ids[..|ids| - count.value])), NftsOut(ids[|ids| - count.value..]))
    case Buy(id, buyer, _) =>
      var p := s.pools[id];
      var nftId, price := p.nftIds[|p.nftIds| - 1], CalcBuyPrice(p, s.protocolFeeBps);
      (Put(s, id, BoughtFrom(p, s.protocolFeeBps)).(
         protocolFeeBalance := s.protocolFeeBalance + ProtocolFee(p, s.protocolFeeBps),
         trades := s.trades + [TradeRecord(true, id, nftId, price, buyer)]),
       Bought(nftId, price))
    case Sell(id, seller, nftId, _) =>
      var p := s.pools[id];
      var payout := CalcSellPrice(p, s.protocolFeeBps);
      (Put(s, id, SoldTo(p, nftId.value, s.protocolFeeBps)).(
         protocolFeeBalance := s.protocolFeeBalance + ProtocolFee(p, s.protocolFeeBps),
         trades := s.trades + [TradeRecord(false, id, nftId.value, payout, seller)]),
       Sold(nftId.value, payout))
    case SetPaused(_, paused) => (s.(paused := paused.value), Updated)
  }

  /** One request: rejected without effect, or applied. */
  function Step(s: State, r: Request): (result: (State, Reply))
    requires Consistent(s)
    ensures Consistent(result.0)
  {
    if Error(s, r).Some? then (s, Rejected(Error(s, r).value)) else Apply(s, r)
  }

  function Run(s: State, rs: seq<Request>): (end: State)
    requires Consistent(s)
    ensures Consistent(end)
    decreases |rs|
  {
    if rs == [] then s else Run(Step(s, rs[0]).0, rs[1..])
  }

  function Replies(s: State, rs: seq<Request>): (replies: seq<Reply>)
    requires Consistent(s)
    ensures |replies| == |rs|
    decreases |rs|
  {
    if rs == [] then [] else [Step(s, rs[0]).1] + Replies(Step(s, rs[0]).0, rs[1..])
  }
}
