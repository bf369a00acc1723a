/** The market itself: pool objects whose fields the routes update in place. Each method is one route;
    its reply and its whole effect are those of NftAmmModel.Step. */
module NftAmm {
  import opened Wrappers
  import opened Addresses
  import opened BasisPoints
  import M = NftAmmModel

  class Pool {
    const owner: string
    const nftCollection: string
    const paymentToken: string
    const curve: M.Curve
    const poolType: M.PoolType
    var spotPrice: int
    var delta: int
    const feeBps: int
    var nftCount: int
    var nftIds: seq<string>
    var tokenBalance: int
    var totalVolume: int
    var tradeCount: int
    var active: bool

    ghost function View(): M.Pool
      reads this
    {
      M.Pool(owner, nftCollection, paymentToken, curve, poolType, spotPrice, delta, feeBps,
             nftCount, nftIds, tokenBalance, totalVolume, tradeCount, active)
    }

    constructor (owner: string, nftCollection: string, paymentToken: string, curve: M.Curve,
                 poolType: M.PoolType, spotPrice: int, delta: int, feeBps: int)
      ensures View() == M.Pool(owner, nftCollection, paymentToken, curve, poolType,
                               spotPrice, delta, feeBps, 0, [], 0, 0, 0, true)
    {
      this.owner, this.nftCollection, this.paymentToken := owner, nftCollection, paymentToken;
      this.curve, this.poolType, this.feeBps := curve, poolType, feeBps;
      this.spotPrice, this.delta := spotPrice, delta;
      nftCount, nftIds, tokenBalance, totalVolume, tradeCount, active := 0, [], 0, 0, 0, true;
    }

    method NextPriceUp() returns (price: int)
      ensures price == M.PriceUp(curve, delta, spotPrice)
    {
      if curve == M.Linear {
        return spotPrice + delta;
      }
      return spotPrice + spotPrice * delta / BPS_DENOM;
    }

    method NextPriceDown() returns (price: int)
      ensures price == M.PriceDown(curve, delta, spotPrice)
    {
      var newPrice;
      if curve == M.Linear {
        newPrice := spotPrice - delta;
      } else {
        newPrice := spotPrice - spotPrice * delta / BPS_DENOM;
      }
      return if newPrice < 1 then 1 else newPrice;
    }

    /** The pool's part of a purchase: the last NFT leaves, the spot price and the pool fee come in. */
    method GiveNft(totalPrice: int, ghost protocolFeeBps: int) returns (nftId: string)
      requires nftIds != [] && totalPrice == M.CalcBuyPrice(View(), protocolFeeBps)
      modifies this
      ensures View() == M.BoughtFrom(old(View()), protocolFeeBps)
      ensures old(nftIds) == nftIds + [nftId]
    {
      var poolFee := FloorBps(spotPrice, feeBps);
      nftId := nftIds[|nftIds| - 1];
      nftIds := nftIds[..|nftIds| - 1];
      nftCount := |nftIds|;
      tokenBalance := tokenBalance + (spotPrice + poolFee);
      totalVolume := totalVolume + totalPrice;
      tradeCount := tradeCount + 1;
      var newPrice := NextPriceUp();
      spotPrice := newPrice;
    }

    /** The pool's part of a sale: the NFT goes on the end of the list, its whole cost goes out. */
    method TakeNft(nftId: string, totalCost: int, ghost protocolFeeBps: int)
      requires totalCost == M.CalcSellPrice(View(), protocolFeeBps) + M.ProtocolFee(View(), protocolFeeBps)
      modifies this
      ensures View() == M.SoldTo(old(View()), nftId, protocolFeeBps)
    {
      nftIds := nftIds + [nftId];
      nftCount := |nftIds|;
      tokenBalance := tokenBalance - totalCost;
      totalVolume := totalVolume + spotPrice;
      tradeCount := tradeCount + 1;
      var newPrice := NextPriceDown();
      spotPrice := newPrice;
    }
  }

  class Market {
    var pools: map<int, Pool>
    var nextId: int
    var paused: bool
    var protocolFeeBps: int
    var protocolFeeBalance: int
    var trades: seq<M.TradeRecord>

    ghost function Model(): M.State
      reads this, pools.Values
    {
      M.State(map id | id in pools :: pools[id].View(), nextId, paused, protocolFeeBps, protocolFeeBalance, trades)
    }

    /** No two ids share a pool object, and NFT counts agree with the lists. */
    ghost predicate Valid()
      reads this, pools.Values
    {
      && (forall i, j :: i in pools && j in pools && pools[i] == pools[j] ==> i == j)
      && (forall id :: id in pools ==> pools[id].nftCount == |pools[id].nftIds|)
    }

    /** Writing to one pool object changes the view of its id only. */
    twostate lemma OnePoolWritten(id: int)
      requires old(Valid()) && pools == old(pools) && id in pools
      requires forall p: Pool :: p in old(pools.Values) && p != pools[id] ==> unchanged(p)
      ensures Model().pools == old(Model()).pools[id := pools[id].View()]
    {
      forall i | i in pools && i != id
        ensures pools[i].View() == old(pools[i].View())
      {
        assert pools[i] in pools.Values && pools[i] != pools[id];
        assert unchanged(pools[i]);
      }
    }

    constructor ()
      ensures Valid() && Model() == M.Initial() && pools == map[]
    {
      pools, nextId, paused := map[], 1, false;
      protocolFeeBps, protocolFeeBalance, trades := M.DEFAULT_PROTOCOL_FEE_BPS, 0, [];
    }

    /** The checks a new pool passes, in order; None when it may go ahead. */
    method CheckCreate(owner: string, nftCollection: string, paymentToken: string,
                       curve: Option<M.Curve>, poolType: Option<M.PoolType>,
                       spotPrice: Option<int>, delta: Option<int>, feeBps: Option<int>) returns (status: Option<int>)
      ensures status == M.Error(Model(),
        M.CreatePool(owner, nftCollection, paymentToken, curve, poolType, spotPrice, delta, feeBps))
    {
      if paused { return Some(503); }
      if !ValidAddress(owner) { return Some(400); }
      if !ValidAddress(nftCollection) { return Some(400); }
      if !ValidAddress(paymentToken) { return Some(400); }
      if curve.None? { return Some(400); }
      if poolType.None? { return Some(400); }
      if spotPrice.None? || spotPrice.value <= 0 { return Some(400); }
      if delta.None? || delta.value < 0 { return Some(400); }
      if feeBps.None? || feeBps.value < 0 || feeBps.value > M.MAX_FEE_BPS { return Some(400); }
      if poolType.value != M.Trade && feeBps.value > 0 { return Some(400); }
      return None;
    }

    method CreatePool(owner: string, nftCollection: string, paymentToken: string,
                      curve: Option<M.Curve>, poolType: Option<M.PoolType>,
                      spotPrice: Option<int>, delta: Option<int>, feeBps: Option<int>) returns (reply: M.Reply)
      requires Valid()
      modifies this
      ensures Valid() && fresh(pools.Values - old(pools.Values))
      ensures (Model(), reply) == M.Step(old(Model()),
        M.CreatePool(owner, nftCollection, paymentToken, curve, poolType, spotPrice, delta, feeBps))
    {
      var status := CheckCreate(owner, nftCollection, paymentToken, curve, poolType, spotPrice, delta, feeBps);
      if status.Some? { return M.Rejected(status.value); }
      var pool := new Pool(owner, nftCollection, paymentToken, curve.value, poolType.value,
                           spotPrice.value, delta.value, feeBps.value);
      var id := AddPool(pool);
      return M.Created(id);
    }

    /** store.nextId++ and pools.set, for a new and empty pool. */
    method AddPool(pool: Pool) returns (id: int)
      requires Valid() && pool !in pools.Values && pool.nftCount == |pool.nftIds|
      modifies this
      ensures Valid() && pools == old(pools)[id := pool] && id == old(nextId)
      ensures Model() == M.Put(old(Model()), id, pool.View()).(nextId := id + 1)
    {
      id := nextId;
      nextId := nextId + 1;
      pools := pools[id := pool];
      assert Model().pools == old(Model()).pools[id := pool.View()];
    }

    method UpdateParams(id: int, owner: string, spotPrice: Option<int>, delta: Option<int>) returns (reply: M.Reply)
      requires Valid()
      modifies pools.Values
      ensures Valid()
      ensures (Model(), reply) == M.Step(old(Model()), M.UpdateParams(id, owner, spotPrice, delta))
    {
      if paused { return M.Rejected(503); }
      if !ValidAddress(owner) { return M.Rejected(400); }
      if id !in pools { return M.Rejected(404); }
      var pool := pools[id];
      if pool.owner != owner { return M.Rejected(403); }
      if !pool.active { return M.Rejected(409); }
      if spotPrice.None? || spotPrice.value <= 0 { return M.Rejected(400); }
      if delta.None? || delta.value < 0 { return M.Rejected(400); }
      pool.spotPrice := spotPrice.value;
      pool.delta := delta.value;
      OnePoolWritten(id);
      return M.Updated;
    }

    method Deactivate(id: int, owner: string) returns (reply: M.Reply)
      requires Valid()
      modifies pools.Values
      ensures Valid()
      ensures (Model(), reply) == M.Step(old(Model()), M.Deactivate(id, owner))
    {
      if !ValidAddress(owner) { return M.Rejected(400); }
      if id !in pools { return M.Rejected(404); }
      var pool := pools[id];
      if pool.owner != owner { return M.Rejected(403); }
      pool.active := false;
      OnePoolWritten(id);
      return M.Updated;
    }

    method DepositTokens(id: int, owner: string, amount: Option<int>) returns (reply: M.Reply)
      requires Valid()
      modifies pools.Values
      ensures Valid()
      ensures (Model(), reply) == M.Step(old(Model()), M.DepositTokens(id, owner, amount))
    {
      if paused { return M.Rejected(503); }
      if !ValidAddress(owner) { return M.Rejected(400); }
      if id !in pools { return M.Rejected(404); }
      var pool := pools[id];
      if pool.owner != owner { return M.Rejected(403); }
      if !pool.active { return M.Rejected(409); }
      if pool.poolType == M.SellOnly { return M.Rejected(409); }
      if amount.None? || amount.value <= 0 { return M.Rejected(400); }
      pool.tokenBalance := pool.tokenBalance + amount.value;
      OnePoolWritten(id);
      return M.TokensIn(amount.value);
    }

    method DepositNfts(id: int, owner: string, nftIds: seq<string>) returns (reply: M.Reply)
      requires Valid()
      modifies pools.Values
      ensures Valid()
      ensures (Model(), reply) == M.Step(old(Model()), M.DepositNfts(id, owner, nftIds))
    {
      if paused { return M.Rejected(503); }
      if !ValidAddress(owner) { return M.Rejected(400); }
      if nftIds == [] { return M.Rejected(400); }
      if id !in pools { return M.Rejected(404); }
      var pool := pools[id];
      if pool.owner != owner { return M.Rejected(403); }
      if !pool.active { return M.Rejected(409); }
      if pool.poolType == M.BuyOnly { return M.Rejected(409); }
      pool.nftIds := pool.nftIds + nftIds;
      pool.nftCount := |pool.nftIds|;
      OnePoolWritten(id);
      return M.NftsIn(nftIds);
    }

    method WithdrawTokens(id: int, owner: string, amount: Option<int>) returns (reply: M.Reply)
      requires Valid()
      modifies pools.Values
      ensures Valid()
      ensures (Model(), reply) == M.Step(old(Model()), M.WithdrawTokens(id, owner, amount))
    {
      if !ValidAddress(owner) { return M.Rejected(400); }
      if id !in pools { return M.Rejected(404); }
      var pool := pools[id];
      if pool.owner != owner { return M.Rejected(403); }
      if amount.None? || amount.value <= 0 { return M.Rejected(400); }
      if amount.value > pool.tokenBalance { return M.Rejected(409); }
      pool.tokenBalance := pool.tokenBalance - amount.value;
      OnePoolWritten(id);
      return M.TokensOut(amount.value);
    }

    method WithdrawNfts(id: int, owner: string, count: Option<int>) returns (reply: M.Reply)
      requires Valid()
      modifies pools.Values
      ensures Valid()
      ensures (Model(), reply) == M.Step(old(Model()), M.WithdrawNfts(id, owner, count))
    {
      if !ValidAddress(owner) { return M.Rejected(400); }
      if id !in pools { return M.Rejected(404); }
      var pool := pools[id];
      if pool.owner != owner { return M.Rejected(403); }
      if count.None? || count.value <= 0 { return M.Rejected(400); }
      var n := count.value;
      if n > pool.nftCount { return M.Rejected(409); }
      var withdrawn := pool.nftIds[|pool.nftIds| - n..];
      pool.nftIds := pool.nftIds[..|pool.nftIds| - n];
      pool.nftCount := |pool.nftIds|;
      OnePoolWritten(id);
      return M.NftsOut(withdrawn);
    }

    method CalcBuyPrice(pool: Pool) returns (price: int)
      ensures price == M.CalcBuyPrice(pool.View(), protocolFeeBps)
    {
      var fee := pool.spotPrice * pool.feeBps / BPS_DENOM;
      var protocolFee := pool.spotPrice * protocolFeeBps / BPS_DENOM;
      return pool.spotPrice + fee + protocolFee;
    }

    method CalcSellPrice(pool: Pool) returns (price: int)
      ensures price == M.CalcSellPrice(pool.View(), protocolFeeBps)
    {
      var fee := pool.spotPrice * pool.feeBps / BPS_DENOM;
      var protocolFee := pool.spotPrice * protocolFeeBps / BPS_DENOM;
      return pool.spotPrice - fee - protocolFee;
    }

    /** The checks a purchase passes, in order; None when it may go ahead. */
    method CheckBuy(id: int, buyer: string, maxPrice: Option<int>) returns (status: Option<int>)
      requires Valid()
      ensures status == M.Error(Model(), M.Buy(id, buyer, maxPrice))
    {
      if paused { return Some(503); }
      if !ValidAddress(buyer) { return Some(400); }
      if id !in pools { return Some(404); }
      var pool := pools[id];
      if !pool.active { return Some(409); }
      if pool.poolType == M.BuyOnly { return Some(409); }
      if pool.nftCount == 0 { return Some(409); }
      var totalPrice := CalcBuyPrice(pool);
      if maxPrice.None? || totalPrice > maxPrice.value { return Some(409); }
      return None;
    }

    method Buy(id: int, buyer: string, maxPrice: Option<int>) returns (reply: M.Reply)
      requires Valid()
      modifies this, pools.Values
      ensures Valid() && pools == old(pools)
      ensures (Model(), reply) == M.Step(old(Model()), M.Buy(id, buyer, maxPrice))
    {
      var status := CheckBuy(id, buyer, maxPrice);
      if status.Some? { return M.Rejected(status.value); }
      var pool := pools[id];
      var totalPrice := CalcBuyPrice(pool);
      var protocolFee := FloorBps(pool.spotPrice, protocolFeeBps);
      var nftId := pool.GiveNft(totalPrice, protocolFeeBps);
      protocolFeeBalance := protocolFeeBalance + protocolFee;
      trades := trades + [M.TradeRecord(true, id, nftId, totalPrice, buyer)];
      OnePoolWritten(id);
      return M.Bought(nftId, totalPrice);
    }

    /** The checks a sale passes, in order; None when it may go ahead. */
    method CheckSell(id: int, seller: string, nftId: Option<string>, minPrice: Option<int>)
      returns (status: Option<int>)
      requires Valid()
      ensures status == M.Error(Model(), M.Sell(id, seller, nftId, minPrice))
    {
      if paused { return Some(503); }
      if !ValidAddress(seller) { return Some(400); }
      if nftId.None? { return Some(400); }
      if id !in pools { return Some(404); }
      var pool := pools[id];
      if !pool.active { return Some(409); }
      if pool.poolType == M.SellOnly { return Some(409); }
      var payout := CalcSellPrice(pool);
      if minPrice.None? || payout < minPrice.value { return Some(409); }
      var protocolFee := FloorBps(pool.spotPrice, protocolFeeBps);
      var totalCost := payout + protocolFee;
      if pool.tokenBalance < totalCost { return Some(409); }
      return None;
    }

    method Sell(id: int, seller: string, nftId: Option<string>, minPrice: Option<int>) returns (reply: M.Reply)
      requires Valid()
      modifies this, pools.Values
      ensures Valid() && pools == old(pools)
      ensures (Model(), reply) == M.Step(old(Model()), M.Sell(id, seller, nftId, minPrice))
    {
      var status := CheckSell(id, seller, nftId, minPrice);
      if status.Some? { return M.Rejected(status.value); }
      var pool := pools[id];
      var payout := CalcSellPrice(pool);
      var protocolFee := FloorBps(pool.spotPrice, protocolFeeBps);
      pool.TakeNft(nftId.value, payout + protocolFee, protocolFeeBps);
      protocolFeeBalance := protocolFeeBalance + protocolFee;
      trades := trades + [M.TradeRecord(false, id, nftId.value, payout, seller)];
      OnePoolWritten(id);
      return M.Sold(nftId.value, payout);
    }

    method SetPaused(admin: string, flag: Option<bool>) returns (reply: M.Reply)
      requires Valid()
      modifies this
      ensures Valid() && pools == old(pools)
      ensures (Model(), reply) == M.Step(old(Model()), M.SetPaused(admin, flag))
    {
      if !ValidAddress(admin) { return M.Rejected(400); }
      if flag.None? { return M.Rejected(400); }
      paused := flag.value;
      assert Model().pools == old(Model()).pools by {
        assert forall id :: id in pools ==> unchanged(pools[id]);
      }
      return M.Updated;
    }
  }
}
