module NftAmmTheorems {
  import opened Wrappers
  import opened BasisPoints
  import Addresses
  import opened Totals
  import opened NftAmmModel

  // ---- Invariant ----

  predicate PoolOk(p: Pool) {
    && 1 <= p.spotPrice && 0 <= p.delta && 0 <= p.tokenBalance
    && 0 <= p.feeBps <= MAX_FEE_BPS && (0 < p.feeBps ==> p.poolType == Trade)
    && p.nftCount == |p.nftIds| && Addresses.ValidAddress(p.owner)
  }

  /** Pools have the ids 1, 2, ..., nextId - 1. */
  ghost predicate Numbered(s: State) {
    1 <= s.nextId && Dense(s.pools, s.nextId - 1)
  }

  ghost predicate Inv(s: State) {
    && Numbered(s)
    && (forall id :: id in s.pools ==> PoolOk(s.pools[id]))
    && s.protocolFeeBps == DEFAULT_PROTOCOL_FEE_BPS && 0 <= s.protocolFeeBalance
  }

  /** The two fees together are less than the price, so a seller always receives something. */
  lemma FeesBelowPrice(p: Pool)
    requires PoolOk(p)
    ensures 0 <= PoolFee(p) && 0 <= ProtocolFee(p, DEFAULT_PROTOCOL_FEE_BPS)
    ensures 1 <= CalcSellPrice(p, DEFAULT_PROTOCOL_FEE_BPS)
    ensures 1 <= PriceUp(p.curve, p.delta, p.spotPrice)
  {
    FloorBpsCap(p.spotPrice, p.feeBps, MAX_FEE_BPS);
    FloorBpsCap(p.spotPrice, DEFAULT_PROTOCOL_FEE_BPS, DEFAULT_PROTOCOL_FEE_BPS);
    assert 0 <= p.spotPrice * p.delta;
  }

  lemma InvStep(s: State, r: Request)
    requires Inv(s)
    ensures Inv(Step(s, r).0)
  {
    if r.Buy? && r.id in s.pools { FeesBelowPrice(s.pools[r.id]); }
    if r.Sell? && r.id in s.pools { FeesBelowPrice(s.pools[r.id]); }
  }

  lemma {:induction false} InvRun(s: State, rs: seq<Request>)
    requires Inv(s)
    ensures Inv(Run(s, rs))
    decreases |rs|
  {
    if rs != [] {
      InvStep(s, rs[0]);
      InvRun(Step(s, rs[0]).0, rs[1..]);
    }
  }

  /** Main result: in every reachable state balances are not negative, prices are at least 1 and NFT
      counts agree with the lists. */
  lemma Solvent(rs: seq<Request>)
    ensures Inv(Run(Initial(), rs))
  {
    InvRun(Initial(), rs);
  }

  // ---- Conservation of money ----

  function Balance(p: Pool): int { p.tokenBalance }

  /** Everything the market holds. */
  ghost function Held(s: State): int
    requires Numbered(s)
  {
    Sum(s.pools, Balance, s.nextId - 1) + s.protocolFeeBalance
  }

  /** Money a reply reports as moving into the market. */
  function Inflow(reply: Reply): int {
    match reply
    case TokensIn(amount) => amount
    case TokensOut(amount) => -amount
    case Bought(_, price) => price
    case Sold(_, payout) => -payout
    case _ => 0
  }

  function TotalInflow(replies: seq<Reply>): int {
    if replies == [] then 0 else Inflow(replies[0]) + TotalInflow(replies[1..])
  }

  predicate AboutPool(r: Request) { !r.CreatePool? && !r.SetPaused? }

  /** s1 is s with another pool under one id. */
  ghost predicate OnePoolReplaced(s: State, s1: State, id: int) {
    && Numbered(s) && 1 <= id < s.nextId && s1.nextId == s.nextId
    && id in s1.pools && s1.pools == s.pools[id := s1.pools[id]]
  }

  lemma SumChangesWithPool(s: State, s1: State, id: int, f: Pool -> int)
    requires OnePoolReplaced(s, s1, id)
    ensures Numbered(s1)
    ensures Sum(s1.pools, f, s1.nextId - 1) == Sum(s.pools, f, s.nextId - 1) + f(s1.pools[id]) - f(s.pools[id])
  {
    SumUpdate(s.pools, f, s.nextId - 1, id, s1.pools[id]);
  }

  lemma MoneyMoves(s: State, s1: State, id: int)
    requires OnePoolReplaced(s, s1, id) && id in s.pools
    ensures Numbered(s1)
    ensures Held(s1) - Held(s) == s1.pools[id].tokenBalance + s1.protocolFeeBalance
                                - s.pools[id].tokenBalance - s.protocolFeeBalance
  {
    SumChangesWithPool(s, s1, id, Balance);
  }

  lemma PoolConservationStep(s: State, r: Request)
    requires Inv(s) && AboutPool(r) && Error(s, r).None?
    ensures Numbered(Step(s, r).0) && Held(Step(s, r).0) == Held(s) + Inflow(Step(s, r).1)
  {
    MoneyMoves(s, Step(s, r).0, r.id);
  }

  lemma ConservationStep(s: State, r: Request)
    requires Inv(s) && Inv(Step(s, r).0)
    ensures Held(Step(s, r).0) == Held(s) + Inflow(Step(s, r).1)
  {
    if Error(s, r).None? {
      if AboutPool(r) {
        PoolConservationStep(s, r);
      } else if r.CreatePool? {
        SumExtend(s.pools, Balance, s.nextId - 1, NewPool(r));
      }
    }
  }

  lemma {:induction false} ConservationRun(s: State, rs: seq<Request>)
    requires Inv(s)
    ensures Inv(Run(s, rs))
    ensures Held(Run(s, rs)) == Held(s) + TotalInflow(Replies(s, rs))
    decreases |rs|
  {
    if rs != [] {
      InvStep(s, rs[0]);
      ConservationStep(s, rs[0]);
      ConservationRun(Step(s, rs[0]).0, rs[1..]);
    }
  }

  /** Main result: over every run, pool balances and protocol fees together are what the replies
      report paid in (deposits and purchases) less what they report paid out (withdrawals and sales). */
  lemma MoneyConserved(rs: seq<Request>)
    ensures Inv(Run(Initial(), rs))
    ensures Held(Run(Initial(), rs)) == TotalInflow(Replies(Initial(), rs))
  {
    ConservationRun(Initial(), rs);
  }

  // ---- Conservation of NFTs ----

  function Count(ids: seq<string>, nftId: string): int {
    multiset(ids)[nftId]
  }

  /** How often a pool lists an NFT. */
  function Copies(nftId: string): Pool -> int {
    (p: Pool) => Count(p.nftIds, nftId)
  }

  ghost function CopiesHeld(s: State, nftId: string): int
    requires Numbered(s)
  {
    Sum(s.pools, Copies(nftId), s.nextId - 1)
  }

  /** Copies of an NFT that a reply reports as moving into the pools. */
  function CopiesIn(reply: Reply, nftId: string): int {
    match reply
    case NftsIn(ids) => Count(ids, nftId)
    case Sold(id, _) => Count([id], nftId)
    case NftsOut(ids) => -Count(ids, nftId)
    case Bought(id, _) => -Count([id], nftId)
    case _ => 0
  }

  function TotalCopiesIn(replies: seq<Reply>, nftId: string): int {
    if replies == [] then 0 else CopiesIn(replies[0], nftId) + TotalCopiesIn(replies[1..], nftId)
  }

  lemma CountConcat(a: seq<string>, b: seq<string>, nftId: string)
    ensures Count(a + b, nftId) == Count(a, nftId) + Count(b, nftId)
  {
  }

  /** The list is a stack: NFTs are pushed onto its end and taken from its end. */
  predicate StackMove(ids: seq<string>, ids1: seq<string>, reply: Reply) {
    match reply
    case NftsIn(more) => ids1 == ids + more
    case Sold(id, _) => ids1 == ids + [id]
    case NftsOut(out) => ids == ids1 + out
    case Bought(id, _) => ids == ids1 + [id]
    case _ => ids1 == ids
  }

  lemma NftsMoveAsStack(s: State, r: Request)
    requires Inv(s) && AboutPool(r) && Error(s, r).None? && r.id in Step(s, r).0.pools
    ensures StackMove(s.pools[r.id].nftIds, Step(s, r).0.pools[r.id].nftIds, Step(s, r).1)
    ensures forall id :: id in s.pools && id != r.id ==>
      id in Step(s, r).0.pools && Step(s, r).0.pools[id] == s.pools[id]
  {
  }

  lemma CopiesMove(s: State, s1: State, id: int, reply: Reply, nftId: string)
    requires OnePoolReplaced(s, s1, id) && id in s.pools
    requires StackMove(s.pools[id].nftIds, s1.pools[id].nftIds, reply)
    ensures Numbered(s1) && CopiesHeld(s1, nftId) == CopiesHeld(s, nftId) + CopiesIn(reply, nftId)
  {
    SumChangesWithPool(s, s1, id, Copies(nftId));
  }

  lemma PoolNftStep(s: State, r: Request, nftId: string)
    requires Inv(s) && AboutPool(r) && Error(s, r).None?
    ensures Numbered(Step(s, r).0)
    ensures CopiesHeld(Step(s, r).0, nftId) == CopiesHeld(s, nftId) + CopiesIn(Step(s, r).1, nftId)
  {
    NftsMoveAsStack(s, r);
    CopiesMove(s, Step(s, r).0, r.id, Step(s, r).1, nftId);
  }

  lemma NftStep(s: State, r: Request, nftId: string)
    requires Inv(s) && Inv(Step(s, r).0)
    ensures CopiesHeld(Step(s, r).0, nftId) == CopiesHeld(s, nftId) + CopiesIn(Step(s, r).1, nftId)
  {
    if Error(s, r).None? {
      if AboutPool(r) {
        PoolNftStep(s, r, nftId);
      } else if r.CreatePool? {
        SumExtend(s.pools, Copies(nftId), s.nextId - 1, NewPool(r));
      }
    }
  }

  lemma {:induction false} NftRun(s: State, rs: seq<Request>, nftId: string)
    requires Inv(s)
    ensures Inv(Run(s, rs))
    ensures CopiesHeld(Run(s, rs), nftId) == CopiesHeld(s, nftId) + TotalCopiesIn(Replies(s, rs), nftId)
    decreases |rs|
  {
    if rs != [] {
      InvStep(s, rs[0]);
      NftStep(s, rs[0], nftId);
      NftRun(Step(s, rs[0]).0, rs[1..], nftId);
    }
  }

  /** Main result: over every run, each NFT is in the pools exactly as often as the replies report it
      deposited or sold to a pool, less as often as they report it withdrawn or bought. */
  lemma NftsConserved(rs: seq<Request>, nftId: string)
    ensures Inv(Run(Initial(), rs))
    ensures CopiesHeld(Run(Initial(), rs), nftId) == TotalCopiesIn(Replies(Initial(), rs), nftId)
  {
    NftRun(Initial(), rs, nftId);
  }

  /** Whatever the pause flag, and whether or not the pool is active, the owner of a pool that holds tokens
      can take them all out. */
  lemma OwnerCanTakeTokens(s: State, id: int)
    requires Inv(s) && id in s.pools && 0 < s.pools[id].tokenBalance
    ensures var p := s.pools[id];
      Step(s, WithdrawTokens(id, p.owner, Some(p.tokenBalance)))
      == (Put(s, id, p.(tokenBalance := 0)), TokensOut(p.tokenBalance))
  {
    assert WithdrawTokensError(s, WithdrawTokens(id, s.pools[id].owner, Some(s.pools[id].tokenBalance))).None?;
  }

  /** The same for its NFTs. */
  lemma OwnerCanTakeNfts(s: State, id: int)
    requires Inv(s) && id in s.pools && s.pools[id].nftIds != []
    ensures var p := s.pools[id];
      Step(s, WithdrawNfts(id, p.owner, Some(|p.nftIds|)))
      == (Put(s, id, p.(nftIds := [], nftCount := 0)), NftsOut(p.nftIds))
  {
    var p := s.pools[id];
    assert WithdrawNftsError(s, WithdrawNfts(id, p.owner, Some(|p.nftIds|))).None?;
    assert p.nftIds[..|p.nftIds| - |p.nftIds|] == [] && p.nftIds[|p.nftIds| - |p.nftIds|..] == p.nftIds;
  }

  /** What a pool's owner does to empty it: withdraw the tokens, if there are any, and then the NFTs. */
  function Emptying(p: Pool, id: int): seq<Request> {
    (if 0 < p.tokenBalance then [WithdrawTokens(id, p.owner, Some(p.tokenBalance))] else [])
    + (if p.nftIds != [] then [WithdrawNfts(id, p.owner, Some(|p.nftIds|))] else [])
  }

  lemma TokensLeave(s: State, id: int)
    requires Inv(s) && id in s.pools && 0 < s.pools[id].tokenBalance
    ensures var p := s.pools[id];
      var s1 := Put(s, id, p.(tokenBalance := 0));
      Inv(s1) && Run(s, Emptying(p, id)) == Run(s1, Emptying(p.(tokenBalance := 0), id))
  {
    var p := s.pools[id];
    OwnerCanTakeTokens(s, id);
    assert Emptying(p, id)[1..] == Emptying(p.(tokenBalance := 0), id);
  }

  lemma NftsLeave(s: State, id: int)
    requires Inv(s) && id in s.pools && s.pools[id].tokenBalance == 0
    ensures var p := s.pools[id];
      Run(s, Emptying(p, id)) == Put(s, id, p.(nftIds := [], nftCount := 0))
  {
    var p := s.pools[id];
    if p.nftIds != [] {
      OwnerCanTakeNfts(s, id);
    } else {
      assert s.pools[id := p] == s.pools;
    }
  }

  lemma EmptiedInTwo(s: State, id: int)
    requires Inv(s) && id in s.pools
    ensures var p := s.pools[id];
      Run(s, Emptying(p, id)) == Put(s, id, p.(tokenBalance := 0, nftIds := [], nftCount := 0))
  {
    var p := s.pools[id];
    if 0 < p.tokenBalance {
      var s1 := Put(s, id, p.(tokenBalance := 0));
      TokensLeave(s, id);
      NftsLeave(s1, id);
      assert s1.pools[id := p.(tokenBalance := 0, nftIds := [], nftCount := 0)]
          == s.pools[id := p.(tokenBalance := 0, nftIds := [], nftCount := 0)];
    } else {
      NftsLeave(s, id);
    }
  }

  /** So the owner can empty any pool of any reachable state, and nothing but its holdings changes. */
  lemma OwnerCanEmptyPool(rs: seq<Request>, id: int)
    requires id in Run(Initial(), rs).pools
    ensures var s := Run(Initial(), rs); var p := s.pools[id];
      Run(s, Emptying(p, id)) == Put(s, id, p.(tokenBalance := 0, nftIds := [], nftCount := 0))
  {
    InvRun(Initial(), rs);
    EmptiedInTwo(Run(Initial(), rs), id);
  }

  // ---- Terms of trade, and deactivation ----

  /** No trade is made on terms worse than its limit: a buyer pays at most maxPrice, for the NFT the pool
      took in last; a seller receives at least minPrice and at least 1, and never more than the price. */
  lemma TradeTerms(rs: seq<Request>, r: Request)
    ensures var s := Run(Initial(), rs); var reply := Step(s, r).1;
      && (reply.Bought? ==>
            && r.Buy? && r.maxPrice.Some? && r.id in s.pools && s.pools[r.id].active && !s.paused
            && s.pools[r.id].spotPrice <= reply.price <= r.maxPrice.value
            && s.pools[r.id].nftIds != [] && reply.nftId == s.pools[r.id].nftIds[|s.pools[r.id].nftIds| - 1])
      && (reply.Sold? ==>
            && r.Sell? && r.minPrice.Some? && r.id in s.pools && s.pools[r.id].active && !s.paused
            && 1 <= reply.payout <= s.pools[r.id].spotPrice && r.minPrice.value <= reply.payout)
  {
    var s := Run(Initial(), rs);
    InvRun(Initial(), rs);
    if (r.Buy? || r.Sell?) && r.id in s.pools {
      FeesBelowPrice(s.pools[r.id]);
    }
  }

  /** p1 is p after nothing but withdrawals. */
  predicate OnlyDrained(p: Pool, p1: Pool) {
    && p1.nftIds <= p.nftIds && p1.tokenBalance <= p.tokenBalance
    && p1 == p.(nftIds := p1.nftIds, nftCount := p1.nftCount, tokenBalance := p1.tokenBalance)
  }

  lemma InactiveStep(s: State, r: Request, id: int)
    requires Inv(s) && id in s.pools && !s.pools[id].active
    ensures id in Step(s, r).0.pools && OnlyDrained(s.pools[id], Step(s, r).0.pools[id])
  {
  }

  /** A pool that has been deactivated never trades again, whatever is asked of the market: its price,
      its counters and its owner stay as they are, and its holdings can only be withdrawn. */
  lemma {:induction false} DeactivatedPoolOnlyDrains(s: State, rs: seq<Request>, id: int)
    requires Inv(s) && id in s.pools && !s.pools[id].active
    ensures id in Run(s, rs).pools && OnlyDrained(s.pools[id], Run(s, rs).pools[id])
    decreases |rs|
  {
    if rs != [] {
      InvStep(s, rs[0]);
      InactiveStep(s, rs[0], id);
      DeactivatedPoolOnlyDrains(Step(s, rs[0]).0, rs[1..], id);
    }
  }
}
