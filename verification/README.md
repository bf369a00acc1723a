# Verified model of the StellarDevTools playground services

This project models eight stateful parts of the repository and proves what they keep over every run.

Each part has a model module of values (`...Model`), in which a state and one request, event or action give
the next state and a reply; a module of theorems about runs of that step; and a module with the classes
that the source has, whose fields are updated in place and whose methods are proved to do exactly one step.
The `...Laws` modules, and `BreakerAdmission`, say of every kind of request when it is accepted and what it
changes, in terms of the request and the state alone.

| part | source | modules |
|---|---|---|
| NFT market maker | backend/src/routes/nftAmm.js | `NftAmmModel`, `NftAmmTheorems`, `NftAmmLaws`, `NftAmmLedger`, `NftAmmPricing`, `NftAmm` |
| circuit breaker | backend/src/middleware/circuitBreaker.js | `BreakerModel`, `BreakerTheorems`, `BreakerAdmission`, `BreakerEpochs`, `CircuitBreakers` |
| milestone escrow | backend/src/routes/escrow.js | `EscrowModel`, `EscrowLaws`, `EscrowFrontier`, `EscrowTotals`, `EscrowFees`, `EscrowService` |
| dual write and live migration | src/multi.rs, src/bin/migrate.rs | `DualWriteModel`, `DualWriteRuns`, `DualWriteTheorems`, `DualWrite` |
| WebSocket connection accounting | backend/src/websocket.js | `SocketModel`, `SocketTheorems`, `SocketLaws`, `WebSocketServer` |
| key-case transformers | backend/src/middleware/versionTransformer.js | `VersionModel`, `VersionTheorems`, `VersionLaws`, `VersionTransformers` |
| bug bounty programme | backend/src/routes/bugBounty.js | `BountyModel`, `BountyTheorems`, `BountyLaws`, `BugBounty` |
| notary rate limiter | backend/src/middleware/notaryRateLimiter.js | `LimiterModel`, `LimiterTheorems`, `NotaryRateLimiters` |

`Totals` holds sums over numbered tables, `BasisPoints` the floored fees, `Addresses` the address format,
`Wrappers` the option and result types, `Arithmetic` laws of multiplication and `Sequences` laws of concatenation.
`dafny verify dfyconfig.toml` checks everything.

The clock is a parameter of each step. A number that the source reads with `parseInt` is an `Option<int>`,
`None` being NaN; a text that `sanitizeString` may turn away is an `Option<string>`. Which database
statements, sends and pings fail, and which token is accepted, are parameters too.

## What the code does not do

Where the code and what one would expect of it differ, the model follows the code, and the exact condition
is proved.

- The limiter's comment promises 10 requests per minute (notaryRateLimiter.js:12-14). The windows are fixed, so
  an interval of 60 seconds may see 19 (`WindowBound`, `WindowBoundIsReached`). `AdmittedExactly` gives the number
  for every interval, and `TenPerMinuteExactly` says when it is at most 10.
- `Retry-After` is rounded up to a second, and the next window may be used up before it ends. When that happens,
  and only then, a retry on time is rejected (`RetryAfterExactly`; `RetryOnTimeRejected` is such a trace).
- A breaker whose probe quota is below its success threshold can stay HALF_OPEN for good with nothing in
  flight (`NeverWedgesExactly`, with the run of `SmallQuotaWedges`).
- A HALF_OPEN breaker counts every success that is recorded, also of calls admitted before the trip
  (`ClosesExactly`), so it can close with no probe admitted (`ClosesWithoutProbe`).
- The two key-case transformers undo each other only on the keys that `SurvivesV2V1` and `SurvivesV1V2` describe
  (`V2ThenV1Exactly`, `V1ThenV2Exactly`, `RoundTripsFail`),
  and either may lose a field when two keys meet (`FieldsKeptExactly`, `CollisionLosesField`).
- `totalValueLocked` is not the unreleased money (`LockedVersusUnreleased`; `LockedIsNotUnreleased` is a run where they
  differ).
- A Postgres write that fails after the migration has read its snapshot is not repaired by that migration
  (`LateFailureIsNotRepaired`). What it leaves out exactly is `MissingExactly`; another migration repairs it
  (`MigrationRepairs`).
- A pool's `totalVolume` counts sales before fees, so it exceeds the money the trades moved by the fees on sales
  (`HistoryMatchesCounters`; `SaleFeeCountsAsVolume` is a run where they differ).

## Model

| member | source | states |
|---|---|---|
| `NftAmmTheorems.Solvent` | backend/src/routes/nftAmm.js:362-552 | in every reachable state balances are not negative, spot prices are at least 1 and NFT counts agree with the lists |
| `NftAmmTheorems.FeesBelowPrice` | backend/src/routes/nftAmm.js:78-92 | the two floored fees leave a seller at least 1, whatever the price |
| `NftAmmTheorems.MoneyConserved` | backend/src/routes/nftAmm.js:362-552 | over every run, pool balances plus protocol fees equal deposits and purchase prices less withdrawals and sale payouts, as the replies report them |
| `NftAmmTheorems.NftsMoveAsStack` | backend/src/routes/nftAmm.js:386-546 | deposits and sales push on the end of the NFT list, withdrawals and purchases take from its end; no other pool changes |
| `NftAmmTheorems.NftsConserved` | backend/src/routes/nftAmm.js:386-546 | over every run, each NFT is held exactly as often as it came in less as often as it went out |
| `NftAmmTheorems.TradeTerms` | backend/src/routes/nftAmm.js:460-544 | no trade is worse than its limit; a buyer gets the NFT taken in last; a payout is between 1 and the spot price |
| `NftAmmTheorems.OwnerCanTakeTokens` | backend/src/routes/nftAmm.js:398-417 | whenever the invariant holds, paused or not, active or not, the owner of a pool with tokens can take them all, and nothing else changes |
| `NftAmmTheorems.OwnerCanTakeNfts` | backend/src/routes/nftAmm.js:421-445 | the same for its NFTs |
| `NftAmmTheorems.OwnerCanEmptyPool` | backend/src/routes/nftAmm.js:398-445 | in every reachable state the owner can empty any pool: all tokens, if there are any, and then all NFTs; nothing else changes |
| `NftAmmTheorems.DeactivatedPoolOnlyDrains` | backend/src/routes/nftAmm.js:326-340 | a deactivated pool never trades again under any run: it can only be withdrawn from |
| `NftAmmLedger.HistoryMatchesCounters` | backend/src/routes/nftAmm.js:482-561 | over every run tradeCount is the number of history records of the pool, and totalVolume is the money its trades moved plus the fees its sales kept; so it is the money moved if and only if every accepted sale was at a price p with p·feeBps < 10000 and p·protocolFeeBps < 10000 |
| `NftAmmLedger.SaleFeesAreZeroExactly` | backend/src/routes/nftAmm.js:523-535 | the fees kept on sales are never negative, and zero if and only if every accepted sale was at such a price |
| `NftAmmLedger.SaleFeeCountsAsVolume` | backend/src/routes/nftAmm.js:546-549 | a run of one sale at 10,000: the seller receives 9,950 and the volume is 10,000 |
| `NftAmmLedger.SellerShare` | backend/src/routes/nftAmm.js:523-549 | a seller receives at least 99/200 of the spot price that totalVolume counts |
| `NftAmmPricing.BuyRun` | backend/src/routes/nftAmm.js:474-485 | n accepted purchases pay the pool n iterated spot prices and their floored fees, and take the last n NFTs |
| `NftAmmPricing.LinearBuyRun` | backend/src/routes/nftAmm.js:94-95 | from spot s with delta d: the spot price ends at s + n·d, the balance rises by n·s + d·n(n-1)/2 and the floored fees |
| `NftAmmPricing.FeesNearShare` | backend/src/routes/nftAmm.js:474-481 | n floored fees F on prices that sum to S: 10000·F <= feeBps·S < 10000·(F + n) |
| `NftAmmPricing.ExponentialError` | backend/src/routes/nftAmm.js:96-97 | the accumulated floor error of n exponential steps is bounded for every n |
| `NftAmmPricing.ExponentialBuyRun` | backend/src/routes/nftAmm.js:485 | the same bound for the spot price a pool has after n accepted purchases |
| `NftAmmPricing.ExponentialRoundTrip` | backend/src/routes/nftAmm.js:94-109 | one step up and one down ends between 1 and s, and loses a bounded amount |
| `NftAmmPricing.BuyThenSell` | backend/src/routes/nftAmm.js:449-569 | a purchase and then a sale on a Trade pool restores a Linear price, and an Exponential one up to that amount |
| `NftAmmPricing.CycleEffect` | backend/src/routes/nftAmm.js:466-552 | what a trader gains by a purchase and then a sale, and what that costs the pool: the rise of the price less the floored fees |
| `NftAmmPricing.CyclePaysExactly` | backend/src/routes/nftAmm.js:466-552 | the trader gains if and only if the price rises by more than the four fees |
| `NftAmmPricing.LinearCycles` | backend/src/routes/nftAmm.js:466-552 | after n such cycles a Linear pool is at its price again, gain and cost are n times those of one, and the balance bounds n |
| `NftAmm.Pool.NextPriceUp` | backend/src/routes/nftAmm.js:94-98 | the next price after a purchase, the curve as PriceUp |
| `NftAmm.Pool.NextPriceDown` | backend/src/routes/nftAmm.js:100-109 | the next price after a sale, clamped at 1 |
| `NftAmm.Market.CalcBuyPrice` | backend/src/routes/nftAmm.js:78-84 | the spot price plus both floored fees |
| `NftAmm.Market.CalcSellPrice` | backend/src/routes/nftAmm.js:86-92 | the spot price less both floored fees |
| `NftAmm.Pool.GiveNft` | backend/src/routes/nftAmm.js:474-485 | the pool after a purchase, updated in place, and the popped NFT |
| `NftAmm.Pool.TakeNft` | backend/src/routes/nftAmm.js:546-552 | the pool after a sale, updated in place |
| `NftAmm.Market.constructor` | backend/src/routes/nftAmm.js:48-55 | the empty store |
| `NftAmm.Market.CreatePool` | backend/src/routes/nftAmm.js:205-279 | status and whole effect: every check in order, then a new empty pool under the next id |
| `NftAmm.Market.UpdateParams` | backend/src/routes/nftAmm.js:295-322 | status and whole effect: price and delta of that pool only |
| `NftAmm.Market.Deactivate` | backend/src/routes/nftAmm.js:326-340 | status and whole effect; works while paused |
| `NftAmm.Market.DepositTokens` | backend/src/routes/nftAmm.js:344-365 | status and whole effect |
| `NftAmm.Market.DepositNfts` | backend/src/routes/nftAmm.js:369-394 | status and whole effect |
| `NftAmm.Market.WithdrawTokens` | backend/src/routes/nftAmm.js:398-417 | status and whole effect |
| `NftAmm.Market.WithdrawNfts` | backend/src/routes/nftAmm.js:421-445 | status and whole effect: the spliced tail is returned |
| `NftAmm.Market.Buy` | backend/src/routes/nftAmm.js:449-502 | status and whole effect on the pool, the fee balance and the history |
| `NftAmm.Market.Sell` | backend/src/routes/nftAmm.js:506-569 | status and whole effect on the pool, the fee balance and the history |
| `NftAmm.Market.SetPaused` | backend/src/routes/nftAmm.js:645-660 | status and whole effect |
| `NftAmmLaws.AcceptedExactly` | backend/src/routes/nftAmm.js:205-569 | each kind of request is accepted if and only if its situation, written out, is there: pause, address, owner, kind and state of the pool, limits and holdings |
| `NftAmmLaws.RejectionSays` | backend/src/routes/nftAmm.js:205-569 | a rejection changes nothing, and its status is the first that applies of 503, 400, 404, 403, 409 and 400 |
| `NftAmmLaws.EmptyMarket` | backend/src/routes/nftAmm.js:42-55 | a market starts empty, not paused, with a protocol fee of 50 |
| `NftAmmLaws.Creation` | backend/src/routes/nftAmm.js:253-277 | in every reachable state a created pool has a new id and exactly what was asked for, holds nothing and is active; every other pool stays |
| `NftAmmLaws.OwnerChanges` | backend/src/routes/nftAmm.js:293-445 | what an accepted request of its owner does to a pool, field by field |
| `NftAmmLaws.TradeChanges` | backend/src/routes/nftAmm.js:466-561 | what an accepted trade does to the pool, the protocol fees and the history, with every amount written out |
| `NftAmmLaws.PauseChanges` | backend/src/routes/nftAmm.js:645-660 | the flag is the one that was sent, and nothing else changes |
| `NftAmmLaws.ExponentialPurchase` | backend/src/routes/nftAmm.js:94-98 | a run from the empty store: an Exponential pool is created, and a purchase raises its price from 1000 to 1050 |
| `Addresses.AddressFormat` | backend/src/routes/nftAmm.js:59-61 | 55 capitals or digits after a G or a C, and no other length |
| `Addresses.EveryCharacterCounts` | backend/src/routes/nftAmm.js:59-61 | any other character makes an address invalid |
| `BreakerTheorems.AdmissionBound` | backend/src/middleware/circuitBreaker.js:28-97 | from any opening in any run until the breaker next closes, the calls admitted by t0 + T are at most halfOpenMaxRequests·⌊T/resetTimeoutMs⌋, for every interleaving with late completions and trips |
| `BreakerTheorems.AdmissionBoundIsReached` | backend/src/middleware/circuitBreaker.js:28-97 | for every number of periods some run admits that many, so the bound is the best one |
| `BreakerTheorems.ClosedCountersAreHistory` | backend/src/middleware/circuitBreaker.js:52-82 | while CLOSED, failureCount is the largest excess of failures over successes of any suffix of the outcomes since the last close; totalRequests counts them |
| `BreakerTheorems.FailureTripsExactly` | backend/src/middleware/circuitBreaker.js:66-82 | a failure opens a CLOSED breaker if and only if some suffix has an excess of failureThreshold, or there are at least five outcomes and the largest excess is at least the given fraction of them |
| `BreakerTheorems.InvReachable` | backend/src/middleware/circuitBreaker.js:28-97 | the invariant of every reachable breaker with its calls in flight |
| `BreakerTheorems.RefusalHasProbeInFlight` | backend/src/middleware/circuitBreaker.js:84-97 | a HALF_OPEN breaker that refuses waits for a probe of its current epoch, when halfOpenMaxRequests covers successThreshold |
| `BreakerTheorems.SmallQuotaWedges` | backend/src/middleware/circuitBreaker.js:54-58 | with a smaller quota a concrete run ends with no call in flight and every later call refused |
| `BreakerTheorems.NeverWedgesExactly` | backend/src/middleware/circuitBreaker.js:84-97 | no run ends wedged if and only if successThreshold <= halfOpenMaxRequests |
| `BreakerAdmission.AdmitsExactly` | backend/src/middleware/circuitBreaker.js:84-97 | a call is admitted if and only if the breaker is CLOSED, or HALF_OPEN with room for a probe, or OPEN and due; asking for the state first makes no difference |
| `BreakerAdmission.AdmissionEffect` | backend/src/middleware/circuitBreaker.js:28-97 | the first call to an OPEN breaker that is due starts an epoch as its first probe; a probe takes one place; a refusal changes nothing |
| `BreakerAdmission.PollEffect` | backend/src/middleware/circuitBreaker.js:28-33 | asking for the state half-opens a breaker that is due, and changes nothing else |
| `BreakerAdmission.StartEffect` | backend/src/middleware/circuitBreaker.js:19-25 | a new breaker is CLOSED with nothing counted |
| `BreakerAdmission.OwnerEffect` | backend/src/middleware/circuitBreaker.js:35-105 | a trip opens and a reset closes the breaker in any state; closing clears every count, opening makes it due one reset timeout later |
| `BreakerAdmission.CompletionEffect` | backend/src/middleware/circuitBreaker.js:52-82 | what a completion changes in each state, count by count |
| `BreakerAdmission.FirstCallExactly` | backend/src/middleware/circuitBreaker.js:28-97 | after an opening at t0 anywhere in a run, with no trip or reset since, a call that nobody preceded when due is admitted if and only if it comes at t0 + resetTimeoutMs or later |
| `BreakerAdmission.FourOfFiveOpens` | backend/src/middleware/circuitBreaker.js:73-79 | with the defaults, one success and four failures open the breaker by the rate clause alone, and three do not |
| `BreakerEpochs.ClosesExactly` | backend/src/middleware/circuitBreaker.js:52-58 | a HALF_OPEN epoch ends CLOSED if and only if its successThreshold-th success is recorded, whenever that call was admitted, or at a reset |
| `BreakerEpochs.ClosesWithoutProbe` | backend/src/middleware/circuitBreaker.js:52-58 | for every configuration a run in which calls admitted before a trip close the breaker after it, with no probe admitted |
| `CircuitBreakers.CircuitBreaker.constructor` | backend/src/middleware/circuitBreaker.js:11-26 | initial fields; 0 and missing options become the defaults |
| `CircuitBreakers.CircuitBreaker.GetState` | backend/src/middleware/circuitBreaker.js:28-33 | half-opens once nextAttempt has come, and reports the state |
| `CircuitBreakers.CircuitBreaker.TransitionTo` | backend/src/middleware/circuitBreaker.js:35-50 | which fields each transition resets |
| `CircuitBreakers.CircuitBreaker.RecordSuccess` | backend/src/middleware/circuitBreaker.js:52-64 | whole new state |
| `CircuitBreakers.CircuitBreaker.RecordFailure` | backend/src/middleware/circuitBreaker.js:66-82 | whole new state |
| `CircuitBreakers.CircuitBreaker.CanExecute` | backend/src/middleware/circuitBreaker.js:84-97 | whole new state and answer |
| `CircuitBreakers.CircuitBreaker.Trip` | backend/src/middleware/circuitBreaker.js:99-101 | whole new state |
| `CircuitBreakers.CircuitBreaker.Reset` | backend/src/middleware/circuitBreaker.js:103-105 | whole new state |
| `CircuitBreakers.CircuitBreaker.Perform` | backend/src/middleware/circuitBreaker.js:28-105 | any one event from outside is a step of the interleaved system |
| `CircuitBreakers.CircuitBreaker.Await` | backend/src/middleware/circuitBreaker.js:116 | events of others during an awaited action are a run of the interleaved system |
| `CircuitBreakers.CircuitBreaker.Execute` | backend/src/middleware/circuitBreaker.js:107-123 | a call, with anything that others do to the breaker while its action is awaited: refused, or the breaker ends as the run of all of these events does |
| `EscrowLaws.AcceptedExactly` | backend/src/routes/escrow.js:62-543 | each kind of request is accepted if and only if its situation, written out, is there: initialization, caller, status, stage and, for a creation, amounts |
| `EscrowLaws.RejectionSays` | backend/src/routes/escrow.js:62-543 | a rejection changes nothing, and its status is the first that applies |
| `EscrowLaws.EmptyService` | backend/src/routes/escrow.js:13-29 | a service starts with nothing created, counted or initialized |
| `EscrowLaws.Creation` | backend/src/routes/escrow.js:140-168 | a created escrow has the next number, the terms of the request and the fee of the service; nothing is paid or started; every other escrow stays |
| `EscrowLaws.MilestoneMoves` | backend/src/routes/escrow.js:295-411 | an accepted request about a milestone leaves it UnderReview, Approved, InProgress or Paid as it submits, approves, rejects or releases; a release starts the next one; no other milestone, term or escrow changes |
| `EscrowLaws.ReleaseReply` | backend/src/routes/escrow.js:397-398 | a release reports the floored fee and the rest of the amount |
| `EscrowLaws.StatusMoves` | backend/src/routes/escrow.js:256-543 | the status that a deposit, a cancellation, a dispute and a ruling give, and that a deposit starts the first milestone |
| `EscrowLaws.WayToPayment` | backend/src/routes/escrow.js:292-400 | in every run a milestone that ends up approved or paid was submitted and later approved, unless it was already on that way |
| `EscrowLaws.RejectedMilestone` | backend/src/routes/escrow.js:341-400 | after a rejection no release of the milestone is accepted until it has been submitted and approved again |
| `EscrowLaws.InitialFee` | backend/src/routes/escrow.js:63-71 | an accepted initialization sets the admin and the fee that was sent, or 200 |
| `EscrowLaws.OneFeeForAll` | backend/src/routes/escrow.js:140-154 | every escrow ever created bears the fee of the one accepted initialization |
| `EscrowFrontier.MilestoneFrontier` | backend/src/routes/escrow.js:256-419 | in every reachable state an Active escrow is a Paid prefix, one current milestone and milestones not started; paidAmount is the prefix sum, below the total |
| `EscrowFrontier.MovesAtFrontier` | backend/src/routes/escrow.js:289-395 | only the frontier milestone can be submitted, approved, rejected or released |
| `EscrowFrontier.ReleaseAdvances` | backend/src/routes/escrow.js:400-419 | a release pays exactly the frontier milestone and completes the escrow exactly when it was the last |
| `EscrowFrontier.EscrowRunsAreShort` | backend/src/routes/escrow.js:242-548 | after creation an escrow of n milestones accepts at most 3n + 2 requests, and 2 more for each rejection |
| `EscrowFrontier.RankBoundsRun` | backend/src/routes/escrow.js:242-548 | the same from any state, by a measure that every accepted request but a rejection lowers |
| `EscrowFrontier.ChangesAreAuthorised` | backend/src/routes/escrow.js:250-546 | every change of a milestone or a status is one its caller is entitled to make, one stage at a time |
| `EscrowTotals.AnalyticsAreSums` | backend/src/routes/escrow.js:21-29 | each counter is the count or sum over escrows it stands for; totalValueLocked + totalPaidOut is the sum of totals ever funded |
| `EscrowTotals.ClampsNeverBite` | backend/src/routes/escrow.js:410-511 | no Math.max(0, ...) takes effect in any reachable state: what an accepted request subtracts is at most what is there |
| `EscrowTotals.EverDisputedExactly` | backend/src/routes/escrow.js:455-457 | what disputedEscrows counts is exactly the escrows on which the run accepted a dispute |
| `EscrowTotals.LockedVersusUnreleased` | backend/src/routes/escrow.js:414-417 | totalValueLocked is the unreleased money if and only if no active, disputed or ruled escrow has a paid milestone; the difference is stated |
| `EscrowTotals.LockedIsNotUnreleased` | backend/src/routes/escrow.js:410-418 | a run of one escrow with the first of two milestones released: 2 counted as locked, 1 not yet paid |
| `EscrowFees.FeesNearTotal` | backend/src/routes/escrow.js:397-398 | the floored fees of k milestones are within k - 1 below the fee on their sum |
| `EscrowFees.ReleasedEscrowFees` | backend/src/routes/escrow.js:374-433 | the fees reported while a whole escrow of n milestones is released lie within n - 1 below the fee on the total; fees and payouts add up to the total |
| `EscrowFees.RulingShares` | backend/src/routes/escrow.js:485-499 | a ruling shares out exactly what remained, less the fee for rulings 0 and 2; split shares differ by at most 1 |
| `EscrowService.Escrow.SetStage` | backend/src/routes/escrow.js:295 | one milestone's status |
| `EscrowService.Escrow.PayMilestone` | backend/src/routes/escrow.js:400-411 | the escrow after a release, updated in place |
| `EscrowService.Escrow.Shares` | backend/src/routes/escrow.js:485-499 | payout, refund and fee of a ruling |
| `EscrowService.Service.constructor` | backend/src/routes/escrow.js:13-29 | the state at start |
| `EscrowService.Service.Initialize` | backend/src/routes/escrow.js:60-74 | status and whole effect |
| `EscrowService.Service.Create` | backend/src/routes/escrow.js:106-175 | status and whole effect: every check in order, then a new escrow and its milestones |
| `EscrowService.Service.Deposit` | backend/src/routes/escrow.js:242-269 | status and whole effect on the escrow and the counters |
| `EscrowService.Service.Submit` | backend/src/routes/escrow.js:275-302 | status and whole effect |
| `EscrowService.Service.Approve` | backend/src/routes/escrow.js:308-335 | status and whole effect |
| `EscrowService.Service.Reject` | backend/src/routes/escrow.js:341-368 | status and whole effect |
| `EscrowService.Service.Release` | backend/src/routes/escrow.js:374-433 | status, fee and payout, and whole effect |
| `EscrowService.Service.Dispute` | backend/src/routes/escrow.js:439-461 | status and whole effect |
| `EscrowService.Service.Resolve` | backend/src/routes/escrow.js:467-524 | status, shares and whole effect |
| `EscrowService.Service.Cancel` | backend/src/routes/escrow.js:530-548 | status and whole effect |
| `DualWriteTheorems.PostgresStaysWithinSqlite` | src/multi.rs:16-27 | if Postgres starts as a sub-map of SQLite it stays one, under every interleaving of dual writes, failures, crashes and migrations |
| `DualWriteTheorems.CompletedMigrationCopied` | src/bin/migrate.rs:14-47 | when a migration finishes without error every row of its snapshot is in Postgres |
| `DualWriteTheorems.MissingExactly` | src/bin/migrate.rs:30-41 | at quiescence after a migration Postgres lacks exactly the rows that actions after the snapshot lost: unacknowledged SQLite commits, and failed or crashed second writes of events the snapshot does not have; so the stores are equal if and only if there was none |
| `DualWriteTheorems.EqualWhenSmooth` | src/multi.rs:16-27 | the stores are equal at quiescence if after the snapshot every Postgres insert committed or hit a duplicate, no crash lost a pending event and no SQLite commit went unacknowledged |
| `DualWriteTheorems.MigrationRepairs` | src/bin/migrate.rs:14-47 | after any run, another migration that nothing disturbs makes the stores equal |
| `DualWriteTheorems.CrashEndsMigration` | src/bin/migrate.rs:18-41 | a crashed migration changes no table, copies no further row, and another may start |
| `DualWriteTheorems.AcknowledgedEventIsDurable` | src/multi.rs:16-32 | an acknowledged event is what get_event reads after every later run |
| `DualWriteTheorems.LateFailureIsNotRepaired` | src/multi.rs:20-24 | a second write that fails after the snapshot leaves the stores different, in a concrete run |
| `DualWrite.Database.StoreEvent` | src/sqlite.rs:14-27 | the insert into a table with unique ids |
| `DualWrite.Database.InsertOnConflictDoNothing` | src/bin/migrate.rs:32-41 | the insert that skips a duplicate |
| `DualWrite.MultiDatabase.Perform` | src/multi.rs:16-27 | one action of another call or of the migration, on the databases |
| `DualWrite.MultiDatabase.Await` | src/multi.rs:18-21 | actions of others while a statement is awaited are a run of the interleaved system |
| `DualWrite.MultiDatabase.StoreEvent` | src/multi.rs:16-27 | the caller sees the SQLite result only; whatever others do between the two writes, the databases end as the run of all these actions leaves them |
| `DualWrite.MultiDatabase.GetEvent` | src/multi.rs:29-32 | reads SQLite alone, and reports its error |
| `DualWrite.Database.GetEvent` | src/sqlite.rs:29-37 | the row with this id, none, or an error |
| `DualWriteRuns.StoreActionsRun` | src/multi.rs:16-27 | a store_event, with what others do between its writes, is a possible run of the interleaved system; its second write is still pending when it comes |
| `DualWriteRuns.FillContents` | src/bin/migrate.rs:32-41 | filling keeps every row that is there and adds the snapshot rows of the other ids |
| `DualWriteRuns.LoopTurn` | src/bin/migrate.rs:18-41 | one turn of the loop: others act, the row is inserted, and the loop goes on exactly when the insert was acknowledged |
| `DualWriteRuns.LoopFills` | src/bin/migrate.rs:18-46 | a loop that others do not touch fills Postgres up to the first error, with the row of an unacknowledged insert, and is completed or aborted accordingly |
| `DualWriteRuns.LoopFromStart` | src/bin/migrate.rs:18-46 | the same from the first row on |
| `DualWriteRuns.AllCopiesFill` | src/bin/migrate.rs:18-46 | a migration that nothing disturbs completes and fills Postgres from the whole snapshot |
| `DualWrite.CopyRow` | src/bin/migrate.rs:18-41 | one turn of the loop on the databases |
| `DualWrite.Migrate` | src/bin/migrate.rs:18-47 | the loop succeeds exactly when every insert does; whatever others do before each insert the databases end as the run of all these actions leaves them, and undisturbed it has filled Postgres exactly up to the first error |
| `SocketTheorems.AccountingIsExact` | backend/src/websocket.js:139-180 | after every run of events ipCounts[ip] is the number of clients with that ip, at most 10, and no zero entry remains |
| `SocketTheorems.ConnectionAdmittedExactly` | backend/src/websocket.js:127-185 | a connection becomes a client if and only if its URL, token and welcome are good and fewer than ten clients hold its address |
| `SocketTheorems.ReleasedOnce` | backend/src/websocket.js:139-150 | repeated error, close and terminate events release once |
| `SocketTheorems.ShutdownLeavesNothing` | backend/src/websocket.js:322-331 | closing releases every count before ipCounts is cleared |
| `SocketTheorems.TickExactly` | backend/src/websocket.js:256-275 | a tick drops a client if and only if it has missed two pongs or its ping throws; the others have missed one more |
| `SocketTheorems.QuietRun` | backend/src/websocket.js:222-275 | without its own pong a client that is still there has missed one more per tick, whatever else happens |
| `SocketTheorems.SilentSocketRemoved` | backend/src/websocket.js:256-275 | a socket that never pongs is gone by its third tick, in every run |
| `SocketLaws.PongEffect` | backend/src/websocket.js:222-224 | a pong sets its socket's missed pongs to 0 and changes nothing else |
| `SocketLaws.BroadcastExactly` | backend/src/websocket.js:45-50 | a broadcast drops exactly the clients to which the send fails |
| `SocketLaws.NewClient` | backend/src/websocket.js:154-180 | an admitted connection is the last client, with its address and no missed pong |
| `SocketLaws.ClientStaysExactly` | backend/src/websocket.js:222-275 | a client is still one after a run if and only if no send or ping to it failed, it was not closed, there was no shutdown, and no third tick came without a pong of its own |
| `WebSocketServer.Server.constructor` | backend/src/websocket.js:10-13 | no clients and no counts |
| `WebSocketServer.Server.OnConnection` | backend/src/websocket.js:127-185 | whole effect of a connection, on every path; earlier sockets stay the objects they were, and a new one is fresh |
| `WebSocketServer.Server.ReleaseIp` | backend/src/websocket.js:139-150 | whole effect: only the first call counts |
| `WebSocketServer.Server.DeleteClient` | backend/src/websocket.js:31 | clients.delete |
| `WebSocketServer.Server.OnGone` | backend/src/websocket.js:226-235 | whole effect of an error or close event |
| `WebSocketServer.Server.OnPong` | backend/src/websocket.js:222-224 | whole effect |
| `WebSocketServer.Server.SafeSend` | backend/src/websocket.js:22-33 | a send that throws drops the socket; another changes nothing |
| `WebSocketServer.Server.BroadcastLocal` | backend/src/websocket.js:45-50 | the loop over all clients, any of which may be dropped on the way |
| `WebSocketServer.Server.Ping` | backend/src/websocket.js:258-273 | one socket's part of a heartbeat |
| `WebSocketServer.Server.Heartbeat` | backend/src/websocket.js:256-275 | the loop over all clients, any of which may be dropped on the way |
| `WebSocketServer.Server.Close` | backend/src/websocket.js:322-331 | whole effect of closing |
| `VersionTheorems.V2ThenV1Exactly` | backend/src/middleware/versionTransformer.js:44-82 | V1(V2(x)) = x if and only if in every key, at every depth, each underscore is last or before a character that is not a word character |
| `VersionTheorems.V1ThenV2Exactly` | backend/src/middleware/versionTransformer.js:44-82 | V2(V1(x)) = x if and only if no key has an ASCII capital and each underscore is last or before a lower-case letter or a character that is not a word character |
| `VersionTheorems.RoundTripsFail` | backend/src/middleware/versionTransformer.js:44-82 | {"a_b": 1} does not come back from V2, nor {"aB": 1} from V1 |
| `VersionTheorems.CamelCaseSurvives` | backend/src/middleware/versionTransformer.js:66-82 | in particular every value whose keys have no underscore comes back unchanged |
| `VersionTheorems.KeyV2V1Exactly` | backend/src/middleware/versionTransformer.js:51-76 | the first condition for one key |
| `VersionTheorems.KeyV1V2Exactly` | backend/src/middleware/versionTransformer.js:51-76 | the second condition for one key |
| `VersionTheorems.RoundTripExactly` | backend/src/middleware/versionTransformer.js:44-82 | any two such rewriters restore a value if and only if they restore each of its keys |
| `VersionTheorems.FieldsKeptExactly` | backend/src/middleware/versionTransformer.js:48-53 | an object keeps all its fields if and only if its renamed keys are distinct |
| `VersionTheorems.SurvivorsDoNotCollide` | backend/src/middleware/versionTransformer.js:48-79 | keys that come back lose no field on the way there |
| `VersionTheorems.V2KeepsFields` | backend/src/middleware/versionTransformer.js:73-79 | so V2 keeps every field of an object whose keys meet the first condition |
| `VersionTheorems.V1KeepsFields` | backend/src/middleware/versionTransformer.js:48-54 | and V1 of one whose keys meet the second |
| `VersionTheorems.CollisionLosesField` | backend/src/middleware/versionTransformer.js:48-79 | a_b and aB in one object: V1 and V2 each lose a field |
| `VersionLaws.PairToV1` | backend/src/middleware/versionTransformer.js:51 | an underscore takes an ASCII letter, a digit or an underscore with it, a lower-case letter as a capital, and no other character |
| `VersionLaws.CharToV2` | backend/src/middleware/versionTransformer.js:76 | only ASCII capitals are rewritten |
| `VersionLaws.TwoWords` | backend/src/middleware/versionTransformer.js:50-76 | words with a separator become camel case, and back |
| `VersionLaws.FieldsExactly` | backend/src/middleware/versionTransformer.js:47-53 | a rewritten object has distinct keys, and its fields are the renamed ones with rewritten values, the last of those that meet in one key |
| `VersionLaws.FieldOrder` | backend/src/middleware/versionTransformer.js:47-53 | its fields are in the order in which their keys first occur |
| `VersionLaws.OnlyKeysChange` | backend/src/middleware/versionTransformer.js:44-57 | where no keys meet, items, leaves and the order of fields stay |
| `VersionTransformers.TransformKeys` | backend/src/middleware/versionTransformer.js:44-57 | the recursive loop equals Rewrite |
| `VersionTransformers.TransformToV1` | backend/src/middleware/versionTransformer.js:44-57 | equals ToV1 |
| `VersionTransformers.TransformToV2` | backend/src/middleware/versionTransformer.js:69-82 | equals ToV2 |
| `BountyTheorems.IndexIsExact` | backend/src/routes/bugBounty.js:216-470 | in every reachable state openReporters is exactly the reporters with a Pending, UnderReview or Accepted report, no reporter has two, and the pool is not overdrawn |
| `BountyTheorems.SubmissionAcceptedExactly` | backend/src/routes/bugBounty.js:183-250 | a well-formed submission is accepted if and only if the reporter has no open report |
| `BountyTheorems.FundsConserved` | backend/src/routes/bugBounty.js:320-525 | over every run pool, reserved rewards and paid rewards add up to all funding; paid rewards are the reported payouts |
| `BountyTheorems.AcceptedIsClaimable` | backend/src/routes/bugBounty.js:433-483 | an accepted report can always be claimed, once, for its reserved reward |
| `BountyLaws.AcceptedExactly` | backend/src/routes/bugBounty.js:181-623 | each kind of request is accepted if and only if its situation, written out, is there: pause, addresses, status, reporter, reward and pool |
| `BountyLaws.RejectionSays` | backend/src/routes/bugBounty.js:181-623 | a rejection changes nothing, and its status is the first that applies |
| `BountyLaws.Submission` | backend/src/routes/bugBounty.js:225-242 | a submitted report has a new id and what was submitted, and is Pending |
| `BountyLaws.ReportMoves` | backend/src/routes/bugBounty.js:271-470 | the status an accepted request gives its report; an acceptance reserves the number sent, or the tier of the severity, and a claim pays what was reserved |
| `BountyLaws.ProgrammeChanges` | backend/src/routes/bugBounty.js:503-623 | funding adds what was sent, pausing sets the flag |
| `BountyLaws.TiersChange` | backend/src/routes/bugBounty.js:574-591 | a tier is the amount of the last entry for its severity, or what it was |
| `BountyLaws.InitialTiers` | backend/src/routes/bugBounty.js:42-53 | a programme starts with no reports and no funds, not paused, and with the default tiers |
| `BugBounty.Programme.constructor` | backend/src/routes/bugBounty.js:49-56 | the state at start |
| `BugBounty.Programme.Submit` | backend/src/routes/bugBounty.js:181-250 | status and whole effect |
| `BugBounty.Programme.Review` | backend/src/routes/bugBounty.js:271-304 | status and whole effect |
| `BugBounty.Programme.Accept` | backend/src/routes/bugBounty.js:308-359 | status and whole effect: the reward is reserved from the pool |
| `BugBounty.Programme.Refuse` | backend/src/routes/bugBounty.js:363-390 | status and whole effect |
| `BugBounty.Programme.Withdraw` | backend/src/routes/bugBounty.js:394-429 | status and whole effect |
| `BugBounty.Programme.Claim` | backend/src/routes/bugBounty.js:433-483 | status, payout and whole effect |
| `BugBounty.Programme.Fund` | backend/src/routes/bugBounty.js:503-538 | status and whole effect |
| `BugBounty.Programme.SetRewards` | backend/src/routes/bugBounty.js:562-599 | status and whole effect: all tiers or none |
| `BugBounty.Programme.SetPaused` | backend/src/routes/bugBounty.js:603-623 | status and whole effect |
| `LimiterTheorems.AdmittedExactly` | backend/src/middleware/notaryRateLimiter.js:23-41 | the number an interval of 60,000 ms admits, exactly: of the requests before the end of the window open at its start as many as that window has room for, and of those from then on up to 10 |
| `LimiterTheorems.TenPerMinuteExactly` | backend/src/middleware/notaryRateLimiter.js:23-41 | an interval admits at most 10 if and only if the window open at its start admits none of its requests, or those it admits and the requests from its end on are together at most 10 |
| `LimiterTheorems.WindowBound` | backend/src/middleware/notaryRateLimiter.js:21-41 | for every clock that does not go back, at most 19 requests of an address are admitted in any 60,000 ms |
| `LimiterTheorems.WindowBoundIsReached` | backend/src/middleware/notaryRateLimiter.js:24-41 | a trace that admits 19 |
| `LimiterTheorems.TenFromOpening` | backend/src/middleware/notaryRateLimiter.js:24-41 | an interval that starts when no window is open admits all its requests up to 10 |
| `LimiterTheorems.RetryAfterIsLeast` | backend/src/middleware/notaryRateLimiter.js:35-36 | Retry-After is the least number of whole seconds after which the window has ended |
| `LimiterTheorems.RemainingIsRoom` | backend/src/middleware/notaryRateLimiter.js:29-32 | of the requests before the end of the window exactly as many are admitted as the answer says remain |
| `LimiterTheorems.FirstOfTen` | backend/src/middleware/notaryRateLimiter.js:23-32 | a request whose address has no open window is the first of ten in a window of 60,000 ms |
| `LimiterTheorems.RetryAfterExactly` | backend/src/middleware/notaryRateLimiter.js:35-41 | a retry at or after the advertised time is admitted if and only if fewer than 10 requests of the address came between the end of the window and that time (what other addresses send does not matter), or the window they opened has ended too |
| `LimiterTheorems.RetryOnTimeRejected` | backend/src/middleware/notaryRateLimiter.js:35-41 | a trace in which the retry comes 60 seconds later, as advertised, and is rejected |
| `LimiterTheorems.LoneRetryAdmitted` | backend/src/middleware/notaryRateLimiter.js:35-41 | a client alone behind its address is always admitted then, whatever other addresses send |
| `NotaryRateLimiters.NotaryRateLimiter.constructor` | backend/src/middleware/notaryRateLimiter.js:9-10 | an empty store |
| `NotaryRateLimiters.NotaryRateLimiter.EntryFor` | backend/src/middleware/notaryRateLimiter.js:23-27 | the address's entry, replaced when its window has ended |
| `NotaryRateLimiters.NotaryRateLimiter.Limit` | backend/src/middleware/notaryRateLimiter.js:15-42 | answer and whole new store |

## Left out

- HTTP: routing, JSON envelopes, headers other than Retry-After and the remaining count, error texts. A rejection is its status code.
- Reading routes (lists, filters, paging, statistics, previews) and timestamps on pools, reports, escrows and trades.
- Numbers that are not integers, NaN inside a milestone list, and numbers above 2^53. With integers the escrow's tolerance of 0.0001 is equality.
- Escrow milestones are a sequence inside the escrow object; the source keeps them in a second map under the key escrow-milestone.
- An escrow fee option that is not a number is one outside 0 to 10000; a caller or address that is not a string is the empty string.
- The failure rate threshold is a rational, and the quotient is compared exactly, without floating-point rounding.
- In the HTTP middleware of the breaker a response that never finishes is a call that stays in flight.
- Object keys that look like integers (which JavaScript enumerates first) and the key `__proto__` (whose assignment sets the prototype).
- The middleware wrappers of the transformers, version negotiation and logging.
- The databases are maps from unique id to event; SQL types, transactions and the printed checksum are not modelled. At most one migration runs at a time; it may be run again.
- WebSocket address parsing, the token comparison, Redis, presence messages, the analytics timer and a second setup of the server. A send to a socket that is not open is one that does not throw.
- The limiter's choice of the client address.
- Reward tiers arrive as a list of entries that have been parsed; an unknown severity is `None`.
- Orderbook, optimizer, queues, idempotency keys, role tables, lottery and the ledger indexer are not part of this model.
