/** Which requests the escrow service accepts, and what each of them changes. */
module EscrowLaws {
  import opened Wrappers
  import opened EscrowModel
  import opened EscrowFrontier

  predicate Accepted(s: State, r: Request) {
    !Step(s, r).1.Rejected?
  }

  // ---- What is accepted ----

  predicate AboutMilestone(r: Request) { r.Submit? || r.Approve? || r.Reject? || r.Release? }

  /** The request is about an escrow with this status, and its caller is entitled to make it. */
  predicate May(s: State, r: Request, status: Status)
    requires AboutEscrow(r)
  {
    r.id in s.escrows && s.escrows[r.id].status == status && Entitled(s.escrows[r.id], r)
  }

  /** It is about a milestone of an active escrow at this stage. */
  predicate MayMove(s: State, r: Request, stage: Stage)
    requires AboutMilestone(r)
  {
    && May(s, r, Active)
    && 1 <= r.milestone <= |s.escrows[r.id].milestones|
    && s.escrows[r.id].milestones[r.milestone - 1].stage == stage
  }

  /** A new escrow has its parties, and between one and twenty positive amounts that add up to its total. */
  predicate Creatable(r: Request)
    requires r.Create?
  {
    && r.client != "" && r.freelancer != "" && r.arbiter != ""
    && 1 <= |r.amounts| <= 20 && (forall i :: 0 <= i < |r.amounts| ==> 0 < r.amounts[i])
    && r.totalAmount == Some(SumAll(r.amounts))
  }

  lemma {:induction false} SumPositive(amounts: seq<int>)
    requires forall i :: 0 <= i < |amounts| ==> 0 < amounts[i]
    ensures 0 <= SumAll(amounts) && (amounts != [] ==> 0 < SumAll(amounts))
    decreases |amounts|
  {
    if amounts != [] {
      SumPositive(amounts[..|amounts| - 1]);
    }
  }

  /** Main result: each kind of request is accepted exactly in the situation it is for. */
  lemma AcceptedExactly(s: State, r: Request)
    ensures Accepted(s, r) <==>
      match r
      case Initialize(admin, bps) => !s.initialized && admin != "" && (bps.None? || 0 <= bps.value <= 10_000)
      case Create(_, _, _, _, _) => s.initialized && Creatable(r)
      case Deposit(_, _) => s.initialized && May(s, r, Pending)
      case Cancel(_, _) => May(s, r, Pending)
      case Dispute(_, _) => May(s, r, Active)
      case Resolve(_, _, ruling) => May(s, r, Disputed) && ruling in {0, 1, 2}
      case Submit(_, _, _) => MayMove(s, r, InProgress)
      case Approve(_, _, _) => MayMove(s, r, UnderReview)
      case Reject(_, _, _) => MayMove(s, r, UnderReview)
      case Release(_, _, _) => MayMove(s, r, Approved)
  {
    if r.Create? && Creatable(r) {
      SumPositive(r.amounts);
    }
  }

  /** A rejection says the first of these that applies: 400 that the service has not been initialized, 409 that
      it has, 404 that there is no such escrow, 403 that the caller is not entitled to this, 404 that an
      active escrow has no such milestone, and 400 that it is not the time or not a possible request. */
  lemma RejectionSays(s: State, r: Request)
    requires !Accepted(s, r)
    ensures Step(s, r) == (s, Rejected(
      if (r.Create? || r.Deposit?) && !s.initialized then 400
      else if r.Initialize? && s.initialized then 409
      else if !AboutEscrow(r) then 400
      else if r.id !in s.escrows then 404
      else if !Entitled(s.escrows[r.id], r) then 403
      else if AboutMilestone(r) && s.escrows[r.id].status == Active
              && !(1 <= r.milestone <= |s.escrows[r.id].milestones|) then 404
      else 400))
  {
  }

  // ---- What is changed ----

  /** A service starts with nothing created, counted or initialized. */
  lemma EmptyService()
    ensures var s := Initial();
      && !s.initialized && s.admin == "" && s.arbiterFeeBps == 200 && s.escrowCount == 0 && s.escrows == map[]
      && s.analytics.totalEscrows == s.analytics.activeEscrows == s.analytics.completedEscrows == 0
      && s.analytics.disputedEscrows == s.analytics.cancelledEscrows == 0
      && s.analytics.totalValueLocked == s.analytics.totalPaidOut == 0
  {
  }

  /** Everything else about the service is as it was. */
  predicate OnlyEscrow(s: State, s1: State, id: int) {
    && s1.initialized == s.initialized && s1.admin == s.admin && s1.arbiterFeeBps == s.arbiterFeeBps
    && s1.escrowCount == s.escrowCount && s1.escrows.Keys == s.escrows.Keys
    && forall other <- s.escrows :: other != id ==> s1.escrows[other] == s.escrows[other]
  }

  /** The terms an escrow was created with. */
  predicate SameTerms(e: Escrow, e1: Escrow) {
    && e1.client == e.client && e1.freelancer == e.freelancer && e1.arbiter == e.arbiter
    && e1.totalAmount == e.totalAmount && e1.feeBps == e.feeBps && SameAmounts(e.milestones, e1.milestones)
  }

  /** A new escrow has the next number and the terms of the request; nothing has been paid or started, and it
      bears the fee the service was initialized with. */
  lemma Creation(s: State, r: Request)
    requires Inv(s) && r.Create? && Accepted(s, r)
    ensures var s1, id := Step(s, r).0, Step(s, r).1.id;
      && Step(s, r).1.Created? && id !in s.escrows && id == s.escrowCount + 1 == s1.escrowCount
      && s1.escrows.Keys == s.escrows.Keys + {id}
      && (forall other <- s.escrows :: s1.escrows[other] == s.escrows[other])
      && var e := s1.escrows[id];
         && e.client == r.client && e.freelancer == r.freelancer && e.arbiter == r.arbiter
         && Some(e.totalAmount) == r.totalAmount && e.feeBps == s.arbiterFeeBps
         && e.paidAmount == 0 && e.status == Pending
         && |e.milestones| == |r.amounts|
         && forall i :: 0 <= i < |r.amounts| ==>
              e.milestones[i].amount == r.amounts[i] && e.milestones[i].stage == NotStarted
  {
  }

  /** The stage at which each request about a milestone leaves it. */
  function StageOf(r: Request): Stage
    requires AboutMilestone(r)
  {
    match r
    case Submit(_, _, _) => UnderReview
    case Approve(_, _, _) => Approved
    case Reject(_, _, _) => InProgress
    case Release(_, _, _) => Paid
  }

  /** How such a request changes its escrow. */
  predicate MilestoneMoved(e: Escrow, e1: Escrow, r: Request)
    requires AboutMilestone(r)
  {
    var m := r.milestone - 1;
    && SameTerms(e, e1) && 0 <= m < |e.milestones|
    && e1.milestones[m].stage == StageOf(r)
    && (r.Release? && m + 1 < |e.milestones| ==> e1.milestones[m + 1].stage == InProgress)
    && (forall i :: 0 <= i < |e.milestones| && i != m && !(r.Release? && i == m + 1) ==>
          e1.milestones[i].stage == e.milestones[i].stage)
    && (!r.Release? ==> e1.status == e.status && e1.paidAmount == e.paidAmount)
  }

  lemma StageMoves(e: Escrow, r: Request)
    requires EscrowOk(e) && Allowed(e, r) && (r.Submit? || r.Approve? || r.Reject?)
    ensures MilestoneMoved(e, After(e, r), r)
  {
  }

  lemma ReleaseMoves(e: Escrow, r: Request)
    requires EscrowOk(e) && Allowed(e, r) && r.Release?
    ensures MilestoneMoved(e, After(e, r), r)
  {
    MovesAtFrontier(e, r);
    ReleaseAdvances(e, r);
  }

  /** Main result: an accepted request about a milestone leaves it UnderReview, Approved, InProgress or Paid, as
      it submits, approves, rejects or releases; a release also starts the next one, if there is one; no
      other milestone, no term of the escrow and no other escrow changes. */
  lemma MilestoneMoves(s: State, r: Request)
    requires Inv(s) && Accepted(s, r) && AboutMilestone(r)
    ensures r.id in s.escrows && OnlyEscrow(s, Step(s, r).0, r.id)
    ensures MilestoneMoved(s.escrows[r.id], Step(s, r).0.escrows[r.id], r)
    ensures !r.Release? ==> Step(s, r).0.analytics == s.analytics
  {
    EscrowAfterStep(s, r, r.id);
    if r.Release? {
      ReleaseMoves(s.escrows[r.id], r);
    } else {
      StageMoves(s.escrows[r.id], r);
    }
  }

  /** A release reports the floored fee on the milestone's amount, and the rest of the amount. */
  lemma ReleaseReply(s: State, r: Request)
    requires r.Release? && Accepted(s, r)
    ensures r.id in s.escrows && 1 <= r.milestone <= |s.escrows[r.id].milestones|
    ensures var reply, amount := Step(s, r).1, s.escrows[r.id].milestones[r.milestone - 1].amount;
      && reply.Released? && reply.net + reply.fee == amount
      && 10_000 * reply.fee <= amount * s.escrows[r.id].feeBps < 10_000 * (reply.fee + 1)
  {
  }

  /** A deposit activates the escrow and starts its first milestone; a cancellation, a dispute and a ruling
      change its status and no milestone; a ruling settles the whole total. */
  lemma StatusMoves(s: State, r: Request)
    requires Inv(s) && Accepted(s, r) && (r.Deposit? || r.Cancel? || r.Dispute? || r.Resolve?)
    ensures r.id in s.escrows && OnlyEscrow(s, Step(s, r).0, r.id)
    ensures var e, e1 := s.escrows[r.id], Step(s, r).0.escrows[r.id];
      && SameTerms(e, e1)
      && e1.status == (match r case Deposit(_, _) => Active case Cancel(_, _) => Cancelled
                               case Dispute(_, _) => Disputed case _ => Completed)
      && (forall i :: 0 <= i < |e.milestones| ==>
            e1.milestones[i].stage == if r.Deposit? && i == 0 then InProgress else e.milestones[i].stage)
      && e1.paidAmount == if r.Resolve? then e.totalAmount else e.paidAmount
  {
  }

  // ---- Laws of runs ----

  predicate Approves(s: State, r: Request, id: int, m: int) {
    r.Approve? && r.milestone == m && AcceptedOn(s, r, id)
  }

  predicate Submits(s: State, r: Request, id: int, m: int) {
    r.Submit? && r.milestone == m && AcceptedOn(s, r, id)
  }

  /** The run approves the milestone. */
  predicate ApprovedIn(s: State, rs: seq<Request>, id: int, m: int)
    decreases |rs|
  {
    rs != [] && (Approves(s, rs[0], id, m) || ApprovedIn(Step(s, rs[0]).0, rs[1..], id, m))
  }

  /** The run submits the milestone, and approves it later. */
  predicate SubmittedThenApproved(s: State, rs: seq<Request>, id: int, m: int)
    decreases |rs|
  {
    rs != []
    && ((Submits(s, rs[0], id, m) && ApprovedIn(Step(s, rs[0]).0, rs[1..], id, m))
        || SubmittedThenApproved(Step(s, rs[0]).0, rs[1..], id, m))
  }

  predicate AtStageOf(s: State, id: int, m: int, stages: set<Stage>) {
    id in s.escrows && 1 <= m <= |s.escrows[id].milestones| && s.escrows[id].milestones[m - 1].stage in stages
  }

  /** One step of a milestone's way to its payment. */
  predicate OnItsWay(s: State, s1: State, submits: bool, approves: bool, id: int, m: int) {
    && (AtStageOf(s, id, m, {NotStarted, InProgress}) ==>
          AtStageOf(s1, id, m, if submits then {UnderReview} else {NotStarted, InProgress}))
    && (AtStageOf(s, id, m, {UnderReview}) && !approves ==> AtStageOf(s1, id, m, {UnderReview, InProgress}))
  }

  lemma MilestoneOnItsWay(s: State, r: Request, id: int, m: int)
    requires Inv(s) && AcceptedOn(s, r, id) && AboutMilestone(r) && 1 <= m <= |s.escrows[id].milestones|
    ensures OnItsWay(s, Step(s, r).0, Submits(s, r, id, m), Approves(s, r, id, m), id, m)
  {
    AcceptedExactly(s, r);
    MilestoneMoves(s, r);
  }

  lemma WayStep(s: State, r: Request, id: int, m: int)
    requires Inv(s) && id in s.escrows && 1 <= m <= |s.escrows[id].milestones|
    ensures var s1 := Step(s, r).0; id in s1.escrows && |s1.escrows[id].milestones| == |s.escrows[id].milestones|
    ensures OnItsWay(s, Step(s, r).0, Submits(s, r, id, m), Approves(s, r, id, m), id, m)
  {
    EscrowAfterStep(s, r, id);
    if AcceptedOn(s, r, id) {
      if AboutMilestone(r) {
        MilestoneMoves(s, r);
        MilestoneOnItsWay(s, r, id, m);
      } else {
        StatusMoves(s, r);
      }
    }
  }

  lemma {:induction false} SubmittedIsApproved(s: State, rs: seq<Request>, id: int, m: int)
    requires SubmittedThenApproved(s, rs, id, m)
    ensures ApprovedIn(s, rs, id, m)
    decreases |rs|
  {
    if !(Submits(s, rs[0], id, m) && ApprovedIn(Step(s, rs[0]).0, rs[1..], id, m)) {
      SubmittedIsApproved(Step(s, rs[0]).0, rs[1..], id, m);
    }
  }

  lemma {:induction false} WayToPayment(s: State, rs: seq<Request>, id: int, m: int)
    requires Inv(s) && id in s.escrows && 1 <= m <= |s.escrows[id].milestones|
    requires AtStageOf(Run(s, rs), id, m, {Approved, Paid})
    ensures AtStageOf(s, id, m, {NotStarted, InProgress}) ==> SubmittedThenApproved(s, rs, id, m)
    ensures AtStageOf(s, id, m, {UnderReview}) ==> ApprovedIn(s, rs, id, m)
    decreases |rs|
  {
    if rs != [] {
      InvStep(s, rs[0]);
      WayStep(s, rs[0], id, m);
      WayToPayment(Step(s, rs[0]).0, rs[1..], id, m);
      if SubmittedThenApproved(Step(s, rs[0]).0, rs[1..], id, m) {
        SubmittedIsApproved(Step(s, rs[0]).0, rs[1..], id, m);
      }
    }
  }

  /** Main result: after a milestone has been rejected, in any state it can be in, no release of it is accepted
      until it has been submitted and approved again. */
  lemma RejectedMilestone(s: State, reject: Request, rs: seq<Request>, release: Request)
    requires Inv(s) && reject.Reject? && Accepted(s, reject)
    requires release.Release? && release.id == reject.id && release.milestone == reject.milestone
    requires Accepted(Run(Step(s, reject).0, rs), release)
    ensures SubmittedThenApproved(Step(s, reject).0, rs, reject.id, reject.milestone)
  {
    MilestoneMoves(s, reject);
    InvStep(s, reject);
    WayToPayment(Step(s, reject).0, rs, reject.id, reject.milestone);
  }

  /** The fee that the service was initialized with; 200 if none was sent. */
  lemma InitialFee(s: State, r: Request)
    requires r.Initialize? && Accepted(s, r)
    ensures Step(s, r).0 == s.(initialized := true, admin := r.admin,
                               arbiterFeeBps := if r.bps.None? then 200 else r.bps.value)
  {
  }

  ghost predicate FeesAgree(s: State) {
    && (s.initialized || s.escrowCount == 0)
    && forall id <- s.escrows :: s.escrows[id].feeBps == s.arbiterFeeBps
  }

  lemma {:induction false} FeesAgreeRun(s: State, rs: seq<Request>)
    requires Inv(s) && FeesAgree(s)
    ensures Inv(Run(s, rs)) && FeesAgree(Run(s, rs))
    ensures s.initialized ==> Run(s, rs).initialized && Run(s, rs).arbiterFeeBps == s.arbiterFeeBps
    decreases |rs|
  {
    if rs != [] {
      InvStep(s, rs[0]);
      FeesAgreeRun(Step(s, rs[0]).0, rs[1..]);
    }
  }

  /** Every escrow that is ever created bears the fee of the one accepted initialization. */
  lemma OneFeeForAll(before: seq<Request>, initialize: Request, after: seq<Request>, id: int)
    requires initialize.Initialize? && Accepted(Run(Initial(), before), initialize)
    requires id in Run(Step(Run(Initial(), before), initialize).0, after).escrows
    ensures Run(Step(Run(Initial(), before), initialize).0, after).escrows[id].feeBps
         == if initialize.bps.None? then 200 else initialize.bps.value
  {
    var s := Run(Initial(), before);
    FeesAgreeRun(Initial(), before);
    InitialFee(s, initialize);
    InvStep(s, initialize);
    FeesAgreeRun(Step(s, initialize).0, after);
  }
}
