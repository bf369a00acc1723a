/** What holds of every escrow: how far its milestones have got, and what that says about payments. */
module EscrowFrontier {
  import opened EscrowModel

  /** The sum of the first k amounts. */
  function SumFirst(ms: seq<Milestone>, k: nat): int
    requires k <= |ms|
  {
    if k == 0 then 0 else SumFirst(ms, k - 1) + ms[k - 1].amount
  }

  predicate SameAmounts(a: seq<Milestone>, b: seq<Milestone>) {
    |a| == |b| && forall i :: 0 <= i < |a| ==> a[i].amount == b[i].amount
  }

  lemma {:induction false} SumFirstSame(a: seq<Milestone>, b: seq<Milestone>, k: nat)
    requires SameAmounts(a, b) && k <= |a|
    ensures SumFirst(a, k) == SumFirst(b, k)
  {
    if k != 0 {
      SumFirstSame(a, b, k - 1);
    }
  }

  predicate AmountsPositive(ms: seq<Milestone>) {
    forall i :: 0 <= i < |ms| ==> 0 < ms[i].amount
  }

  lemma {:induction false} SumFirstIncreases(ms: seq<Milestone>, j: nat, k: nat)
    requires j <= k <= |ms| && AmountsPositive(ms)
    ensures 0 <= SumFirst(ms, j) && (j < k ==> SumFirst(ms, j) < SumFirst(ms, k))
    decreases j + k
  {
    if j < k {
      SumFirstIncreases(ms, j, k - 1);
    } else if j != 0 {
      SumFirstIncreases(ms, j - 1, j - 1);
    }
  }

  /** Started, and not yet paid. */
  predicate Current(stage: Stage) { stage in {InProgress, UnderReview, Approved} }

  /** The first k milestones are Paid; if there are more, the next one is current and the others have
      not started. */
  predicate FrontierAt(ms: seq<Milestone>, k: nat) {
    && k <= |ms|
    && (forall i :: 0 <= i < k ==> ms[i].stage == Paid)
    && (k < |ms| ==> Current(ms[k].stage))
    && (forall i :: k < i < |ms| ==> ms[i].stage == NotStarted)
  }

  /** The number of leading Paid milestones. */
  function PaidCount(ms: seq<Milestone>): (k: nat)
    ensures k <= |ms|
  {
    if ms == [] || ms[0].stage != Paid then 0 else 1 + PaidCount(ms[1..])
  }

  lemma {:induction false} PaidCountIsFrontier(ms: seq<Milestone>, k: nat)
    requires FrontierAt(ms, k)
    ensures PaidCount(ms) == k
    decreases k
  {
    if k != 0 {
      PaidCountIsFrontier(ms[1..], k - 1);
    }
  }

  predicate Untouched(e: Escrow) {
    e.paidAmount == 0 && forall i :: 0 <= i < |e.milestones| ==> e.milestones[i].stage == NotStarted
  }

  predicate EscrowOk(e: Escrow) {
    && 0 < |e.milestones| <= MAX_MILESTONES && AmountsPositive(e.milestones)
    && e.totalAmount == SumFirst(e.milestones, |e.milestones|)
    && 0 <= e.feeBps <= 10000
    && var k := PaidCount(e.milestones);
      match e.status
      case Pending => Untouched(e)
      case Cancelled => Untouched(e)
      case Active => FrontierAt(e.milestones, k) && k < |e.milestones| && e.paidAmount == SumFirst(e.milestones, k)
      case Disputed => FrontierAt(e.milestones, k) && k < |e.milestones| && e.paidAmount == SumFirst(e.milestones, k)
      case Completed => FrontierAt(e.milestones, k) && e.paidAmount == e.totalAmount
  }

  /** The escrow is active and its milestone number m is at this stage. */
  predicate AtStage(e: Escrow, m: int, stage: Stage) {
    e.status == Active && 1 <= m <= |e.milestones| && e.milestones[m - 1].stage == stage
  }

  /** A request the checks of Error let through, seen from its escrow. */
  predicate Allowed(e: Escrow, r: Request) {
    && AboutEscrow(r)
    && match r
      case Deposit(_, _) => e.status == Pending
      case Cancel(_, _) => e.status == Pending
      case Dispute(_, _) => e.status == Active
      case Resolve(_, _, _) => e.status == Disputed
      case Submit(_, m, _) => AtStage(e, m, InProgress)
      case Approve(_, m, _) => AtStage(e, m, UnderReview)
      case Reject(_, m, _) => AtStage(e, m, UnderReview)
      case Release(_, m, _) => AtStage(e, m, Approved)
      case _ => false
  }

  lemma AcceptedIsAllowed(s: State, r: Request)
    requires AboutEscrow(r) && Error(s, r).None?
    ensures r.id in s.escrows && Allowed(s.escrows[r.id], r)
  {
  }

  lemma {:induction false} NewSum(amounts: seq<int>, k: nat)
    requires k <= |amounts|
    ensures SumFirst(NewMilestones(amounts), k) == SumAll(amounts[..k])
  {
    if k != 0 {
      NewSum(amounts, k - 1);
      assert amounts[..k][..k - 1] == amounts[..k - 1];
    }
  }

  lemma NewEscrowOk(s: State, r: Request)
    requires r.Create? && Error(s, r).None? && 0 <= s.arbiterFeeBps <= 10000
    ensures EscrowOk(NewEscrow(s, r))
  {
    NewSum(r.amounts, |r.amounts|);
    assert r.amounts[..|r.amounts|] == r.amounts;
  }

  /** Only the frontier milestone can be submitted, approved, rejected or released. */
  lemma MovesAtFrontier(e: Escrow, r: Request)
    requires EscrowOk(e) && Allowed(e, r) && (r.Submit? || r.Approve? || r.Reject? || r.Release?)
    ensures r.milestone == PaidCount(e.milestones) + 1
  {
  }

  /** The escrow after a request is accepted. */
  function After(e: Escrow, r: Request): Escrow
    requires Allowed(e, r)
  {
    Move(e, Analytics(0, 0, 0, 0, 0, 0, 0), r).0
  }

  lemma FirstStarts(e: Escrow, r: Request)
    requires EscrowOk(e) && Allowed(e, r) && r.Deposit?
    ensures EscrowOk(After(e, r)) && PaidCount(After(e, r).milestones) == 0
  {
    var e1 := After(e, r);
    PaidCountIsFrontier(e1.milestones, 0);
    SumFirstSame(e.milestones, e1.milestones, |e.milestones|);
  }

  /** Submitting, approving and rejecting leave the frontier where it is. */
  lemma StageChanges(e: Escrow, r: Request)
    requires EscrowOk(e) && Allowed(e, r) && (r.Submit? || r.Approve? || r.Reject?)
    ensures EscrowOk(After(e, r)) && PaidCount(After(e, r).milestones) == PaidCount(e.milestones)
  {
    var e1, k := After(e, r), PaidCount(e.milestones);
    MovesAtFrontier(e, r);
    PaidCountIsFrontier(e1.milestones, k);
    SumFirstSame(e.milestones, e1.milestones, |e.milestones|);
    SumFirstSame(e.milestones, e1.milestones, k);
  }

  lemma ReleasedMilestones(e: Escrow, k: nat, a: Analytics)
    requires k < |e.milestones| && FrontierAt(e.milestones, k)
    ensures var ms := AfterRelease(e, a, k + 1).0.milestones;
      SameAmounts(e.milestones, ms) && FrontierAt(ms, k + 1)
  {
  }

  lemma ReleasedPayment(e: Escrow, k: nat, a: Analytics)
    requires EscrowOk(e) && e.status == Active && k == PaidCount(e.milestones) && k < |e.milestones|
    ensures var e1 := AfterRelease(e, a, k + 1).0;
      && e1.paidAmount == SumFirst(e.milestones, k + 1)
      && e1.status == (if k + 1 == |e.milestones| then Completed else Active)
      && e1 == e.(milestones := e1.milestones, paidAmount := e1.paidAmount, status := e1.status)
  {
    SumFirstIncreases(e.milestones, k + 1, |e.milestones|);
  }

  /** A release moves the frontier by one, pays exactly that milestone, and completes the escrow exactly
      when it was the last. */
  lemma ReleaseAdvances(e: Escrow, r: Request)
    requires EscrowOk(e) && Allowed(e, r) && r.Release?
    ensures var e1, k := After(e, r), PaidCount(e.milestones);
      && EscrowOk(e1) && SameAmounts(e.milestones, e1.milestones)
      && k < |e.milestones| && PaidCount(e1.milestones) == k + 1
      && e1.paidAmount == SumFirst(e.milestones, k + 1)
      && (e1.status == Completed <==> k + 1 == |e.milestones|)
      && (e1.status == Active <==> k + 1 < |e.milestones|)
  {
    var e1, k, none := After(e, r), PaidCount(e.milestones), Analytics(0, 0, 0, 0, 0, 0, 0);
    MovesAtFrontier(e, r);
    assert e1 == AfterRelease(e, none, k + 1).0;
    ReleasedMilestones(e, k, none);
    ReleasedPayment(e, k, none);
    PaidCountIsFrontier(e1.milestones, k + 1);
    SumFirstSame(e.milestones, e1.milestones, |e.milestones|);
    SumFirstSame(e.milestones, e1.milestones, k + 1);
  }

  lemma EscrowStaysOk(e: Escrow, r: Request)
    requires EscrowOk(e) && Allowed(e, r)
    ensures EscrowOk(After(e, r))
  {
    if r.Deposit? {
      FirstStarts(e, r);
    } else if r.Release? {
      ReleaseAdvances(e, r);
    } else if r.Submit? || r.Approve? || r.Reject? {
      StageChanges(e, r);
    }
  }

  // ---- Reachable states ----

  ghost predicate Inv(s: State) {
    && 0 <= s.arbiterFeeBps <= 10000
    && (forall id :: id in s.escrows <==> 1 <= id <= s.escrowCount)
    && (forall id :: id in s.escrows ==> EscrowOk(s.escrows[id]))
  }

  /** Counters do not influence what happens to the escrow. */
  lemma MoveIgnoresCounters(e: Escrow, a: Analytics, r: Request)
    requires Allowed(e, r)
    ensures Move(e, a, r).0 == After(e, r)
  {
  }

  lemma InvStep(s: State, r: Request)
    requires Inv(s)
    ensures Inv(Step(s, r).0)
  {
    if Error(s, r).None? {
      if r.Create? {
        NewEscrowOk(s, r);
      } else if AboutEscrow(r) {
        AcceptedIsAllowed(s, r);
        MoveIgnoresCounters(s.escrows[r.id], s.analytics, r);
        EscrowStaysOk(s.escrows[r.id], r);
      }
    }
  }

  lemma {:induction false} InvRun(s: State, rs: seq<Request>)
    requires Inv(s)
    ensures Inv(Run(s, rs))
    decreases |rs|
  {
    if rs != [] {
      InvStep(s, rs[0]);
      InvRun(Step(s, rs[0]).0, rs[1..]);
    }
  }

  /** Main result: in every reachable state the milestones of an Active escrow are a prefix of Paid
      ones, then one current one, then ones that have not started; paidAmount is the sum of the prefix
      and below the total. */
  lemma MilestoneFrontier(rs: seq<Request>, id: int)
    requires id in Run(Initial(), rs).escrows && Run(Initial(), rs).escrows[id].status == Active
    ensures var e := Run(Initial(), rs).escrows[id];
      exists k :: 0 <= k < |e.milestones| && FrontierAt(e.milestones, k)
        && e.paidAmount == SumFirst(e.milestones, k) && e.paidAmount < e.totalAmount
  {
    InvRun(Initial(), rs);
    var e := Run(Initial(), rs).escrows[id];
    SumFirstIncreases(e.milestones, PaidCount(e.milestones), |e.milestones|);
  }

  // ---- Runs are short ----

  /** An upper bound on the requests that can still be accepted, not counting those that rejections add. */
  function Rank(e: Escrow): int {
    var n, k := |e.milestones|, PaidCount(e.milestones);
    match e.status
    case Pending => 3 * n + 2
    case Active =>
      if k == n then 0
      else 3 * (n - k) + (match e.milestones[k].stage case InProgress => 1 case Approved => -1 case _ => 0)
    case Disputed => 1
    case _ => 0
  }

  lemma RankStep(e: Escrow, r: Request)
    requires EscrowOk(e) && Allowed(e, r)
    ensures EscrowOk(After(e, r))
    ensures 0 <= Rank(After(e, r)) <= if r.Reject? then Rank(e) + 1 else Rank(e) - 1
  {
    EscrowStaysOk(e, r);
    if r.Deposit? {
      FirstStarts(e, r);
    } else if r.Release? {
      MovesAtFrontier(e, r);
      ReleaseAdvances(e, r);
    } else if r.Submit? || r.Approve? || r.Reject? {
      MovesAtFrontier(e, r);
      StageChanges(e, r);
    }
  }

  predicate AcceptedOn(s: State, r: Request, id: int) {
    AboutEscrow(r) && r.id == id && Error(s, r).None?
  }

  function AcceptedCount(s: State, rs: seq<Request>, id: int): nat
    decreases |rs|
  {
    if rs == [] then 0
    else (if AcceptedOn(s, rs[0], id) then 1 else 0) + AcceptedCount(Step(s, rs[0]).0, rs[1..], id)
  }

  function RejectionCount(s: State, rs: seq<Request>, id: int): nat
    decreases |rs|
  {
    if rs == [] then 0
    else (if AcceptedOn(s, rs[0], id) && rs[0].Reject? then 1 else 0) + RejectionCount(Step(s, rs[0]).0, rs[1..], id)
  }

  lemma EscrowAfterStep(s: State, r: Request, id: int)
    requires Inv(s) && id in s.escrows
    ensures var s1 := Step(s, r).0;
      id in s1.escrows
      && (if AcceptedOn(s, r, id) then Allowed(s.escrows[id], r) && s1.escrows[id] == After(s.escrows[id], r)
          else s1.escrows[id] == s.escrows[id])
  {
    if AcceptedOn(s, r, id) {
      AcceptedIsAllowed(s, r);
      MoveIgnoresCounters(s.escrows[id], s.analytics, r);
    }
  }

  lemma RankNotNegative(e: Escrow)
    requires EscrowOk(e)
    ensures 0 <= Rank(e)
  {
  }

  lemma {:induction false} RankBoundsRun(s: State, rs: seq<Request>, id: int)
    requires Inv(s) && id in s.escrows
    ensures AcceptedCount(s, rs, id) <= Rank(s.escrows[id]) + 2 * RejectionCount(s, rs, id)
    decreases |rs|
  {
    if rs == [] {
      RankNotNegative(s.escrows[id]);
    } else {
      InvStep(s, rs[0]);
      EscrowAfterStep(s, rs[0], id);
      if AcceptedOn(s, rs[0], id) {
        RankStep(s.escrows[id], rs[0]);
      }
      RankBoundsRun(Step(s, rs[0]).0, rs[1..], id);
    }
  }

  /** Main result: after its creation an escrow of n milestones accepts at most 3n + 2 requests, and two
      more for each rejection, whatever else the service is asked. */
  lemma EscrowRunsAreShort(before: seq<Request>, create: Request, after: seq<Request>)
    requires create.Create? && Step(Run(Initial(), before), create).1.Created?
    ensures var (s, reply) := Step(Run(Initial(), before), create);
      AcceptedCount(s, after, reply.id) <= 3 * |create.amounts| + 2 + 2 * RejectionCount(s, after, reply.id)
  {
    InvRun(Initial(), before);
    InvStep(Run(Initial(), before), create);
    var (s, reply) := Step(Run(Initial(), before), create);
    RankBoundsRun(s, after, reply.id);
  }

  // ---- Who may do what ----

  /** A milestone goes from InProgress to UnderReview by its freelancer, and on to Approved, to Paid or
      back by its client; only the client starts one. */
  predicate StageMove(e: Escrow, from: Stage, to: Stage, caller: string) {
    match to
    case UnderReview => from == InProgress && caller == e.freelancer
    case Approved => from == UnderReview && caller == e.client
    case Paid => from == Approved && caller == e.client
    case InProgress => from in {NotStarted, UnderReview} && caller == e.client
    case NotStarted => false
  }

  predicate StatusMove(e: Escrow, to: Status, caller: string) {
    match (e.status, to)
    case (Pending, Active) => caller == e.client
    case (Pending, Cancelled) => caller == e.client
    case (Active, Completed) => caller == e.client
    case (Active, Disputed) => caller in {e.client, e.freelancer}
    case (Disputed, Completed) => caller == e.arbiter
    case _ => false
  }

  predicate Authorised(e: Escrow, e1: Escrow, caller: string) {
    && SameAmounts(e.milestones, e1.milestones)
    && (forall i :: 0 <= i < |e.milestones| && e.milestones[i].stage != e1.milestones[i].stage ==>
          StageMove(e, e.milestones[i].stage, e1.milestones[i].stage, caller))
    && (e1.status != e.status ==> StatusMove(e, e1.status, caller))
    && e.paidAmount <= e1.paidAmount
  }

  predicate Entitled(e: Escrow, r: Request)
    requires AboutEscrow(r)
  {
    if r.Submit? then r.caller == e.freelancer
    else if r.Dispute? then r.caller in {e.client, e.freelancer}
    else if r.Resolve? then r.caller == e.arbiter
    else r.caller == e.client
  }

  lemma CallerIsEntitled(s: State, r: Request)
    requires AboutEscrow(r) && Error(s, r).None?
    ensures r.id in s.escrows && Entitled(s.escrows[r.id], r)
  {
  }

  lemma ReleaseIsAuthorised(e: Escrow, r: Request)
    requires EscrowOk(e) && Allowed(e, r) && Entitled(e, r) && r.Release?
    ensures Authorised(e, After(e, r), r.caller)
  {
    var k, m := PaidCount(e.milestones), r.milestone;
    MovesAtFrontier(e, r);
    ReleaseAdvances(e, r);
    SumFirstIncreases(e.milestones, k, k + 1);
  }

  lemma StageChangeIsAuthorised(e: Escrow, r: Request)
    requires EscrowOk(e) && Allowed(e, r) && Entitled(e, r) && (r.Submit? || r.Approve? || r.Reject?)
    ensures Authorised(e, After(e, r), r.caller)
  {
  }

  lemma StatusChangeIsAuthorised(e: Escrow, r: Request)
    requires EscrowOk(e) && Allowed(e, r) && Entitled(e, r) && (r.Deposit? || r.Cancel? || r.Dispute? || r.Resolve?)
    ensures Authorised(e, After(e, r), r.caller)
  {
    SumFirstIncreases(e.milestones, PaidCount(e.milestones), |e.milestones|);
  }

  lemma MoveIsAuthorised(e: Escrow, r: Request)
    requires EscrowOk(e) && Allowed(e, r) && Entitled(e, r)
    ensures Authorised(e, After(e, r), r.caller)
  {
    if r.Release? {
      ReleaseIsAuthorised(e, r);
    } else if r.Submit? || r.Approve? || r.Reject? {
      StageChangeIsAuthorised(e, r);
    } else {
      StatusChangeIsAuthorised(e, r);
    }
  }

  /** Whatever is asked of the service, an escrow changes only as its parties and its arbiter are
      entitled to change it; so a milestone is paid only after its freelancer submitted it and its
      client approved it. */
  lemma ChangesAreAuthorised(s: State, r: Request, id: int)
    requires Inv(s) && id in s.escrows
    ensures id in Step(s, r).0.escrows
    ensures Step(s, r).0.escrows[id] == s.escrows[id]
      || (AboutEscrow(r) && r.id == id && Authorised(s.escrows[id], Step(s, r).0.escrows[id], r.caller))
  {
    var e := s.escrows[id];
    EscrowAfterStep(s, r, id);
    if AcceptedOn(s, r, id) {
      CallerIsEntitled(s, r);
      MoveIsAuthorised(e, r);
    }
  }
}
