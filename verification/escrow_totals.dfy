/** The analytics counters as sums over the escrows. */
module EscrowTotals {
  import opened Wrappers
  import opened Totals
  import opened EscrowModel
  import opened EscrowFrontier

  function Count(b: bool): int { if b then 1 else 0 }

  function IsActive(e: Escrow): int { Count(e.status == Active) }

  function IsCompleted(e: Escrow): int { Count(e.status == Completed) }

  function IsCancelled(e: Escrow): int { Count(e.status == Cancelled) }

  /** Completed by a ruling: some milestone was never paid. */
  predicate SettledByRuling(e: Escrow) {
    e.status == Completed && PaidCount(e.milestones) < |e.milestones|
  }

  function EverDisputed(e: Escrow): int { Count(e.status == Disputed || SettledByRuling(e)) }

  /** What the escrow keeps in totalValueLocked: its whole total until it completes; after a ruling,
      the milestones that had been paid before the dispute. */
  function Locked(e: Escrow): int {
    if e.status in {Active, Disputed} then e.totalAmount
    else if SettledByRuling(e) then SumFirst(e.milestones, PaidCount(e.milestones))
    else 0
  }

  function PaidOut(e: Escrow): int {
    if e.status == Completed then e.totalAmount - Locked(e) else 0
  }

  /** The total of an escrow that a client has funded. */
  function Funded(e: Escrow): int {
    if e.status in {Active, Disputed, Completed} then e.totalAmount else 0
  }

  ghost predicate CountersAgree(s: State)
    requires Inv(s)
  {
    var a, n := s.analytics, s.escrowCount;
    && a.totalEscrows == n
    && a.activeEscrows == Sum(s.escrows, IsActive, n)
    && a.completedEscrows == Sum(s.escrows, IsCompleted, n)
    && a.cancelledEscrows == Sum(s.escrows, IsCancelled, n)
    && a.disputedEscrows == Sum(s.escrows, EverDisputed, n)
    && a.totalValueLocked == Sum(s.escrows, Locked, n)
    && a.totalPaidOut == Sum(s.escrows, PaidOut, n)
  }

  lemma TermsNotNegative(e: Escrow)
    requires EscrowOk(e)
    ensures 0 <= Locked(e) && 0 <= PaidOut(e) && Locked(e) + PaidOut(e) == Funded(e)
  {
    var ms := e.milestones;
    SumFirstIncreases(ms, PaidCount(ms), |ms|);
    SumFirstIncreases(ms, |ms|, |ms|);
  }

  /** Each counter changes by what its term changes, when the two that are clamped at zero are large enough. */
  predicate CountersFollow(e: Escrow, a: Analytics, e1: Escrow, a1: Analytics) {
    && a1.totalEscrows == a.totalEscrows
    && a1.activeEscrows == a.activeEscrows + IsActive(e1) - IsActive(e)
    && a1.completedEscrows == a.completedEscrows + IsCompleted(e1) - IsCompleted(e)
    && a1.cancelledEscrows == a.cancelledEscrows + IsCancelled(e1) - IsCancelled(e)
    && a1.disputedEscrows == a.disputedEscrows + EverDisputed(e1) - EverDisputed(e)
    && a1.totalValueLocked == a.totalValueLocked + Locked(e1) - Locked(e)
    && a1.totalPaidOut == a.totalPaidOut + PaidOut(e1) - PaidOut(e)
  }

  /** No milestone is paid by a request that leaves the escrow open. */
  lemma CountersFollowOpen(e: Escrow, a: Analytics, r: Request)
    requires EscrowOk(e) && Allowed(e, r) && IsActive(e) <= a.activeEscrows
    requires r.Submit? || r.Approve? || r.Reject? || r.Dispute? || r.Deposit? || r.Cancel?
    ensures CountersFollow(e, a, After(e, r), Move(e, a, r).1)
  {
  }

  lemma CountersFollowRelease(e: Escrow, a: Analytics, r: Request)
    requires EscrowOk(e) && Allowed(e, r) && r.Release?
    requires IsActive(e) <= a.activeEscrows && Locked(e) <= a.totalValueLocked
    ensures CountersFollow(e, a, After(e, r), Move(e, a, r).1)
  {
    ReleaseAdvances(e, r);
  }

  lemma CountersFollowResolve(e: Escrow, a: Analytics, r: Request)
    requires EscrowOk(e) && Allowed(e, r) && r.Resolve? && Locked(e) <= a.totalValueLocked
    ensures CountersFollow(e, a, After(e, r), Move(e, a, r).1)
  {
    SumFirstIncreases(e.milestones, PaidCount(e.milestones), |e.milestones|);
  }

  lemma CountersFollowMove(e: Escrow, a: Analytics, r: Request)
    requires EscrowOk(e) && Allowed(e, r) && IsActive(e) <= a.activeEscrows && Locked(e) <= a.totalValueLocked
    ensures CountersFollow(e, a, After(e, r), Move(e, a, r).1)
  {
    if r.Release? {
      CountersFollowRelease(e, a, r);
    } else if r.Resolve? {
      CountersFollowResolve(e, a, r);
    } else {
      CountersFollowOpen(e, a, r);
    }
  }

  lemma ClampedAreLarge(s: State, id: int)
    requires Inv(s) && CountersAgree(s) && id in s.escrows
    ensures IsActive(s.escrows[id]) <= s.analytics.activeEscrows
    ensures Locked(s.escrows[id]) <= s.analytics.totalValueLocked
  {
    forall i | i in s.escrows ensures 0 <= Locked(s.escrows[i]) { TermsNotNegative(s.escrows[i]); }
    SumAtLeast(s.escrows, IsActive, s.escrowCount, id);
    SumAtLeast(s.escrows, Locked, s.escrowCount, id);
  }

  lemma CreateKeepsCounters(s: State, r: Request)
    requires Inv(s) && CountersAgree(s) && r.Create? && Error(s, r).None? && Inv(Step(s, r).0)
    ensures CountersAgree(Step(s, r).0)
  {
    var e, n := NewEscrow(s, r), s.escrowCount;
    SumExtend(s.escrows, IsActive, n, e);
    SumExtend(s.escrows, IsCompleted, n, e);
    SumExtend(s.escrows, IsCancelled, n, e);
    SumExtend(s.escrows, EverDisputed, n, e);
    SumExtend(s.escrows, Locked, n, e);
    SumExtend(s.escrows, PaidOut, n, e);
  }

  lemma MoveKeepsCounters(s: State, e1: Escrow, a1: Analytics, id: int)
    requires Inv(s) && CountersAgree(s) && id in s.escrows && EscrowOk(e1)
    requires CountersFollow(s.escrows[id], s.analytics, e1, a1)
    ensures var s1 := s.(escrows := s.escrows[id := e1], analytics := a1); Inv(s1) && CountersAgree(s1)
  {
    var n := s.escrowCount;
    SumUpdate(s.escrows, IsActive, n, id, e1);
    SumUpdate(s.escrows, IsCompleted, n, id, e1);
    SumUpdate(s.escrows, IsCancelled, n, id, e1);
    SumUpdate(s.escrows, EverDisputed, n, id, e1);
    SumUpdate(s.escrows, Locked, n, id, e1);
    SumUpdate(s.escrows, PaidOut, n, id, e1);
  }

  lemma CountersStep(s: State, r: Request)
    requires Inv(s) && CountersAgree(s)
    ensures Inv(Step(s, r).0) && CountersAgree(Step(s, r).0)
  {
    InvStep(s, r);
    if Error(s, r).None? {
      if r.Create? {
        CreateKeepsCounters(s, r);
      } else if AboutEscrow(r) {
        var e := s.escrows[r.id];
        AcceptedIsAllowed(s, r);
        ClampedAreLarge(s, r.id);
        CountersFollowMove(e, s.analytics, r);
        EscrowStaysOk(e, r);
        MoveIgnoresCounters(e, s.analytics, r);
        MoveKeepsCounters(s, After(e, r), Move(e, s.analytics, r).1, r.id);
      }
    }
  }

  lemma {:induction false} CountersRun(s: State, rs: seq<Request>)
    requires Inv(s) && CountersAgree(s)
    ensures Inv(Run(s, rs)) && CountersAgree(Run(s, rs))
    decreases |rs|
  {
    if rs != [] {
      CountersStep(s, rs[0]);
      CountersRun(Step(s, rs[0]).0, rs[1..]);
    }
  }

  /** Main result: in every reachable state each counter is the number, or the sum over the escrows,
      that it stands for; and totalValueLocked + totalPaidOut is the sum of the totals ever funded. */
  lemma AnalyticsAreSums(rs: seq<Request>)
    ensures var s := Run(Initial(), rs);
      && Inv(s) && CountersAgree(s)
      && s.analytics.totalValueLocked + s.analytics.totalPaidOut == Sum(s.escrows, Funded, s.escrowCount)
  {
    CountersRun(Initial(), rs);
    var s := Run(Initial(), rs);
    forall i | i in s.escrows ensures Locked(s.escrows[i]) + PaidOut(s.escrows[i]) == Funded(s.escrows[i]) {
      TermsNotNegative(s.escrows[i]);
    }
    SumPointwise(s.escrows, Locked, PaidOut, Funded, s.escrowCount);
  }

  lemma PaidNotNegative(s: State, id: int)
    requires Inv(s) && id in s.escrows
    ensures 0 <= s.escrows[id].paidAmount
  {
    var ms := s.escrows[id].milestones;
    SumFirstIncreases(ms, PaidCount(ms), |ms|);
  }

  /** Main result: none of the Math.max(0, ...) clamps ever takes effect: what an accepted request subtracts
      is never more than what is there, and the counters change by what the escrow's terms change. */
  lemma ClampsNeverBite(rs: seq<Request>, r: Request)
    requires var s := Run(Initial(), rs); AboutEscrow(r) && Error(s, r).None?
    ensures var s := Run(Initial(), rs);
      r.id in s.escrows
      && var e := s.escrows[r.id];
         && (r.Release? || r.Dispute? ==> 1 <= s.analytics.activeEscrows)
         && (r.Release? ==> e.totalAmount <= s.analytics.totalValueLocked)
         && (r.Resolve? ==> e.totalAmount - e.paidAmount <= s.analytics.totalValueLocked)
    ensures var (s, s1) := (Run(Initial(), rs), Step(Run(Initial(), rs), r).0);
      && (s1.analytics.totalValueLocked - s.analytics.totalValueLocked
          == Locked(s1.escrows[r.id]) - Locked(s.escrows[r.id]))
      && (s1.analytics.activeEscrows - s.analytics.activeEscrows
          == IsActive(s1.escrows[r.id]) - IsActive(s.escrows[r.id]))
  {
    CountersRun(Initial(), rs);
    var s := Run(Initial(), rs);
    AcceptedIsAllowed(s, r);
    ClampedAreLarge(s, r.id);
    CountersFollowMove(s.escrows[r.id], s.analytics, r);
    PaidNotNegative(s, r.id);
    MoveIgnoresCounters(s.escrows[r.id], s.analytics, r);
  }

  // ---- Disputes, seen from the requests ----

  predicate DisputeAccepted(s: State, rs: seq<Request>, id: int)
    decreases |rs|
  {
    rs != [] && ((rs[0].Dispute? && AcceptedOn(s, rs[0], id)) || DisputeAccepted(Step(s, rs[0]).0, rs[1..], id))
  }

  lemma EverDisputedStep(e: Escrow, r: Request)
    requires EscrowOk(e) && Allowed(e, r)
    ensures EscrowOk(After(e, r))
    ensures EverDisputed(After(e, r)) == if r.Dispute? then 1 else EverDisputed(e)
  {
    EscrowStaysOk(e, r);
    if r.Release? { ReleaseAdvances(e, r); }
  }

  /** EverDisputed says what its name says: it holds after a run exactly when it held before or the run
      accepted a dispute of the escrow. */
  lemma {:induction false} EverDisputedExactly(s: State, rs: seq<Request>, id: int)
    requires Inv(s) && id in s.escrows
    ensures id in Run(s, rs).escrows
    ensures EverDisputed(Run(s, rs).escrows[id]) == 1 <==>
            EverDisputed(s.escrows[id]) == 1 || DisputeAccepted(s, rs, id)
    decreases |rs|
  {
    if rs != [] {
      InvStep(s, rs[0]);
      EscrowAfterStep(s, rs[0], id);
      if AcceptedOn(s, rs[0], id) {
        EverDisputedStep(s.escrows[id], rs[0]);
      }
      EverDisputedExactly(Step(s, rs[0]).0, rs[1..], id);
    }
  }

  // ---- What totalValueLocked is not ----

  /** Money a client has put in and nobody has been paid. */
  function Unreleased(e: Escrow): int {
    if e.status in {Active, Disputed} then e.totalAmount - e.paidAmount else 0
  }

  /** Milestones already paid that totalValueLocked still counts. */
  function PaidYetLocked(e: Escrow): int {
    if e.status in {Active, Disputed} || SettledByRuling(e) then SumFirst(e.milestones, PaidCount(e.milestones)) else 0
  }

  /** totalValueLocked exceeds the unreleased money by the paid milestones it still counts, so the two
      are equal exactly when no escrow that is active, disputed or settled by a ruling has a paid one. */
  lemma LockedVersusUnreleased(rs: seq<Request>)
    ensures var s := Run(Initial(), rs);
      && Inv(s)
      && s.analytics.totalValueLocked
         == Sum(s.escrows, Unreleased, s.escrowCount) + Sum(s.escrows, PaidYetLocked, s.escrowCount)
      && (s.analytics.totalValueLocked == Sum(s.escrows, Unreleased, s.escrowCount) <==>
          forall id :: id in s.escrows && (s.escrows[id].status in {Active, Disputed} || SettledByRuling(s.escrows[id]))
            ==> PaidCount(s.escrows[id].milestones) == 0)
  {
    CountersRun(Initial(), rs);
    var s := Run(Initial(), rs);
    forall i | i in s.escrows
      ensures Unreleased(s.escrows[i]) + PaidYetLocked(s.escrows[i]) == Locked(s.escrows[i])
      ensures 0 <= PaidYetLocked(s.escrows[i])
      ensures PaidYetLocked(s.escrows[i]) == 0 <==>
        (s.escrows[i].status in {Active, Disputed} || SettledByRuling(s.escrows[i]) ==>
           PaidCount(s.escrows[i].milestones) == 0)
    {
      var ms := s.escrows[i].milestones;
      SumFirstIncreases(ms, 0, PaidCount(ms));
    }
    SumPointwise(s.escrows, Unreleased, PaidYetLocked, Locked, s.escrowCount);
    SumZero(s.escrows, PaidYetLocked, s.escrowCount);
  }

  /** A service with one escrow of two milestones of 1. */
  function TwoMilestones(paid: int, first: Stage, second: Stage, status: Status, a: Analytics): State {
    State(true, "admin", 200, 1,
          map[1 := Escrow("client", "freelancer", "arbiter", 2, paid,
                          [Milestone(1, first), Milestone(1, second)], status, 200)], a)
  }

  const CREATED := TwoMilestones(0, NotStarted, NotStarted, Pending, Analytics(1, 0, 0, 0, 0, 0, 0))
  const FUNDED := Analytics(1, 1, 0, 0, 0, 2, 0)

  /** Such an escrow, up to the release of its first milestone. */
  function HalfReleased(): seq<Request> {
    [Initialize("admin", None), Create("client", "freelancer", "arbiter", Some(2), [1, 1]), Deposit(1, "client"),
     Submit(1, 1, "freelancer"), Approve(1, 1, "client"), Release(1, 1, "client")]
  }

  lemma EscrowCreated()
    ensures var rs := HalfReleased(); Step(Step(Initial(), rs[0]).0, rs[1]).0 == CREATED
  {
    assert [1, 1][..1] == [1] && SumAll([1, 1]) == 2;
    assert NewMilestones([1, 1]) == [Milestone(1, NotStarted), Milestone(1, NotStarted)];
  }

  /** Two states with one escrow each. */
  lemma OneEscrow(s: State, t: State)
    requires s.escrows.Keys == t.escrows.Keys == {1} && s.(escrows := t.escrows) == t
    requires s.escrows[1].(milestones := t.escrows[1].milestones) == t.escrows[1]
    requires |s.escrows[1].milestones| == |t.escrows[1].milestones| == 2
    requires s.escrows[1].milestones[0] == t.escrows[1].milestones[0]
    requires s.escrows[1].milestones[1] == t.escrows[1].milestones[1]
    ensures s == t
  {
    assert s.escrows[1].milestones == t.escrows[1].milestones;
    assert s.escrows == t.escrows;
  }

  lemma FirstFunded()
    ensures Step(CREATED, Deposit(1, "client")).0 == TwoMilestones(0, InProgress, NotStarted, Active, FUNDED)
  {
    OneEscrow(Step(CREATED, Deposit(1, "client")).0, TwoMilestones(0, InProgress, NotStarted, Active, FUNDED));
  }

  lemma StageMoves(from: Stage, to: Stage, r: Request)
    requires r in {Submit(1, 1, "freelancer"), Approve(1, 1, "client")}
    requires (from, to) == if r.Submit? then (InProgress, UnderReview) else (UnderReview, Approved)
    ensures Step(TwoMilestones(0, from, NotStarted, Active, FUNDED), r).0
         == TwoMilestones(0, to, NotStarted, Active, FUNDED)
  {
    OneEscrow(Step(TwoMilestones(0, from, NotStarted, Active, FUNDED), r).0,
              TwoMilestones(0, to, NotStarted, Active, FUNDED));
  }

  lemma FirstReleased()
    ensures Step(TwoMilestones(0, Approved, NotStarted, Active, FUNDED), Release(1, 1, "client")).0
         == TwoMilestones(1, Paid, InProgress, Active, FUNDED)
  {
    OneEscrow(Step(TwoMilestones(0, Approved, NotStarted, Active, FUNDED), Release(1, 1, "client")).0,
              TwoMilestones(1, Paid, InProgress, Active, FUNDED));
  }

  lemma HalfReleasedRuns()
    ensures Run(Initial(), HalfReleased()) == TwoMilestones(1, Paid, InProgress, Active, FUNDED)
  {
    var rs := HalfReleased();
    EscrowCreated();
    FirstFunded();
    StageMoves(InProgress, UnderReview, rs[3]);
    StageMoves(UnderReview, Approved, rs[4]);
    FirstReleased();
  }

  /** Two units are counted as locked, and one of them has been paid. */
  lemma LockedIsNotUnreleased()
    ensures var s := Run(Initial(), HalfReleased());
      && Inv(s)
      && s.analytics.totalValueLocked == 2 && Sum(s.escrows, Unreleased, s.escrowCount) == 1
  {
    HalfReleasedRuns();
    InvRun(Initial(), HalfReleased());
    var s := Run(Initial(), HalfReleased());
    assert Sum(s.escrows, Unreleased, 0) == 0;
  }
}
