module BountyTheorems {
  import opened Addresses
  import opened Totals
  import opened BountyModel

  /** A report its reporter is still waiting on. */
  predicate Open(r: Report) { r.status in {Pending, UnderReview, Accepted} }

  predicate ReportOk(r: Report) {
    && (if r.status == Accepted then 0 < r.rewardAmount else r.rewardAmount == 0)
    && (if r.status == Paid then 0 < r.paidAmount else r.paidAmount == 0)
    && ValidAddress(r.reporter)
  }

  /** The index is exactly the reporters with an open report, and each has one. */
  ghost predicate IndexAgrees(s: State) {
    && (forall a :: a in s.openReporters <==>
          exists id :: id in s.reports && Open(s.reports[id]) && s.reports[id].reporter == a)
    && (forall i, j | i in s.reports && j in s.reports && i != j && Open(s.reports[i]) && Open(s.reports[j]) ::
          s.reports[i].reporter != s.reports[j].reporter)
  }

  /** Reports have the ids 1, 2, ..., nextId - 1. */
  ghost predicate Numbered(s: State) {
    1 <= s.nextId && Dense(s.reports, s.nextId - 1)
  }

  ghost predicate Inv(s: State) {
    && Numbered(s)
    && (forall id :: id in s.reports ==> ReportOk(s.reports[id]))
    && 0 <= s.poolBalance
    && IndexAgrees(s)
  }

  lemma SubmitKeepsIndex(s: State, r: Request)
    requires Inv(s) && r.Submit? && Error(s, r).None?
    ensures IndexAgrees(Step(s, r).0)
  {
    var s1 := Step(s, r).0;
    forall a
      ensures a in s1.openReporters <==>
        exists id :: id in s1.reports && Open(s1.reports[id]) && s1.reports[id].reporter == a
    {
      if a == r.reporter {
        assert s1.reports[s.nextId].reporter == a && Open(s1.reports[s.nextId]);
      } else if a in s.openReporters {
        var id :| id in s.reports && Open(s.reports[id]) && s.reports[id].reporter == a;
        assert s1.reports[id] == s.reports[id];
      }
    }
  }

  /** A report whose openness does not change leaves the index right. */
  lemma OpenStays(s: State, id: int, report: Report)
    requires Inv(s) && id in s.reports && Open(s.reports[id]) && Open(report)
    requires report.reporter == s.reports[id].reporter
    ensures IndexAgrees(Put(s, id, report))
  {
    var s1 := Put(s, id, report);
    forall a | a in s.openReporters
      ensures exists i :: i in s1.reports && Open(s1.reports[i]) && s1.reports[i].reporter == a
    {
      var i :| i in s.reports && Open(s.reports[i]) && s.reports[i].reporter == a;
      assert Open(s1.reports[i]) && s1.reports[i].reporter == a;
    }
  }

  /** Closing a report and taking its reporter out of the index leaves the index right. */
  lemma Closes(s: State, id: int, report: Report)
    requires Inv(s) && id in s.reports && Open(s.reports[id]) && !Open(report)
    requires report.reporter == s.reports[id].reporter
    ensures IndexAgrees(Put(s, id, report).(openReporters := s.openReporters - {report.reporter}))
  {
    var s1 := Put(s, id, report).(openReporters := s.openReporters - {report.reporter});
    forall a | a in s1.openReporters
      ensures exists i :: i in s1.reports && Open(s1.reports[i]) && s1.reports[i].reporter == a
    {
      var i :| i in s.reports && Open(s.reports[i]) && s.reports[i].reporter == a;
      assert i != id && s1.reports[i] == s.reports[i];
    }
  }

  lemma IndexStep(s: State, r: Request)
    requires Inv(s) && Error(s, r).None?
    ensures IndexAgrees(Step(s, r).0)
  {
    match r
    case Submit(_, _, _, _) => SubmitKeepsIndex(s, r);
    case Review(id, _) => OpenStays(s, id, s.reports[id].(status := UnderReview));
    case Accept(id, _, reward) =>
      OpenStays(s, id, s.reports[id].(status := Accepted, rewardAmount := RewardFor(s, s.reports[id], reward).value));
    case Refuse(id, _) => Closes(s, id, s.reports[id].(status := Refused));
    case Withdraw(id, _) => Closes(s, id, s.reports[id].(status := Withdrawn));
    case Claim(id, _, _) =>
      Closes(s, id, s.reports[id].(status := Paid, paidAmount := s.reports[id].rewardAmount, rewardAmount := 0));
    case _ =>
  }

  /** An accepted request about a report changes no other report. */
  lemma OtherReportsUnchanged(s: State, r: Request)
    requires Inv(s) && AboutReport(r) && Error(s, r).None?
    ensures var s1 := Step(s, r).0;
      1 <= r.id <= s.nextId - 1 && s1.nextId == s.nextId && r.id in s1.reports
      && s1.reports == s.reports[r.id := s1.reports[r.id]]
  {
  }

  function FundingIn(reply: Reply): int { if reply.Funded? then reply.amount else 0 }

  function PayoutIn(reply: Reply): int { if reply.Claimed? then reply.payout else 0 }

  function Funding(replies: seq<Reply>): int {
    if replies == [] then 0 else FundingIn(replies[0]) + Funding(replies[1..])
  }

  /** What an accepted request moves between the pool, the report's reward and its payment. */
  lemma ReportMoney(s: State, r: Request)
    requires Inv(s) && AboutReport(r) && Error(s, r).None? && r.id in Step(s, r).0.reports
    ensures var s1, before, after, reply := Step(s, r).0, s.reports[r.id], Step(s, r).0.reports[r.id], Step(s, r).1;
      && ReportOk(after) && 0 <= s1.poolBalance
      && s1.poolBalance + after.rewardAmount + after.paidAmount
         == s.poolBalance + before.rewardAmount + before.paidAmount
      && after.paidAmount == before.paidAmount + PayoutIn(reply) && FundingIn(reply) == 0
  {
  }

  lemma InvStep(s: State, r: Request)
    requires Inv(s)
    ensures Inv(Step(s, r).0)
  {
    if Error(s, r).None? {
      IndexStep(s, r);
      if AboutReport(r) {
        OtherReportsUnchanged(s, r);
        ReportMoney(s, r);
      }
    }
  }

  lemma {:induction false} InvRun(s: State, rs: seq<Request>)
    requires Inv(s)
    ensures Inv(Run(s, rs))
    decreases |rs|
  {
    if rs != [] {
      InvStep(s, rs[0]);
      InvRun(Step(s, rs[0]).0, rs[1..]);
    }
  }

  /** Main result: in every reachable state openReporters is exactly the set of reporters with a Pending,
      UnderReview or Accepted report, no reporter has two, and the pool is not overdrawn. */
  lemma IndexIsExact(rs: seq<Request>)
    ensures var s := Run(Initial(), rs); IndexAgrees(s) && 0 <= s.poolBalance
  {
    InvRun(Initial(), rs);
  }

  /** A well-formed submission to a programme that is not paused is accepted exactly when the reporter
      has no open report. */
  lemma SubmissionAcceptedExactly(rs: seq<Request>, r: Request)
    requires r.Submit? && ValidAddress(r.reporter) && r.title.Some? && r.hash.Some? && r.severity.Some?
    requires !Run(Initial(), rs).paused
    ensures var s := Run(Initial(), rs);
      Step(s, r).1.Submitted? <==>
      forall id :: id in s.reports && s.reports[id].reporter == r.reporter ==> !Open(s.reports[id])
  {
    InvRun(Initial(), rs);
  }

  // ---- Conservation ----

  function Reserved(r: Report): int { r.rewardAmount }

  function PaidTo(r: Report): int { r.paidAmount }

  /** The pool, the rewards reserved from it and the rewards paid. */
  ghost function Accounted(s: State): int
    requires Numbered(s)
  {
    s.poolBalance + Sum(s.reports, Reserved, s.nextId - 1) + Sum(s.reports, PaidTo, s.nextId - 1)
  }

  function Payouts(replies: seq<Reply>): int {
    if replies == [] then 0 else PayoutIn(replies[0]) + Payouts(replies[1..])
  }

  /** What s and s1 account for differs by what one reply reports. */
  ghost predicate AccountsFollow(s: State, s1: State, funding: int, payout: int) {
    && Numbered(s) && Numbered(s1)
    && Accounted(s1) == Accounted(s) + funding
    && Sum(s1.reports, PaidTo, s1.nextId - 1) == Sum(s.reports, PaidTo, s.nextId - 1) + payout
  }

  lemma OneReportAccounted(s: State, s1: State, id: int, report: Report)
    requires Numbered(s) && Numbered(s1) && s1.nextId == s.nextId
    requires id in s.reports && s1.reports == s.reports[id := report]
    requires s1.poolBalance + report.rewardAmount + report.paidAmount
          == s.poolBalance + s.reports[id].rewardAmount + s.reports[id].paidAmount
    ensures AccountsFollow(s, s1, 0, report.paidAmount - s.reports[id].paidAmount)
  {
    SumUpdate(s.reports, Reserved, s.nextId - 1, id, report);
    SumUpdate(s.reports, PaidTo, s.nextId - 1, id, report);
  }

  lemma NewReportAccounted(s: State, s1: State, report: Report)
    requires Numbered(s) && Numbered(s1) && s1.nextId == s.nextId + 1 && s1.reports == s.reports[s.nextId := report]
    requires s1.poolBalance == s.poolBalance && report.rewardAmount == report.paidAmount == 0
    ensures AccountsFollow(s, s1, 0, 0)
  {
    SumExtend(s.reports, Reserved, s.nextId - 1, report);
    SumExtend(s.reports, PaidTo, s.nextId - 1, report);
  }

  lemma AccountedStep(s: State, r: Request)
    requires Inv(s)
    ensures AccountsFollow(s, Step(s, r).0, FundingIn(Step(s, r).1), PayoutIn(Step(s, r).1))
  {
    InvStep(s, r);
    if Error(s, r).None? {
      var s1 := Step(s, r).0;
      if AboutReport(r) {
        OtherReportsUnchanged(s, r);
        ReportMoney(s, r);
        OneReportAccounted(s, s1, r.id, s1.reports[r.id]);
      } else if r.Submit? {
        NewReportAccounted(s, s1, NewReport(r));
      }
    }
  }

  lemma AccountsCompose(s: State, s1: State, s2: State, f1: int, p1: int, f2: int, p2: int)
    requires AccountsFollow(s, s1, f1, p1) && AccountsFollow(s1, s2, f2, p2)
    ensures AccountsFollow(s, s2, f1 + f2, p1 + p2)
  {
  }

  lemma {:induction false} AccountedRun(s: State, rs: seq<Request>)
    requires Inv(s)
    ensures Inv(Run(s, rs)) && AccountsFollow(s, Run(s, rs), Funding(Replies(s, rs)), Payouts(Replies(s, rs)))
    decreases |rs|
  {
    if rs != [] {
      var (s1, reply) := Step(s, rs[0]);
      var later := Replies(s1, rs[1..]);
      InvStep(s, rs[0]);
      AccountedStep(s, rs[0]);
      AccountedRun(s1, rs[1..]);
      assert Replies(s, rs) == [reply] + later && Replies(s, rs)[1..] == later;
      AccountsCompose(s, s1, Run(s, rs), FundingIn(reply), PayoutIn(reply), Funding(later), Payouts(later));
    }
  }

  /** Main result: over every run the pool, the reserved rewards and the paid rewards add up to all
      funding, and the paid rewards are the payouts the claims reported. */
  lemma FundsConserved(rs: seq<Request>)
    ensures var (s, replies) := (Run(Initial(), rs), Replies(Initial(), rs));
      && Inv(s) && 0 <= s.poolBalance
      && Accounted(s) == Funding(replies)
      && Sum(s.reports, PaidTo, s.nextId - 1) == Payouts(replies)
  {
    AccountedRun(Initial(), rs);
  }

  /** An accepted report can be claimed whatever the pool holds and whether or not the programme is
      paused; the claim pays the reserved reward once and lets the reporter submit again. */
  lemma AcceptedIsClaimable(rs: seq<Request>, id: int, token: string)
    requires var s := Run(Initial(), rs); id in s.reports && s.reports[id].status == Accepted
    requires ValidAddress(token)
    ensures var s := Run(Initial(), rs); var r := s.reports[id];
      var claim := Claim(id, r.reporter, token);
      var (s1, reply) := Step(s, claim);
      && reply == Claimed(r.rewardAmount) && 0 < r.rewardAmount && s1.poolBalance == s.poolBalance
      && Step(s1, claim).1 == Rejected(409)
      && r.reporter !in s1.openReporters
  {
    InvRun(Initial(), rs);
  }
}
