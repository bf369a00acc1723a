/** The programme itself: report objects updated in place and the index of open reporters. Each method is
    one route; its reply and its whole effect are those of BountyModel.Step. */
module BugBounty {
  import opened Wrappers
  import opened Addresses
  import M = BountyModel

  class Report {
    const reporter: string
    const title: string
    const descriptionHash: string
    const severity: M.Severity
    var status: M.Status
    var rewardAmount: int
    var paidAmount: int

    ghost function View(): M.Report
      reads this
    {
      M.Report(reporter, title, descriptionHash, severity, status, rewardAmount, paidAmount)
    }

    constructor (reporter: string, title: string, descriptionHash: string, severity: M.Severity)
      ensures View() == M.Report(reporter, title, descriptionHash, severity, M.Pending, 0, 0)
    {
      this.reporter, this.title, this.descriptionHash, this.severity := reporter, title, descriptionHash, severity;
      status, rewardAmount, paidAmount := M.Pending, 0, 0;
    }
  }

  class Programme {
    var reports: map<int, Report>
    var nextId: int
    var poolBalance: int
    var rewardTiers: map<M.Severity, int>
    var paused: bool
    var openReporters: set<string>

    ghost function Model(): M.State
      reads this, reports.Values
    {
      M.State(map id | id in reports :: reports[id].View(), nextId, poolBalance, rewardTiers, paused, openReporters)
    }

    /** No two ids share a report object. */
    ghost predicate Valid()
      reads this
    {
      forall i, j :: i in reports && j in reports && reports[i] == reports[j] ==> i == j
    }

    /** Writing to one report object changes the view of its id only. */
    twostate lemma OneReportWritten(id: int)
      requires old(Valid()) && reports == old(reports) && id in reports
      requires forall r: Report :: r in old(reports.Values) && r != reports[id] ==> unchanged(r)
      ensures Model().reports == old(Model()).reports[id := reports[id].View()]
    {
      forall i | i in reports && i != id
        ensures reports[i].View() == old(reports[i].View())
      {
        assert reports[i] in reports.Values && reports[i] != reports[id];
        assert unchanged(reports[i]);
      }
    }

    twostate lemma NoReportWritten()
      requires reports == old(reports)
      requires forall r: Report :: r in old(reports.Values) ==> unchanged(r)
      ensures Model().reports == old(Model()).reports
    {
      forall i | i in reports
        ensures reports[i].View() == old(reports[i].View())
      {
        assert reports[i] in reports.Values;
        assert unchanged(reports[i]);
      }
    }

    constructor ()
      ensures Valid() && Model() == M.Initial() && reports == map[]
    {
      reports, nextId, poolBalance, paused, openReporters := map[], 1, 0, false, {};
      rewardTiers := map[M.Low := 10_000_000, M.Medium := 50_000_000,
                         M.High := 200_000_000, M.Critical := 1_000_000_000];
    }

    method Submit(reporter: string, title: Option<string>, hash: Option<string>, severity: Option<M.Severity>)
      returns (reply: M.Reply)
      requires Valid()
      modifies this
      ensures Valid() && fresh(reports.Values - old(reports.Values))
      ensures (Model(), reply) == M.Step(old(Model()), M.Submit(reporter, title, hash, severity))
    {
      if paused { return M.Rejected(503); }
      if !ValidAddress(reporter) || title.None? || hash.None? || severity.None? { return M.Rejected(400); }
      if reporter in openReporters { return M.Rejected(409); }
      var id := nextId;
      nextId := nextId + 1;
      var report := new Report(reporter, title.value, hash.value, severity.value);
      reports := reports[id := report];
      openReporters := openReporters + {reporter};
      assert Model().reports == old(Model()).reports[id := report.View()];
      return M.Submitted(id);
    }

    method Review(id: int, adminAddress: string) returns (reply: M.Reply)
      requires Valid()
      modifies reports.Values
      ensures Valid()
      ensures (Model(), reply) == M.Step(old(Model()), M.Review(id, adminAddress))
    {
      if !ValidAddress(adminAddress) { return M.Rejected(400); }
      if id !in reports { return M.Rejected(404); }
      var report := reports[id];
      if report.status != M.Pending { return M.Rejected(409); }
      if paused { return M.Rejected(503); }
      report.status := M.UnderReview;
      OneReportWritten(id);
      return M.Updated;
    }

    method Accept(id: int, adminAddress: string, reward: M.Reward) returns (reply: M.Reply)
      requires Valid()
      modifies this`poolBalance, reports.Values
      ensures Valid()
      ensures (Model(), reply) == M.Step(old(Model()), M.Accept(id, adminAddress, reward))
    {
      if !ValidAddress(adminAddress) { return M.Rejected(400); }
      if id !in reports { return M.Rejected(404); }
      var report := reports[id];
      if report.status != M.Pending && report.status != M.UnderReview { return M.Rejected(409); }
      if paused { return M.Rejected(503); }
      var rewardAmount: Option<int> := match reward
        case Given(amount) => amount
        case Tier => if report.severity in rewardTiers then Some(rewardTiers[report.severity]) else None;
      if rewardAmount.None? || rewardAmount.value <= 0 { return M.Rejected(400); }
      if poolBalance < rewardAmount.value { return M.Rejected(402); }
      poolBalance := poolBalance - rewardAmount.value;
      report.status := M.Accepted;
      report.rewardAmount := rewardAmount.value;
      OneReportWritten(id);
      return M.Updated;
    }

    method Refuse(id: int, adminAddress: string) returns (reply: M.Reply)
      requires Valid()
      modifies this`openReporters, reports.Values
      ensures Valid()
      ensures (Model(), reply) == M.Step(old(Model()), M.Refuse(id, adminAddress))
    {
      if !ValidAddress(adminAddress) { return M.Rejected(400); }
      if id !in reports { return M.Rejected(404); }
      var report := reports[id];
      if report.status != M.Pending && report.status != M.UnderReview { return M.Rejected(409); }
      report.status := M.Refused;
      openReporters := openReporters - {report.reporter};
      OneReportWritten(id);
      return M.Updated;
    }

    method Withdraw(id: int, reporter: string) returns (reply: M.Reply)
      requires Valid()
      modifies this`openReporters, reports.Values
      ensures Valid()
      ensures (Model(), reply) == M.Step(old(Model()), M.Withdraw(id, reporter))
    {
      if !ValidAddress(reporter) { return M.Rejected(400); }
      if id !in reports { return M.Rejected(404); }
      var report := reports[id];
      if report.reporter != reporter { return M.Rejected(403); }
      if report.status != M.Pending { return M.Rejected(409); }
      report.status := M.Withdrawn;
      openReporters := openReporters - {reporter};
      OneReportWritten(id);
      return M.Updated;
    }

    method Claim(id: int, reporter: string, tokenAddress: string) returns (reply: M.Reply)
      requires Valid()
      modifies this`openReporters, reports.Values
      ensures Valid()
      ensures (Model(), reply) == M.Step(old(Model()), M.Claim(id, reporter, tokenAddress))
    {
      if !ValidAddress(reporter) { return M.Rejected(400); }
      if !ValidAddress(tokenAddress) { return M.Rejected(400); }
      if id !in reports { return M.Rejected(404); }
      var report := reports[id];
      if report.reporter != reporter { return M.Rejected(403); }
      if report.status != M.Accepted { return M.Rejected(409); }
      if report.rewardAmount <= 0 { return M.Rejected(409); }
      var payout := report.rewardAmount;
      report.paidAmount := payout;
      report.rewardAmount := 0;
      report.status := M.Paid;
      openReporters := openReporters - {reporter};
      OneReportWritten(id);
      return M.Claimed(payout);
    }

    method Fund(funder: string, tokenAddress: string, amount: Option<int>) returns (reply: M.Reply)
      requires Valid()
      modifies this`poolBalance
      ensures Valid()
      ensures (Model(), reply) == M.Step(old(Model()), M.Fund(funder, tokenAddress, amount))
    {
      if paused { return M.Rejected(503); }
      if !ValidAddress(funder) || !ValidAddress(tokenAddress) { return M.Rejected(400); }
      if amount.None? || amount.value <= 0 { return M.Rejected(400); }
      poolBalance := poolBalance + amount.value;
      NoReportWritten();
      return M.Funded(amount.value);
    }

    /** Every entry is checked before any tier changes. */
    method SetRewards(adminAddress: string, tiers: Option<seq<(Option<M.Severity>, Option<int>)>>)
      returns (reply: M.Reply)
      requires Valid()
      modifies this`rewardTiers
      ensures Valid()
      ensures (Model(), reply) == M.Step(old(Model()), M.SetRewards(adminAddress, tiers))
    {
      if !ValidAddress(adminAddress) || tiers.None? { return M.Rejected(400); }
      var updated := rewardTiers;
      var entries := tiers.value;
      for i := 0 to |entries|
        invariant M.ValidTiers(entries[..i])
        invariant updated == M.Retiered(rewardTiers, entries[..i])
      {
        if entries[i].0.None? || entries[i].1.None? || entries[i].1.value <= 0 { return M.Rejected(400); }
        assert entries[..i + 1][..i] == entries[..i];
        updated := updated[entries[i].0.value := entries[i].1.value];
      }
      assert entries[..|entries|] == entries;
      rewardTiers := updated;
      NoReportWritten();
      return M.Updated;
    }

    method SetPaused(adminAddress: string, flag: Option<bool>) returns (reply: M.Reply)
      requires Valid()
      modifies this`paused
      ensures Valid()
      ensures (Model(), reply) == M.Step(old(Model()), M.SetPaused(adminAddress, flag))
    {
      if !ValidAddress(adminAddress) { return M.Rejected(400); }
      if flag.None? { return M.Rejected(400); }
      paused := flag.value;
      NoReportWritten();
      return M.Updated;
    }
  }
}
