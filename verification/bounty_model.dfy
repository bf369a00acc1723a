/** The bug bounty programme of backend/src/routes/bugBounty.js as values: one function per route. */
module BountyModel {
  import opened Wrappers
  import opened Addresses

  datatype Severity = Low | Medium | High | Critical

  datatype Status = Pending | UnderReview | Accepted | Refused | Paid | Withdrawn

  datatype Report = Report(
    reporter: string, title: string, descriptionHash: string, severity: Severity,
    status: Status, rewardAmount: int, paidAmount: int)

  datatype State = State(
    reports: map<int, Report>, nextId: int, poolBalance: int, rewardTiers: map<Severity, int>,
    paused: bool, openReporters: set<string>)

  function Initial(): State {
    State(map[], 1, 0, map[Low := 10_000_000, Medium := 50_000_000, High := 200_000_000, Critical := 1_000_000_000],
          false, {})
  }

  /** The reward of an acceptance: the tier of the report's severity, or a number sent with the request. */
  datatype Reward = Tier | Given(amount: Option<int>)

  /** Texts arrive sanitised and numbers through parseInt: None is what sanitizeString or parseInt
      turn away. */
  datatype Request =
    | Submit(reporter: string, title: Option<string>, hash: Option<string>, severity: Option<Severity>)
    | Review(id: int, admin: string)
    | Accept(id: int, admin: string, reward: Reward)
    | Refuse(id: int, admin: string)
    | Withdraw(id: int, reporter: string)
    | Claim(id: int, reporter: string, token: string)
    | Fund(funder: string, token: string, amount: Option<int>)
    | SetRewards(admin: string, tiers: Option<seq<(Option<Severity>, Option<int>)>>)
    | SetPaused(admin: string, paused: Option<bool>)

  datatype Reply =
    | Rejected(status: int)
    | Submitted(id: int)
    | Updated
    | Claimed(payout: int)
    | Funded(amount: int)

  function RewardFor(s: State, r: Report, reward: Reward): Option<int> {
    match reward
    case Given(amount) => amount
    case Tier => if r.severity in s.rewardTiers then Some(s.rewardTiers[r.severity]) else None
  }

  predicate Undecided(r: Report) { r.status in {Pending, UnderReview} }

  function AcceptError(s: State, r: Report, reward: Reward): Option<int> {
    if !Undecided(r) then Some(409)
    else if s.paused then Some(503)
    else if !Positive(RewardFor(s, r, reward)) then Some(400)
    else if s.poolBalance < RewardFor(s, r, reward).value then Some(402)
    else None
  }

  predicate ValidTiers(tiers: seq<(Option<Severity>, Option<int>)>) {
    forall i :: 0 <= i < |tiers| ==> tiers[i].0.Some? && Positive(tiers[i].1)
  }

  function Error(s: State, r: Request): Option<int> {
    match r
    case Submit(reporter, title, hash, severity) =>
      if s.paused then Some(503)
      else if !ValidAddress(reporter) || title.None? || hash.None? || severity.None? then Some(400)
      else if reporter in s.openReporters then Some(409)
      else None
    case Review(id, admin) =>
      if !ValidAddress(admin) then Some(400)
      else if id !in s.reports then Some(404)
      else if s.reports[id].status != Pending then Some(409)
      else if s.paused then Some(503)
      else None
    case Accept(id, admin, reward) =>
      if !ValidAddress(admin) then Some(400)
      else if id !in s.reports then Some(404)
      else AcceptError(s, s.reports[id], reward)
    case Refuse(id, admin) =>
      if !ValidAddress(admin) then Some(400)
      else if id !in s.reports then Some(404)
      else if !Undecided(s.reports[id]) then Some(409)
      else None
    case Withdraw(id, reporter) =>
      if !ValidAddress(reporter) then Some(400)
      else if id !in s.reports then Some(404)
      else if s.reports[id].reporter != reporter then Some(403)
      else if s.reports[id].status != Pending then Some(409)
      else None
    case Claim(id, reporter, token) =>
      if !ValidAddress(reporter) || !ValidAddress(token) then Some(400)
      else if id !in s.reports then Some(404)
      else if s.reports[id].reporter != reporter then Some(403)
      else if s.reports[id].status != Accepted || s.reports[id].rewardAmount <= 0 then Some(409)
      else None
    case Fund(funder, token, amount) =>
      if s.paused then Some(503)
      else if !ValidAddress(funder) || !ValidAddress(token) || !Positive(amount) then Some(400)
      else None
    case SetRewards(admin, tiers) =>
      if !ValidAddress(admin) || tiers.None? || !ValidTiers(tiers.value) then Some(400) else None
    case SetPaused(admin, paused) =>
      if !ValidAddress(admin) || paused.None? then Some(400) else None
  }

  function Retiered(tiersBefore: map<Severity, int>, tiers: seq<(Option<Severity>, Option<int>)>): map<Severity, int>
    requires ValidTiers(tiers)
  {
    if tiers == [] then tiersBefore
    else Retiered(tiersBefore, tiers[..|tiers| - 1])[tiers[|tiers| - 1].0.value := tiers[|tiers| - 1].1.value]
  }

  predicate AboutReport(r: Request) { r.Review? || r.Accept? || r.Refuse? || r.Withdraw? || r.Claim? }

  function NewReport(r: Request): Report
    requires r.Submit? && r.title.Some? && r.hash.Some? && r.severity.Some?
  {
    Report(r.reporter, r.title.value, r.hash.value, r.severity.value, Pending, 0, 0)
  }

  function Put(s: State, id: int, report: Report): State {
    s.(reports := s.reports[id := report])
  }

  function Apply(s: State, r: Request): (State, Reply)
    requires Error(s, r).None?
  {
    match r
    case Submit(reporter, _, _, _) =>
      (Put(s, s.nextId, NewReport(r)).(nextId := s.nextId + 1, openReporters := s.openReporters + {reporter}),
       Submitted(s.nextId))
    case Review(id, _) => (Put(s, id, s.reports[id].(status := UnderReview)), Updated)
    case Accept(id, _, reward) =>
      var amount := RewardFor(s, s.reports[id], reward).value;
      (Put(s, id, s.reports[id].(status := Accepted, rewardAmount := amount)).(poolBalance := s.poolBalance - amount),
       Updated)
    case Refuse(id, _) =>
      (Put(s, id, s.reports[id].(status := Refused)).(
         openReporters := s.openReporters - {s.reports[id].reporter}),
       Updated)
    case Withdraw(id, reporter) =>
      (Put(s, id, s.reports[id].(status := Withdrawn)).(openReporters := s.openReporters - {reporter}), Updated)
    case Claim(id, reporter, _) =>
      var payout := s.reports[id].rewardAmount;
      (Put(s, id, s.reports[id].(status := Paid, paidAmount := payout, rewardAmount := 0)).(
         openReporters := s.openReporters - {reporter}),
       Claimed(payout))
    case Fund(_, _, amount) => (s.(poolBalance := s.poolBalance + amount.value), Funded(amount.value))
    case SetRewards(_, tiers) => (s.(rewardTiers := Retiered(s.rewardTiers, tiers.value)), Updated)
    case SetPaused(_, paused) => (s.(paused := paused.value), Updated)
  }

  /** One request: rejected without effect, or applied. */
  function Step(s: State, r: Request): (State, Reply) {
    if Error(s, r).Some? then (s, Rejected(Error(s, r).value)) else Apply(s, r)
  }

  function Run(s: State, rs: seq<Request>): State
    decreases |rs|
  {
    if rs == [] then s else Run(Step(s, rs[0]).0, rs[1..])
  }

  function Replies(s: State, rs: seq<Request>): seq<Reply>
    decreases |rs|
  {
    if rs == [] then [] else [Step(s, rs[0]).1] + Replies(Step(s, rs[0]).0, rs[1..])
  }
}
