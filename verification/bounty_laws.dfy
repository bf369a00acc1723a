/** Which requests the bounty programme accepts, and what each of them changes. */
module BountyLaws {
  import opened Wrappers
  import opened Addresses
  import opened BountyModel
  import opened BountyTheorems

  predicate Accepted(s: State, r: Request) {
    !Step(s, r).1.Rejected?
  }

  // ---- Rewards ----

  /** Every severity has a tier. */
  predicate Tiered(s: State) {
    forall severity: Severity :: severity in s.rewardTiers
  }

  /** What an acceptance would reserve: the number that was sent, or the tier of the report's severity. */
  function Asked(s: State, r: Request): Option<int>
    requires r.Accept? && r.id in s.reports && Tiered(s)
  {
    if r.reward.Given? then r.reward.amount else Some(s.rewardTiers[s.reports[r.id].severity])
  }

  type Entry = (Option<Severity>, Option<int>)

  /** Entry i is the last one for its severity. */
  predicate IsLast(tiers: seq<Entry>, i: nat, severity: Severity)
    requires i < |tiers|
  {
    tiers[i].0 == Some(severity) && forall j :: i < j < |tiers| ==> tiers[j].0 != Some(severity)
  }

  /** The tier of a severity is the amount of the last entry for it, and what it was if there is none. */
  predicate TierFrom(before: int, tiers: seq<Entry>, severity: Severity, after: int) {
    && (forall i :: 0 <= i < |tiers| && IsLast(tiers, i, severity) ==> tiers[i].1 == Some(after))
    && ((forall i :: 0 <= i < |tiers| ==> tiers[i].0 != Some(severity)) ==> after == before)
  }

  lemma TierFromMore(before: int, front: seq<Entry>, last: Entry, severity: Severity, after: int)
    requires TierFrom(before, front, severity, after) && last.0.Some? && last.1.Some?
    ensures TierFrom(before, front + [last], severity, if last.0 == Some(severity) then last.1.value else after)
  {
    var tiers := front + [last];
    assert tiers[|front|] == last;
    forall i | 0 <= i < |tiers| && IsLast(tiers, i, severity)
      ensures tiers[i].1 == if last.0 == Some(severity) then last.1 else Some(after)
    {
      if i < |front| {
        assert IsLast(front, i, severity) by {
          assert forall j :: i < j < |front| ==> tiers[j] == front[j];
        }
      }
    }
    assert forall i :: 0 <= i < |front| ==> tiers[i] == front[i];
  }

  lemma {:induction false} RetieredTo(tiersBefore: map<Severity, int>, tiers: seq<Entry>, severity: Severity)
    requires ValidTiers(tiers) && severity in tiersBefore
    ensures severity in Retiered(tiersBefore, tiers)
    ensures TierFrom(tiersBefore[severity], tiers, severity, Retiered(tiersBefore, tiers)[severity])
    decreases |tiers|
  {
    if tiers != [] {
      var front, last := tiers[..|tiers| - 1], tiers[|tiers| - 1];
      RetieredTo(tiersBefore, front, severity);
      TierFromMore(tiersBefore[severity], front, last, severity, Retiered(tiersBefore, front)[severity]);
      assert tiers == front + [last];
    }
  }

  lemma TieredStep(s: State, r: Request)
    requires Tiered(s)
    ensures Tiered(Step(s, r).0)
  {
    if r.SetRewards? && Accepted(s, r) {
      forall severity: Severity ensures severity in Step(s, r).0.rewardTiers {
        RetieredTo(s.rewardTiers, r.tiers.value, severity);
      }
    }
  }

  lemma {:induction false} TieredRun(s: State, rs: seq<Request>)
    requires Tiered(s)
    ensures Tiered(Run(s, rs))
    decreases |rs|
  {
    if rs != [] {
      TieredStep(s, rs[0]);
      TieredRun(Step(s, rs[0]).0, rs[1..]);
    }
  }

  /** A programme starts with no reports and no funds, not paused, and with these tiers. */
  lemma InitialTiers()
    ensures Tiered(Initial())
    ensures var s := Initial();
      s.reports == map[] && s.openReporters == {} && s.nextId == 1 && s.poolBalance == 0 && !s.paused
    ensures var tiers := Initial().rewardTiers;
      tiers[Low] == 10_000_000 && tiers[Medium] == 50_000_000 && tiers[High] == 200_000_000
      && tiers[Critical] == 1_000_000_000
  {
    forall severity: Severity ensures severity in Initial().rewardTiers {
      match severity
      case Low =>
      case Medium =>
      case High =>
      case Critical =>
    }
  }

  // ---- What is accepted ----

  /** A report with one of these statuses. */
  predicate Has(s: State, id: int, statuses: set<Status>) {
    id in s.reports && s.reports[id].status in statuses
  }

  /** Main result: each kind of request is accepted exactly in the situation it is for. */
  lemma AcceptedExactly(s: State, r: Request)
    requires Inv(s) && Tiered(s)
    ensures Accepted(s, r) <==>
      match r
      case Submit(reporter, title, hash, severity) =>
        !s.paused && ValidAddress(reporter) && title.Some? && hash.Some? && severity.Some?
        && reporter !in s.openReporters
      case Review(id, admin) => !s.paused && ValidAddress(admin) && Has(s, id, {Pending})
      case Accept(id, admin, reward) =>
        !s.paused && ValidAddress(admin) && Has(s, id, {Pending, UnderReview})
        && Asked(s, r).Some? && 1 <= Asked(s, r).value <= s.poolBalance
      case Refuse(id, admin) => ValidAddress(admin) && Has(s, id, {Pending, UnderReview})
      case Withdraw(id, reporter) => Has(s, id, {Pending}) && s.reports[id].reporter == reporter
      case Claim(id, reporter, token) =>
        ValidAddress(token) && Has(s, id, {BountyModel.Accepted}) && s.reports[id].reporter == reporter
      case Fund(funder, token, amount) =>
        !s.paused && ValidAddress(funder) && ValidAddress(token) && amount.Some? && 1 <= amount.value
      case SetRewards(admin, tiers) =>
        ValidAddress(admin) && tiers.Some?
        && forall entry <- tiers.value :: entry.0.Some? && entry.1.Some? && 1 <= entry.1.value
      case SetPaused(admin, paused) => ValidAddress(admin) && paused.Some?
  {
    if r.SetRewards? && r.tiers.Some? {
      assert ValidTiers(r.tiers.value) <==> forall entry <- r.tiers.value :: entry.0.Some? && Positive(entry.1);
      assert forall i :: 0 <= i < |r.tiers.value| ==> r.tiers.value[i] in r.tiers.value;
    }
  }

  /** What is wrong with a request whatever reports there are. */
  predicate Malformed(r: Request) {
    match r
    case Submit(reporter, title, hash, severity) =>
      !ValidAddress(reporter) || title.None? || hash.None? || severity.None?
    case Review(_, admin) => !ValidAddress(admin)
    case Accept(_, admin, _) => !ValidAddress(admin)
    case Refuse(_, admin) => !ValidAddress(admin)
    case Withdraw(_, reporter) => !ValidAddress(reporter)
    case Claim(_, reporter, token) => !ValidAddress(reporter) || !ValidAddress(token)
    case _ => true
  }

  /** The status a request about a report needs. */
  function Needed(r: Request): set<Status>
    requires AboutReport(r)
  {
    match r
    case Review(_, _) => {Pending}
    case Withdraw(_, _) => {Pending}
    case Claim(_, _, _) => {BountyModel.Accepted}
    case _ => {Pending, UnderReview}
  }

  /** A rejection says the first of these that applies. Submissions and funding ask first whether the
      programme is paused, reviews and acceptances only once the report is known to be undecided. */
  lemma RejectionSays(s: State, r: Request)
    requires Inv(s) && Tiered(s) && !Accepted(s, r)
    ensures Step(s, r) == (s, Rejected(
      if (r.Submit? || r.Fund?) && s.paused then 503
      else if Malformed(r) then 400
      else if r.Submit? then 409
      else if r.id !in s.reports then 404
      else if (r.Withdraw? || r.Claim?) && s.reports[r.id].reporter != r.reporter then 403
      else if s.reports[r.id].status !in Needed(r) then 409
      else if s.paused then 503
      else if Asked(s, r).None? || Asked(s, r).value < 1 then 400
      else 402))
  {
    AcceptedExactly(s, r);
  }

  // ---- What is changed ----

  predicate SameFinding(r: Report, r1: Report) {
    && r1.reporter == r.reporter && r1.title == r.title && r1.descriptionHash == r.descriptionHash
    && r1.severity == r.severity
  }

  /** A new report has a new id and what was submitted, and waits. */
  lemma Submission(s: State, r: Request)
    requires Inv(s) && r.Submit? && Accepted(s, r)
    ensures var s1, id := Step(s, r).0, Step(s, r).1.id;
      && Step(s, r).1.Submitted? && id !in s.reports && s1.reports.Keys == s.reports.Keys + {id}
      && (forall other <- s.reports :: s1.reports[other] == s.reports[other])
      && s1.poolBalance == s.poolBalance && s1.rewardTiers == s.rewardTiers && s1.paused == s.paused
      && var n := s1.reports[id];
         && n.reporter == r.reporter && Some(n.title) == r.title && Some(n.descriptionHash) == r.hash
         && Some(n.severity) == r.severity && n.status == Pending && n.rewardAmount == 0 && n.paidAmount == 0
  {
  }

  function StatusAfter(r: Request): Status
    requires AboutReport(r)
  {
    match r
    case Review(_, _) => UnderReview
    case Accept(_, _, _) => BountyModel.Accepted
    case Refuse(_, _) => Refused
    case Withdraw(_, _) => Withdrawn
    case Claim(_, _, _) => Paid
  }

  /** Main result: an accepted request about a report gives it the status it is for. An acceptance reserves what
      was asked for from the pool, and a claim pays what was reserved; no other report changes. */
  lemma ReportMoves(s: State, r: Request)
    requires Inv(s) && Tiered(s) && AboutReport(r) && Accepted(s, r)
    ensures r.id in s.reports && Step(s, r).0.reports.Keys == s.reports.Keys
    ensures var s1, before, after := Step(s, r).0, s.reports[r.id], Step(s, r).0.reports[r.id];
      && SameFinding(before, after) && after.status == StatusAfter(r)
      && (forall other <- s.reports :: other != r.id ==> s1.reports[other] == s.reports[other])
      && s1.rewardTiers == s.rewardTiers && s1.paused == s.paused && s1.nextId == s.nextId
      && Some(after.rewardAmount) ==
         (if r.Accept? then Asked(s, r) else Some(if r.Claim? then 0 else before.rewardAmount))
      && s1.poolBalance == s.poolBalance - (if r.Accept? then after.rewardAmount else 0)
      && after.paidAmount == (if r.Claim? then before.rewardAmount else before.paidAmount)
      && Step(s, r).1 == if r.Claim? then Claimed(before.rewardAmount) else Updated
  {
  }

  /** Funding adds to the pool, and pausing sets the flag; nothing else changes. */
  lemma ProgrammeChanges(s: State, r: Request)
    requires Accepted(s, r)
    ensures r.Fund? ==> Step(s, r) == (s.(poolBalance := s.poolBalance + r.amount.value), Funded(r.amount.value))
    ensures r.SetPaused? ==> Step(s, r) == (s.(paused := r.paused.value), Updated)
  {
  }

  /** New tiers replace those of the severities they name, the last entry counting, and nothing else changes. */
  lemma TiersChange(s: State, r: Request, severity: Severity)
    requires Tiered(s) && r.SetRewards? && Accepted(s, r)
    ensures var s1 := Step(s, r).0;
      && Tiered(s1) && s1 == s.(rewardTiers := s1.rewardTiers)
      && TierFrom(s.rewardTiers[severity], r.tiers.value, severity, s1.rewardTiers[severity])
  {
    TieredStep(s, r);
    RetieredTo(s.rewardTiers, r.tiers.value, severity);
  }

  /** Every state of every run is one that these results speak of. */
  lemma Reachable(rs: seq<Request>)
    ensures Inv(Run(Initial(), rs)) && Tiered(Run(Initial(), rs))
  {
    InvRun(Initial(), rs);
    InitialTiers();
    TieredRun(Initial(), rs);
  }
}
