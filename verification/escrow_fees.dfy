/** What releases and rulings pay. */
module EscrowFees {
  import opened BasisPoints
  import opened EscrowModel
  import opened EscrowFrontier

  /** The sum of the floored fees of the first k milestones. */
  function FeesFirst(ms: seq<Milestone>, bps: int, k: nat): int
    requires k <= |ms|
  {
    if k == 0 then 0 else FeesFirst(ms, bps, k - 1) + FloorBps(ms[k - 1].amount, bps)
  }

  lemma {:induction false} FeesFirstSame(a: seq<Milestone>, b: seq<Milestone>, bps: int, k: nat)
    requires SameAmounts(a, b) && k <= |a|
    ensures FeesFirst(a, bps, k) == FeesFirst(b, bps, k)
  {
    if k != 0 {
      FeesFirstSame(a, b, bps, k - 1);
    }
  }

  /** Flooring parts loses less than one unit for each part. */
  lemma {:induction false} FeesNearTotal(ms: seq<Milestone>, bps: int, k: nat)
    requires 1 <= k <= |ms|
    ensures FloorBps(SumFirst(ms, k), bps) - (k - 1) <= FeesFirst(ms, bps, k) <= FloorBps(SumFirst(ms, k), bps)
  {
    if k == 1 {
      assert SumFirst(ms, 1) == ms[0].amount && FeesFirst(ms, bps, 1) == FloorBps(ms[0].amount, bps) by {
        assert SumFirst(ms, 0) == 0 && FeesFirst(ms, bps, 0) == 0;
      }
    } else {
      FeesNearTotal(ms, bps, k - 1);
    }
  }

  /** The fees, and the net payouts, that the replies to releases on one escrow report. */
  function ReportedFees(s: State, rs: seq<Request>, id: int): int
    decreases |rs|
  {
    if rs == [] then 0
    else (if AcceptedOn(s, rs[0], id) && rs[0].Release? then Step(s, rs[0]).1.fee else 0)
         + ReportedFees(Step(s, rs[0]).0, rs[1..], id)
  }

  function ReportedNet(s: State, rs: seq<Request>, id: int): int
    decreases |rs|
  {
    if rs == [] then 0
    else (if AcceptedOn(s, rs[0], id) && rs[0].Release? then Step(s, rs[0]).1.net else 0)
         + ReportedNet(Step(s, rs[0]).0, rs[1..], id)
  }

  function FeesOfPaid(e: Escrow): int {
    FeesFirst(e.milestones, e.feeBps, PaidCount(e.milestones))
  }

  function SumOfPaid(e: Escrow): int {
    SumFirst(e.milestones, PaidCount(e.milestones))
  }

  /** What a request does to the paid prefix and the fees on it, given what its reply reports. */
  predicate FeesFollow(e: Escrow, e1: Escrow, net: int, fee: int) {
    && SameAmounts(e.milestones, e1.milestones) && e1.feeBps == e.feeBps
    && FeesOfPaid(e1) == FeesOfPaid(e) + fee
    && SumOfPaid(e1) == SumOfPaid(e) + net + fee
  }

  lemma SamePrefixSameFees(e: Escrow, e1: Escrow)
    requires SameAmounts(e.milestones, e1.milestones) && e1.feeBps == e.feeBps
    requires PaidCount(e1.milestones) == PaidCount(e.milestones)
    ensures FeesFollow(e, e1, 0, 0)
  {
    FeesFirstSame(e.milestones, e1.milestones, e.feeBps, PaidCount(e.milestones));
    SumFirstSame(e.milestones, e1.milestones, PaidCount(e.milestones));
  }

  lemma ReleaseFees(e: Escrow, a: Analytics, r: Request)
    requires EscrowOk(e) && Allowed(e, r) && r.Release?
    ensures var reply := Move(e, a, r).2; FeesFollow(e, After(e, r), reply.net, reply.fee)
  {
    var e1, k := After(e, r), PaidCount(e.milestones);
    MovesAtFrontier(e, r);
    ReleaseAdvances(e, r);
    FeesFirstSame(e.milestones, e1.milestones, e.feeBps, k + 1);
    SumFirstSame(e.milestones, e1.milestones, k + 1);
  }

  lemma StageFees(e: Escrow, r: Request)
    requires EscrowOk(e) && Allowed(e, r) && (r.Submit? || r.Approve? || r.Reject?)
    ensures FeesFollow(e, After(e, r), 0, 0)
  {
    StageChanges(e, r);
    SamePrefixSameFees(e, After(e, r));
  }

  lemma DepositFees(e: Escrow, r: Request)
    requires EscrowOk(e) && Allowed(e, r) && r.Deposit?
    ensures FeesFollow(e, After(e, r), 0, 0)
  {
    FirstStarts(e, r);
    SamePrefixSameFees(e, After(e, r));
  }

  /** A release reports the fee of the milestone it moves into the paid prefix; nothing else moves one. */
  lemma FeesStep(e: Escrow, a: Analytics, r: Request)
    requires EscrowOk(e) && Allowed(e, r)
    ensures EscrowOk(After(e, r))
    ensures var reply := Move(e, a, r).2;
      if r.Release? then FeesFollow(e, After(e, r), reply.net, reply.fee) else FeesFollow(e, After(e, r), 0, 0)
  {
    EscrowStaysOk(e, r);
    if r.Release? {
      ReleaseFees(e, a, r);
    } else if r.Deposit? {
      DepositFees(e, r);
    } else if r.Submit? || r.Approve? || r.Reject? {
      StageFees(e, r);
    } else {
      SamePrefixSameFees(e, After(e, r));
    }
  }

  lemma {:induction false} FeesRun(s: State, rs: seq<Request>, id: int)
    requires Inv(s) && id in s.escrows
    ensures id in Run(s, rs).escrows && EscrowOk(Run(s, rs).escrows[id])
    ensures var e, e1 := s.escrows[id], Run(s, rs).escrows[id];
      && SameAmounts(e.milestones, e1.milestones) && e1.feeBps == e.feeBps
      && ReportedFees(s, rs, id) == FeesOfPaid(e1) - FeesOfPaid(e)
      && ReportedNet(s, rs, id) + ReportedFees(s, rs, id) == SumOfPaid(e1) - SumOfPaid(e)
    decreases |rs|
  {
    if rs != [] {
      InvStep(s, rs[0]);
      EscrowAfterStep(s, rs[0], id);
      if AcceptedOn(s, rs[0], id) {
        FeesStep(s.escrows[id], s.analytics, rs[0]);
      }
      FeesRun(Step(s, rs[0]).0, rs[1..], id);
    }
  }

  /** Main result: when every milestone of an escrow has been released, the fees the replies reported
      are at most the fee on the total and less than it by at most n - 1; with the net payouts they
      are the total. */
  lemma ReleasedEscrowFees(before: seq<Request>, create: Request, after: seq<Request>)
    requires create.Create? && Step(Run(Initial(), before), create).1.Created?
    requires var (s, reply) := Step(Run(Initial(), before), create);
      reply.id in Run(s, after).escrows
      && PaidCount(Run(s, after).escrows[reply.id].milestones) == |Run(s, after).escrows[reply.id].milestones|
    ensures var (s, reply) := Step(Run(Initial(), before), create);
      var total, n, fees := create.totalAmount.value, |create.amounts|, ReportedFees(s, after, reply.id);
      && FloorBps(total, s.arbiterFeeBps) - (n - 1) <= fees <= FloorBps(total, s.arbiterFeeBps)
      && ReportedNet(s, after, reply.id) + fees == total
  {
    InvRun(Initial(), before);
    InvStep(Run(Initial(), before), create);
    var (s, reply) := Step(Run(Initial(), before), create);
    FeesRun(s, after, reply.id);
    var e, e1 := s.escrows[reply.id], Run(s, after).escrows[reply.id];
    FeesNearTotal(e1.milestones, e1.feeBps, |e1.milestones|);
    SumFirstSame(e.milestones, e1.milestones, |e.milestones|);
  }

  /** Main result: a ruling shares out exactly what remained: all but the fee when the freelancer wins
      or the money is split, all of it when the client wins; the shares of a split differ by at most 1;
      nothing is negative. */
  lemma RulingShares(rs: seq<Request>, r: Request)
    requires r.Resolve? && Step(Run(Initial(), rs), r).1.Resolved?
    ensures var s, reply := Run(Initial(), rs), Step(Run(Initial(), rs), r).1;
      r.id in s.escrows
      && var e := s.escrows[r.id];
      var remaining := e.totalAmount - e.paidAmount;
      && remaining == e.totalAmount - SumOfPaid(e) && 0 < remaining
      && reply.fee == FloorBps(remaining, e.feeBps) && 0 <= reply.fee <= remaining
      && 0 <= reply.freelancerPayout && 0 <= reply.clientRefund
      && reply.freelancerPayout + reply.clientRefund == (if r.ruling == 1 then remaining else remaining - reply.fee)
      && (r.ruling == 0 ==> reply.clientRefund == 0)
      && (r.ruling == 1 ==> reply.freelancerPayout == 0)
      && (r.ruling == 2 ==> 0 <= reply.clientRefund - reply.freelancerPayout <= 1)
  {
    InvRun(Initial(), rs);
    var e := Run(Initial(), rs).escrows[r.id];
    SumFirstIncreases(e.milestones, PaidCount(e.milestones), |e.milestones|);
    FloorBpsShare(e.totalAmount - e.paidAmount, e.feeBps);
  }
}
