/** The escrow service itself: escrow objects whose fields and milestones the routes update in place,
    and the counters. Each method is one route; its reply and its whole effect are those of
    EscrowModel.Step. */
module EscrowService {
  import opened Wrappers
  import opened BasisPoints
  import M = EscrowModel

  class Escrow {
    const client: string
    const freelancer: string
    const arbiter: string
    const totalAmount: int
    var paidAmount: int
    var milestones: seq<M.Milestone>
    var status: M.Status
    const feeBps: int

    ghost function View(): M.Escrow
      reads this
    {
      M.Escrow(client, freelancer, arbiter, totalAmount, paidAmount, milestones, status, feeBps)
    }

    constructor (client: string, freelancer: string, arbiter: string, totalAmount: int,
                 milestones: seq<M.Milestone>, feeBps: int)
      ensures View() == M.Escrow(client, freelancer, arbiter, totalAmount, 0, milestones, M.Pending, feeBps)
    {
      this.client, this.freelancer, this.arbiter := client, freelancer, arbiter;
      this.totalAmount, this.milestones, this.feeBps := totalAmount, milestones, feeBps;
      paidAmount, status := 0, M.Pending;
    }

    /** milestone.status = stage, for milestone number m. */
    method SetStage(m: int, stage: M.Stage)
      requires 1 <= m <= |milestones|
      modifies this`milestones
      ensures View() == M.SetStage(old(View()), m, stage)
    {
      milestones := milestones[m - 1 := milestones[m - 1].(stage := stage)];
    }

    /** The escrow's part of a release: the milestone is paid, the next one starts, and the escrow is
        completed if it is fully paid. */
    method PayMilestone(m: int, ghost a: M.Analytics)
      requires 1 <= m <= |milestones|
      modifies this
      ensures View() == M.AfterRelease(old(View()), a, m).0
    {
      paidAmount := paidAmount + milestones[m - 1].amount;
      SetStage(m, M.Paid);
      if m < |milestones| && milestones[m].stage == M.NotStarted {
        SetStage(m + 1, M.InProgress);
      }
      if paidAmount >= totalAmount {
        status := M.Completed;
      }
    }

    /** How a ruling shares out what remains. */
    method Shares(ruling: int) returns (reply: M.Reply)
      ensures reply == M.Ruling(View(), ruling)
    {
      var remaining := totalAmount - paidAmount;
      var fee := FloorBps(remaining, feeBps);
      var net := remaining - fee;
      var freelancerPayout, clientRefund;
      if ruling == 0 {
        freelancerPayout, clientRefund := net, 0;
      } else if ruling == 1 {
        freelancerPayout, clientRefund := 0, remaining;
      } else {
        freelancerPayout := net / 2;
        clientRefund := remaining - fee - freelancerPayout;
      }
      return M.Resolved(freelancerPayout, clientRefund, fee);
    }

    /** The checks of a route on one escrow, in order; None when the request may go ahead. */
    method Check(role: M.Role, caller: string, needed: M.Status) returns (error: Option<int>)
      ensures error == if caller !in M.Callers(View(), role) then Some(403)
                       else if status != needed then Some(400) else None
    {
      var callers := match role
        case Client => {client}
        case Freelancer => {freelancer}
        case Arbiter => {arbiter}
        case Party => {client, freelancer};
      if caller !in callers { return Some(403); }
      if status != needed { return Some(400); }
      return None;
    }
  }

  class Service {
    var initialized: bool
    var admin: string
    var arbiterFeeBps: int
    var escrowCount: nat
    var escrows: map<int, Escrow>
    var analytics: M.Analytics

    ghost function Model(): M.State
      reads this, escrows.Values
    {
      M.State(initialized, admin, arbiterFeeBps, escrowCount,
              map id | id in escrows :: escrows[id].View(), analytics)
    }

    /** No two ids share an escrow object. */
    ghost predicate Valid()
      reads this
    {
      forall i, j :: i in escrows && j in escrows && escrows[i] == escrows[j] ==> i == j
    }

    /** Writing to one escrow object changes the view of its id only. */
    twostate lemma OneEscrowWritten(id: int)
      requires old(Valid()) && escrows == old(escrows) && id in escrows
      requires forall e: Escrow :: e in old(escrows.Values) && e != escrows[id] ==> unchanged(e)
      ensures Model().escrows == old(Model()).escrows[id := escrows[id].View()]
    {
      forall i | i in escrows && i != id
        ensures escrows[i].View() == old(escrows[i].View())
      {
        assert escrows[i] in escrows.Values && escrows[i] != escrows[id];
        assert unchanged(escrows[i]);
      }
    }

    constructor ()
      ensures Valid() && Model() == M.Initial() && escrows == map[]
    {
      initialized, admin, arbiterFeeBps, escrowCount := false, "", 200, 0;
      escrows, analytics := map[], M.Analytics(0, 0, 0, 0, 0, 0, 0);
    }

    method Initialize(newAdmin: string, bps: Option<int>) returns (reply: M.Reply)
      requires Valid()
      modifies this
      ensures Valid() && escrows == old(escrows)
      ensures (Model(), reply) == M.Step(old(Model()), M.Initialize(newAdmin, bps))
    {
      if initialized { return M.Rejected(409); }
      if newAdmin == "" { return M.Rejected(400); }
      var fee := if bps.Some? then bps.value else 200;
      if fee < 0 || fee > 10000 { return M.Rejected(400); }
      initialized := true;
      admin := newAdmin;
      arbiterFeeBps := fee;
      assert Model().escrows == old(Model()).escrows by {
        assert forall id :: id in escrows ==> unchanged(escrows[id]);
      }
      return M.Initialized;
    }

    /** The checks a new escrow passes, in order; None when it may go ahead. */
    method CheckCreate(client: string, freelancer: string, arbiter: string,
                       totalAmount: Option<int>, amounts: seq<int>) returns (error: Option<int>)
      ensures error == M.Error(Model(), M.Create(client, freelancer, arbiter, totalAmount, amounts))
    {
      if !initialized { return Some(400); }
      if client == "" || freelancer == "" || arbiter == "" { return Some(400); }
      if totalAmount.None? || totalAmount.value <= 0 { return Some(400); }
      if |amounts| == 0 || |amounts| > M.MAX_MILESTONES { return Some(400); }
      var sum := 0;
      for i := 0 to |amounts|
        invariant forall j :: 0 <= j < i ==> 0 < amounts[j]
        invariant sum == M.SumAll(amounts[..i])
      {
        if amounts[i] <= 0 { return Some(400); }
        assert amounts[..i + 1][..i] == amounts[..i];
        sum := sum + amounts[i];
      }
      assert amounts[..|amounts|] == amounts;
      if sum != totalAmount.value { return Some(400); }
      return None;
    }

    method NewMilestones(amounts: seq<int>) returns (milestones: seq<M.Milestone>)
      ensures milestones == M.NewMilestones(amounts)
    {
      milestones := [];
      for idx := 0 to |amounts|
        invariant milestones == M.NewMilestones(amounts)[..idx]
      {
        milestones := milestones + [M.Milestone(amounts[idx], M.NotStarted)];
      }
    }

    method Create(client: string, freelancer: string, arbiter: string,
                  totalAmount: Option<int>, amounts: seq<int>) returns (reply: M.Reply)
      requires Valid()
      modifies this
      ensures Valid() && fresh(escrows.Values - old(escrows.Values))
      ensures (Model(), reply) == M.Step(old(Model()), M.Create(client, freelancer, arbiter, totalAmount, amounts))
    {
      var error := CheckCreate(client, freelancer, arbiter, totalAmount, amounts);
      if error.Some? { return M.Rejected(error.value); }
      escrowCount := escrowCount + 1;
      var id := escrowCount;
      var milestones := NewMilestones(amounts);
      var escrow := new Escrow(client, freelancer, arbiter, totalAmount.value, milestones, arbiterFeeBps);
      escrows := escrows[id := escrow];
      analytics := analytics.(totalEscrows := analytics.totalEscrows + 1);
      assert Model().escrows == old(Model()).escrows[id := escrow.View()];
      return M.Created(id);
    }

    /** The checks of the routes on one escrow, in order; None when the request may go ahead. */
    method CheckEscrow(id: int, role: M.Role, caller: string, needed: M.Status) returns (error: Option<int>)
      ensures error == M.EscrowError(Model(), id, role, caller, needed)
    {
      if id !in escrows { return Some(404); }
      error := escrows[id].Check(role, caller, needed);
    }

    /** The checks of the four milestone routes, in order. */
    method CheckMilestone(id: int, role: M.Role, caller: string, m: int, needed: M.Stage) returns (error: Option<int>)
      ensures error == M.MilestoneError(Model(), id, role, caller, m, needed)
    {
      error := CheckEscrow(id, role, caller, M.Active);
      if error.Some? { return; }
      var milestones := escrows[id].milestones;
      if m < 1 || |milestones| < m { return Some(404); }
      if milestones[m - 1].stage != needed { return Some(400); }
      return None;
    }

    method Deposit(id: int, caller: string) returns (reply: M.Reply)
      requires Valid()
      modifies this, escrows.Values
      ensures Valid() && escrows == old(escrows)
      ensures (Model(), reply) == M.Step(old(Model()), M.Deposit(id, caller))
    {
      if !initialized { return M.Rejected(400); }
      var error := CheckEscrow(id, M.Client, caller, M.Pending);
      if error.Some? { return M.Rejected(error.value); }
      var escrow := escrows[id];
      escrow.status := M.Active;
      if |escrow.milestones| > 0 {
        escrow.SetStage(1, M.InProgress);
      }
      analytics := analytics.(activeEscrows := analytics.activeEscrows + 1,
                              totalValueLocked := analytics.totalValueLocked + escrow.totalAmount);
      OneEscrowWritten(id);
      return M.Moved;
    }

    method Submit(id: int, m: int, caller: string) returns (reply: M.Reply)
      requires Valid()
      modifies escrows.Values
      ensures Valid()
      ensures (Model(), reply) == M.Step(old(Model()), M.Submit(id, m, caller))
    {
      var error := CheckMilestone(id, M.Freelancer, caller, m, M.InProgress);
      if error.Some? { return M.Rejected(error.value); }
      escrows[id].SetStage(m, M.UnderReview);
      OneEscrowWritten(id);
      return M.Moved;
    }

    method Approve(id: int, m: int, caller: string) returns (reply: M.Reply)
      requires Valid()
      modifies escrows.Values
      ensures Valid()
      ensures (Model(), reply) == M.Step(old(Model()), M.Approve(id, m, caller))
    {
      var error := CheckMilestone(id, M.Client, caller, m, M.UnderReview);
      if error.Some? { return M.Rejected(error.value); }
      escrows[id].SetStage(m, M.Approved);
      OneEscrowWritten(id);
      return M.Moved;
    }

    method Reject(id: int, m: int, caller: string) returns (reply: M.Reply)
      requires Valid()
      modifies escrows.Values
      ensures Valid()
      ensures (Model(), reply) == M.Step(old(Model()), M.Reject(id, m, caller))
    {
      var error := CheckMilestone(id, M.Client, caller, m, M.UnderReview);
      if error.Some? { return M.Rejected(error.value); }
      escrows[id].SetStage(m, M.InProgress);
      OneEscrowWritten(id);
      return M.Moved;
    }

    method Release(id: int, m: int, caller: string) returns (reply: M.Reply)
      requires Valid()
      modifies this, escrows.Values
      ensures Valid() && escrows == old(escrows)
      ensures (Model(), reply) == M.Step(old(Model()), M.Release(id, m, caller))
    {
      var error := CheckMilestone(id, M.Client, caller, m, M.Approved);
      if error.Some? { return M.Rejected(error.value); }
      var escrow := escrows[id];
      var amount := escrow.milestones[m - 1].amount;
      var fee := FloorBps(amount, escrow.feeBps);
      escrow.PayMilestone(m, analytics);
      if escrow.paidAmount >= escrow.totalAmount {
        analytics := analytics.(
          activeEscrows := M.Minus(analytics.activeEscrows, 1),
          completedEscrows := analytics.completedEscrows + 1,
          totalValueLocked := M.Minus(analytics.totalValueLocked, escrow.totalAmount),
          totalPaidOut := analytics.totalPaidOut + escrow.totalAmount);
      }
      OneEscrowWritten(id);
      return M.Released(amount - fee, fee);
    }

    method Dispute(id: int, caller: string) returns (reply: M.Reply)
      requires Valid()
      modifies this, escrows.Values
      ensures Valid() && escrows == old(escrows)
      ensures (Model(), reply) == M.Step(old(Model()), M.Dispute(id, caller))
    {
      var error := CheckEscrow(id, M.Party, caller, M.Active);
      if error.Some? { return M.Rejected(error.value); }
      escrows[id].status := M.Disputed;
      analytics := analytics.(disputedEscrows := analytics.disputedEscrows + 1,
                              activeEscrows := M.Minus(analytics.activeEscrows, 1));
      OneEscrowWritten(id);
      return M.Moved;
    }

    method Resolve(id: int, caller: string, ruling: int) returns (reply: M.Reply)
      requires Valid()
      modifies this, escrows.Values
      ensures Valid() && escrows == old(escrows)
      ensures (Model(), reply) == M.Step(old(Model()), M.Resolve(id, caller, ruling))
    {
      var error := CheckEscrow(id, M.Arbiter, caller, M.Disputed);
      if error.Some? { return M.Rejected(error.value); }
      if ruling < 0 || 2 < ruling { return M.Rejected(400); }
      var escrow := escrows[id];
      var remaining := escrow.totalAmount - escrow.paidAmount;
      reply := escrow.Shares(ruling);
      escrow.paidAmount := escrow.totalAmount;
      escrow.status := M.Completed;
      analytics := analytics.(
        completedEscrows := analytics.completedEscrows + 1,
        totalValueLocked := M.Minus(analytics.totalValueLocked, remaining),
        totalPaidOut := analytics.totalPaidOut + remaining);
      OneEscrowWritten(id);
    }

    method Cancel(id: int, caller: string) returns (reply: M.Reply)
      requires Valid()
      modifies this, escrows.Values
      ensures Valid() && escrows == old(escrows)
      ensures (Model(), reply) == M.Step(old(Model()), M.Cancel(id, caller))
    {
      var error := CheckEscrow(id, M.Client, caller, M.Pending);
      if error.Some? { return M.Rejected(error.value); }
      escrows[id].status := M.Cancelled;
      analytics := analytics.(cancelledEscrows := analytics.cancelledEscrows + 1);
      OneEscrowWritten(id);
      return M.Moved;
    }
  }
}
