/** The milestone escrow of backend/src/routes/escrow.js as values: one function per route. Amounts and
    fees are integers. */
module EscrowModel {
  import opened Wrappers
  import opened BasisPoints

  datatype Status = Pending | Active | Disputed | Completed | Cancelled

  datatype Stage = NotStarted | InProgress | UnderReview | Approved | Paid

  datatype Milestone = Milestone(amount: int, stage: Stage)

  datatype Escrow = Escrow(
    client: string, freelancer: string, arbiter: string, totalAmount: int, paidAmount: int,
    milestones: seq<Milestone>, status: Status, feeBps: int)

  datatype Analytics = Analytics(
    totalEscrows: int, activeEscrows: int, completedEscrows: int, disputedEscrows: int,
    cancelledEscrows: int, totalValueLocked: int, totalPaidOut: int)

  datatype State = State(
    initialized: bool, admin: string, arbiterFeeBps: int, escrowCount: nat,
    escrows: map<int, Escrow>, analytics: Analytics)

  const MAX_MILESTONES := 20

  function Initial(): State {
    State(false, "", 200, 0, map[], Analytics(0, 0, 0, 0, 0, 0, 0))
  }

  /** Milestones are numbered from 1. A total that is not a number is None; an id or milestone number
      that does not parse is one that does not exist; a missing caller is the empty string. */
  datatype Request =
    | Initialize(admin: string, bps: Option<int>)
    | Create(client: string, freelancer: string, arbiter: string, totalAmount: Option<int>, amounts: seq<int>)
    | Deposit(id: int, caller: string)
    | Submit(id: int, milestone: int, caller: string)
    | Approve(id: int, milestone: int, caller: string)
    | Reject(id: int, milestone: int, caller: string)
    | Release(id: int, milestone: int, caller: string)
    | Dispute(id: int, caller: string)
    | Resolve(id: int, caller: string, ruling: int)
    | Cancel(id: int, caller: string)

  datatype Reply =
    | Rejected(status: int)
    | Initialized
    | Created(id: int)
    | Moved
    | Released(net: int, fee: int)
    | Resolved(freelancerPayout: int, clientRefund: int, fee: int)

  function SumAll(amounts: seq<int>): int {
    if amounts == [] then 0 else SumAll(amounts[..|amounts| - 1]) + amounts[|amounts| - 1]
  }

  function CreateError(s: State, r: Request): Option<int>
    requires r.Create?
  {
    if !s.initialized then Some(400)
    else if r.client == "" || r.freelancer == "" || r.arbiter == "" then Some(400)
    else if r.totalAmount.None? || r.totalAmount.value <= 0 then Some(400)
    else if r.amounts == [] || MAX_MILESTONES < |r.amounts| then Some(400)
    else if exists i :: 0 <= i < |r.amounts| && r.amounts[i] <= 0 then Some(400)
    else if SumAll(r.amounts) != r.totalAmount.value then Some(400)
    else None
  }

  datatype Role = Client | Freelancer | Arbiter | Party

  /** Who may act in a role; either party may raise a dispute. */
  function Callers(e: Escrow, role: Role): set<string> {
    match role
    case Client => {e.client}
    case Freelancer => {e.freelancer}
    case Arbiter => {e.arbiter}
    case Party => {e.client, e.freelancer}
  }

  /** The checks every request about an existing escrow makes, given who may call and the status it needs. */
  function EscrowError(s: State, id: int, role: Role, caller: string, status: Status): Option<int> {
    if id !in s.escrows then Some(404)
    else if caller !in Callers(s.escrows[id], role) then Some(403)
    else if s.escrows[id].status != status then Some(400)
    else None
  }

  function MilestoneError(s: State, id: int, role: Role, caller: string, m: int, stage: Stage): Option<int> {
    if EscrowError(s, id, role, caller, Active).Some? then EscrowError(s, id, role, caller, Active)
    else if !(1 <= m <= |s.escrows[id].milestones|) then Some(404)
    else if s.escrows[id].milestones[m - 1].stage != stage then Some(400)
    else None
  }

  function Error(s: State, r: Request): Option<int> {
    match r
    case Initialize(admin, bps) =>
      if s.initialized then Some(409)
      else if admin == "" || (bps.Some? && !(0 <= bps.value <= 10000)) then Some(400)
      else None
    case Create(_, _, _, _, _) => CreateError(s, r)
    case Deposit(id, caller) =>
      if !s.initialized then Some(400) else EscrowError(s, id, Client, caller, Pending)
    case Submit(id, m, caller) => MilestoneError(s, id, Freelancer, caller, m, InProgress)
    case Approve(id, m, caller) => MilestoneError(s, id, Client, caller, m, UnderReview)
    case Reject(id, m, caller) => MilestoneError(s, id, Client, caller, m, UnderReview)
    case Release(id, m, caller) => MilestoneError(s, id, Client, caller, m, Approved)
    case Dispute(id, caller) => EscrowError(s, id, Party, caller, Active)
    case Resolve(id, caller, ruling) =>
      if EscrowError(s, id, Arbiter, caller, Disputed).Some? then EscrowError(s, id, Arbiter, caller, Disputed)
      else if !(0 <= ruling <= 2) then Some(400)
      else None
    case Cancel(id, caller) => EscrowError(s, id, Client, caller, Pending)
  }

  function NewMilestones(amounts: seq<int>): seq<Milestone> {
    seq(|amounts|, i requires 0 <= i < |amounts| => Milestone(amounts[i], NotStarted))
  }

  function NewEscrow(s: State, r: Request): Escrow
    requires r.Create? && r.totalAmount.Some?
  {
    Escrow(r.client, r.freelancer, r.arbiter, r.totalAmount.value, 0, NewMilestones(r.amounts),
           Pending, s.arbiterFeeBps)
  }

  /** Milestone number m enters a stage. */
  function SetStage(e: Escrow, m: int, stage: Stage): Escrow
    requires 1 <= m <= |e.milestones|
  {
    e.(milestones := e.milestones[m - 1 := e.milestones[m - 1].(stage := stage)])
  }

  /** Math.max(0, a - b). */
  function Minus(a: int, b: int): int {
    if a - b < 0 then 0 else a - b
  }

  /** The escrow and the counters after a payment has been released. */
  function AfterRelease(e: Escrow, a: Analytics, m: int): (Escrow, Analytics)
    requires 1 <= m <= |e.milestones|
  {
    var e1 := SetStage(e, m, Paid).(paidAmount := e.paidAmount + e.milestones[m - 1].amount);
    var e2 := if m < |e.milestones| && e.milestones[m].stage == NotStarted then SetStage(e1, m + 1, InProgress) else e1;
    if e2.totalAmount <= e2.paidAmount then
      (e2.(status := Completed),
       a.(activeEscrows := Minus(a.activeEscrows, 1), completedEscrows := a.completedEscrows + 1,
          totalValueLocked := Minus(a.totalValueLocked, e.totalAmount), totalPaidOut := a.totalPaidOut + e.totalAmount))
    else (e2, a)
  }

  function Ruling(e: Escrow, ruling: int): Reply {
    var remaining := e.totalAmount - e.paidAmount;
    var fee := FloorBps(remaining, e.feeBps);
    var net := remaining - fee;
    if ruling == 0 then Resolved(net, 0, fee)
    else if ruling == 1 then Resolved(0, remaining, fee)
    else Resolved(net / 2, remaining - fee - net / 2, fee)
  }

  function AfterResolve(e: Escrow, a: Analytics): (Escrow, Analytics) {
    var remaining := e.totalAmount - e.paidAmount;
    (e.(paidAmount := e.totalAmount, status := Completed),
     a.(completedEscrows := a.completedEscrows + 1,
        totalValueLocked := Minus(a.totalValueLocked, remaining), totalPaidOut := a.totalPaidOut + remaining))
  }

  predicate AboutEscrow(r: Request) { !r.Initialize? && !r.Create? }

  /** What an accepted request does to its escrow and to the counters, and its reply. */
  function Move(e: Escrow, a: Analytics, r: Request): (Escrow, Analytics, Reply)
    requires AboutEscrow(r)
    requires r.Submit? || r.Approve? || r.Reject? || r.Release? ==> 1 <= r.milestone <= |e.milestones|
  {
    match r
    case Deposit(_, _) =>
      var e1 := e.(status := Active);
      (if e.milestones != [] then SetStage(e1, 1, InProgress) else e1,
       a.(activeEscrows := a.activeEscrows + 1, totalValueLocked := a.totalValueLocked + e.totalAmount), Moved)
    case Submit(_, m, _) => (SetStage(e, m, UnderReview), a, Moved)
    case Approve(_, m, _) => (SetStage(e, m, Approved), a, Moved)
    case Reject(_, m, _) => (SetStage(e, m, InProgress), a, Moved)
    case Release(_, m, _) =>
      var fee := FloorBps(e.milestones[m - 1].amount, e.feeBps);
      var (e1, a1) := AfterRelease(e, a, m);
      (e1, a1, Released(e.milestones[m - 1].amount - fee, fee))
    case Dispute(_, _) =>
      (e.(status := Disputed),
       a.(disputedEscrows := a.disputedEscrows + 1, activeEscrows := Minus(a.activeEscrows, 1)), Moved)
    case Resolve(_, _, ruling) =>
      var (e1, a1) := AfterResolve(e, a);
      (e1, a1, Ruling(e, ruling))
    case Cancel(_, _) =>
      (e.(status := Cancelled), a.(cancelledEscrows := a.cancelledEscrows + 1), Moved)
  }

  function Apply(s: State, r: Request): (State, Reply)
    requires Error(s, r).None?
  {
    match r
    case Initialize(admin, bps) =>
      (s.(initialized := true, admin := admin, arbiterFeeBps := if bps.Some? then bps.value else 200), Initialized)
    case Create(_, _, _, _, _) =>
      var id := s.escrowCount + 1;
      (s.(escrowCount := id, escrows := s.escrows[id := NewEscrow(s, r)],
          analytics := s.analytics.(totalEscrows := s.analytics.totalEscrows + 1)),
       Created(id))
    case _ =>
      var (e, a, reply) := Move(s.escrows[r.id], s.analytics, r);
      (s.(escrows := s.escrows[r.id := e], analytics := a), reply)
  }

  /** One request: rejected without effect, or applied. */
  function Step(s: State, r: Request): (State, Reply) {
    if Error(s, r).Some? then (s, Rejected(Error(s, r).value)) else Apply(s, r)
  }

  function Run(s: State, rs: seq<Request>): State
    decreases |rs|
  {
    if rs == [] then s else Run(Step(s, rs[0]).0, rs[1..])
  }
}
