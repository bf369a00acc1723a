/** The circuit breaker of backend/src/middleware/circuitBreaker.js as values:
    one function per method, and the system of a breaker with its calls in flight. */
module BreakerModel {
  import opened Sequences

  datatype Circuit = Closed | Open | HalfOpen

  /** The failure rate threshold is the rational rateNum / rateDen. */
  datatype Config = Config(
    failureThreshold: nat, rateNum: nat, rateDen: nat, resetTimeoutMs: nat,
    halfOpenMaxRequests: nat, successThreshold: nat)

  /** The constructor replaces a zero option by its default, so every parameter is positive. */
  predicate ValidConfig(c: Config) {
    && 0 < c.failureThreshold && 0 < c.rateNum && 0 < c.rateDen && 0 < c.resetTimeoutMs
    && 0 < c.halfOpenMaxRequests && 0 < c.successThreshold
  }

  datatype Breaker = Breaker(
    state: Circuit, failureCount: nat, successCount: nat, totalRequests: nat,
    halfOpenRequests: nat, nextAttempt: nat, lastStateChange: nat)

  function Initial(now: nat): Breaker {
    Breaker(Closed, 0, 0, 0, 0, 0, now)
  }

  function TransitionTo(c: Config, b: Breaker, to: Circuit, now: nat): Breaker {
    var b1 := b.(state := to, lastStateChange := now);
    match to
    case HalfOpen => b1.(halfOpenRequests := 0, successCount := 0)
    case Closed => b1.(failureCount := 0, successCount := 0, totalRequests := 0, halfOpenRequests := 0)
    case Open => b1.(nextAttempt := now + c.resetTimeoutMs)
  }

  function GetState(c: Config, b: Breaker, now: nat): Breaker {
    if b.state.Open? && b.nextAttempt <= now then TransitionTo(c, b, HalfOpen, now) else b
  }

  function RecordSuccess(c: Config, b: Breaker, now: nat): Breaker {
    var b1 := b.(totalRequests := b.totalRequests + 1);
    match b.state
    case HalfOpen =>
      var b2 := b1.(successCount := b.successCount + 1);
      if c.successThreshold <= b2.successCount then TransitionTo(c, b2, Closed, now) else b2
    case Closed => if 0 < b.failureCount then b1.(failureCount := b.failureCount - 1) else b1
    case Open => b1
  }

  /** The rate clause: at least five requests, and failures / total >= rateNum / rateDen. */
  predicate RateExceeded(c: Config, failures: nat, total: nat) {
    5 <= total && c.rateNum * total <= failures * c.rateDen
  }

  function RecordFailure(c: Config, b: Breaker, now: nat): Breaker {
    var b1 := b.(totalRequests := b.totalRequests + 1, failureCount := b.failureCount + 1);
    match b.state
    case HalfOpen => TransitionTo(c, b1, Open, now)
    case Closed =>
      if c.failureThreshold <= b1.failureCount || RateExceeded(c, b1.failureCount, b1.totalRequests)
      then TransitionTo(c, b1, Open, now)
      else b1
    case Open => b1
  }

  function CanExecute(c: Config, b: Breaker, now: nat): (Breaker, bool) {
    var b1 := GetState(c, b, now);
    match b1.state
    case Closed => (b1, true)
    case HalfOpen =>
      if b1.halfOpenRequests < c.halfOpenMaxRequests
      then (b1.(halfOpenRequests := b1.halfOpenRequests + 1), true)
      else (b1, false)
    case Open => (b1, false)
  }

  // ---- Many calls in flight ----

  /** What a call was admitted as: while CLOSED, or as a probe of the n-th HALF_OPEN epoch. */
  datatype Ticket = Regular | Probe(epoch: nat)

  datatype Action = Admit | Finish(ticket: Ticket, ok: bool) | Poll | Trip | Reset

  datatype Event = Event(at: nat, action: Action)

  /** The breaker, the number of HALF_OPEN epochs so far, the admitted calls that have not yet
      recorded, and the outcomes recorded since the breaker last entered CLOSED. */
  datatype System = System(b: Breaker, epoch: nat, inFlight: multiset<Ticket>, history: seq<bool>)

  function Start(now: nat): System {
    System(Initial(now), 0, multiset{}, [])
  }

  function NextEpoch(s: System, b: Breaker): nat {
    if s.b.state.Open? && b.state.HalfOpen? then s.epoch + 1 else s.epoch
  }

  /** The ticket of a call that is admitted at a time. */
  function NewTicket(c: Config, s: System, at: nat): Ticket {
    var b := CanExecute(c, s.b, at).0;
    if b.state.HalfOpen? then Probe(NextEpoch(s, b)) else Regular
  }

  predicate Admits(c: Config, s: System, e: Event) {
    e.action.Admit? && CanExecute(c, s.b, e.at).1
  }

  function Step(c: Config, s: System, e: Event): System {
    match e.action
    case Admit =>
      var (b, ok) := CanExecute(c, s.b, e.at);
      var ticket := NewTicket(c, s, e.at);
      s.(b := b, epoch := NextEpoch(s, b), inFlight := if ok then s.inFlight + multiset{ticket} else s.inFlight)
    case Finish(ticket, ok) =>
      var b := if ok then RecordSuccess(c, s.b, e.at) else RecordFailure(c, s.b, e.at);
      s.(b := b, inFlight := s.inFlight - multiset{ticket},
         history := if b.state.Closed? && !s.b.state.Closed? then [] else s.history + [ok])
    case Poll =>
      var b := GetState(c, s.b, e.at);
      s.(b := b, epoch := NextEpoch(s, b))
    case Trip => s.(b := TransitionTo(c, s.b, Open, e.at))
    case Reset => s.(b := TransitionTo(c, s.b, Closed, e.at), history := [])
  }

  function Run(c: Config, s: System, es: seq<Event>): System
    decreases |es|
  {
    if es == [] then s else Run(c, Step(c, s, es[0]), es[1..])
  }

  lemma {:induction false} RunConcat(c: Config, s: System, es: seq<Event>, fs: seq<Event>)
    ensures Run(c, s, es + fs) == Run(c, Run(c, s, es), fs)
    decreases |es|
  {
    if es == [] {
      assert es + fs == fs;
    } else {
      AppendHead(es, fs);
      RunConcat(c, Step(c, s, es[0]), es[1..], fs);
    }
  }

  /** The clock does not go back, and only a call in flight completes. */
  predicate ValidRun(c: Config, s: System, now: nat, es: seq<Event>)
    decreases |es|
  {
    es != [] ==>
    && now <= es[0].at
    && (es[0].action.Finish? ==> es[0].action.ticket in s.inFlight)
    && ValidRun(c, Step(c, s, es[0]), es[0].at, es[1..])
  }

  function Admitted(c: Config, s: System, es: seq<Event>): nat
    decreases |es|
  {
    if es == [] then 0
    else (if Admits(c, s, es[0]) then 1 else 0) + Admitted(c, Step(c, s, es[0]), es[1..])
  }

  /** No state the run passes through is CLOSED. */
  predicate NeverCloses(c: Config, s: System, es: seq<Event>)
    decreases |es|
  {
    !s.b.state.Closed? && (es == [] || NeverCloses(c, Step(c, s, es[0]), es[1..]))
  }
}
