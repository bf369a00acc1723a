/** The class CircuitBreaker, with its fields updated in place. Date.now() is the parameter `now`. */
module CircuitBreakers {
  import opened Wrappers
  import opened Sequences
  import opened BreakerModel

  datatype Options = Options(
    failureThreshold: Option<nat>, failureRate: Option<(nat, nat)>, resetTimeoutMs: Option<nat>,
    halfOpenMaxRequests: Option<nat>, successThreshold: Option<nat>)

  /** Not given, or zero. */
  predicate Missing(option: Option<nat>) {
    option.None? || option.value == 0
  }

  /** `option || default`: a missing option and 0 are both replaced. */
  function OrDefault(option: Option<nat>, default: nat): nat {
    match option
    case Some(n) => if n == 0 then default else n
    case None => default
  }

  function Execution(c: Config, s: System, actionOk: bool, start: nat, others: seq<Event>, end: nat): seq<Event> {
    [Event(start, Admit)] + (others + [Event(end, Finish(NewTicket(c, s, start), actionOk))])
  }

  lemma ExecutionRuns(c: Config, s: System, actionOk: bool, start: nat, others: seq<Event>, end: nat)
    ensures Run(c, s, Execution(c, s, actionOk, start, others, end))
         == Step(c, Run(c, Step(c, s, Event(start, Admit)), others),
                 Event(end, Finish(NewTicket(c, s, start), actionOk)))
  {
    var admit, finish := Event(start, Admit), Event(end, Finish(NewTicket(c, s, start), actionOk));
    AppendHead([admit], others + [finish]);
    RunConcat(c, Step(c, s, admit), others, [finish]);
    assert [admit][1..] + (others + [finish]) == others + [finish] && [finish][1..] == [];
  }

  class CircuitBreaker {
    const config: Config
    var state: Circuit
    var failureCount: nat
    var successCount: nat
    var totalRequests: nat
    var halfOpenRequests: nat
    var nextAttempt: nat
    var lastStateChange: nat

    ghost function Model(): Breaker
      reads this
    {
      Breaker(state, failureCount, successCount, totalRequests, halfOpenRequests, nextAttempt, lastStateChange)
    }

    constructor (options: Options, now: nat)
      requires options.failureRate.Some? ==> options.failureRate.value.1 != 0
      ensures ValidConfig(config) && Model() == Initial(now)
      ensures config.failureThreshold == if Missing(options.failureThreshold) then 5 else options.failureThreshold.value
      ensures config.resetTimeoutMs == if Missing(options.resetTimeoutMs) then 30000 else options.resetTimeoutMs.value
      ensures config.halfOpenMaxRequests ==
              if Missing(options.halfOpenMaxRequests) then 3 else options.halfOpenMaxRequests.value
      ensures config.successThreshold == if Missing(options.successThreshold) then 2 else options.successThreshold.value
      ensures (config.rateNum, config.rateDen) ==
              if options.failureRate.None? || options.failureRate.value.0 == 0 then (1, 2)
              else options.failureRate.value
    {
      var rate := match options.failureRate
        case None => (1, 2)
        case Some(r) => if r.0 == 0 then (1, 2) else r;
      config := Config(
        OrDefault(options.failureThreshold, 5), rate.0, rate.1, OrDefault(options.resetTimeoutMs, 30000),
        OrDefault(options.halfOpenMaxRequests, 3), OrDefault(options.successThreshold, 2));
      state, failureCount, successCount, totalRequests := Closed, 0, 0, 0;
      halfOpenRequests, nextAttempt, lastStateChange := 0, 0, now;
    }

    method GetState(now: nat) returns (r: Circuit)
      modifies this
      ensures Model() == BreakerModel.GetState(config, old(Model()), now)
      ensures r == state
    {
      if state == Open && nextAttempt <= now {
        TransitionTo(HalfOpen, now);
      }
      r := state;
    }

    method TransitionTo(newState: Circuit, now: nat)
      modifies this
      ensures Model() == BreakerModel.TransitionTo(config, old(Model()), newState, now)
    {
      state := newState;
      lastStateChange := now;
      if newState == HalfOpen {
        halfOpenRequests := 0;
        successCount := 0;
      } else if newState == Closed {
        failureCount := 0;
        successCount := 0;
        totalRequests := 0;
        halfOpenRequests := 0;
      } else if newState == Open {
        nextAttempt := now + config.resetTimeoutMs;
      }
    }

    method RecordSuccess(now: nat)
      modifies this
      ensures Model() == BreakerModel.RecordSuccess(config, old(Model()), now)
    {
      totalRequests := totalRequests + 1;
      if state == HalfOpen {
        successCount := successCount + 1;
        if successCount >= config.successThreshold {
          TransitionTo(Closed, now);
        }
      } else if state == Closed {
        if failureCount > 0 {
          failureCount := failureCount - 1;
        }
      }
    }

    method RecordFailure(now: nat)
      modifies this
      ensures Model() == BreakerModel.RecordFailure(config, old(Model()), now)
    {
      totalRequests := totalRequests + 1;
      failureCount := failureCount + 1;
      if state == HalfOpen {
        TransitionTo(Open, now);
      } else if state == Closed {
        if failureCount >= config.failureThreshold || RateExceeded(config, failureCount, totalRequests) {
          TransitionTo(Open, now);
        }
      }
    }

    method CanExecute(now: nat) returns (ok: bool)
      modifies this
      ensures (Model(), ok) == BreakerModel.CanExecute(config, old(Model()), now)
    {
      var currentState := GetState(now);
      if currentState == Closed {
        return true;
      }
      if currentState == HalfOpen {
        if halfOpenRequests < config.halfOpenMaxRequests {
          halfOpenRequests := halfOpenRequests + 1;
          return true;
        }
        return false;
      }
      return false;
    }

    method Trip(now: nat)
      modifies this
      ensures Model() == BreakerModel.TransitionTo(config, old(Model()), Open, now)
    {
      TransitionTo(Open, now);
    }

    method Reset(now: nat)
      modifies this
      ensures Model() == BreakerModel.TransitionTo(config, old(Model()), Closed, now)
    {
      TransitionTo(Closed, now);
    }

    /** What another call, or the breaker's owner, does. */
    method Perform(e: Event, ghost s: System)
      requires s.b == Model()
      modifies this
      ensures Model() == Step(config, s, e).b
    {
      match e.action
      case Admit => var admitted := CanExecute(e.at);
      case Finish(_, ok) => if ok { RecordSuccess(e.at); } else { RecordFailure(e.at); }
      case Poll => var current := GetState(e.at);
      case Trip => Trip(e.at);
      case Reset => Reset(e.at);
    }

    /** Others go on while a call waits for its action. */
    method Await(others: seq<Event>, ghost s: System)
      requires s.b == Model()
      modifies this
      ensures Model() == Run(config, s, others).b
    {
      ghost var now := s;
      assert others[0..] == others;
      for i := 0 to |others|
        invariant now.b == Model()
        invariant Run(config, now, others[i..]) == Run(config, s, others)
      {
        assert others[i..][1..] == others[i + 1..];
        Perform(others[i], now);
        now := Step(config, now, others[i]);
      }
    }

    /** One call. If it is admitted at `start`, `others` happen while its action runs, and the action ends
        with `actionOk` at `end`; the breaker ends as the interleaved system's run of all of this does. */
    method Execute(actionOk: bool, start: nat, others: seq<Event>, end: nat, ghost s: System) returns (r: Option<bool>)
      requires s.b == Model()
      modifies this
      ensures r == if Admits(config, s, Event(start, Admit)) then Some(actionOk) else None
      ensures r.None? ==> Model() == Step(config, s, Event(start, Admit)).b
      ensures r.Some? ==> Model() == Run(config, s, Execution(config, s, actionOk, start, others, end)).b
    {
      var admitted := CanExecute(start);
      if !admitted {
        return None;
      }
      ghost var s1 := Step(config, s, Event(start, Admit));
      Await(others, s1);
      ExecutionRuns(config, s, actionOk, start, others, end);
      if actionOk {
        RecordSuccess(end);
      } else {
        RecordFailure(end);
      }
      return Some(actionOk);
    }
  }
}
