/** When a call is admitted, what the breaker is after it, and what opens it. */
module BreakerAdmission {
  import opened Sequences
  import opened BreakerModel
  import opened BreakerTheorems
  import opened BreakerEpochs

  /** Main result: a call is admitted exactly when the breaker is CLOSED, or HALF_OPEN with room for a probe,
      or OPEN and due; asking for the state beforehand makes no difference. */
  lemma AdmitsExactly(c: Config, s: System, t: nat)
    requires ValidConfig(c)
    ensures Admits(c, s, Event(t, Admit)) <==>
      || s.b.state == Closed
      || (s.b.state == HalfOpen && s.b.halfOpenRequests < c.halfOpenMaxRequests)
      || (s.b.state == Open && s.b.nextAttempt <= t)
    ensures Admits(c, s, Event(t, Admit)) <==> Admits(c, Step(c, s, Event(t, Poll)), Event(t, Admit))
  {
  }

  /** What a call that asks for admission changes: the first one that comes to an OPEN breaker when it is due
      is the first probe of a new epoch; a probe takes one place; nothing else changes the breaker. */
  lemma AdmissionEffect(c: Config, s: System, t: nat)
    requires ValidConfig(c)
    ensures var s1, admitted := Step(c, s, Event(t, Admit)), Admits(c, s, Event(t, Admit));
      && s1.history == s.history
      && (s.b.state == Open && admitted ==>
            && s1.b == s.b.(state := HalfOpen, halfOpenRequests := 1, successCount := 0, lastStateChange := t)
            && s1.epoch == s.epoch + 1 && s1.inFlight == s.inFlight + multiset{Probe(s.epoch + 1)})
      && (s.b.state == HalfOpen && admitted ==>
            && s1.b == s.b.(halfOpenRequests := s.b.halfOpenRequests + 1)
            && s1.epoch == s.epoch && s1.inFlight == s.inFlight + multiset{Probe(s.epoch)})
      && (s.b.state == Closed ==> s1 == s.(inFlight := s.inFlight + multiset{Regular}))
      && (!admitted ==> s1 == s)
  {
  }

  /** What asking for the state changes: only an OPEN breaker that is due. */
  lemma PollEffect(c: Config, s: System, t: nat)
    ensures Step(c, s, Event(t, Poll)) ==
      if s.b.state == Open && s.b.nextAttempt <= t
      then s.(epoch := s.epoch + 1,
              b := s.b.(state := HalfOpen, halfOpenRequests := 0, successCount := 0, lastStateChange := t))
      else s
  {
  }

  /** A breaker starts CLOSED with nothing counted. */
  lemma StartEffect(now: nat)
    ensures var b := Start(now).b;
      && b.state == Closed && b.lastStateChange == now && b.nextAttempt == 0
      && b.failureCount == b.successCount == b.totalRequests == b.halfOpenRequests == 0
  {
  }

  /** CLOSED with nothing counted, since this time. */
  predicate ClosedAt(b: Breaker, t: nat) {
    && b.state == Closed && b.lastStateChange == t
    && b.failureCount == b.successCount == b.totalRequests == b.halfOpenRequests == 0
  }

  /** OPEN since this time, and due one reset timeout later. */
  predicate OpenAt(c: Config, b: Breaker, t: nat) {
    b.state == Open && b.lastStateChange == t && b.nextAttempt == t + c.resetTimeoutMs
  }

  /** A trip opens the breaker, whatever its state, and a reset closes it; neither forgets calls in flight. */
  lemma OwnerEffect(c: Config, s: System, t: nat)
    ensures var tripped := Step(c, s, Event(t, Trip));
      && OpenAt(c, tripped.b, t)
      && tripped == s.(b := s.b.(state := Open, lastStateChange := t, nextAttempt := t + c.resetTimeoutMs))
    ensures var closed := Step(c, s, Event(t, Reset));
      && ClosedAt(closed.b, t) && closed.b.nextAttempt == s.b.nextAttempt
      && closed == s.(b := closed.b, history := [])
  {
  }

  /** What a completion changes: it is counted in every state; a failed probe reopens the breaker, the success
      that reaches the threshold closes it; while OPEN it is only counted. */
  lemma CompletionEffect(c: Config, s: System, t: nat, ticket: Ticket, ok: bool)
    requires ValidConfig(c) && Inv(c, s)
    ensures var s1, total, failures :=
        Step(c, s, Event(t, Finish(ticket, ok))), s.b.totalRequests + 1, s.b.failureCount + if ok then 0 else 1;
      && s1.inFlight == s.inFlight - multiset{ticket} && s1.epoch == s.epoch
      && (s.b.state == Open ==> s1.b == s.b.(totalRequests := total, failureCount := failures))
      && (s.b.state == HalfOpen && !ok ==>
            OpenAt(c, s1.b, t) && s1.b.totalRequests == total && s1.b.failureCount == failures)
      && (s.b.state == HalfOpen && ok ==>
            if s.b.successCount + 1 == c.successThreshold then ClosedAt(s1.b, t)
            else s1.b == s.b.(totalRequests := total, successCount := s.b.successCount + 1))
      && (s.b.state == Closed && ok ==>
            s1.b == s.b.(totalRequests := total,
                         failureCount := if s.b.failureCount == 0 then 0 else s.b.failureCount - 1))
      && (s.b.state == Closed && !ok ==>
            && s1.b.totalRequests == total && s1.b.failureCount == failures
            && (OpenAt(c, s1.b, t) || s1.b == s.b.(totalRequests := total, failureCount := failures)))
      && s1.history == if s.b.state != Closed && s1.b.state == Closed then [] else s.history + [ok]
  {
  }

  /** Until it is due, an OPEN breaker is only asked for calls and for its state, which it refuses and answers;
      late completions may come at any time. */
  predicate Waits(e: Event, due: nat) {
    e.action.Finish? || ((e.action.Admit? || e.action.Poll?) && e.at < due)
  }

  lemma {:induction false} StaysOpen(c: Config, s: System, es: seq<Event>, end: System)
    requires s.b.state.Open? && (forall e <- es :: Waits(e, s.b.nextAttempt)) && end == Run(c, s, es)
    ensures end.b.state.Open? && end.b.nextAttempt == s.b.nextAttempt
    decreases |es|
  {
    if es != [] {
      assert es[0] in es && forall e <- es[1..] :: e in es;
      StaysOpen(c, Step(c, s, es[0]), es[1..], end);
    }
  }

  /** Main result: after an event that opens the breaker at t0, anywhere in a run, with no trip and no reset
      since, the first request for a call that is not too early is admitted, and it is too early exactly
      before t0 + resetTimeoutMs. */
  lemma FirstCallExactly(c: Config, start: nat, past: seq<Event>, opening: Event, es: seq<Event>, t: nat)
    requires ValidConfig(c) && ValidRun(c, Start(start), start, past)
    requires start <= opening.at && forall e <- past :: e.at <= opening.at
    requires Opens(c, Run(c, Start(start), past), opening)
    requires forall e <- es :: Waits(e, opening.at + c.resetTimeoutMs)
    ensures var s := Run(c, Step(c, Run(c, Start(start), past), opening), es);
      Admits(c, s, Event(t, Admit)) <==> opening.at + c.resetTimeoutMs <= t
  {
    var before := Run(c, Start(start), past);
    var s := Step(c, before, opening);
    TimedRun(c, Start(start), start, past, opening.at);
    OpenedNow(c, before, opening);
    StaysOpen(c, s, es, Run(c, s, es));
    AdmitsExactly(c, Run(c, s, es), t);
  }

  // ---- A run that the rate clause alone opens ----

  /** The defaults. */
  const DEFAULTS := Config(5, 1, 2, 30000, 3, 2)

  const SUCCESS := Event(0, Finish(Regular, true))
  const FAILURE := Event(0, Finish(Regular, false))

  /** A CLOSED breaker that has recorded one success and then k failures. */
  predicate AfterFailures(s: System, k: nat) {
    && s.b.state == Closed && s.b.failureCount == k && s.b.totalRequests == k + 1
    && s.inFlight[Regular] == 4 - k
  }

  /** The breaker opens with the last of the four failures. */
  lemma {:induction false} FailuresOpen(s: System, k: nat, fails: seq<Event>)
    requires AfterFailures(s, k) && k < 4 && fails == Repeat(FAILURE, 4 - k)
    ensures ValidRun(DEFAULTS, s, 0, fails)
    ensures Run(DEFAULTS, s, fails).b.state == Open && Run(DEFAULTS, s, fails).b.failureCount == 4
    decreases 4 - k
  {
    var s1 := Step(DEFAULTS, s, FAILURE);
    if k < 3 {
      FailuresOpen(s1, k + 1, fails[1..]);
    } else {
      assert fails[1..] == [];
    }
  }

  /** And not before. */
  lemma {:induction false} FailuresLeaveClosed(s: System, k: nat, fails: seq<Event>)
    requires AfterFailures(s, k) && k < 4 && fails == Repeat(FAILURE, 3 - k)
    ensures Run(DEFAULTS, s, fails).b.state == Closed
    decreases 4 - k
  {
    if k < 3 {
      FailuresLeaveClosed(Step(DEFAULTS, s, FAILURE), k + 1, fails[1..]);
    }
  }

  /** One success and four failures, or three. */
  function Outcomes(failures: nat): seq<Event> {
    [SUCCESS] + Repeat(FAILURE, failures)
  }

  lemma OutcomesOpen(s: System)
    requires s.b.state == Closed && s.b.failureCount == s.b.totalRequests == 0 && s.inFlight[Regular] == 5
    ensures ValidRun(DEFAULTS, s, 0, Outcomes(4)) && Run(DEFAULTS, s, Outcomes(3)).b.state == Closed
    ensures var b := Run(DEFAULTS, s, Outcomes(4)).b; b.state == Open && b.failureCount == 4
  {
    FailuresOpen(Step(DEFAULTS, s, SUCCESS), 0, Repeat(FAILURE, 4));
    FailuresLeaveClosed(Step(DEFAULTS, s, SUCCESS), 0, Repeat(FAILURE, 3));
  }

  /** Five calls, one success and this many failures. */
  function FiveCalls(failures: nat): seq<Event> {
    Repeat(Event(0, Admit), 5) + Outcomes(failures)
  }

  /** After one success and three failures the breaker is still CLOSED; the fourth failure, the fifth outcome,
      opens it, although its failure count is below the threshold of five. */
  lemma FourOfFiveOpens()
    ensures ValidConfig(DEFAULTS) && ValidRun(DEFAULTS, Start(0), 0, FiveCalls(4))
    ensures Run(DEFAULTS, Start(0), FiveCalls(3)).b.state == Closed
    ensures var b := Run(DEFAULTS, Start(0), FiveCalls(4)).b;
      b.state == Open && b.failureCount == 4 < DEFAULTS.failureThreshold
  {
    var admits := Repeat(Event(0, Admit), 5);
    AdmitRegulars(DEFAULTS, Start(0), 0, 5);
    var s := Run(DEFAULTS, Start(0), admits);
    OutcomesOpen(s);
    RunConcat(DEFAULTS, Start(0), admits, Outcomes(3));
    RunConcat(DEFAULTS, Start(0), admits, Outcomes(4));
    ValidConcat(DEFAULTS, Start(0), 0, admits, Outcomes(4), 0);
  }
}
