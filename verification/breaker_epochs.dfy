/** When a HALF_OPEN breaker closes. */
module BreakerEpochs {
  import opened Sequences
  import opened BreakerModel
  import opened BreakerTheorems

  predicate Succeeds(e: Event) {
    e.action.Finish? && e.action.ok
  }

  /** The successes recorded, whatever the calls were admitted as. */
  function Successes(es: seq<Event>): nat {
    if es == [] then 0 else (if Succeeds(es[0]) then 1 else 0) + Successes(es[1..])
  }

  /** Every state the run passes through is HALF_OPEN, so it does not leave the epoch it starts in. */
  predicate StaysHalfOpen(c: Config, s: System, es: seq<Event>)
    decreases |es|
  {
    s.b.state.HalfOpen? && (es == [] || StaysHalfOpen(c, Step(c, s, es[0]), es[1..]))
  }

  /** An event at which a HALF_OPEN epoch starts. */
  predicate HalfOpens(c: Config, s: System, e: Event) {
    s.b.state.Open? && Step(c, s, e).b.state.HalfOpen?
  }

  lemma EpochStep(c: Config, s: System, e: Event)
    requires s.b.state.HalfOpen? && s.b.successCount < c.successThreshold
    ensures var b := Step(c, s, e).b;
      && (b.state.Closed? <==> e.action.Reset? || (Succeeds(e) && s.b.successCount + 1 == c.successThreshold))
      && (b.state.HalfOpen? ==>
            b.successCount == s.b.successCount + (if Succeeds(e) then 1 else 0) < c.successThreshold)
  {
  }

  lemma {:induction false} EpochCounts(c: Config, s: System, es: seq<Event>, end: System)
    requires StaysHalfOpen(c, s, es) && s.b.successCount < c.successThreshold && end == Run(c, s, es)
    ensures end.b.state.HalfOpen? && end.b.successCount == s.b.successCount + Successes(es) < c.successThreshold
    decreases |es|
  {
    if es != [] {
      EpochStep(c, s, es[0]);
      EpochCounts(c, Step(c, s, es[0]), es[1..], end);
    }
  }

  lemma EpochStarts(c: Config, before: System, opening: Event)
    requires HalfOpens(c, before, opening)
    ensures Step(c, before, opening).b.successCount == 0
  {
  }

  /** Main result: a HALF_OPEN epoch ends with the breaker CLOSED exactly at its successThreshold-th recorded
      success, whenever that call was admitted, or at a reset. */
  lemma ClosesExactly(c: Config, before: System, opening: Event, es: seq<Event>, e: Event)
    requires ValidConfig(c) && HalfOpens(c, before, opening) && StaysHalfOpen(c, Step(c, before, opening), es)
    ensures var s := Run(c, Step(c, before, opening), es);
      Step(c, s, e).b.state.Closed? <==>
      e.action.Reset? || (Succeeds(e) && Successes(es) + 1 == c.successThreshold)
  {
    var s := Run(c, Step(c, before, opening), es);
    EpochStarts(c, before, opening);
    EpochCounts(c, Step(c, before, opening), es, s);
    EpochStep(c, s, e);
  }

  // ---- Closing without a probe ----

  lemma {:induction false} AdmitRegulars(c: Config, s: System, t: nat, n: nat)
    requires s.b.state.Closed?
    ensures var es := Repeat(Event(t, Admit), n);
      && ValidRun(c, s, t, es) && (forall e <- es :: e.at == t)
      && Run(c, s, es).b == s.b && Run(c, s, es).inFlight[Regular] == s.inFlight[Regular] + n
    decreases n
  {
    if n != 0 {
      AdmitRegulars(c, Step(c, s, Event(t, Admit)), t, n - 1);
    }
  }

  /** Old calls that succeed close the epoch. */
  lemma {:induction false} RegularsClose(c: Config, s: System, t: nat, n: nat)
    requires s.b.state.HalfOpen? && 0 < n <= s.inFlight[Regular] && s.b.successCount + n == c.successThreshold
    ensures var es := Repeat(Event(t, Finish(Regular, true)), n);
      && ValidRun(c, s, t, es) && Admitted(c, s, es) == 0
      && Run(c, s, es).b.state.Closed?
    decreases n
  {
    var e := Event(t, Finish(Regular, true));
    if n != 1 {
      RegularsClose(c, Step(c, s, e), t, n - 1);
    }
  }

  /** As many calls as it takes, admitted while CLOSED, before a trip at time 0. */
  function OldCalls(c: Config): seq<Event> {
    Repeat(Event(0, Admit), c.successThreshold) + [Event(0, Trip)]
  }

  /** The state is asked for when the reset timeout has elapsed, and the old calls succeed. */
  function OldSuccesses(c: Config): seq<Event> {
    [Event(c.resetTimeoutMs, Poll)] + Repeat(Event(c.resetTimeoutMs, Finish(Regular, true)), c.successThreshold)
  }

  lemma OldCallsRun(c: Config)
    requires ValidConfig(c)
    ensures ValidRun(c, Start(0), 0, OldCalls(c)) && forall e <- OldCalls(c) :: e.at == 0
    ensures var s := Run(c, Start(0), OldCalls(c));
      s.b.state.Open? && s.b.nextAttempt == c.resetTimeoutMs && s.inFlight[Regular] == c.successThreshold
  {
    var admits, trip := Repeat(Event(0, Admit), c.successThreshold), Event(0, Trip);
    AdmitRegulars(c, Start(0), 0, c.successThreshold);
    var s := Run(c, Start(0), admits);
    assert [trip][1..] == [] && ValidRun(c, s, 0, [trip]);
    RunAppend(c, Start(0), 0, admits, [trip], 0);
  }

  lemma OldSuccessesClose(c: Config, s: System)
    requires ValidConfig(c) && s.b.state.Open? && s.b.nextAttempt == c.resetTimeoutMs
    requires s.inFlight[Regular] == c.successThreshold
    ensures ValidRun(c, s, 0, OldSuccesses(c)) && Admitted(c, s, OldSuccesses(c)) == 0
    ensures Run(c, s, OldSuccesses(c)).b.state.Closed?
  {
    var t := c.resetTimeoutMs;
    var poll, finishes := Event(t, Poll), Repeat(Event(t, Finish(Regular, true)), c.successThreshold);
    AppendHead([poll], finishes);
    assert [poll][1..] + finishes == finishes;
    RegularsClose(c, Step(c, s, poll), t, c.successThreshold);
  }

  /** Whatever the parameters, calls admitted before a trip can close the breaker after it, though no probe
      has been admitted. */
  lemma ClosesWithoutProbe(c: Config)
    requires ValidConfig(c)
    ensures ValidRun(c, Start(0), 0, OldCalls(c) + OldSuccesses(c))
    ensures Run(c, Start(0), OldCalls(c)).b.state.Open?
    ensures Admitted(c, Run(c, Start(0), OldCalls(c)), OldSuccesses(c)) == 0
    ensures Run(c, Start(0), OldCalls(c) + OldSuccesses(c)).b.state.Closed?
  {
    OldCallsRun(c);
    OldSuccessesClose(c, Run(c, Start(0), OldCalls(c)));
    RunAppend(c, Start(0), 0, OldCalls(c), OldSuccesses(c), 0);
  }
}
