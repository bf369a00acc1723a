module BreakerTheorems {
  import opened BreakerModel
  import opened Arithmetic
  import opened Sequences

  // ---- Arithmetic of reset periods ----

  lemma MulSuccessor(m: nat, a: nat)
    ensures m * (a + 1) == m * a + m && m <= m * (a + 1)
  {
  }

  lemma DivUnique(x: nat, r: nat, q: nat, m: nat)
    requires x == q * r + m && m < r
    ensures x / r == q
  {
    var d := x / r;
    assert x == d * r + x % r;
    if d < q {
      MulMonotone(r, d + 1, q);
    } else if q < d {
      MulMonotone(r, q + 1, d);
    }
  }

  lemma DivStep(a: nat, r: nat)
    requires 0 < r
    ensures (a + r) / r == a / r + 1
  {
    assert a + r == (a / r + 1) * r + a % r;
    DivUnique(a + r, r, a / r + 1, a % r);
  }

  lemma DivMonotone(a: nat, b: nat, r: nat)
    requires a <= b && 0 < r
    ensures a / r <= b / r
  {
    if b / r < a / r {
      MulMonotone(r, b / r + 1, a / r);
      assert false;
    }
  }

  // ---- The admission bound ----

  /** The calls a breaker that is not CLOSED can still admit up to time `end`:
      one full quota for each reset period that can still elapse, and what is left of this epoch. */
  function Budget(c: Config, b: Breaker, now: nat, end: nat): nat
    requires ValidConfig(c) && b.halfOpenRequests <= c.halfOpenMaxRequests
  {
    match b.state
    case Open =>
      if end < b.nextAttempt then 0
      else c.halfOpenMaxRequests * ((end - b.nextAttempt) / c.resetTimeoutMs + 1)
    case HalfOpen =>
      c.halfOpenMaxRequests - b.halfOpenRequests +
      if end < now then 0 else c.halfOpenMaxRequests * ((end - now) / c.resetTimeoutMs)
    case Closed => 0
  }

  lemma BudgetOpens(c: Config, b: Breaker, now: nat, end: nat)
    requires ValidConfig(c) && b.state.Open? && b.nextAttempt <= now <= end
    requires b.halfOpenRequests <= c.halfOpenMaxRequests
    ensures Budget(c, TransitionTo(c, b, HalfOpen, now), now, end) <= Budget(c, b, now, end)
  {
    var M, R := c.halfOpenMaxRequests, c.resetTimeoutMs;
    DivMonotone(end - now, end - b.nextAttempt, R);
    MulMonotone(M, (end - now) / R, (end - b.nextAttempt) / R);
    assert M * ((end - b.nextAttempt) / R + 1) == M * ((end - b.nextAttempt) / R) + M;
  }

  lemma BudgetTrips(c: Config, b: Breaker, now: nat, end: nat)
    requires ValidConfig(c) && now <= end && !b.state.Closed?
    requires b.state.Open? ==> b.nextAttempt <= now + c.resetTimeoutMs
    requires b.halfOpenRequests <= c.halfOpenMaxRequests
    ensures Budget(c, TransitionTo(c, b, Open, now), now, end) <= Budget(c, b, now, end)
  {
    var M, R := c.halfOpenMaxRequests, c.resetTimeoutMs;
    if now + R <= end {
      var rest := end - (now + R);
      DivStep(rest, R);
      assert rest + R == end - now;
      if b.state.Open? {
        DivMonotone(rest, end - b.nextAttempt, R);
        MulMonotone(M, rest / R + 1, (end - b.nextAttempt) / R + 1);
      }
    }
  }

  lemma BudgetAges(c: Config, b: Breaker, earlier: nat, now: nat, end: nat)
    requires ValidConfig(c) && earlier <= now && b.halfOpenRequests <= c.halfOpenMaxRequests
    ensures Budget(c, b, now, end) <= Budget(c, b, earlier, end)
  {
    if b.state.HalfOpen? && now <= end {
      DivMonotone(end - now, end - earlier, c.resetTimeoutMs);
      MulMonotone(c.halfOpenMaxRequests, (end - now) / c.resetTimeoutMs, (end - earlier) / c.resetTimeoutMs);
    }
  }

  /** An OPEN breaker was opened at lastStateChange, and no epoch exceeds its quota. */
  predicate Timed(c: Config, b: Breaker, now: nat) {
    && b.lastStateChange <= now
    && b.halfOpenRequests <= c.halfOpenMaxRequests
    && (b.state.Open? ==> b.nextAttempt == b.lastStateChange + c.resetTimeoutMs)
  }

  lemma TimedStep(c: Config, s: System, now: nat, e: Event)
    requires Timed(c, s.b, now) && now <= e.at
    ensures Timed(c, Step(c, s, e).b, e.at)
  {
    match e.action
    case Admit =>
    case Finish(_, ok) =>
      if ok {
        assert Timed(c, RecordSuccess(c, s.b, e.at), e.at);
      } else {
        assert Timed(c, RecordFailure(c, s.b, e.at), e.at);
      }
    case Poll =>
    case Trip =>
    case Reset =>
  }

  lemma BudgetGetState(c: Config, b: Breaker, now: nat, end: nat)
    requires ValidConfig(c) && Timed(c, b, now) && now <= end && !b.state.Closed?
    ensures var b1 := GetState(c, b, now);
      Timed(c, b1, now) && !b1.state.Closed? && Budget(c, b1, now, end) <= Budget(c, b, now, end)
  {
    if b.state.Open? && b.nextAttempt <= now {
      BudgetOpens(c, b, now, end);
    }
  }

  lemma BudgetRecords(c: Config, b: Breaker, ok: bool, now: nat, end: nat)
    requires ValidConfig(c) && Timed(c, b, now) && now <= end && !b.state.Closed?
    ensures var b1 := if ok then RecordSuccess(c, b, now) else RecordFailure(c, b, now);
      Timed(c, b1, now) && Budget(c, b1, now, end) <= Budget(c, b, now, end)
  {
    if !ok && b.state.HalfOpen? {
      BudgetTrips(c, b, now, end);
    }
  }

  /** One event never spends more than it admits. */
  lemma BudgetStep(c: Config, s: System, e: Event, end: nat)
    requires ValidConfig(c) && Timed(c, s.b, e.at) && e.at <= end
    requires !s.b.state.Closed? && !Step(c, s, e).b.state.Closed?
    ensures Timed(c, Step(c, s, e).b, e.at)
    ensures Budget(c, Step(c, s, e).b, e.at, end) + (if Admits(c, s, e) then 1 else 0)
         <= Budget(c, s.b, e.at, end)
  {
    match e.action
    case Admit => BudgetGetState(c, s.b, e.at, end);
    case Poll => BudgetGetState(c, s.b, e.at, end);
    case Finish(_, ok) => BudgetRecords(c, s.b, ok, e.at, end);
    case Trip => BudgetTrips(c, s.b, e.at, end);
    case Reset =>
  }

  lemma {:induction false} AdmittedWithinBudget(c: Config, s: System, now: nat, es: seq<Event>, end: nat)
    requires ValidConfig(c) && Timed(c, s.b, now)
    requires ValidRun(c, s, now, es) && NeverCloses(c, s, es)
    requires forall e <- es :: e.at <= end
    ensures Admitted(c, s, es) <= Budget(c, s.b, now, end)
    decreases |es|
  {
    if es != [] {
      var e := es[0];
      BudgetAges(c, s.b, now, e.at, end);
      assert !Step(c, s, e).b.state.Closed?;
      BudgetStep(c, s, e, end);
      AdmittedWithinBudget(c, Step(c, s, e), e.at, es[1..], end);
    }
  }

  lemma {:induction false} TimedRun(c: Config, s: System, now: nat, es: seq<Event>, end: nat)
    requires Timed(c, s.b, now) && ValidRun(c, s, now, es)
    requires now <= end && forall e <- es :: e.at <= end
    ensures Timed(c, Run(c, s, es).b, end)
    decreases |es|
  {
    if es != [] {
      TimedStep(c, s, now, es[0]);
      TimedRun(c, Step(c, s, es[0]), es[0].at, es[1..], end);
    }
  }

  lemma BudgetOfOpen(c: Config, b: Breaker, t0: nat, elapsed: nat)
    requires ValidConfig(c) && b.state.Open? && b.nextAttempt == t0 + c.resetTimeoutMs
    requires b.halfOpenRequests <= c.halfOpenMaxRequests
    ensures Budget(c, b, t0, t0 + elapsed) == c.halfOpenMaxRequests * (elapsed / c.resetTimeoutMs)
  {
    if c.resetTimeoutMs <= elapsed {
      DivStep(elapsed - c.resetTimeoutMs, c.resetTimeoutMs);
    } else {
      assert elapsed / c.resetTimeoutMs == 0;
    }
  }

  /** An event at which the breaker opens: a trip, a failed probe or failures while CLOSED. */
  predicate Opens(c: Config, s: System, e: Event) {
    && (e.action.Trip? || !s.b.state.Open?)
    && Step(c, s, e).b.state.Open?
  }

  lemma OpenedNow(c: Config, s: System, e: Event)
    requires Timed(c, s.b, e.at) && Opens(c, s, e)
    ensures var b := Step(c, s, e).b; Timed(c, b, e.at) && b.nextAttempt == e.at + c.resetTimeoutMs
  {
    TimedStep(c, s, e.at, e);
  }

  /** Main result: from an event that opens the breaker at time t0, anywhere in a run, until it next
      becomes CLOSED, the calls admitted by t0 + elapsed are at most one quota for each whole reset
      period, for every interleaving of events. */
  lemma AdmissionBound(c: Config, start: nat, past: seq<Event>, opening: Event, es: seq<Event>, elapsed: nat)
    requires ValidConfig(c) && ValidRun(c, Start(start), start, past)
    requires start <= opening.at && forall e <- past :: e.at <= opening.at
    requires Opens(c, Run(c, Start(start), past), opening)
    requires var s := Step(c, Run(c, Start(start), past), opening);
      ValidRun(c, s, opening.at, es) && NeverCloses(c, s, es)
    requires forall e <- es :: e.at <= opening.at + elapsed
    ensures Admitted(c, Step(c, Run(c, Start(start), past), opening), es)
         <= c.halfOpenMaxRequests * (elapsed / c.resetTimeoutMs)
  {
    var before := Run(c, Start(start), past);
    var s := Step(c, before, opening);
    TimedRun(c, Start(start), start, past, opening.at);
    OpenedNow(c, before, opening);
    AdmittedWithinBudget(c, s, opening.at, es, opening.at + elapsed);
    BudgetOfOpen(c, s.b, opening.at, elapsed);
  }

  // ---- Building runs ----

  function Repeat(e: Event, n: nat): seq<Event> {
    if n == 0 then [] else [e] + Repeat(e, n - 1)
  }

  lemma {:induction false} ValidConcat(c: Config, s: System, now: nat, es: seq<Event>, fs: seq<Event>, mid: nat)
    requires ValidRun(c, s, now, es) && ValidRun(c, Run(c, s, es), mid, fs)
    requires now <= mid && forall e <- es :: e.at <= mid
    ensures ValidRun(c, s, now, es + fs)
    decreases |es|
  {
    if es == [] {
      assert es + fs == fs;
    } else {
      AppendHead(es, fs);
      assert es[0] in es && forall e <- es[1..] :: e in es;
      ValidConcat(c, Step(c, s, es[0]), es[0].at, es[1..], fs, mid);
    }
  }

  lemma {:induction false} AdmittedConcat(c: Config, s: System, es: seq<Event>, fs: seq<Event>)
    ensures Admitted(c, s, es + fs) == Admitted(c, s, es) + Admitted(c, Run(c, s, es), fs)
    ensures NeverCloses(c, s, es + fs) <==> NeverCloses(c, s, es) && NeverCloses(c, Run(c, s, es), fs)
    decreases |es|
  {
    if es == [] {
      assert es + fs == fs;
    } else {
      AppendHead(es, fs);
      AdmittedConcat(c, Step(c, s, es[0]), es[1..], fs);
    }
  }

  lemma RunAppend(c: Config, s: System, now: nat, es: seq<Event>, fs: seq<Event>, mid: nat)
    requires ValidRun(c, s, now, es) && ValidRun(c, Run(c, s, es), mid, fs)
    requires now <= mid && forall e <- es :: e.at <= mid
    ensures ValidRun(c, s, now, es + fs)
    ensures Run(c, s, es + fs) == Run(c, Run(c, s, es), fs)
    ensures Admitted(c, s, es + fs) == Admitted(c, s, es) + Admitted(c, Run(c, s, es), fs)
    ensures NeverCloses(c, s, es + fs) <==> NeverCloses(c, s, es) && NeverCloses(c, Run(c, s, es), fs)
  {
    RunConcat(c, s, es, fs);
    ValidConcat(c, s, now, es, fs, mid);
    AdmittedConcat(c, s, es, fs);
  }

  /** n probes of a HALF_OPEN epoch with room for them are all admitted. */
  lemma {:induction false} AdmitProbes(c: Config, s: System, t: nat, n: nat)
    requires s.b.state.HalfOpen? && s.b.halfOpenRequests + n <= c.halfOpenMaxRequests
    ensures var es := Repeat(Event(t, Admit), n);
      && ValidRun(c, s, t, es) && Admitted(c, s, es) == n && NeverCloses(c, s, es)
      && (forall e <- es :: e.at == t)
      && Run(c, s, es) == s.(b := s.b.(halfOpenRequests := s.b.halfOpenRequests + n),
                             inFlight := Run(c, s, es).inFlight)
      && Run(c, s, es).inFlight == s.inFlight[Probe(s.epoch) := s.inFlight[Probe(s.epoch)] + n]
    decreases n
  {
    if n != 0 {
      AdmitProbes(c, Step(c, s, Event(t, Admit)), t, n - 1);
    }
  }

  // ---- The bound is reached ----

  /** One reset period: ask for the state, use the whole quota, and let one probe fail. */
  function Period(c: Config, t: nat, epoch: nat): seq<Event> {
    [Event(t, Poll)] + Repeat(Event(t, Admit), c.halfOpenMaxRequests)
    + [Event(t, Finish(Probe(epoch), false))]
  }

  lemma QuotaAdmitted(c: Config, s: System, t: nat)
    requires ValidConfig(c) && s.b.state.Open? && s.b.nextAttempt == t
    ensures var es := [Event(t, Poll)] + Repeat(Event(t, Admit), c.halfOpenMaxRequests);
      && ValidRun(c, s, t, es) && NeverCloses(c, s, es) && (forall e <- es :: e.at == t)
      && Admitted(c, s, es) == c.halfOpenMaxRequests
      && Run(c, s, es).b.state.HalfOpen? && Run(c, s, es).epoch == s.epoch + 1
      && Probe(s.epoch + 1) in Run(c, s, es).inFlight
  {
    var e, admits := Event(t, Poll), Repeat(Event(t, Admit), c.halfOpenMaxRequests);
    AdmitProbes(c, Step(c, s, e), t, c.halfOpenMaxRequests);
    RunAppend(c, s, t, [e], admits, t);
  }

  lemma PeriodUsesQuota(c: Config, s: System, t: nat)
    requires ValidConfig(c) && s.b.state.Open? && s.b.nextAttempt == t
    ensures var es := Period(c, t, s.epoch + 1);
      && ValidRun(c, s, t, es) && NeverCloses(c, s, es) && (forall e <- es :: e.at == t)
      && Admitted(c, s, es) == c.halfOpenMaxRequests
      && Run(c, s, es).b.state.Open? && Run(c, s, es).b.nextAttempt == t + c.resetTimeoutMs
      && Run(c, s, es).epoch == s.epoch + 1
  {
    QuotaAdmitted(c, s, t);
    var admits := [Event(t, Poll)] + Repeat(Event(t, Admit), c.halfOpenMaxRequests);
    var fail := Event(t, Finish(Probe(s.epoch + 1), false));
    var s1 := Run(c, s, admits);
    RunAppend(c, s, t, admits, [fail], t);
  }

  /** A run that ends a reset period before `end` at the latest, without closing, and admits `quota` calls. */
  ghost predicate UsesQuota(c: Config, s: System, t: nat, end: nat, quota: nat, es: seq<Event>) {
    && ValidRun(c, s, t, es) && NeverCloses(c, s, es)
    && (forall e <- es :: e.at + c.resetTimeoutMs <= end)
    && Admitted(c, s, es) == quota
  }

  lemma OnePeriodMore(c: Config, s: System, t: nat, end: nat, quota: nat, later: seq<Event>) returns (es: seq<Event>)
    requires ValidConfig(c) && s.b.state.Open? && s.b.nextAttempt == t
    requires t + c.resetTimeoutMs <= end && c.halfOpenMaxRequests <= quota
    requires UsesQuota(c, Run(c, s, Period(c, t, s.epoch + 1)), t + c.resetTimeoutMs, end,
                       quota - c.halfOpenMaxRequests, later)
    ensures UsesQuota(c, s, t, end, quota, es)
  {
    PeriodUsesQuota(c, s, t);
    RunAppend(c, s, t, Period(c, t, s.epoch + 1), later, t + c.resetTimeoutMs);
    es := Period(c, t, s.epoch + 1) + later;
  }

  lemma {:induction false} PeriodsUseQuota(c: Config, s: System, t: nat, k: nat) returns (es: seq<Event>)
    requires ValidConfig(c) && s.b.state.Open? && s.b.nextAttempt == t
    ensures UsesQuota(c, s, t, t + c.resetTimeoutMs * k, c.halfOpenMaxRequests * k, es)
    decreases k
  {
    if k == 0 {
      es := [];
    } else {
      var end, quota := t + c.resetTimeoutMs * k, c.halfOpenMaxRequests * k;
      MulSuccessor(c.resetTimeoutMs, k - 1);
      MulSuccessor(c.halfOpenMaxRequests, k - 1);
      PeriodUsesQuota(c, s, t);
      var later := PeriodsUseQuota(c, Run(c, s, Period(c, t, s.epoch + 1)), t + c.resetTimeoutMs, k - 1);
      es := OnePeriodMore(c, s, t, end, quota, later);
    }
  }

  /** The admission bound is reached: for every number k of reset periods some run after a trip at
      time 0 admits k full quotas by time k * resetTimeoutMs. */
  lemma AdmissionBoundIsReached(c: Config, before: System, k: nat)
    requires ValidConfig(c)
    ensures var s := Step(c, before, Event(0, Trip));
      exists es: seq<Event> ::
        && ValidRun(c, s, 0, es) && NeverCloses(c, s, es)
        && (forall e <- es :: e.at <= k * c.resetTimeoutMs)
        && Admitted(c, s, es) == c.halfOpenMaxRequests * k
  {
    var s := Step(c, before, Event(0, Trip));
    var es := PeriodsUseQuota(c, s, c.resetTimeoutMs, k);
    assert ValidRun(c, s, 0, es);
  }

  // ---- Invariants of every reachable system ----

  /** Failures minus successes. */
  function Excess(h: seq<bool>): int {
    if h == [] then 0 else Excess(h[..|h| - 1]) + (if h[|h| - 1] then -1 else 1)
  }

  /** m is the largest excess of any suffix of h (the empty one included). */
  ghost predicate IsMaxSuffixExcess(h: seq<bool>, m: int) {
    && (exists i :: 0 <= i <= |h| && Excess(h[i..]) == m)
    && (forall i :: 0 <= i <= |h| ==> Excess(h[i..]) <= m)
  }

  lemma ExcessAppend(h: seq<bool>, x: bool, i: nat)
    requires i <= |h|
    ensures Excess((h + [x])[i..]) == Excess(h[i..]) + (if x then -1 else 1)
  {
    assert (h + [x])[i..] == h[i..] + [x];
    assert (h[i..] + [x])[..|h[i..]|] == h[i..];
  }

  lemma MaxSuffixAppend(h: seq<bool>, m: int, x: bool)
    requires IsMaxSuffixExcess(h, m)
    ensures IsMaxSuffixExcess(h + [x], if !x then m + 1 else if 0 < m then m - 1 else 0)
  {
    var h1 := h + [x];
    assert h[|h|..] == [] && h1[|h1|..] == [];
    assert Excess(h[|h|..]) == 0 && Excess(h1[|h1|..]) == 0;
    forall i | 0 <= i <= |h|
      ensures Excess(h1[i..]) == Excess(h[i..]) + (if x then -1 else 1)
    {
      ExcessAppend(h, x, i);
    }
    var k :| 0 <= k <= |h| && Excess(h[k..]) == m;
    assert Excess(h1[k..]) == m + (if x then -1 else 1);
  }

  ghost predicate Inv(c: Config, s: System) {
    && s.b.halfOpenRequests <= c.halfOpenMaxRequests
    && (s.b.state.Closed? ==>
          && IsMaxSuffixExcess(s.history, s.b.failureCount)
          && s.b.totalRequests == |s.history|
          && s.b.failureCount < c.failureThreshold)
    && (s.b.state.HalfOpen? ==>
          && s.b.successCount < c.successThreshold
          && s.b.halfOpenRequests <= s.b.successCount + s.inFlight[Probe(s.epoch)])
  }

  lemma EmptyHistory()
    ensures IsMaxSuffixExcess([], 0)
  {
    var h: seq<bool> := [];
    assert Excess(h[0..]) == 0;
  }

  lemma ClosedFinishKeepsInv(c: Config, s: System, e: Event)
    requires ValidConfig(c) && Inv(c, s) && s.b.state.Closed? && e.action.Finish?
    ensures Inv(c, Step(c, s, e))
  {
    EmptyHistory();
    MaxSuffixAppend(s.history, s.b.failureCount, e.action.ok);
  }

  /** A probe of the current epoch that succeeds leaves flight and is counted as a success. */
  lemma ProbeFinishKeepsInv(c: Config, s: System, e: Event)
    requires ValidConfig(c) && Inv(c, s) && !s.b.state.Closed? && e.action.Finish? && e.action.ticket in s.inFlight
    ensures Inv(c, Step(c, s, e))
  {
    EmptyHistory();
  }

  lemma AdmitKeepsInv(c: Config, s: System, e: Event)
    requires ValidConfig(c) && Inv(c, s) && e.action.Admit?
    ensures Inv(c, Step(c, s, e))
  {
    var b := GetState(c, s.b, e.at);
    if b.state.HalfOpen? && b.halfOpenRequests < c.halfOpenMaxRequests {
      assert NewTicket(c, s, e.at) == Probe(Step(c, s, e).epoch);
    }
  }

  lemma InvStep(c: Config, s: System, e: Event)
    requires ValidConfig(c) && Inv(c, s)
    requires e.action.Finish? ==> e.action.ticket in s.inFlight
    ensures Inv(c, Step(c, s, e))
  {
    match e.action
    case Admit => AdmitKeepsInv(c, s, e);
    case Finish(_, _) =>
      if s.b.state.Closed? { ClosedFinishKeepsInv(c, s, e); } else { ProbeFinishKeepsInv(c, s, e); }
    case Poll =>
    case Trip =>
    case Reset => EmptyHistory();
  }

  lemma {:induction false} InvRun(c: Config, s: System, now: nat, es: seq<Event>)
    requires ValidConfig(c) && Inv(c, s) && ValidRun(c, s, now, es)
    ensures Inv(c, Run(c, s, es))
    decreases |es|
  {
    if es != [] {
      InvStep(c, s, es[0]);
      InvRun(c, Step(c, s, es[0]), es[0].at, es[1..]);
    }
  }

  lemma InvReachable(c: Config, now: nat, es: seq<Event>)
    requires ValidConfig(c) && ValidRun(c, Start(now), now, es)
    ensures Inv(c, Run(c, Start(now), es))
  {
    EmptyHistory();
    InvRun(c, Start(now), now, es);
  }

  /** Main result: while CLOSED, failureCount is the largest excess of failures over successes of
      any suffix of the outcomes since the last close, and totalRequests counts those outcomes. */
  lemma ClosedCountersAreHistory(c: Config, now: nat, es: seq<Event>)
    requires ValidConfig(c) && ValidRun(c, Start(now), now, es)
    requires Run(c, Start(now), es).b.state.Closed?
    ensures var s := Run(c, Start(now), es);
      && IsMaxSuffixExcess(s.history, s.b.failureCount)
      && s.b.totalRequests == |s.history|
      && s.b.failureCount < c.failureThreshold
  {
    InvReachable(c, now, es);
  }

  /** Some suffix of h has at least k more failures than successes. */
  ghost predicate SomeSuffixReaches(h: seq<bool>, k: int) {
    exists i :: 0 <= i <= |h| && k <= Excess(h[i..])
  }

  lemma SameMax(h: seq<bool>, a: int, b: int)
    requires IsMaxSuffixExcess(h, a) && IsMaxSuffixExcess(h, b)
    ensures a == b
  {
    var i :| 0 <= i <= |h| && Excess(h[i..]) == a;
    var j :| 0 <= j <= |h| && Excess(h[j..]) == b;
  }

  lemma MaxReaches(h: seq<bool>, m: int, k: int)
    requires IsMaxSuffixExcess(h, m)
    ensures SomeSuffixReaches(h, k) <==> k <= m
  {
    var i :| 0 <= i <= |h| && Excess(h[i..]) == m;
  }

  /** Main result: a failure recorded while CLOSED opens the breaker exactly when some suffix of the
      history (with this failure) has an excess of failureThreshold, or there are at least five outcomes and
      the largest excess is at least the fraction rateNum / rateDen of their number. */
  lemma FailureTripsExactly(c: Config, now: nat, es: seq<Event>, at: nat, ticket: Ticket, m: nat)
    requires ValidConfig(c) && ValidRun(c, Start(now), now, es)
    requires Run(c, Start(now), es).b.state.Closed?
    requires IsMaxSuffixExcess(Run(c, Start(now), es).history + [false], m)
    ensures var s := Run(c, Start(now), es);
      Step(c, s, Event(at, Finish(ticket, false))).b.state.Open? <==>
      || SomeSuffixReaches(s.history + [false], c.failureThreshold)
      || (5 <= |s.history| + 1 && c.rateNum * (|s.history| + 1) <= m * c.rateDen)
  {
    var s := Run(c, Start(now), es);
    InvReachable(c, now, es);
    MaxSuffixAppend(s.history, s.b.failureCount, false);
    SameMax(s.history + [false], m, s.b.failureCount + 1);
    MaxReaches(s.history + [false], m, c.failureThreshold);
  }

  // ---- No wedged half-open ----

  /** A HALF_OPEN breaker that turns a call away at time t. */
  predicate Refuses(c: Config, s: System, t: nat) {
    s.b.state.HalfOpen? && !CanExecute(c, s.b, t).1
  }

  /** When the probe quota covers the success threshold, a refusing HALF_OPEN breaker is
      always waiting for a probe of its current epoch. */
  lemma RefusalHasProbeInFlight(c: Config, now: nat, es: seq<Event>, t: nat)
    requires ValidConfig(c) && ValidRun(c, Start(now), now, es)
    requires c.successThreshold <= c.halfOpenMaxRequests
    requires Refuses(c, Run(c, Start(now), es), t)
    ensures var s := Run(c, Start(now), es); Probe(s.epoch) in s.inFlight
  {
    InvReachable(c, now, es);
  }

  /** n successes that do not reach the success threshold leave the breaker HALF_OPEN. */
  lemma {:induction false} ProbesSucceed(c: Config, s: System, t: nat, n: nat)
    requires s.b.state.HalfOpen? && n <= s.inFlight[Probe(s.epoch)]
    requires s.b.successCount + n < c.successThreshold
    ensures var es := Repeat(Event(t, Finish(Probe(s.epoch), true)), n);
      && ValidRun(c, s, t, es) && (forall e <- es :: e.at == t)
      && Run(c, s, es).b.state.HalfOpen?
      && Run(c, s, es).b.halfOpenRequests == s.b.halfOpenRequests
      && Run(c, s, es).inFlight == s.inFlight[Probe(s.epoch) := s.inFlight[Probe(s.epoch)] - n]
    decreases n
  {
    if n != 0 {
      var s1 := Step(c, s, Event(t, Finish(Probe(s.epoch), true)));
      assert s1.b == s.b.(totalRequests := s.b.totalRequests + 1, successCount := s.b.successCount + 1);
      ProbesSucceed(c, s1, t, n - 1);
    }
  }

  /** A run that ends with no call in flight and a HALF_OPEN breaker that refuses every call. */
  ghost predicate Wedges(c: Config, es: seq<Event>) {
    && ValidRun(c, Start(0), 0, es)
    && Run(c, Start(0), es).inFlight == multiset{}
    && forall t: nat :: Refuses(c, Run(c, Start(0), es), t)
  }

  /** Trip at time 0, then ask for the state once the reset timeout has elapsed. */
  function OpeningRun(c: Config): seq<Event> {
    [Event(0, Trip), Event(c.resetTimeoutMs, Poll)]
  }

  lemma OpeningRunHalfOpens(c: Config)
    requires ValidConfig(c)
    ensures ValidRun(c, Start(0), 0, OpeningRun(c))
    ensures var s := Run(c, Start(0), OpeningRun(c));
      && s.b.state.HalfOpen? && s.b.halfOpenRequests == s.b.successCount == 0
      && s.epoch == 1 && s.inFlight == multiset{}
  {
    var es := OpeningRun(c);
    var s := Step(c, Start(0), es[0]);
    assert es[1..] == [es[1]] && es[1..][1..] == [];
    assert ValidRun(c, s, 0, es[1..]);
    assert Run(c, s, es[1..]) == Step(c, s, es[1]);
  }

  function WedgingRun(c: Config): seq<Event> {
    var t := c.resetTimeoutMs;
    OpeningRun(c) + Repeat(Event(t, Admit), c.halfOpenMaxRequests)
    + Repeat(Event(t, Finish(Probe(1), true)), c.halfOpenMaxRequests)
  }

  lemma SmallQuotaWedges(c: Config)
    requires ValidConfig(c) && c.halfOpenMaxRequests < c.successThreshold
    ensures Wedges(c, WedgingRun(c))
  {
    var t, m := c.resetTimeoutMs, c.halfOpenMaxRequests;
    OpeningRunHalfOpens(c);
    var opening := OpeningRun(c);
    var admits := Repeat(Event(t, Admit), m);
    var finishes := Repeat(Event(t, Finish(Probe(1), true)), m);
    var s1 := Run(c, Start(0), opening);
    AdmitProbes(c, s1, t, m);
    RunAppend(c, Start(0), 0, opening, admits, t);
    var s2 := Run(c, s1, admits);
    ProbesSucceed(c, s2, t, m);
    RunAppend(c, Start(0), 0, opening + admits, finishes, t);
    var s3 := Run(c, s2, finishes);
    assert s3.inFlight == multiset{};
    assert forall t: nat :: Refuses(c, s3, t);
  }

  /** Main result: no run ends wedged if and only if the probe quota covers the success threshold. */
  lemma NeverWedgesExactly(c: Config)
    requires ValidConfig(c)
    ensures (forall es :: !Wedges(c, es)) <==> c.successThreshold <= c.halfOpenMaxRequests
  {
    if c.successThreshold <= c.halfOpenMaxRequests {
      forall es ensures !Wedges(c, es) {
        if Wedges(c, es) {
          RefusalHasProbeInFlight(c, 0, es, 0);
        }
      }
    } else {
      SmallQuotaWedges(c);
    }
  }
}
