module LimiterTheorems {
  import opened Wrappers
  import opened LimiterModel
  import opened Sequences

  // ---- How many requests an interval admits ----

  function Min(a: nat, b: nat): nat {
    if a <= b then a else b
  }

  /** The number of requests of ip at times in [lo, hi). */
  function Requests(trace: seq<Request>, ip: string, lo: int, hi: int): nat
    decreases |trace|
  {
    if trace == [] then 0
    else (if trace[0].ip == ip && lo <= trace[0].at < hi then 1 else 0) + Requests(trace[1..], ip, lo, hi)
  }

  lemma {:induction false} NoRequests(now: nat, trace: seq<Request>, ip: string, lo: int, hi: int)
    requires ClockFrom(now, trace) && hi <= now
    ensures Requests(trace, ip, lo, hi) == 0
    decreases |trace|
  {
    if trace != [] {
      NoRequests(trace[0].at, trace[1..], ip, lo, hi);
    }
  }

  lemma {:induction false} RequestsSplit(trace: seq<Request>, ip: string, lo: int, mid: int, hi: int)
    requires lo <= mid <= hi
    ensures Requests(trace, ip, lo, hi) == Requests(trace, ip, lo, mid) + Requests(trace, ip, mid, hi)
    decreases |trace|
  {
    if trace != [] {
      RequestsSplit(trace[1..], ip, lo, mid, hi);
    }
  }

  /** The window that is open when the interval starts ends at this time; from itself if none is open. */
  function Reset(slot: Option<Slot>, from: nat): (t: nat)
    ensures from <= t <= from + WINDOW_MS
  {
    if slot.None? || slot.value.resetAt <= from then from else Min(slot.value.resetAt, from + WINDOW_MS)
  }

  /** What that window can still admit. */
  function Room(slot: Option<Slot>): nat {
    if slot.None? || MAX_REQUESTS <= slot.value.count then 0 else MAX_REQUESTS - slot.value.count
  }

  /** What is admitted of `early` requests before the end of the open window and `late` ones from then on. */
  function Expected(room: nat, early: nat, late: nat): nat {
    Min(early, room) + Min(late, MAX_REQUESTS)
  }

  function ExpectedIn(slot: Option<Slot>, trace: seq<Request>, ip: string, from: nat): nat {
    Expected(Room(slot), Requests(trace, ip, from, Reset(slot, from)),
             Requests(trace, ip, Reset(slot, from), from + WINDOW_MS))
  }

  lemma {:induction false} NothingLater(store: Store, now: nat, trace: seq<Request>, ip: string, from: nat)
    requires ClockFrom(now, trace) && from + WINDOW_MS <= now
    ensures AdmittedIn(store, trace, ip, from) == 0
    decreases |trace|
  {
    if trace != [] {
      NothingLater(Handle(store, trace[0]).0, trace[0].at, trace[1..], ip, from);
    }
  }

  lemma {:induction false} NoneBetween(trace: seq<Request>, ip: string, t: int)
    ensures Requests(trace, ip, t, t) == 0
    decreases |trace|
  {
    if trace != [] {
      NoneBetween(trace[1..], ip, t);
    }
  }

  /** A request of the interval that starts a window: the rest of the interval belongs to it. */
  lemma WindowStarts(slot: Option<Slot>, r: Request, rest: seq<Request>, from: nat)
    requires from <= r.at < from + WINDOW_MS && ClockFrom(r.at, rest)
    requires slot.None? || slot.value.resetAt <= r.at
    ensures ExpectedIn(slot, [r] + rest, r.ip, from) == 1 + ExpectedIn(Some(Visit(slot, r.at)), rest, r.ip, from)
  {
    var ip, end, t := r.ip, from + WINDOW_MS, Reset(slot, from);
    assert ([r] + rest)[1..] == rest;
    NoRequests(r.at, rest, ip, from, t);
    RequestsSplit(rest, ip, from, t, end);
    NoneBetween(rest, ip, end);
  }

  /** A request of the interval inside an open window takes room, if there is any. */
  lemma WindowGoesOn(slot: Slot, r: Request, rest: seq<Request>, from: nat)
    requires from <= r.at < from + WINDOW_MS && r.at < slot.resetAt
    ensures ExpectedIn(Some(slot), [r] + rest, r.ip, from)
         == (if slot.count < MAX_REQUESTS then 1 else 0) + ExpectedIn(Some(Visit(Some(slot), r.at)), rest, r.ip, from)
  {
    assert ([r] + rest)[1..] == rest;
  }

  /** Counting from a store whose clock is already inside the interval. */
  lemma {:induction false} InsideInterval(store: Store, now: nat, trace: seq<Request>, ip: string, from: nat)
    requires from <= now && ClockFrom(now, trace)
    ensures AdmittedIn(store, trace, ip, from) == ExpectedIn(Lookup(store, ip), trace, ip, from)
    decreases |trace|
  {
    if trace != [] {
      var r, rest, slot := trace[0], trace[1..], Lookup(store, ip);
      assert trace == [r] + rest;
      if from + WINDOW_MS <= r.at {
        NothingLater(store, r.at, trace, ip, from);
        NoRequests(r.at, trace, ip, from, Reset(slot, from));
        NoRequests(r.at, trace, ip, Reset(slot, from), from + WINDOW_MS);
      } else {
        InsideInterval(Handle(store, r).0, r.at, rest, ip, from);
        if r.ip == ip {
          if slot.None? || slot.value.resetAt <= r.at {
            WindowStarts(slot, r, rest, from);
          } else {
            WindowGoesOn(slot.value, r, rest, from);
          }
        }
      }
    }
  }

  /** The requests before time t, of a trace whose clock does not go back. */
  function Before(trace: seq<Request>, t: nat): seq<Request>
    decreases |trace|
  {
    if trace == [] || t <= trace[0].at then [] else [trace[0]] + Before(trace[1..], t)
  }

  /** Main result: an interval of 60 seconds admits, of the requests before the end of the window that is
      open when it starts, as many as that window has room for, and of those from then on up to ten. */
  lemma {:induction false} AdmittedExactly(store: Store, now: nat, trace: seq<Request>, ip: string, from: nat)
    requires ClockFrom(now, trace)
    ensures AdmittedIn(store, trace, ip, from)
         == ExpectedIn(Lookup(Run(store, Before(trace, from)), ip), trace, ip, from)
    decreases |trace|
  {
    if trace == [] {
    } else if trace[0].at < from {
      AdmittedExactly(Handle(store, trace[0]).0, trace[0].at, trace[1..], ip, from);
      assert Before(trace, from)[1..] == Before(trace[1..], from);
    } else {
      InsideInterval(store, trace[0].at, trace, ip, from);
    }
  }

  lemma {:induction false} CountsArePositive(store: Store, trace: seq<Request>, ip: string)
    requires ip in store ==> 1 <= store[ip].count
    ensures ip in Run(store, trace) ==> 1 <= Run(store, trace)[ip].count
    decreases |trace|
  {
    if trace != [] {
      CountsArePositive(Handle(store, trace[0]).0, trace[1..], ip);
    }
  }

  /** Main result: an interval admits at most ten requests of an address if and only if no window is open
      when it starts (then `early` is 0), or that window admits nothing more, or what it still admits and the
      requests from its end on are together at most ten. */
  lemma TenPerMinuteExactly(trace: seq<Request>, ip: string, from: nat)
    requires ClockFrom(0, trace)
    ensures var slot := Lookup(Run(map[], Before(trace, from)), ip);
      var t := Reset(slot, from);
      var early := Min(Requests(trace, ip, from, t), Room(slot));
      AdmittedIn(map[], trace, ip, from) <= 10 <==>
      early == 0 || early + Requests(trace, ip, t, from + 60_000) <= 10
  {
    AdmittedExactly(map[], 0, trace, ip, from);
  }

  /** On every trace with a clock that does not go back, at most 19 requests of an address are admitted in
      any 60 seconds. */
  lemma WindowBound(trace: seq<Request>, ip: string, from: nat)
    requires ClockFrom(0, trace)
    ensures AdmittedIn(map[], trace, ip, from) <= 19
  {
    AdmittedExactly(map[], 0, trace, ip, from);
    CountsArePositive(map[], Before(trace, from), ip);
  }

  /** Ten a minute is what the limiter enforces in an interval that starts when no window is open, as it is
      at a request that opens one. */
  lemma TenFromOpening(trace: seq<Request>, ip: string, from: nat)
    requires ClockFrom(0, trace)
    requires var slot := Lookup(Run(map[], Before(trace, from)), ip); slot.None? || slot.value.resetAt <= from
    ensures AdmittedIn(map[], trace, ip, from) == Min(Requests(trace, ip, from, from + WINDOW_MS), MAX_REQUESTS)
  {
    AdmittedExactly(map[], 0, trace, ip, from);
    NoneBetween(trace, ip, from);
  }

  // ---- The bound is reached, so ten per minute is not what the limiter enforces ----

  function Burst(ip: string, at: nat, n: nat): seq<Request> {
    if n == 0 then [] else [Request(ip, at)] + Burst(ip, at, n - 1)
  }

  lemma {:induction false} RunConcat(store: Store, xs: seq<Request>, ys: seq<Request>)
    ensures Run(store, xs + ys) == Run(Run(store, xs), ys)
    decreases |xs|
  {
    if xs == [] {
      assert xs + ys == ys;
    } else {
      AppendHead(xs, ys);
      RunConcat(Handle(store, xs[0]).0, xs[1..], ys);
    }
  }

  lemma {:induction false} ClockConcat(now: nat, xs: seq<Request>, ys: seq<Request>, mid: nat)
    requires ClockFrom(now, xs) && ClockFrom(mid, ys) && now <= mid && forall r <- xs :: r.at <= mid
    ensures ClockFrom(now, xs + ys)
    decreases |xs|
  {
    if xs == [] {
      assert xs + ys == ys;
    } else {
      AppendHead(xs, ys);
      assert xs[0] in xs && forall r <- xs[1..] :: r in xs;
      ClockConcat(xs[0].at, xs[1..], ys, mid);
    }
  }

  lemma {:induction false} AdmittedConcat(store: Store, xs: seq<Request>, ys: seq<Request>, ip: string, from: nat)
    ensures AdmittedIn(store, xs + ys, ip, from)
         == AdmittedIn(store, xs, ip, from) + AdmittedIn(Run(store, xs), ys, ip, from)
    decreases |xs|
  {
    if xs == [] {
      assert xs + ys == ys;
    } else {
      AppendHead(xs, ys);
      AdmittedConcat(Handle(store, xs[0]).0, xs[1..], ys, ip, from);
    }
  }

  lemma AppendRuns(store: Store, now: nat, xs: seq<Request>, ys: seq<Request>, mid: nat, ip: string, from: nat)
    requires ClockFrom(now, xs) && ClockFrom(mid, ys) && now <= mid && forall r <- xs :: r.at <= mid
    ensures ClockFrom(now, xs + ys)
    ensures Run(store, xs + ys) == Run(Run(store, xs), ys)
    ensures AdmittedIn(store, xs + ys, ip, from)
         == AdmittedIn(store, xs, ip, from) + AdmittedIn(Run(store, xs), ys, ip, from)
  {
    RunConcat(store, xs, ys);
    ClockConcat(now, xs, ys, mid);
    AdmittedConcat(store, xs, ys, ip, from);
  }

  /** n requests inside an open window that has room for them. */
  lemma {:induction false} BurstAdmitted(store: Store, ip: string, at: nat, n: nat, from: nat)
    requires ip in store && at < store[ip].resetAt && store[ip].count + n <= MAX_REQUESTS
    requires from <= at < from + WINDOW_MS
    ensures var xs := Burst(ip, at, n);
      && ClockFrom(at, xs) && (forall r <- xs :: r.at == at)
      && Run(store, xs) == store[ip := Slot(store[ip].count + n, store[ip].resetAt)]
      && AdmittedIn(store, xs, ip, from) == n
    decreases n
  {
    if n != 0 {
      BurstAdmitted(Handle(store, Request(ip, at)).0, ip, at, n - 1, from);
    }
  }

  /** One request that opens a window. */
  lemma WindowOpens(store: Store, ip: string, at: nat, from: nat)
    requires ip !in store || store[ip].resetAt <= at
    ensures var xs := [Request(ip, at)];
      && ClockFrom(at, xs) && Run(store, xs) == store[ip := Slot(1, at + WINDOW_MS)]
      && AdmittedIn(store, xs, ip, from) == if from <= at < from + WINDOW_MS then 1 else 0
  {
    var xs := [Request(ip, at)];
    assert xs[1..] == [];
  }

  /** One request, then nine at the end of its window, then ten when the next window opens. */
  function StraddlingTrace(ip: string): seq<Request> {
    [Request(ip, 0)] + Burst(ip, 59999, 9) + [Request(ip, 60000)] + Burst(ip, 60000, 9)
  }

  lemma WindowBoundIsReached(ip: string)
    ensures ClockFrom(0, StraddlingTrace(ip))
    ensures AdmittedIn(map[], StraddlingTrace(ip), ip, 1) == 19
  {
    var a, b, c, d := [Request(ip, 0)], Burst(ip, 59999, 9), [Request(ip, 60000)], Burst(ip, 60000, 9);
    WindowOpens(map[], ip, 0, 1);
    var s1 := Run(map[], a);
    BurstAdmitted(s1, ip, 59999, 9, 1);
    AppendRuns(map[], 0, a, b, 59999, ip, 1);
    var s2 := Run(s1, b);
    WindowOpens(s2, ip, 60000, 1);
    AppendRuns(map[], 0, a + b, c, 60000, ip, 1);
    var s3 := Run(s2, c);
    BurstAdmitted(s3, ip, 60000, 9, 1);
    AppendRuns(map[], 0, a + b + c, d, 60000, ip, 1);
  }

  // ---- What the answer says ----

  /** Retry-After is the least number of whole seconds after which the window has ended. */
  lemma RetryAfterIsLeast(store: Store, r: Request, seconds: nat)
    requires Handle(store, r).1 == TooManyRequests(seconds)
    ensures r.ip in store && r.at < store[r.ip].resetAt
    ensures forall k: nat :: store[r.ip].resetAt <= r.at + 1000 * k <==> seconds <= k
  {
  }

  /** The remaining number is how many more requests the address may send before the window ends: of those it
      sends, as many are admitted; and up to ten of those from its end on. */
  lemma RemainingIsRoom(store: Store, r: Request, later: seq<Request>)
    requires ClockFrom(r.at, later) && Handle(store, r).1.Allowed?
    ensures var (store1, answer) := Handle(store, r);
      r.ip in store1
      && var end := Reset(Lookup(store1, r.ip), r.at);
         AdmittedIn(store1, later, r.ip, r.at)
         == Min(Requests(later, r.ip, r.at, end), answer.remaining)
            + Min(Requests(later, r.ip, end, r.at + WINDOW_MS), MAX_REQUESTS)
  {
    InsideInterval(Handle(store, r).0, r.at, later, r.ip, r.at);
  }

  /** A request whose address has no open window is admitted as the first of ten. */
  lemma FirstOfTen(store: Store, r: Request)
    requires r.ip !in store || store[r.ip].resetAt <= r.at
    ensures Handle(store, r) == (store[r.ip := Slot(1, r.at + 60_000)], Allowed(9))
  {
  }

  // ---- Retry-After ----

  /** The requests of ip in the trace, and those of them at or after `since`. */
  function Mine(trace: seq<Request>, ip: string, since: nat): seq<Request> {
    if trace == [] then []
    else (if trace[0].ip == ip && since <= trace[0].at then [trace[0]] else []) + Mine(trace[1..], ip, since)
  }

  /** Inside an open window a slot only counts its own address. */
  lemma {:induction false} OpenWindowCounts(store: Store, now: nat, trace: seq<Request>, ip: string, since: nat)
    requires ClockFrom(now, trace) && ip in store && since <= now
    requires forall r <- trace :: r.ip == ip ==> r.at < store[ip].resetAt
    ensures ip in Run(store, trace)
    ensures Run(store, trace)[ip] == Slot(store[ip].count + |Mine(trace, ip, since)|, store[ip].resetAt)
    decreases |trace|
  {
    if trace != [] {
      OpenWindowCounts(Handle(store, trace[0]).0, trace[0].at, trace[1..], ip, since);
    }
  }

  /** The slot after requests that come once the window has ended, those of its address before the next one
      can have. */
  lemma {:induction false} CrossingLate(store: Store, now: nat, trace: seq<Request>, ip: string)
    requires ClockFrom(now, trace) && ip in store && store[ip].resetAt <= now
    requires forall r <- trace :: r.ip == ip ==> r.at < store[ip].resetAt + WINDOW_MS
    ensures var late := Mine(trace, ip, store[ip].resetAt);
      && ip in Run(store, trace)
      && (late == [] ==>
            Run(store, trace)[ip].resetAt == store[ip].resetAt && store[ip].count <= Run(store, trace)[ip].count)
      && (late != [] ==> Run(store, trace)[ip] == Slot(|late|, late[0].at + WINDOW_MS))
    decreases |trace|
  {
    if trace != [] {
      var r, after := trace[0], Handle(store, trace[0]).0;
      if r.ip == ip {
        OpenWindowCounts(after, r.at, trace[1..], ip, store[ip].resetAt);
      } else {
        CrossingLate(after, r.at, trace[1..], ip);
      }
    }
  }

  /** The same for requests that may come before the end of the window as well. */
  lemma {:induction false} CrossingWindow(store: Store, now: nat, trace: seq<Request>, ip: string)
    requires ClockFrom(now, trace) && ip in store && now <= store[ip].resetAt
    requires forall r <- trace :: r.ip == ip ==> r.at < store[ip].resetAt + WINDOW_MS
    ensures var late := Mine(trace, ip, store[ip].resetAt);
      && ip in Run(store, trace)
      && (late == [] ==>
            Run(store, trace)[ip].resetAt == store[ip].resetAt && store[ip].count <= Run(store, trace)[ip].count)
      && (late != [] ==> Run(store, trace)[ip] == Slot(|late|, late[0].at + WINDOW_MS))
    decreases |trace|
  {
    if trace != [] {
      var r, after := trace[0], Handle(store, trace[0]).0;
      if r.at < store[ip].resetAt {
        CrossingWindow(after, r.at, trace[1..], ip);
      } else if r.ip == ip {
        OpenWindowCounts(after, r.at, trace[1..], ip, store[ip].resetAt);
      } else {
        CrossingLate(after, r.at, trace[1..], ip);
      }
    }
  }

  /** Main result: a request is rejected with Retry-After, its address sends others before that many seconds
      have passed, and then retries at or after the advertised time; what others send does not matter. The retry is
      admitted exactly when fewer than ten of the address's requests came between the end of
      the window and the advertised time (the header is rounded up to a second), or the window they
      opened has ended as well. */
  lemma RetryAfterExactly(store: Store, rejected: Request, between: seq<Request>, retry: nat)
    requires Handle(store, rejected).1.TooManyRequests?
    requires ClockFrom(rejected.at, between)
    requires var advertised := rejected.at + 1000 * Handle(store, rejected).1.retryAfter;
      (forall r <- between :: r.ip == rejected.ip ==> r.at < advertised) && advertised <= retry
    ensures var s1 := Handle(store, rejected).0;
      var late := Mine(between, rejected.ip, s1[rejected.ip].resetAt);
      Handle(Run(s1, between), Request(rejected.ip, retry)).1.Allowed? <==>
      |late| < 10 || late[0].at + 60_000 <= retry
  {
    var s1 := Handle(store, rejected).0;
    CrossingWindow(s1, rejected.at, between, rejected.ip);
  }

  /** One request at 1 and the rest of the quota at 2; after the rejection at 2, ten when the window ends. */
  function BusyTrace(ip: string): (seq<Request>, Request, seq<Request>) {
    ([Request(ip, 1)] + Burst(ip, 2, 9), Request(ip, 2), [Request(ip, 60001)] + Burst(ip, 60001, 9))
  }

  /** A retry at the advertised time, 60 seconds after the rejection, is rejected again. */
  lemma RetryOnTimeRejected(ip: string)
    ensures var (past, rejected, between) := BusyTrace(ip);
      && ClockFrom(0, past + [rejected] + between)
      && Handle(Run(map[], past), rejected).1 == TooManyRequests(60)
      && Handle(Run(map[], past + [rejected] + between), Request(ip, 60002)).1.TooManyRequests?
  {
    var (past, rejected, between) := BusyTrace(ip);
    var first, next := Request(ip, 1), Request(ip, 60001);
    WindowOpens(map[], ip, 1, 0);
    BurstAdmitted(Run(map[], [first]), ip, 2, 9, 0);
    AppendRuns(map[], 0, [first], Burst(ip, 2, 9), 2, ip, 0);
    var s1 := Run(map[], past);
    var s2 := Handle(s1, rejected).0;
    assert [rejected][1..] == [];
    AppendRuns(map[], 0, past, [rejected], 2, ip, 0);
    WindowOpens(s2, ip, 60001, 60001);
    BurstAdmitted(Run(s2, [next]), ip, 60001, 9, 60001);
    AppendRuns(s2, 2, [next], Burst(ip, 60001, 9), 60001, ip, 0);
    AppendRuns(map[], 0, past + [rejected], between, 60001, ip, 0);
  }

  lemma NoneMine(trace: seq<Request>, ip: string, since: nat)
    requires forall r <- trace :: r.ip != ip
    ensures Mine(trace, ip, since) == []
  {
  }

  /** A client alone behind its address is always admitted at the advertised time. */
  lemma LoneRetryAdmitted(store: Store, rejected: Request, between: seq<Request>, retry: nat)
    requires Handle(store, rejected).1.TooManyRequests?
    requires ClockFrom(rejected.at, between) && forall r <- between :: r.ip != rejected.ip
    requires rejected.at + 1000 * Handle(store, rejected).1.retryAfter <= retry
    ensures Handle(Run(Handle(store, rejected).0, between), Request(rejected.ip, retry)).1.Allowed?
  {
    NoneMine(between, rejected.ip, Handle(store, rejected).0[rejected.ip].resetAt);
    RetryAfterExactly(store, rejected, between, retry);
  }
}
