/** The fixed-window limiter of backend/src/middleware/notaryRateLimiter.js as values. Times are milliseconds. */
module LimiterModel {
  import opened Wrappers

  const WINDOW_MS: nat := 60000
  const MAX_REQUESTS: nat := 10

  datatype Slot = Slot(count: nat, resetAt: nat)

  datatype Response = Allowed(remaining: nat) | TooManyRequests(retryAfter: nat)

  datatype Request = Request(ip: string, at: nat)

  type Store = map<string, Slot>

  function Lookup(store: Store, ip: string): Option<Slot> {
    if ip in store then Some(store[ip]) else None
  }

  /** The slot an address has after one more request. */
  function Visit(slot: Option<Slot>, now: nat): Slot {
    if slot.None? || slot.value.resetAt <= now then Slot(1, now + WINDOW_MS)
    else slot.value.(count := slot.value.count + 1)
  }

  /** Milliseconds to seconds, rounded up. */
  function CeilSeconds(ms: nat): nat {
    (ms + 999) / 1000
  }

  function Respond(slot: Slot, now: nat): Response {
    if slot.count <= MAX_REQUESTS then Allowed(MAX_REQUESTS - slot.count)
    else TooManyRequests(CeilSeconds(if now <= slot.resetAt then slot.resetAt - now else 0))
  }

  function Handle(store: Store, r: Request): (Store, Response) {
    var slot := Visit(Lookup(store, r.ip), r.at);
    (store[r.ip := slot], Respond(slot, r.at))
  }

  function Run(store: Store, trace: seq<Request>): Store
    decreases |trace|
  {
    if trace == [] then store else Run(Handle(store, trace[0]).0, trace[1..])
  }

  predicate ClockFrom(now: nat, trace: seq<Request>)
    decreases |trace|
  {
    trace != [] ==> now <= trace[0].at && ClockFrom(trace[0].at, trace[1..])
  }

  predicate Counts(store: Store, r: Request, ip: string, from: nat) {
    r.ip == ip && from <= r.at < from + WINDOW_MS && Handle(store, r).1.Allowed?
  }

  /** The requests of ip admitted at times in [from, from + WINDOW_MS). */
  function AdmittedIn(store: Store, trace: seq<Request>, ip: string, from: nat): nat
    decreases |trace|
  {
    if trace == [] then 0
    else (if Counts(store, trace[0], ip, from) then 1 else 0)
         + AdmittedIn(Handle(store, trace[0]).0, trace[1..], ip, from)
  }
}
