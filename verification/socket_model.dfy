/** Connection accounting of backend/src/websocket.js as values. Sockets are numbered in the order they
    are let past the per-address limit. */
module SocketModel {
  const MAX_MISSED_PONGS: nat := 2
  const MAX_CONNECTIONS_PER_IP: nat := 10

  /** acquired is the ipAcquired flag that the socket's releaseIp closes over. */
  datatype Sock = Sock(ip: string, acquired: bool, missedPongs: nat)

  /** clients is a Set in insertion order, which is the order its loops visit. */
  datatype State = State(sockets: map<nat, Sock>, next: nat, clients: seq<nat>, ipCounts: map<string, nat>)

  function Initial(): State {
    State(map[], 0, [], map[])
  }

  function CountOf(ipCounts: map<string, nat>, ip: string): nat {
    if ip in ipCounts then ipCounts[ip] else 0
  }

  /** releaseIp: only the first call after the address was acquired has an effect. */
  function Release(s: State, id: nat): State
    requires id in s.sockets
  {
    var k := s.sockets[id];
    if !k.acquired then s
    else s.(sockets := s.sockets[id := k.(acquired := false)],
            ipCounts := if CountOf(s.ipCounts, k.ip) <= 1 then s.ipCounts - {k.ip}
                        else s.ipCounts[k.ip := s.ipCounts[k.ip] - 1])
  }

  function Without(clients: seq<nat>, id: nat): seq<nat> {
    if clients == [] then []
    else (if clients[0] == id then [] else [clients[0]]) + Without(clients[1..], id)
  }

  /** clients.delete and releaseIp, as error, close, a failed send and a terminated connection do. */
  function Drop(s: State, id: nat): (r: State)
    requires id in s.sockets
    ensures r.sockets.Keys == s.sockets.Keys
  {
    Release(s, id).(clients := Without(s.clients, id))
  }

  function Bump(s: State, id: nat): State
    requires id in s.sockets
  {
    s.(sockets := s.sockets[id := s.sockets[id].(missedPongs := s.sockets[id].missedPongs + 1)])
  }

  /** One socket's part of a heartbeat; pingFails says that ping throws. */
  function Beat(s: State, id: nat, pingFails: bool): (r: State)
    requires id in s.sockets
    ensures r.sockets.Keys == s.sockets.Keys
  {
    if MAX_MISSED_PONGS <= s.sockets[id].missedPongs then Drop(s, id)
    else if pingFails then Drop(Bump(s, id), id)
    else Bump(s, id)
  }

  function BeatAll(s: State, order: seq<nat>, failing: set<nat>): (r: State)
    requires forall id <- order :: id in s.sockets
    ensures r.sockets.Keys == s.sockets.Keys
    decreases |order|
  {
    if order == [] then s else BeatAll(Beat(s, order[0], order[0] in failing), order[1..], failing)
  }

  /** Sockets whose send throws are dropped. */
  function SendAll(s: State, order: seq<nat>, failing: set<nat>): (r: State)
    requires forall id <- order :: id in s.sockets
    ensures r.sockets.Keys == s.sockets.Keys
    decreases |order|
  {
    if order == [] then s
    else SendAll(if order[0] in failing then Drop(s, order[0]) else s, order[1..], failing)
  }

  function ReleaseAll(s: State, order: seq<nat>): (r: State)
    requires forall id <- order :: id in s.sockets
    ensures r.sockets.Keys == s.sockets.Keys
    decreases |order|
  {
    if order == [] then s else ReleaseAll(Release(s, order[0]), order[1..])
  }

  /** An empty ip is one that could not be determined; it is neither counted nor limited. */
  function Acquire(s: State, ip: string): State {
    State(s.sockets[s.next := Sock(ip, ip != "", 0)], s.next + 1, s.clients,
          if ip != "" then s.ipCounts[ip := CountOf(s.ipCounts, ip) + 1] else s.ipCounts)
  }

  predicate OverLimit(s: State, ip: string) {
    ip != "" && MAX_CONNECTIONS_PER_IP <= CountOf(s.ipCounts, ip)
  }

  /** A new connection: its URL parses or not, its token is accepted or not, and the welcome message is
      sent or the send throws. */
  function Connect(s: State, urlOk: bool, ip: string, authOk: bool, welcomeOk: bool): State {
    if !urlOk || OverLimit(s, ip) then s
    else
      var s1 := Acquire(s, ip);
      if !authOk then Release(s1, s.next)
      else
        var s2 := s1.(clients := s1.clients + [s.next]);
        if welcomeOk then s2 else Drop(s2, s.next)
  }

  datatype Event =
    | Connection(urlOk: bool, ip: string, authOk: bool, welcomeOk: bool)
    | Pong(id: nat)
    | Gone(id: nat)
    | Broadcast(failing: set<nat>)
    | Tick(failing: set<nat>)
    | Shutdown

  /** Every client is a known socket. */
  predicate Known(s: State) {
    forall id <- s.clients :: id in s.sockets
  }

  /** Events of sockets that do not exist have no effect. */
  function Step(s: State, e: Event): State
    requires Known(s)
  {
    match e
    case Connection(urlOk, ip, authOk, welcomeOk) => Connect(s, urlOk, ip, authOk, welcomeOk)
    case Pong(id) =>
      if id in s.sockets then s.(sockets := s.sockets[id := s.sockets[id].(missedPongs := 0)]) else s
    case Gone(id) => if id in s.sockets then Drop(s, id) else s
    case Broadcast(failing) => SendAll(s, s.clients, failing)
    case Tick(failing) => BeatAll(s, s.clients, failing)
    case Shutdown => ReleaseAll(s, s.clients).(clients := [], ipCounts := map[])
  }
}
