module SocketTheorems {
  import opened SocketModel

  /** The number of clients that hold an address. */
  function Holding(sockets: map<nat, Sock>, clients: seq<nat>, ip: string): nat
    requires forall id <- clients :: id in sockets
  {
    if clients == [] then 0
    else Holding(sockets, clients[..|clients| - 1], ip)
         + if sockets[clients[|clients| - 1]].ip == ip then 1 else 0
  }

  predicate Distinct(clients: seq<nat>) {
    forall i, j :: 0 <= i < j < |clients| ==> clients[i] != clients[j]
  }

  /** ipCounts holds exactly the addresses some client holds, with their numbers, none above the limit. */
  ghost predicate CountsAgree(s: State)
    requires Known(s)
  {
    && (forall ip :: ip != "" ==> CountOf(s.ipCounts, ip) == Holding(s.sockets, s.clients, ip))
    && (forall ip :: ip in s.ipCounts ==> ip != "" && 0 < s.ipCounts[ip] <= MAX_CONNECTIONS_PER_IP)
  }

  ghost predicate Inv(s: State) {
    && Known(s) && Distinct(s.clients)
    && (forall id :: id in s.sockets ==> id < s.next)
    && (forall id :: id in s.sockets && s.sockets[id].acquired ==> id in s.clients && s.sockets[id].ip != "")
    && (forall id <- s.clients :: s.sockets[id].acquired == (s.sockets[id].ip != ""))
    && (forall id <- s.clients :: s.sockets[id].missedPongs <= MAX_MISSED_PONGS)
    && CountsAgree(s)
  }

  // ---- Lists of clients ----

  predicate SameAddresses(a: map<nat, Sock>, b: map<nat, Sock>) {
    a.Keys <= b.Keys && forall id :: id in a ==> a[id].ip == b[id].ip
  }

  lemma {:induction false} HoldingSame(a: map<nat, Sock>, b: map<nat, Sock>, clients: seq<nat>, ip: string)
    requires (forall id <- clients :: id in a) && SameAddresses(a, b)
    ensures forall id <- clients :: id in b
    ensures Holding(a, clients, ip) == Holding(b, clients, ip)
    decreases |clients|
  {
    if clients != [] {
      HoldingSame(a, b, clients[..|clients| - 1], ip);
    }
  }

  lemma {:induction false} HoldingAppend(sockets: map<nat, Sock>, a: seq<nat>, b: seq<nat>, ip: string)
    requires (forall id <- a :: id in sockets) && (forall id <- b :: id in sockets)
    ensures Holding(sockets, a + b, ip) == Holding(sockets, a, ip) + Holding(sockets, b, ip)
    decreases |b|
  {
    if b == [] {
      assert a + b == a;
    } else {
      HoldingAppend(sockets, a, b[..|b| - 1], ip);
      assert (a + b)[..|a + b| - 1] == a + b[..|b| - 1];
    }
  }

  /** Without removes the id, keeps the others in order, and does nothing if it is not there. */
  lemma {:induction false} WithoutSplits(clients: seq<nat>, id: nat)
    requires Distinct(clients)
    ensures id !in clients ==> Without(clients, id) == clients
    ensures forall i | 0 <= i < |clients| && clients[i] == id :: Without(clients, id) == clients[..i] + clients[i + 1..]
    decreases |clients|
  {
    if clients != [] {
      var rest := clients[1..];
      WithoutSplits(rest, id);
      assert clients == [clients[0]] + rest;
      if clients[0] == id {
        assert id !in rest;
      } else {
        forall i | 0 <= i < |clients| && clients[i] == id
          ensures Without(clients, id) == clients[..i] + clients[i + 1..]
        {
          assert rest[i - 1] == id;
          assert [clients[0]] + (rest[..i - 1] + rest[i..]) == clients[..i] + clients[i + 1..];
        }
      }
    }
  }

  lemma {:induction false} WithoutContents(clients: seq<nat>, id: nat)
    requires Distinct(clients)
    ensures Distinct(Without(clients, id))
    ensures forall x :: x in Without(clients, id) <==> x in clients && x != id
    decreases |clients|
  {
    if clients != [] {
      var rest := clients[1..];
      WithoutContents(rest, id);
      assert clients == [clients[0]] + rest && clients[0] !in rest;
      assert clients[0] !in Without(rest, id);
    }
  }

  lemma HoldingHead(sockets: map<nat, Sock>, clients: seq<nat>, ip: string)
    requires clients != [] && forall id <- clients :: id in sockets
    ensures Holding(sockets, clients, ip)
         == Holding(sockets, clients[1..], ip) + if sockets[clients[0]].ip == ip then 1 else 0
  {
    HoldingAppend(sockets, [clients[0]], clients[1..], ip);
    assert clients == [clients[0]] + clients[1..];
  }

  lemma HoldingRemoved(sockets: map<nat, Sock>, clients: seq<nat>, i: nat, ip: string)
    requires i < |clients| && forall x <- clients :: x in sockets
    ensures forall x <- clients[..i] + clients[i + 1..] :: x in sockets
    ensures Holding(sockets, clients[..i] + clients[i + 1..], ip)
         == Holding(sockets, clients, ip) - if sockets[clients[i]].ip == ip then 1 else 0
  {
    var before, after, rest := clients[..i], clients[i + 1..], clients[i..];
    assert clients == before + rest && rest[1..] == after;
    HoldingHead(sockets, rest, ip);
    HoldingAppend(sockets, before, rest, ip);
    HoldingAppend(sockets, before, after, ip);
  }

  lemma HoldingWithout(sockets: map<nat, Sock>, clients: seq<nat>, id: nat, ip: string)
    requires Distinct(clients) && forall x <- clients :: x in sockets
    ensures forall x <- Without(clients, id) :: x in sockets
    ensures Holding(sockets, Without(clients, id), ip)
         == Holding(sockets, clients, ip) - if id in clients && sockets[id].ip == ip then 1 else 0
  {
    WithoutSplits(clients, id);
    if id in clients {
      var i :| 0 <= i < |clients| && clients[i] == id;
      HoldingRemoved(sockets, clients, i, ip);
    }
  }

  // ---- Each step keeps the accounting ----

  lemma DropKeepsHolding(s: State, id: nat, ip: string)
    requires Inv(s) && id in s.sockets && ip != ""
    ensures Known(Drop(s, id))
    ensures CountOf(Drop(s, id).ipCounts, ip) == Holding(Drop(s, id).sockets, Drop(s, id).clients, ip)
  {
    var s1 := Drop(s, id);
    HoldingWithout(s.sockets, s.clients, id, ip);
    HoldingSame(s.sockets, s1.sockets, s1.clients, ip);
  }

  lemma DropKeepsCounts(s: State, id: nat)
    requires Inv(s) && id in s.sockets
    ensures Known(Drop(s, id)) && CountsAgree(Drop(s, id))
  {
    WithoutContents(s.clients, id);
    forall ip | ip != "" {
      DropKeepsHolding(s, id, ip);
    }
  }

  lemma DropKeepsInv(s: State, id: nat)
    requires Inv(s) && id in s.sockets
    ensures Inv(Drop(s, id)) && id !in Drop(s, id).clients
    ensures forall x :: x in Drop(s, id).clients <==> x in s.clients && x != id
  {
    WithoutContents(s.clients, id);
    DropKeepsCounts(s, id);
  }

  /** Changing missedPongs of one socket does not touch the accounting. */
  lemma PongsKeepInv(s: State, id: nat, missed: nat)
    requires Inv(s) && id in s.sockets && (id in s.clients ==> missed <= MAX_MISSED_PONGS)
    ensures Inv(s.(sockets := s.sockets[id := s.sockets[id].(missedPongs := missed)]))
  {
    var s1 := s.(sockets := s.sockets[id := s.sockets[id].(missedPongs := missed)]);
    forall ip
      ensures Holding(s1.sockets, s1.clients, ip) == Holding(s.sockets, s.clients, ip)
    {
      HoldingSame(s.sockets, s1.sockets, s.clients, ip);
    }
  }

  /** The state once a connection has been registered. */
  function Registered(s: State, ip: string): State {
    Acquire(s, ip).(clients := s.clients + [s.next])
  }

  lemma RegisteredHolding(s: State, ip: string, a: string)
    requires Inv(s)
    ensures Known(Registered(s, ip))
    ensures Holding(Registered(s, ip).sockets, Registered(s, ip).clients, a)
         == Holding(s.sockets, s.clients, a) + if a == ip then 1 else 0
  {
    var s1 := Registered(s, ip);
    assert SameAddresses(s.sockets, s1.sockets);
    HoldingSame(s.sockets, s1.sockets, s.clients, a);
    assert s1.clients[..|s.clients|] == s.clients;
  }

  lemma RegisteredCounts(s: State, ip: string)
    requires Inv(s) && !OverLimit(s, ip) && Known(Registered(s, ip))
    ensures CountsAgree(Registered(s, ip))
  {
    forall a {
      RegisteredHolding(s, ip, a);
    }
  }

  lemma RegisteringKeepsInv(s: State, ip: string)
    requires Inv(s) && !OverLimit(s, ip)
    ensures Inv(Registered(s, ip))
  {
    var s1 := Registered(s, ip);
    assert s.next !in s.clients && s.next !in s.sockets;
    assert forall id :: id in s1.clients <==> id in s.clients || id == s.next;
    assert Known(s1) && Distinct(s1.clients);
    RegisteredCounts(s, ip);
  }

  lemma UnauthorizedKeepsCounts(s: State, ip: string)
    requires Inv(s) && !OverLimit(s, ip)
    ensures var s1 := Release(Acquire(s, ip), s.next); Known(s1) && CountsAgree(s1)
  {
    var s1 := Release(Acquire(s, ip), s.next);
    assert forall a :: a != "" ==> CountOf(s1.ipCounts, a) == CountOf(s.ipCounts, a);
    forall a | a != ""
      ensures Holding(s1.sockets, s1.clients, a) == Holding(s.sockets, s.clients, a)
    {
      HoldingSame(s.sockets, s1.sockets, s.clients, a);
    }
  }

  lemma UnauthorizedKeepsInv(s: State, ip: string)
    requires Inv(s) && !OverLimit(s, ip)
    ensures Inv(Release(Acquire(s, ip), s.next))
  {
    UnauthorizedKeepsCounts(s, ip);
  }

  lemma ConnectKeepsInv(s: State, urlOk: bool, ip: string, authOk: bool, welcomeOk: bool)
    requires Inv(s)
    ensures Inv(Connect(s, urlOk, ip, authOk, welcomeOk))
  {
    if urlOk && !OverLimit(s, ip) {
      if authOk {
        RegisteringKeepsInv(s, ip);
        DropKeepsInv(Registered(s, ip), s.next);
      } else {
        UnauthorizedKeepsInv(s, ip);
      }
    }
  }

  lemma {:induction false} SendAllKeepsInv(s: State, order: seq<nat>, failing: set<nat>)
    requires Inv(s) && forall id <- order :: id in s.sockets
    ensures Inv(SendAll(s, order, failing))
    decreases |order|
  {
    if order != [] {
      DropKeepsInv(s, order[0]);
      SendAllKeepsInv(if order[0] in failing then Drop(s, order[0]) else s, order[1..], failing);
    }
  }

  lemma BeatKeepsInv(s: State, id: nat, fails: bool)
    requires Inv(s) && id in s.sockets
    ensures Inv(Beat(s, id, fails))
  {
    if MAX_MISSED_PONGS <= s.sockets[id].missedPongs {
      DropKeepsInv(s, id);
    } else {
      PongsKeepInv(s, id, s.sockets[id].missedPongs + 1);
      DropKeepsInv(Bump(s, id), id);
    }
  }

  lemma {:induction false} BeatAllKeepsInv(s: State, order: seq<nat>, failing: set<nat>)
    requires Inv(s) && forall id <- order :: id in s.sockets
    ensures Inv(BeatAll(s, order, failing))
    decreases |order|
  {
    if order != [] {
      BeatKeepsInv(s, order[0], order[0] in failing);
      BeatAllKeepsInv(Beat(s, order[0], order[0] in failing), order[1..], failing);
    }
  }

  /** Part of a shutdown: rest are the clients still to be released. */
  ghost predicate Releasing(s: State, rest: seq<nat>) {
    && Distinct(rest) && (forall id <- rest :: id in s.sockets)
    && (forall id :: id in s.sockets && s.sockets[id].acquired ==> id in rest)
    && (forall id <- rest :: s.sockets[id].acquired == (s.sockets[id].ip != ""))
    && (forall ip :: ip != "" ==> CountOf(s.ipCounts, ip) == Holding(s.sockets, rest, ip))
    && (forall ip :: ip in s.ipCounts ==> ip != "" && 0 < s.ipCounts[ip])
  }

  lemma ReleaseOneCounts(s: State, rest: seq<nat>, ip: string)
    requires Releasing(s, rest) && rest != [] && ip != ""
    ensures forall id <- rest[1..] :: id in Release(s, rest[0]).sockets
    ensures var s1 := Release(s, rest[0]); CountOf(s1.ipCounts, ip) == Holding(s1.sockets, rest[1..], ip)
  {
    var s1 := Release(s, rest[0]);
    HoldingHead(s.sockets, rest, ip);
    HoldingSame(s.sockets, s1.sockets, rest[1..], ip);
  }

  lemma ReleaseOne(s: State, rest: seq<nat>)
    requires Releasing(s, rest) && rest != []
    ensures Releasing(Release(s, rest[0]), rest[1..])
  {
    var s1 := Release(s, rest[0]);
    assert rest == [rest[0]] + rest[1..];
    forall ip | ip != ""
      ensures CountOf(s1.ipCounts, ip) == Holding(s1.sockets, rest[1..], ip)
    {
      ReleaseOneCounts(s, rest, ip);
    }
  }

  lemma {:induction false} ReleaseAllEmpties(s: State, rest: seq<nat>)
    requires Releasing(s, rest)
    ensures var r := ReleaseAll(s, rest);
      r.ipCounts == map[] && r.next == s.next && forall id :: id in r.sockets ==> !r.sockets[id].acquired
    decreases |rest|
  {
    if rest != [] {
      ReleaseOne(s, rest);
      ReleaseAllEmpties(Release(s, rest[0]), rest[1..]);
    } else {
      assert forall ip :: ip in s.ipCounts ==> CountOf(s.ipCounts, ip) == 0;
    }
  }

  /** Closing the server leaves no count behind: ipCounts is already empty before it is cleared. */
  lemma ShutdownLeavesNothing(s: State)
    requires Inv(s)
    ensures ReleaseAll(s, s.clients).ipCounts == map[]
    ensures Inv(Step(s, Shutdown))
  {
    ReleaseAllEmpties(s, s.clients);
  }

  lemma InvStep(s: State, e: Event)
    requires Inv(s)
    ensures Inv(Step(s, e))
  {
    match e
    case Connection(urlOk, ip, authOk, welcomeOk) => ConnectKeepsInv(s, urlOk, ip, authOk, welcomeOk);
    case Pong(id) => if id in s.sockets { PongsKeepInv(s, id, 0); }
    case Gone(id) => if id in s.sockets { DropKeepsInv(s, id); }
    case Broadcast(failing) => SendAllKeepsInv(s, s.clients, failing);
    case Tick(failing) => BeatAllKeepsInv(s, s.clients, failing);
    case Shutdown => ShutdownLeavesNothing(s);
  }

  ghost function Run(s: State, es: seq<Event>): State
    requires Inv(s)
    decreases |es|
  {
    if es == [] then s else InvStep(s, es[0]); Run(Step(s, es[0]), es[1..])
  }

  lemma {:induction false} InvRun(s: State, es: seq<Event>)
    requires Inv(s)
    ensures Inv(Run(s, es))
    decreases |es|
  {
    if es != [] {
      InvStep(s, es[0]);
      InvRun(Step(s, es[0]), es[1..]);
    }
  }

  /** Main result: after every run of connections, pongs, errors, closes, failed sends, heartbeats and
      shutdowns, an address's count is the number of clients that hold it, at most ten; addresses that
      no client holds have no entry. */
  lemma AccountingIsExact(es: seq<Event>, ip: string)
    requires ip != ""
    ensures Inv(Initial()) && Inv(Run(Initial(), es))
    ensures var s := Run(Initial(), es);
      && CountOf(s.ipCounts, ip) == Holding(s.sockets, s.clients, ip) <= 10
      && (ip in s.ipCounts <==> 0 < Holding(s.sockets, s.clients, ip))
  {
    assert Inv(Initial());
    InvRun(Initial(), es);
  }

  /** A connection becomes a client exactly when its URL, its token and its welcome message are good and
      fewer than ten clients hold its address. */
  lemma ConnectionAdmittedExactly(es: seq<Event>, urlOk: bool, ip: string, authOk: bool, welcomeOk: bool)
    ensures Inv(Initial()) && Inv(Run(Initial(), es))
    ensures var s := Run(Initial(), es);
      var s1 := Step(s, Connection(urlOk, ip, authOk, welcomeOk));
      s.next in s1.clients <==>
      urlOk && authOk && welcomeOk && (ip == "" || Holding(s.sockets, s.clients, ip) < 10)
  {
    assert Inv(Initial());
    InvRun(Initial(), es);
    var s := Run(Initial(), es);
    assert s.next !in s.clients;
    if urlOk && !OverLimit(s, ip) && authOk {
      RegisteringKeepsInv(s, ip);
      DropKeepsInv(Registered(s, ip), s.next);
    }
  }

  /** Events that end a connection may come any number of times: only the first has an effect. */
  lemma ReleasedOnce(s: State, id: nat)
    requires Inv(s) && id in s.sockets
    ensures Drop(Drop(s, id), id) == Drop(s, id)
  {
    DropKeepsInv(s, id);
    WithoutSplits(Drop(s, id).clients, id);
  }

  // ---- Heartbeats ----

  lemma BeatOther(s: State, other: nat, fails: bool, id: nat)
    requires Inv(s) && other in s.sockets && id in s.sockets && id != other
    ensures Inv(Beat(s, other, fails))
    ensures var r := Beat(s, other, fails);
      r.sockets[id].missedPongs == s.sockets[id].missedPongs && (id in r.clients <==> id in s.clients)
  {
    if MAX_MISSED_PONGS <= s.sockets[other].missedPongs {
      DropKeepsInv(s, other);
    } else {
      PongsKeepInv(s, other, s.sockets[other].missedPongs + 1);
      DropKeepsInv(Bump(s, other), other);
    }
  }

  lemma BeatOwn(s: State, id: nat, fails: bool)
    requires Inv(s) && id in s.sockets
    ensures Inv(Beat(s, id, fails))
    ensures var r := Beat(s, id, fails);
      && (id in r.clients <==> id in s.clients && s.sockets[id].missedPongs < MAX_MISSED_PONGS && !fails)
      && (id in r.clients ==> r.sockets[id].missedPongs == s.sockets[id].missedPongs + 1)
  {
    if MAX_MISSED_PONGS <= s.sockets[id].missedPongs {
      DropKeepsInv(s, id);
    } else {
      PongsKeepInv(s, id, s.sockets[id].missedPongs + 1);
      DropKeepsInv(Bump(s, id), id);
    }
  }

  /** A heartbeat that does not visit a socket leaves it alone. */
  lemma {:induction false} BeatAllElsewhere(s: State, order: seq<nat>, failing: set<nat>, id: nat)
    requires Inv(s) && (forall x <- order :: x in s.sockets) && id in s.sockets && id !in order
    ensures var r := BeatAll(s, order, failing);
      r.sockets[id].missedPongs == s.sockets[id].missedPongs && (id in r.clients <==> id in s.clients)
    decreases |order|
  {
    if order != [] {
      BeatOther(s, order[0], order[0] in failing, id);
      BeatAllElsewhere(Beat(s, order[0], order[0] in failing), order[1..], failing, id);
    }
  }

  lemma {:induction false} BeatAllOn(s: State, order: seq<nat>, failing: set<nat>, id: nat)
    requires Inv(s) && Distinct(order) && (forall x <- order :: x in s.sockets) && id in order
    ensures id in s.sockets
    ensures var r := BeatAll(s, order, failing);
      && (id in r.clients <==> id in s.clients && s.sockets[id].missedPongs < MAX_MISSED_PONGS && id !in failing)
      && (id in r.clients ==> r.sockets[id].missedPongs == s.sockets[id].missedPongs + 1)
    decreases |order|
  {
    var fails, s1 := order[0] in failing, Beat(s, order[0], order[0] in failing);
    assert order == [order[0]] + order[1..];
    if id == order[0] {
      BeatOwn(s, id, fails);
      BeatAllElsewhere(s1, order[1..], failing, id);
    } else {
      BeatOther(s, order[0], fails, id);
      BeatAllOn(s1, order[1..], failing, id);
    }
  }

  /** A heartbeat drops a client exactly when it has missed two pongs or its ping throws; every other
      client has missed one more. */
  lemma TickExactly(s: State, failing: set<nat>, id: nat)
    requires Inv(s) && id in s.clients
    ensures id in s.sockets && id in Step(s, Tick(failing)).sockets
    ensures var s1 := Step(s, Tick(failing));
      && (id in s1.clients <==> s.sockets[id].missedPongs < MAX_MISSED_PONGS && id !in failing)
      && (id in s1.clients ==> s1.sockets[id].missedPongs == s.sockets[id].missedPongs + 1)
  {
    BeatAllOn(s, s.clients, failing, id);
  }

  lemma {:induction false} SendAllOn(s: State, order: seq<nat>, failing: set<nat>, id: nat)
    requires Inv(s) && (forall x <- order :: x in s.sockets) && id in s.sockets
    ensures var r := SendAll(s, order, failing);
      r.sockets[id].missedPongs == s.sockets[id].missedPongs && (id in r.clients ==> id in s.clients)
    decreases |order|
  {
    if order != [] {
      DropKeepsInv(s, order[0]);
      SendAllOn(if order[0] in failing then Drop(s, order[0]) else s, order[1..], failing, id);
    }
  }

  function Ticks(es: seq<Event>): nat {
    if es == [] then 0 else (if es[0].Tick? then 1 else 0) + Ticks(es[1..])
  }

  /** Without a pong of its own, a socket that is still connected has missed one more for each tick. */
  lemma QuietStep(s: State, e: Event, id: nat)
    requires Inv(s) && id in s.sockets && e != Pong(id)
    ensures var s1 := Step(s, e);
      id in s1.sockets
      && (id in s1.clients ==>
            id in s.clients && s1.sockets[id].missedPongs == s.sockets[id].missedPongs + if e.Tick? then 1 else 0)
  {
    match e
    case Connection(urlOk, ip, authOk, welcomeOk) =>
      if urlOk && !OverLimit(s, ip) && authOk {
        RegisteringKeepsInv(s, ip);
        DropKeepsInv(Registered(s, ip), s.next);
      }
    case Pong(_) =>
    case Gone(other) => if other in s.sockets { DropKeepsInv(s, other); }
    case Broadcast(failing) => SendAllOn(s, s.clients, failing, id);
    case Tick(failing) =>
      if id in s.clients {
        BeatAllOn(s, s.clients, failing, id);
      } else {
        BeatAllElsewhere(s, s.clients, failing, id);
      }
    case Shutdown =>
  }

  lemma {:induction false} QuietRun(s: State, es: seq<Event>, id: nat)
    requires Inv(s) && id in s.sockets && Pong(id) !in es
    ensures var r := Run(s, es);
      id in r.sockets
      && (id in r.clients ==> id in s.clients && r.sockets[id].missedPongs == s.sockets[id].missedPongs + Ticks(es))
    decreases |es|
  {
    if es != [] {
      InvStep(s, es[0]);
      assert es[0] in es;
      QuietStep(s, es[0], id);
      QuietRun(Step(s, es[0]), es[1..], id);
    }
  }

  /** Main result: a socket that sends no pong is gone by its third heartbeat, whatever else happens. */
  lemma SilentSocketRemoved(s: State, es: seq<Event>, id: nat)
    requires Inv(s) && id in s.sockets && Pong(id) !in es && MAX_MISSED_PONGS < Ticks(es)
    ensures id !in Run(s, es).clients
  {
    InvRun(s, es);
    QuietRun(s, es, id);
  }
}
