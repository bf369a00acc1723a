/** What each event does to one client, and how long a client stays. */
module SocketLaws {
  import opened SocketModel
  import opened SocketTheorems

  /** A pong sets its socket's missed pongs to zero and changes nothing else. */
  lemma PongEffect(s: State, id: nat)
    requires Inv(s) && id in s.sockets
    ensures var s1 := Step(s, Pong(id));
      && id in s1.sockets && s1.sockets.Keys == s.sockets.Keys
      && s1.sockets[id].missedPongs == 0
      && s1.sockets[id].ip == s.sockets[id].ip && s1.sockets[id].acquired == s.sockets[id].acquired
      && (forall other <- s.sockets :: other != id ==> s1.sockets[other] == s.sockets[other])
      && s1.next == s.next && s1.clients == s.clients && s1.ipCounts == s.ipCounts
  {
  }

  lemma {:induction false} SendAllExactly(s: State, order: seq<nat>, failing: set<nat>, id: nat)
    requires Inv(s) && (forall x <- order :: x in s.sockets) && id in s.sockets
    ensures var r := SendAll(s, order, failing);
      r.sockets[id].missedPongs == s.sockets[id].missedPongs
      && (id in r.clients <==> id in s.clients && !(id in order && id in failing))
    decreases |order|
  {
    if order != [] {
      DropKeepsInv(s, order[0]);
      assert order == [order[0]] + order[1..];
      SendAllExactly(if order[0] in failing then Drop(s, order[0]) else s, order[1..], failing, id);
    }
  }

  /** A broadcast drops exactly the clients to which the send fails. */
  lemma BroadcastExactly(s: State, failing: set<nat>, id: nat)
    requires Inv(s) && id in s.clients
    ensures id in s.sockets && id in Step(s, Broadcast(failing)).sockets
    ensures var s1 := Step(s, Broadcast(failing));
      (id in s1.clients <==> id !in failing) && s1.sockets[id].missedPongs == s.sockets[id].missedPongs
  {
    SendAllExactly(s, s.clients, failing, id);
  }

  /** Of a client that has missed this many pongs: neither its sends nor its pings fail, its connection is not
      closed, the server is not shut down, and no third tick comes without a pong of its own between. */
  predicate KeepsAnswering(es: seq<Event>, id: nat, missed: nat)
    decreases |es|
  {
    es == [] ||
    match es[0]
    case Connection(_, _, _, _) => KeepsAnswering(es[1..], id, missed)
    case Pong(other) => KeepsAnswering(es[1..], id, if other == id then 0 else missed)
    case Gone(other) => other != id && KeepsAnswering(es[1..], id, missed)
    case Broadcast(failing) => id !in failing && KeepsAnswering(es[1..], id, missed)
    case Tick(failing) => id !in failing && missed < 2 && KeepsAnswering(es[1..], id, missed + 1)
    case Shutdown => false
  }

  /** What a connection does to a socket that is already known. */
  lemma ConnectionLeaves(s: State, e: Event, id: nat)
    requires Inv(s) && id in s.sockets && e.Connection?
    ensures var s1 := Step(s, e);
      id in s1.sockets && s1.sockets[id] == s.sockets[id] && (id in s1.clients <==> id in s.clients)
  {
    if e.urlOk && !OverLimit(s, e.ip) && e.authOk {
      RegisteringKeepsInv(s, e.ip);
      DropKeepsInv(Registered(s, e.ip), s.next);
    }
  }

  lemma DroppedStep(s: State, e: Event, id: nat)
    requires Inv(s) && id in s.sockets && id !in s.clients
    ensures id in Step(s, e).sockets && id !in Step(s, e).clients
  {
    match e
    case Connection(_, _, _, _) => ConnectionLeaves(s, e, id);
    case Pong(_) =>
    case Gone(other) => if other in s.sockets { DropKeepsInv(s, other); }
    case Broadcast(failing) => SendAllExactly(s, s.clients, failing, id);
    case Tick(failing) => BeatAllElsewhere(s, s.clients, failing, id);
    case Shutdown =>
  }

  lemma {:induction false} DroppedStays(s: State, es: seq<Event>, id: nat)
    requires Inv(s) && id in s.sockets && id !in s.clients
    ensures id !in Run(s, es).clients
    decreases |es|
  {
    if es != [] {
      InvStep(s, es[0]);
      DroppedStep(s, es[0], id);
      DroppedStays(Step(s, es[0]), es[1..], id);
    }
  }

  /** What one event does to a client: whether it stays, and how many pongs it has missed then. */
  lemma ClientStep(s: State, e: Event, id: nat)
    requires Inv(s) && id in s.clients
    ensures id in s.sockets && id in Step(s, e).sockets
    ensures var s1, missed := Step(s, e), s.sockets[id].missedPongs;
      && (id in s1.clients <==> KeepsAnswering([e], id, missed))
      && (id in s1.clients ==>
            s1.sockets[id].missedPongs == if e == Pong(id) then 0 else if e.Tick? then missed + 1 else missed)
  {
    assert [e][1..] == [];
    match e
    case Connection(_, _, _, _) => ConnectionLeaves(s, e, id);
    case Pong(_) =>
    case Gone(other) => if other in s.sockets { DropKeepsInv(s, other); }
    case Broadcast(failing) => BroadcastExactly(s, failing, id);
    case Tick(failing) => TickExactly(s, failing, id);
    case Shutdown =>
  }

  /** Main result: a client is still one after a run if and only if it kept answering. So one whose pongs
      never let a third tick come in between is not dropped, and one that falls silent is. */
  lemma {:induction false} ClientStaysExactly(s: State, es: seq<Event>, id: nat)
    requires Inv(s) && id in s.clients
    ensures id in s.sockets
    ensures id in Run(s, es).clients <==> KeepsAnswering(es, id, s.sockets[id].missedPongs)
    decreases |es|
  {
    if es != [] {
      var s1 := Step(s, es[0]);
      InvStep(s, es[0]);
      ClientStep(s, es[0], id);
      assert [es[0]][1..] == [];
      if id in s1.clients {
        ClientStaysExactly(s1, es[1..], id);
      } else {
        DroppedStays(s1, es[1..], id);
      }
    }
  }

  /** A new client has missed no pong. */
  lemma NewClient(s: State, ip: string)
    requires Inv(s) && !OverLimit(s, ip)
    ensures var s1 := Step(s, Connection(true, ip, true, true));
      && s1.clients == s.clients + [s.next] && s1.next == s.next + 1
      && s1.sockets == s.sockets[s.next := Sock(ip, ip != "", 0)]
  {
  }
}
