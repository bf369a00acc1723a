/** The WebSocket server's bookkeeping over socket objects. Which sends and pings throw is a parameter;
    each method's whole effect is that of SocketModel.Step. */
module WebSocketServer {
  import opened M = SocketModel

  class Socket {
    const id: nat
    const ip: string
    var ipAcquired: bool
    var missedPongs: nat

    ghost function View(): Sock
      reads this
    {
      Sock(ip, ipAcquired, missedPongs)
    }

    constructor (id: nat, ip: string)
      ensures this.id == id && View() == Sock(ip, ip != "", 0)
    {
      this.id, this.ip, ipAcquired, missedPongs := id, ip, ip != "", 0;
    }
  }

  ghost function Ids(sockets: seq<Socket>): (ids: seq<nat>)
    ensures |ids| == |sockets| && forall i :: 0 <= i < |ids| ==> ids[i] == sockets[i].id
  {
    if sockets == [] then [] else [sockets[0].id] + Ids(sockets[1..])
  }

  /** Set.prototype.delete on a set kept in insertion order. */
  method Delete(clients: seq<Socket>, socket: Socket) returns (rest: seq<Socket>)
    requires forall c <- clients :: c.id == socket.id ==> c == socket
    ensures Ids(rest) == Without(Ids(clients), socket.id)
    ensures forall c <- rest :: c in clients
    ensures forall id <- Ids(rest) :: id in Ids(clients)
    decreases |clients|
  {
    if clients == [] {
      return [];
    }
    var later := Delete(clients[1..], socket);
    rest := if clients[0] == socket then later else [clients[0]] + later;
  }

  class Server {
    var clients: seq<Socket>
    var ipCounts: map<string, nat>
    var next: nat
    /** Every socket let past the per-address limit, by number. */
    ghost var all: map<nat, Socket>
    /** The state these fields and objects represent. */
    ghost var model: State

    ghost predicate Valid()
      reads this, all.Values
    {
      && model.next == next && model.ipCounts == ipCounts && model.clients == Ids(clients)
      && Known(model) && model.sockets.Keys == all.Keys
      && (forall id <- all :: all[id].id == id && id < next && model.sockets[id] == all[id].View())
      && (forall c <- clients :: Has(c))
    }

    ghost predicate Has(socket: Socket)
      reads this
    {
      socket.id in all && all[socket.id] == socket
    }

    constructor ()
      ensures Valid() && model == M.Initial() && all == map[] && clients == []
    {
      clients, ipCounts, next := [], map[], 0;
      all, model := map[], M.Initial();
    }

    method ReleaseIp(socket: Socket)
      requires Valid() && Has(socket)
      modifies this`ipCounts, this`model, socket`ipAcquired
      ensures Valid() && model == Release(old(model), socket.id)
    {
      if !socket.ipAcquired { return; }
      socket.ipAcquired := false;
      model := model.(sockets := model.sockets[socket.id := socket.View()]);
      var count := CountOf(ipCounts, socket.ip);
      SetCount(if count <= 1 then ipCounts - {socket.ip} else ipCounts[socket.ip := count - 1]);
    }

    method SetCount(counts: map<string, nat>)
      requires Valid()
      modifies this`ipCounts, this`model
      ensures Valid() && model == old(model).(ipCounts := counts)
    {
      ipCounts := counts;
      model := model.(ipCounts := counts);
    }

    method DeleteClient(socket: Socket)
      requires Valid() && Has(socket)
      modifies this`clients, this`model
      ensures Valid() && model == old(model).(clients := Without(old(model).clients, socket.id))
    {
      clients := Delete(clients, socket);
      model := model.(clients := Ids(clients));
    }

    /** The error and close handlers, and what a failed send or a heartbeat does to a dead socket. */
    method OnGone(socket: Socket)
      requires Valid() && Has(socket)
      modifies this`clients, this`ipCounts, this`model, socket`ipAcquired
      ensures Valid() && model == Drop(old(model), socket.id) == Step(old(model), Gone(socket.id))
    {
      ReleaseIp(socket);
      DeleteClient(socket);
    }

    method OnPong(socket: Socket)
      requires Valid() && Has(socket)
      modifies this`model, socket`missedPongs
      ensures Valid() && model == Step(old(model), Pong(socket.id))
    {
      model := Step(model, Pong(socket.id));
      socket.missedPongs := 0;
    }

    method OnConnection(urlOk: bool, ip: string, authOk: bool, welcomeOk: bool)
      requires Valid()
      modifies this
      ensures Valid() && model == Step(old(model), Connection(urlOk, ip, authOk, welcomeOk))
      ensures fresh(all.Values - old(all.Values))
      ensures forall id <- old(all) :: id in all && all[id] == old(all)[id]
    {
      if !urlOk { return; }
      if ip != "" && CountOf(ipCounts, ip) >= MAX_CONNECTIONS_PER_IP { return; }
      var socket := Accept(ip);
      Welcome(socket, authOk, welcomeOk);
    }

    /** The rest of a connection whose address has been counted: the token, and the welcome message. */
    method Welcome(socket: Socket, authOk: bool, welcomeOk: bool)
      requires Valid() && Has(socket)
      modifies this`clients, this`ipCounts, this`model, socket`ipAcquired
      ensures Valid()
      ensures var added := old(model).(clients := old(model).clients + [socket.id]);
        model == if !authOk then Release(old(model), socket.id)
                 else if welcomeOk then added else Drop(added, socket.id)
    {
      if !authOk {
        ReleaseIp(socket);
        return;
      }
      AddClient(socket);
      if !welcomeOk {
        OnGone(socket);
      }
    }

    /** The new socket's address is counted. */
    method Accept(ip: string) returns (socket: Socket)
      requires Valid()
      modifies this`ipCounts, this`all, this`next, this`model
      ensures Valid() && fresh(socket) && Has(socket) && socket.id == old(next)
      ensures model == Acquire(old(model), ip) && all == old(all)[socket.id := socket]
    {
      socket := new Socket(next, ip);
      Enlist(socket);
      if ip != "" {
        SetCount(ipCounts[ip := CountOf(ipCounts, ip) + 1]);
      }
    }

    /** The socket gets its number. */
    method Enlist(socket: Socket)
      requires Valid() && socket.id == next
      modifies this`all, this`next, this`model
      ensures Valid() && all == old(all)[socket.id := socket]
      ensures model == old(model).(sockets := old(model).sockets[socket.id := socket.View()],
                                   next := old(model).next + 1)
    {
      all := all[next := socket];
      next := next + 1;
      model := model.(sockets := model.sockets[socket.id := socket.View()], next := next);
    }

    /** clients.add(socket), for a socket that is not there yet. */
    method AddClient(socket: Socket)
      requires Valid() && Has(socket)
      modifies this`clients, this`model
      ensures Valid() && model == old(model).(clients := old(model).clients + [socket.id])
    {
      clients := clients + [socket];
      model := model.(clients := model.clients + [socket.id]);
      assert Ids(clients) == model.clients;
    }

    method SafeSend(socket: Socket, sendThrows: bool)
      requires Valid() && Has(socket)
      modifies this`clients, this`ipCounts, this`model, socket`ipAcquired
      ensures Valid() && model == if sendThrows then Drop(old(model), socket.id) else old(model)
    {
      if sendThrows {
        OnGone(socket);
      }
    }

    /** safeSend to every client; the sends to the failing ones throw. */
    method BroadcastLocal(failing: set<nat>)
      requires Valid()
      modifies this`clients, this`ipCounts, this`model, all.Values
      ensures Valid() && model == Step(old(model), Broadcast(failing))
    {
      var order := clients;
      ghost var ids := Ids(order);
      assert ids[0..] == ids;
      for i := 0 to |order|
        invariant Valid() && all == old(all) && forall c <- order :: Has(c)
        invariant forall id <- ids :: id in model.sockets
        invariant SendAll(model, ids[i..], failing) == SendAll(old(model), ids, failing)
      {
        assert ids[i..][0] == order[i].id && ids[i..][1..] == ids[i + 1..];
        assert Has(order[i]) && order[i] in all.Values;
        SafeSend(order[i], order[i].id in failing);
      }
    }

    /** The body of the heartbeat loop. */
    method Ping(socket: Socket, pingFails: bool)
      requires Valid() && Has(socket)
      modifies this`clients, this`ipCounts, this`model, socket
      ensures Valid() && model == Beat(old(model), socket.id, pingFails)
    {
      if socket.missedPongs >= MAX_MISSED_PONGS {
        OnGone(socket);
        return;
      }
      model := Bump(model, socket.id);
      socket.missedPongs := socket.missedPongs + 1;
      if pingFails {
        OnGone(socket);
      }
    }

    method Heartbeat(failing: set<nat>)
      requires Valid()
      modifies this`clients, this`ipCounts, this`model, all.Values
      ensures Valid() && model == Step(old(model), Tick(failing))
    {
      var order := clients;
      ghost var ids := Ids(order);
      assert ids[0..] == ids;
      for i := 0 to |order|
        invariant Valid() && all == old(all) && forall c <- order :: Has(c)
        invariant forall id <- ids :: id in model.sockets
        invariant BeatAll(model, ids[i..], failing) == BeatAll(old(model), ids, failing)
      {
        assert ids[i..][0] == order[i].id && ids[i..][1..] == ids[i + 1..];
        assert Has(order[i]) && order[i] in all.Values;
        Ping(order[i], order[i].id in failing);
      }
    }

    method Close()
      requires Valid()
      modifies this`clients, this`ipCounts, this`model, all.Values
      ensures Valid() && model == Step(old(model), Shutdown)
    {
      ghost var ids := Ids(clients);
      assert ids[0..] == ids;
      for i := 0 to |clients|
        invariant Valid() && all == old(all) && clients == old(clients)
        invariant forall id <- ids :: id in model.sockets
        invariant ReleaseAll(model, ids[i..]) == ReleaseAll(old(model), ids)
      {
        assert ids[i..][0] == clients[i].id && ids[i..][1..] == ids[i + 1..];
        assert Has(clients[i]) && clients[i] in all.Values;
        ReleaseIp(clients[i]);
      }
      Clear();
    }

    method Clear()
      requires Valid()
      modifies this`clients, this`ipCounts, this`model
      ensures Valid() && model == old(model).(clients := [], ipCounts := map[])
    {
      clients, ipCounts := [], map[];
      model := model.(clients := [], ipCounts := map[]);
    }
  }
}
