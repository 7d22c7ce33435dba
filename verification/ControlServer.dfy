/** The server's manager with its connections, and a client's worker settings, as objects
    (c++/server/manager.cpp:21-105, c++/server/servConn.cpp:47-266,
    c++/client/clientConn.cpp:147-210, c++/client/worker.cpp:28-63). */
module ControlServer {
  import opened Bytes
  import opened PduWire
  import opened ControlPlane

  /** cServConn, with the PDUs sent and not handled yet in place of its byte stream. */
  class ServConn {
    var client_type: uint16
    var channel: seq<Message>

    /** The constructor leaves client_type alone. */
    constructor (junk: uint16)
      ensures client_type == junk && channel == []
    {
      client_type, channel := junk, [];
    }

    method SendPdu(m: Message)
      modifies this`channel
      ensures channel == old(channel) + [m]
    {
      channel := channel + [m];
    }
  }

  function Told(p: Peer, m: Message): Peer {
    if p.clientType != CLIENT_PHP then Send(p, m) else p
  }

  /** A broadcast that has still to come to some of the connections. */
  function BroadcastBut(peers: map<nat, Peer>, left: set<nat>, m: Message): map<nat, Peer> {
    map h | h in peers :: if h in left then peers[h] else Told(peers[h], m)
  }

  lemma BroadcastMore(peers: map<nat, Peer>, left: set<nat>, h: nat, m: Message)
    requires h in peers && h in left
    ensures var now := BroadcastBut(peers, left, m);
            now[h := Told(now[h], m)] == BroadcastBut(peers, left - {h}, m)
  {
  }

  lemma BroadcastEnds(peers: map<nat, Peer>, m: Message)
    ensures BroadcastBut(peers, peers.Keys, m) == peers && BroadcastBut(peers, {}, m) == Broadcast(peers, m)
  {
  }

  /** cManager together with g_client_conn_map. */
  class Manager {
    var status: uint16
    var delay: uint16
    var multi: uint16
    var g_client_conn_map: map<nat, ServConn>

    ghost predicate Valid()
      reads this`g_client_conn_map
    {
      forall g, h | g in g_client_conn_map && h in g_client_conn_map && g != h ::
        g_client_conn_map[g] != g_client_conn_map[h]
    }

    ghost function Conns(): set<ServConn>
      reads this`g_client_conn_map
    {
      g_client_conn_map.Values
    }

    ghost function Peers(): map<nat, Peer>
      reads this`g_client_conn_map, g_client_conn_map.Values
    {
      map h | h in g_client_conn_map :: Peer(g_client_conn_map[h].client_type, g_client_conn_map[h].channel)
    }

    ghost function View(): Server
      reads this, g_client_conn_map.Values
    {
      Server(Triple(status, delay, multi), Peers())
    }

    constructor ()
      ensures Valid() && View() == Initial().server
    {
      status, delay, multi, g_client_conn_map := CID_COMMAND_STOP, 0, 1, map[];
    }

    /** onConnect2. */
    method OnConnect2(handle: nat, junk: uint16) returns (conn: ServConn)
      requires Valid() && handle !in g_client_conn_map
      modifies this`g_client_conn_map
      ensures Valid() && fresh(conn) && g_client_conn_map == old(g_client_conn_map)[handle := conn]
      ensures View() == Server(old(View()).triple, old(Peers())[handle := Peer(junk, [])])
    {
      conn := new ServConn(junk);
      g_client_conn_map := g_client_conn_map[handle := conn];
    }

    /** close, as far as the map goes. */
    method Close(handle: nat)
      requires Valid() && handle in g_client_conn_map
      modifies this`g_client_conn_map
      ensures Valid() && g_client_conn_map == old(g_client_conn_map) - {handle}
      ensures View() == Server(old(View()).triple, old(Peers()) - {handle})
    {
      g_client_conn_map := g_client_conn_map - {handle};
    }

    /** The client at the other end takes the first PDU that is on its way. */
    method Fetch(handle: nat) returns (m: Message)
      requires Valid() && handle in g_client_conn_map && g_client_conn_map[handle].channel != []
      modifies g_client_conn_map[handle]
      ensures var p := old(Peers()[handle]);
              && m == p.channel[0]
              && View() == Server(old(View()).triple, old(Peers())[handle := p.(channel := p.channel[1..])])
    {
      var conn := g_client_conn_map[handle];
      m := conn.channel[0];
      conn.channel := conn.channel[1..];
    }

    /** One round of send_all_client_pdu. */
    method SendUnlessPhp(h: nat, conn: ServConn, m: Message)
      requires Valid() && h in g_client_conn_map && g_client_conn_map[h] == conn
      modifies conn`channel
      ensures Peers() == old(Peers())[h := Told(old(Peers()[h]), m)]
    {
      if conn.client_type != CLIENT_PHP {
        conn.SendPdu(m);
      }
    }

    method SendAllClientPdu(m: Message)
      requires Valid()
      modifies Conns()`channel
      ensures Peers() == Broadcast(old(Peers()), m)
    {
      var left := g_client_conn_map.Keys;
      ghost var before := Peers();
      BroadcastEnds(before, m);
      while left != {}
        invariant left <= g_client_conn_map.Keys == before.Keys
        invariant Peers() == BroadcastBut(before, left, m)
        decreases |left|
      {
        var h :| h in left;
        BroadcastMore(before, left, h, m);
        SendUnlessPhp(h, g_client_conn_map[h], m);
        left := left - {h};
      }
    }

    /** start, stop, pause and resume: the clients hear first. */
    method SetStatus(command: uint16)
      requires Valid()
      modifies this`status, Conns()`channel
      ensures View() == ChangeStatus(old(View()), command)
    {
      SendAllClientPdu(Command(command));
      status := command;
    }

    method AdjustSendRate(newDelay: uint16, newMulti: uint16)
      requires Valid()
      modifies this`delay, this`multi, Conns()`channel
      ensures View() == ChangeRate(old(View()), newDelay, newMulti)
    {
      ghost var before := Peers();
      delay := newDelay;
      multi := newMulti;
      assert Peers() == before;
      SendAllClientPdu(Rate(newDelay, newMulti));
    }

    /** SendPdu of the connection that a request came in on. */
    method Reply(h: nat, m: Message)
      requires Valid() && h in g_client_conn_map
      modifies g_client_conn_map[h]
      ensures View() == Answer(old(View()), h, m)
    {
      g_client_conn_map[h].SendPdu(m);
    }

    method HandleServerCommand(h: nat, command: uint16)
      requires Valid() && h in g_client_conn_map
      modifies this`status, Conns()
      ensures View() == Handle(old(View()), h, DoCommand(command))
    {
      var ret := -1;
      if command == CID_COMMAND_START || command == CID_COMMAND_STOP
         || command == CID_COMMAND_PAUSE || command == CID_COMMAND_RESUME {
        SetStatus(command);
        ret := 0;
      }
      if ret == 0 {
        Reply(h, ControlPlane.Reply(0));
      } else {
        Reply(h, ControlPlane.Reply(ret % 0x1_0000));
      }
    }

    method HandleServerAdjustRate(h: nat, d: uint16, m: uint16)
      requires Valid() && h in g_client_conn_map
      modifies this`delay, this`multi, Conns()
      ensures View() == Handle(old(View()), h, DoRate(d, m))
    {
      AdjustSendRate(d, m);
      Reply(h, ControlPlane.Reply(0));
    }

    method HandleRegClientType(h: nat, t: uint16)
      requires Valid() && h in g_client_conn_map
      modifies Conns()
      ensures View() == Handle(old(View()), h, Register(t))
    {
      g_client_conn_map[h].client_type := t;
    }

    /** HandlePdu. */
    method HandlePdu(h: nat, r: Request)
      requires Valid() && h in g_client_conn_map
      modifies this`status, this`delay, this`multi, Conns()
      ensures View() == Handle(old(View()), h, r)
    {
      match r
      case DoCommand(c) => HandleServerCommand(h, c);
      case DoRate(d, m) => HandleServerAdjustRate(h, d, m);
      case AskStatus => Reply(h, Status(Triple(status, delay, multi)));
      case AskAllClients => Reply(h, AllClients);
      case Register(t) => HandleRegClientType(h, t);
      case Data => Reply(h, ControlPlane.Reply(0));
      case Beat =>
      case Done(remaining) =>
        if remaining == 0 {
          SetStatus(CID_COMMAND_PAUSE);
        }
    }
  }

  /** cWorker: its settings, and their copies in shared memory that the processes read. */
  class Worker {
    var status: uint16
    var delay: uint16
    var multi: uint16
    var shm_status: uint16
    var shm_delay: uint16
    var shm_multi: uint16

    ghost predicate Valid()
      reads this
    {
      shm_status == status && shm_delay == delay && shm_multi == multi
    }

    ghost function Settings(): Triple
      reads this
    {
      Triple(status, delay, multi)
    }

    /** The worker, with the copies that _init_shm makes. */
    constructor ()
      ensures Valid() && Settings() == Triple(0, 0, 1)
    {
      status, delay, multi := 0, 0, 1;
      shm_status, shm_delay, shm_multi := 0, 0, 1;
    }

    method SetStatus(s: uint16)
      modifies this`status, this`shm_status
      ensures status == s && shm_status == s
    {
      status := s;
      shm_status := s;
    }

    method SetDelay(d: uint16)
      modifies this`delay, this`shm_delay
      ensures delay == d && shm_delay == d
    {
      delay := d;
      shm_delay := d;
    }

    method SetMulti(m: uint16)
      modifies this`multi, this`shm_multi
      ensures multi == m && shm_multi == m
    {
      multi := m;
      shm_multi := m;
    }

    /** HandlePdu of the client connection. */
    method HandlePdu(m: Message)
      requires Valid()
      modifies this
      ensures Valid() && Settings() == Apply(old(Settings()), m)
    {
      match m
      case Command(c) => SetStatus(c);
      case Rate(d, k) =>
        SetMulti(k);
        SetDelay(d);
      case Status(t) =>
        SetStatus(t.status);
        SetMulti(t.multi);
        SetDelay(t.delay);
      case _ =>
    }
  }
}
