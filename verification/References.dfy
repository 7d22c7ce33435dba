/** Reference counts of sockets and connections through the event loop
    (c++/base/util.cpp:90-133, c++/base/BaseSocket.cpp:7-28 and 149-203,
    c++/base/netlib.cpp:50-81, c++/base/EventDispatch.cpp:114-144,
    c++/base/imconn.cpp:17-64, c++/server/servConn.cpp:8-125). */
module References {
  import opened Sequences

  /** CRefObject, as the base of a socket or of a connection, with its handle. Whether it
      has been deleted is not something the program can see. */
  class RefObject {
    const handle: nat
    var m_refCount: int
    ghost var freed: bool

    constructor (handle: nat)
      ensures this.handle == handle && m_refCount == 1 && !freed
    {
      this.handle, m_refCount, freed := handle, 1, false;
    }

    method AddRef()
      requires !freed
      modifies this
      ensures m_refCount == old(m_refCount) + 1 && !freed
    {
      m_refCount := m_refCount + 1;
    }

    /** Deletes the object at zero. */
    method ReleaseRef()
      requires !freed
      modifies this
      ensures m_refCount == old(m_refCount) - 1 && (freed <==> m_refCount == 0)
    {
      m_refCount := m_refCount - 1;
      if m_refCount == 0 {
        freed := true;
      }
    }

    /** Any other access. */
    method Use()
      requires !freed
    {
    }
  }

  /** A map has lost entries at most, and these only for the given handles. */
  ghost predicate Lost(now: map<nat, RefObject>, before: map<nat, RefObject>, handles: set<nat>) {
    && now.Keys <= before.Keys <= now.Keys + handles
    && forall h | h in now :: now[h] == before[h]
  }

  lemma LostMore(now: map<nat, RefObject>, between: map<nat, RefObject>, before: map<nat, RefObject>,
                                    more: set<nat>, handles: set<nat>)
    requires Lost(now, between, more) && Lost(between, before, handles) && more <= handles
    ensures Lost(now, before, handles)
  {
  }

  lemma GivenBack(holders: multiset<RefObject>, o: RefObject)
    ensures o in holders + multiset{o} && (holders + multiset{o}) - multiset{o} == holders
  {
  }

  lemma LostOne(now: map<nat, RefObject>, before: map<nat, RefObject>, h: nat)
    requires now == before || now == before - {h}
    ensures Lost(now, before, {h})
  {
  }

  /** The handles in this order, each once. */
  predicate EachOnce(order: seq<nat>, handles: set<nat>) {
    multiset(order) == multiset(handles)
  }

  lemma OnceMore(order: seq<nat>, handles: set<nat>, left: set<nat>, h: nat)
    requires EachOnce(order, handles - left) && h in left && left <= handles
    ensures EachOnce(order + [h], handles - (left - {h}))
  {
    assert handles - (left - {h}) == handles - left + {h};
  }

  datatype Event = MsgConfirm | MsgRead | MsgWrite | MsgClose

  /** One call of the handler of this connection with one of these events, if it is due. */
  predicate Called(calls: seq<(nat, Event)>, fd: nat, due: bool, msgs: set<Event>) {
    if due then |calls| == 1 && calls[0].0 == fd && calls[0].1 in msgs else calls == []
  }

  ghost predicate CalledBack(calls: seq<(nat, Event)>, fd: nat, readable: bool, writable: bool, broken: bool) {
    exists first, second, third ::
      && calls == first + second + third && Called(first, fd, readable, {MsgRead, MsgClose})
      && Called(second, fd, writable, {MsgWrite, MsgConfirm, MsgClose}) && Called(third, fd, broken, {MsgClose})
  }

  /** The handles that netlib has been asked to send or to receive on, those whose connection
      has been called back by the timer, and the events that sockets have called back with. */
  class Record {
    ghost var asked: seq<nat>
    ghost var ticked: seq<nat>
    ghost var events: seq<(nat, Event)>

    constructor ()
      ensures asked == ticked == [] && events == []
    {
      asked, ticked, events := [], [], [];
    }
  }

  lemma Regrouped<T>(a: seq<T>, b: seq<T>, c: seq<T>, d: seq<T>)
    ensures a + b + c + d == a + (b + c + d)
  {
  }

  class World {
    var g_socket_map: map<nat, RefObject>
    var g_client_conn_map: map<nat, RefObject>
    /** Every socket and connection ever made, and who holds a counted reference. */
    ghost var all: set<RefObject>
    ghost var holders: multiset<RefObject>
    const record: Record

    ghost predicate IsSocket(o: RefObject)
      reads this
    {
      o.handle in g_socket_map && g_socket_map[o.handle] == o
    }

    ghost predicate IsConn(o: RefObject)
      reads this
    {
      o.handle in g_client_conn_map && g_client_conn_map[o.handle] == o
    }

    /** The objects registered for a handle. */
    ghost function SocketOf(fd: nat): set<RefObject>
      reads this
    {
      if fd in g_socket_map then {g_socket_map[fd]} else {}
    }

    ghost function ConnOf(fd: nat): set<RefObject>
      reads this
    {
      if fd in g_client_conn_map then {g_client_conn_map[fd]} else {}
    }

    /** One for being registered, and one for each holder. */
    ghost function References(o: RefObject): nat
      reads this
    {
      (if IsSocket(o) || IsConn(o) then 1 else 0) + holders[o]
    }

    /** The tables, where the connection of one handle may have lost its socket. */
    ghost predicate Tables(losing: set<nat>)
      reads this
    {
      && (forall h | h in g_socket_map :: g_socket_map[h] in all && g_socket_map[h].handle == h)
      && (forall h | h in g_client_conn_map :: g_client_conn_map[h] in all && g_client_conn_map[h].handle == h)
      && (forall h | h in g_socket_map && h in g_client_conn_map :: g_socket_map[h] != g_client_conn_map[h])
      && (forall h | h in g_client_conn_map && h !in losing :: h in g_socket_map)
      && (forall o | o in holders :: o in all)
    }

    /** An object is alive exactly as long as somebody refers to it, and its count says how
        many do. */
    ghost predicate Counted(o: RefObject)
      reads this, o
    {
      (o.freed <==> References(o) == 0) && (!o.freed ==> o.m_refCount == References(o))
    }

    ghost predicate Counts()
      reads this, all
    {
      forall o | o in all :: Counted(o)
    }

    ghost predicate Valid()
      reads this, all
    {
      Tables({}) && Counts()
    }

    /** What is registered for a handle has been made. */
    lemma Known(fd: nat, losing: set<nat>)
      requires Tables(losing)
      ensures SocketOf(fd) <= all && ConnOf(fd) <= all
    {
    }

    /** What is held is alive. */
    lemma Held(o: RefObject, losing: set<nat>)
      requires Tables(losing) && Counts() && o in holders
      ensures o in all && !o.freed
    {
      assert Counted(o);
    }

    constructor ()
      ensures Valid() && all == {} && holders == multiset{}
      ensures fresh(record) && record.asked == record.ticked == [] && record.events == []
    {
      record := new Record();
      g_socket_map, g_client_conn_map, all, holders := map[], map[], {}, multiset{};
    }

    ghost method NoteAsked(fd: nat)
      requires Valid()
      modifies record`asked
      ensures Valid() && record.asked == old(record.asked) + [fd]
    {
      record.asked := record.asked + [fd];
    }

    ghost method NoteTick(fd: nat)
      requires Valid()
      modifies record`ticked
      ensures Valid() && record.ticked == old(record.ticked) + [fd]
    {
      record.ticked := record.ticked + [fd];
    }

    ghost method NoteEvent(fd: nat, msg: Event)
      requires Valid()
      modifies record`events
      ensures Valid() && record.events == old(record.events) + [(fd, msg)]
    {
      record.events := record.events + [(fd, msg)];
    }

    /** FindBaseSocket. */
    method FindBaseSocket(fd: nat) returns (s: RefObject?)
      requires Tables({}) && Counts()
      modifies this`holders, SocketOf(fd)
      ensures Tables({}) && Counts()
      ensures s == null <==> fd !in g_socket_map
      ensures s == null ==> holders == old(holders)
      ensures s != null ==> s == g_socket_map[fd] && holders == old(holders) + multiset{s}
    {
      s := null;
      if fd in g_socket_map {
        s := g_socket_map[fd];
        s.AddRef();
        holders := holders + multiset{s};
      }
    }

    /** FindImConn. */
    method FindImConn(fd: nat) returns (c: RefObject?)
      requires Valid()
      modifies this`holders, ConnOf(fd)
      ensures Valid()
      ensures c == null <==> fd !in g_client_conn_map
      ensures c == null ==> holders == old(holders)
      ensures c != null ==> c == g_client_conn_map[fd] && holders == old(holders) + multiset{c}
    {
      c := null;
      if fd in g_client_conn_map {
        c := g_client_conn_map[fd];
        c.AddRef();
        holders := holders + multiset{c};
      }
    }

    /** ReleaseRef by a holder. */
    method Release(o: RefObject, ghost losing: set<nat>)
      requires Tables(losing) && Counts() && o in holders
      modifies this`holders, o
      ensures Tables(losing) && Counts() && holders == old(holders) - multiset{o}
    {
      Held(o, losing);
      ghost var references := References(o);
      o.ReleaseRef();
      holders := holders - multiset{o};
      assert References(o) == references - 1 && Counted(o);
      forall x | x in all && x != o
        ensures Counted(x)
      {
        assert old(Counted(x)) && References(x) == old(References(x));
      }
    }

    /** The last thing a holder does. */
    method LetGo(o: RefObject)
      requires Valid() && o in holders
      modifies this`holders, o
      ensures Valid() && holders == old(holders) - multiset{o}
    {
      Held(o, {});
      o.Use();
      Release(o, {});
    }

    /** Close of a registered socket that the caller holds: the map's reference goes. */
    method CloseSocket(s: RefObject)
      requires Valid() && IsSocket(s) && s in holders
      modifies this`g_socket_map, s
      ensures Tables({s.handle}) && Counts()
      ensures g_socket_map == old(g_socket_map) - {s.handle}
    {
      g_socket_map := g_socket_map - {s.handle};
      s.ReleaseRef();
    }

    /** netlib_close. */
    method NetlibClose(fd: nat)
      requires Valid()
      modifies this`holders, this`g_socket_map, SocketOf(fd)
      ensures Tables({fd}) && Counts() && holders == old(holders)
      ensures g_socket_map == old(g_socket_map) - {fd}
    {
      var s := FindBaseSocket(fd);
      if s != null {
        GivenBack(old(holders), s);
        CloseSocket(s);
        Release(s, {fd});
      }
    }

    /** netlib_send and netlib_recv: find, act, release. */
    method NetlibSendOrRecv(fd: nat)
      requires Valid()
      modifies this`holders, record`asked, SocketOf(fd)
      ensures Valid() && holders == old(holders) && record.asked == old(record.asked) + [fd]
    {
      UseSocket(fd);
      NoteAsked(fd);
    }

    method UseSocket(fd: nat)
      requires Valid()
      modifies this`holders, SocketOf(fd)
      ensures Valid() && holders == old(holders)
    {
      var s := FindBaseSocket(fd);
      if s != null {
        s.Use();
        GivenBack(old(holders), s);
        Release(s, {});
      }
    }

    /** The connection leaves the table, and with it the reference from its creation. */
    method DropConn(c: RefObject)
      requires Tables({c.handle}) && Counts() && IsConn(c) && c.handle !in g_socket_map
      modifies this`g_client_conn_map, c
      ensures Valid() && g_client_conn_map == old(g_client_conn_map) - {c.handle}
    {
      g_client_conn_map := g_client_conn_map - {c.handle};
      c.ReleaseRef();
      forall o | o in all
        ensures Counted(o)
      {
        assert References(o) == old(References(o)) - if o == c then 1 else 0;
      }
    }

    /** close of a registered connection. The socket is found, since every connection has
        one. */
    method Close(c: RefObject)
      requires Valid() && IsConn(c)
      modifies this`holders, record`asked, this`g_socket_map, this`g_client_conn_map, SocketOf(c.handle), c
      ensures Valid() && holders == old(holders)
      ensures g_client_conn_map == old(g_client_conn_map) - {c.handle}
      ensures g_socket_map == old(g_socket_map) - {c.handle}
    {
      c.Use();
      Known(c.handle, {});
      assert c.handle in g_socket_map;
      NetlibSendOrRecv(c.handle);
      NetlibClose(c.handle);
      assert IsConn(c);
      DropConn(c);
    }

    /** SendPdu of a connection in the table, used without a reference of one's own. */
    method SendTo(h: nat)
      requires Valid() && h in g_client_conn_map
      modifies this`holders, record`asked, all
      ensures Valid() && holders == old(holders) && record.asked == old(record.asked) + [h]
    {
      g_client_conn_map[h].Use();
      Known(h, {});
      NetlibSendOrRecv(h);
    }

    /** One round of send_all_client_pdu, which began with these calls behind it. */
    method SendNext(left: set<nat>, ghost before: seq<nat>, ghost order: seq<nat>)
      returns (less: set<nat>, ghost more: seq<nat>)
      requires Valid() && left != {} && left <= g_client_conn_map.Keys
      requires record.asked == before + order && EachOnce(order, g_client_conn_map.Keys - left)
      modifies this`holders, record`asked, all
      ensures Valid() && holders == old(holders) && less < left
      ensures record.asked == before + more && EachOnce(more, g_client_conn_map.Keys - less)
    {
      var h :| h in left;
      SendTo(h);
      OnceMore(order, g_client_conn_map.Keys, left, h);
      Assoc(before, order, [h]);
      less, more := left - {h}, order + [h];
    }

    /** send_all_client_pdu: each of the connections once. */
    method SendAllClientPdu() returns (ghost order: seq<nat>)
      requires Valid()
      modifies this`holders, record`asked, all
      ensures Valid() && holders == old(holders)
      ensures record.asked == old(record.asked) + order && EachOnce(order, g_client_conn_map.Keys)
    {
      var left := g_client_conn_map.Keys;
      order := [];
      ghost var before := record.asked;
      while left != {}
        invariant Valid() && holders == old(holders) && left <= g_client_conn_map.Keys
        invariant record.asked == before + order && EachOnce(order, g_client_conn_map.Keys - left)
        decreases left
      {
        left, order := SendNext(left, before, order);
      }
      assert g_client_conn_map.Keys - left == g_client_conn_map.Keys;
    }

    /** OnRead, OnWrite and OnConfirm of a connection that a callback holds: any sends and
        receives on it, and broadcasts, while PDUs are handled. */
    method Traffic(c: RefObject)
      requires Valid() && c in holders
      modifies this`holders, record`asked, all
      ensures Valid() && holders == old(holders)
    {
      var rounds: nat := *;
      while rounds > 0
        invariant Valid() && holders == old(holders)
      {
        c.Use();
        Known(c.handle, {});
        NetlibSendOrRecv(c.handle);
        var broadcast: bool := *;
        if broadcast {
          ghost var _ := SendAllClientPdu();
        }
        rounds := rounds - 1;
      }
      c.Use();
    }

    /** The switch of imconn_callback: a close event, or a PDU that cannot be read, closes
        the connection. */
    method OnEvent(c: RefObject, msg: Event) returns (closed: bool)
      requires Valid() && IsConn(c) && c in holders
      modifies this`holders, record`asked, this`g_socket_map, this`g_client_conn_map, all
      ensures Valid() && holders == old(holders)
      ensures Lost(g_socket_map, old(g_socket_map), {c.handle})
      ensures Lost(g_client_conn_map, old(g_client_conn_map), {c.handle})
      ensures closed <==> c.handle !in g_client_conn_map
      ensures closed ==> c.handle !in g_socket_map
      ensures closed ==> msg.MsgClose? || msg.MsgRead?
      ensures msg.MsgClose? ==> closed
    {
      closed := msg.MsgClose?;
      if !closed {
        Traffic(c);
        var thrown: bool := *;
        closed := msg.MsgRead? && thrown;
      }
      if closed {
        Known(c.handle, {});
        Close(c);
      }
      LostOne(g_socket_map, old(g_socket_map), c.handle);
      LostOne(g_client_conn_map, old(g_client_conn_map), c.handle);
    }

    /** imconn_callback, when the connection has been found. */
    method Handle(c: RefObject, msg: Event)
      requires Valid() && IsConn(c) && c in holders && c in all
      modifies this`holders, record`asked, this`g_socket_map, this`g_client_conn_map, all
      ensures Valid() && holders == old(holders) - multiset{c}
      ensures Lost(g_socket_map, old(g_socket_map), {c.handle})
      ensures Lost(g_client_conn_map, old(g_client_conn_map), {c.handle})
      ensures msg.MsgClose? ==> c.handle !in g_client_conn_map
      ensures c.handle !in g_client_conn_map ==> c.handle !in g_socket_map
    {
      var _ := OnEvent(c, msg);
      LetGo(c);
    }

    /** imconn_callback: the connection is found and held while it handles the event. */
    method ImConnCallback(fd: nat, msg: Event)
      requires Valid()
      modifies this`holders, record`asked, this`g_socket_map, this`g_client_conn_map, all
      ensures Valid() && holders == old(holders)
      ensures Lost(g_socket_map, old(g_socket_map), {fd}) && Lost(g_client_conn_map, old(g_client_conn_map), {fd})
      ensures msg.MsgClose? ==> fd !in g_client_conn_map
      ensures fd in old(g_client_conn_map) && fd !in g_client_conn_map ==> fd !in g_socket_map
    {
      Known(fd, {});
      var c := FindImConn(fd);
      if c == null {
        LostOne(g_socket_map, g_socket_map, fd);
        LostOne(g_client_conn_map, g_client_conn_map, fd);
      } else {
        GivenBack(old(holders), c);
        Handle(c, msg);
      }
    }

    /** A handler of a socket that is held calls back; seen from where the event began. */
    method Callback(s: RefObject, fd: nat, msg: Event,
                    ghost sockets: map<nat, RefObject>, ghost conns: map<nat, RefObject>)
      requires Valid() && s in holders
      requires Lost(g_socket_map, sockets, {fd}) && Lost(g_client_conn_map, conns, {fd})
      modifies this`holders, record`asked, record`events, this`g_socket_map, this`g_client_conn_map, all
      ensures Valid() && holders == old(holders)
      ensures Lost(g_socket_map, sockets, {fd}) && Lost(g_client_conn_map, conns, {fd})
      ensures (msg.MsgClose? ==> fd !in g_client_conn_map) && record.events == old(record.events) + [(fd, msg)]
    {
      NoteEvent(fd, msg);
      ghost var s0, c0 := g_socket_map, g_client_conn_map;
      s.Use();
      ImConnCallback(fd, msg);
      LostMore(g_socket_map, s0, sockets, {fd}, {fd});
      LostMore(g_client_conn_map, c0, conns, {fd}, {fd});
    }

    /** What StartDispatch does with one event while it holds the socket: the handlers are
        called one after the other, even when an earlier one has closed it. */
    method Handlers(s: RefObject, fd: nat, readable: bool, writable: bool, broken: bool)
      returns (ghost calls: seq<(nat, Event)>)
      requires Valid() && s in holders
      modifies this`holders, record`asked, record`events, this`g_socket_map, this`g_client_conn_map, all
      ensures Valid() && holders == old(holders)
      ensures Lost(g_socket_map, old(g_socket_map), {fd}) && Lost(g_client_conn_map, old(g_client_conn_map), {fd})
      ensures broken ==> fd !in g_client_conn_map
      ensures record.events == old(record.events) + calls && CalledBack(calls, fd, readable, writable, broken)
    {
      ghost var sockets, conns := g_socket_map, g_client_conn_map;
      var ended: bool, failed: bool, connecting: bool := *, *, *;
      var input := if ended then MsgClose else MsgRead;
      var output := if connecting then (if failed then MsgClose else MsgConfirm) else MsgWrite;
      ghost var first := CallbackIf(readable, s, fd, input, sockets, conns);
      ghost var second := CallbackIf(writable, s, fd, output, sockets, conns);
      ghost var third := CallbackIf(broken, s, fd, MsgClose, sockets, conns);
      calls := first + second + third;
      Regrouped(old(record.events), first, second, third);
    }

    /** A handler of a socket that is held, if its event has come. */
    method CallbackIf(due: bool, s: RefObject, fd: nat, msg: Event,
                      ghost sockets: map<nat, RefObject>, ghost conns: map<nat, RefObject>)
      returns (ghost calls: seq<(nat, Event)>)
      requires Valid() && s in holders
      requires Lost(g_socket_map, sockets, {fd}) && Lost(g_client_conn_map, conns, {fd})
      modifies this`holders, record`asked, record`events, this`g_socket_map, this`g_client_conn_map, all
      ensures Valid() && holders == old(holders)
      ensures Lost(g_socket_map, sockets, {fd}) && Lost(g_client_conn_map, conns, {fd})
      ensures due && msg.MsgClose? ==> fd !in g_client_conn_map
      ensures record.events == old(record.events) + calls && Called(calls, fd, due, {msg})
    {
      calls := [];
      if due {
        Callback(s, fd, msg, sockets, conns);
        calls := [(fd, msg)];
      }
    }

    /** One event in StartDispatch: the socket is found and held over all its handlers, which are
        called in order. */
    method Dispatch(fd: nat, readable: bool, writable: bool, broken: bool) returns (ghost calls: seq<(nat, Event)>)
      requires Valid()
      modifies this`holders, record`asked, record`events, this`g_socket_map, this`g_client_conn_map, all
      ensures Valid() && holders == old(holders)
      ensures Lost(g_socket_map, old(g_socket_map), {fd}) && Lost(g_client_conn_map, old(g_client_conn_map), {fd})
      ensures broken ==> fd !in g_client_conn_map
      ensures record.events == old(record.events) + calls
      ensures if fd in old(g_socket_map) then CalledBack(calls, fd, readable, writable, broken) else calls == []
    {
      calls := [];
      Known(fd, {});
      var s := FindBaseSocket(fd);
      if s != null {
        calls := Handlers(s, fd, readable, writable, broken);
        GivenBack(old(holders), s);
        Release(s, {});
      }
    }

    /** AddBaseSocket of a new socket: the system never gives out a handle that is open. */
    method AddSocket(fd: nat) returns (s: RefObject)
      requires Valid() && fd !in g_socket_map
      modifies this`g_socket_map, this`all
      ensures Valid() && holders == old(holders) && all == old(all) + {s} && fresh(s)
      ensures g_socket_map == old(g_socket_map)[fd := s]
    {
      s := new RefObject(fd);
      assert s !in holders && fd !in g_client_conn_map;
      g_socket_map := g_socket_map[fd := s];
      all := all + {s};
      forall o | o in all
        ensures Counted(o)
      {
        assert o == s || References(o) == old(References(o));
      }
    }

    /** onConnect2, or the second half of connect in a client. */
    method AddConn(fd: nat) returns (c: RefObject)
      requires Valid() && fd in g_socket_map && fd !in g_client_conn_map
      modifies this`g_client_conn_map, this`all
      ensures Valid() && holders == old(holders) && all == old(all) + {c} && fresh(c)
      ensures g_client_conn_map == old(g_client_conn_map)[fd := c]
    {
      c := new RefObject(fd);
      assert c !in holders && fd in g_socket_map;
      g_client_conn_map := g_client_conn_map[fd := c];
      all := all + {c};
      forall o | o in all
        ensures Counted(o)
      {
        assert o == c || References(o) == old(References(o));
      }
    }

    /** One round of _AcceptNewSocket. */
    method Accept(fd: nat)
      requires Valid() && fd !in g_socket_map
      modifies this`g_socket_map, this`g_client_conn_map, this`all
      ensures Valid() && holders == old(holders) && old(all) <= all && fresh(all - old(all))
      ensures fd in g_socket_map && g_socket_map == old(g_socket_map)[fd := g_socket_map[fd]]
      ensures fd in g_socket_map && g_socket_map[fd] !in old(all)
      ensures fd in g_client_conn_map && g_client_conn_map == old(g_client_conn_map)[fd := g_client_conn_map[fd]]
      ensures fd in g_client_conn_map && g_client_conn_map[fd] !in old(all)
    {
      var _ := AddSocket(fd);
      var _ := AddConn(fd);
    }

    /** _AcceptNewSocket. */
    method AcceptAll()
      requires Valid()
      modifies this`g_socket_map, this`g_client_conn_map, this`all
      ensures Valid() && holders == old(holders) && old(all) <= all && fresh(all - old(all))
    {
      var rounds: nat := *;
      while rounds > 0
        invariant Valid() && holders == old(holders) && old(all) <= all && fresh(all - old(all))
      {
        var fd: nat := *;
        if fd !in g_socket_map {
          Accept(fd);
        }
        rounds := rounds - 1;
      }
    }

    /** An event of a listening socket, which is held while it accepts connections. */
    method DispatchListener(fd: nat)
      requires Valid()
      modifies this, SocketOf(fd)
      ensures Valid() && holders == old(holders) && old(all) <= all && fresh(all - old(all))
    {
      var s := FindBaseSocket(fd);
      if s != null {
        GivenBack(old(holders), s);
        AcceptAll();
        LetGo(s);
      }
    }

    /** OnTimer of a connection in the table: it may send a heartbeat and, when it has timed
        out, close itself; then it may be gone. */
    method OnTimer(c: RefObject)
      requires Valid() && IsConn(c)
      modifies this`holders, record`asked, record`ticked, this`g_socket_map, this`g_client_conn_map, all
      ensures Valid() && holders == old(holders) && record.ticked == old(record.ticked) + [c.handle]
      ensures Lost(g_socket_map, old(g_socket_map), {c.handle})
      ensures Lost(g_client_conn_map, old(g_client_conn_map), {c.handle})
    {
      Heartbeat(c);
      var expired: bool := *;
      if expired {
        Known(c.handle, {});
        Close(c);
      }
      NoteTick(c.handle);
      LostOne(g_socket_map, old(g_socket_map), c.handle);
      LostOne(g_client_conn_map, old(g_client_conn_map), c.handle);
    }

    method Heartbeat(c: RefObject)
      requires Valid() && IsConn(c)
      modifies this`holders, record`asked, all
      ensures Valid() && holders == old(holders)
    {
      c.Use();
      Known(c.handle, {});
      NetlibSendOrRecv(c.handle);
      c.Use();
    }

    /** One round of the timer callback, seen from where the callback began. */
    method OnTimerOf(h: nat, ghost sockets: map<nat, RefObject>, ghost conns: map<nat, RefObject>)
      requires Valid() && h in g_client_conn_map && h in conns
      requires Lost(g_socket_map, sockets, conns.Keys) && Lost(g_client_conn_map, conns, conns.Keys)
      modifies this`holders, record`asked, record`ticked, this`g_socket_map, this`g_client_conn_map, all
      ensures Valid() && holders == old(holders) && record.ticked == old(record.ticked) + [h]
      ensures Lost(g_socket_map, sockets, conns.Keys) && Lost(g_client_conn_map, conns, conns.Keys)
      ensures old(g_client_conn_map.Keys) - {h} <= g_client_conn_map.Keys
    {
      ghost var s, c := g_socket_map, g_client_conn_map;
      OnTimer(g_client_conn_map[h]);
      LostMore(g_socket_map, s, sockets, {h}, conns.Keys);
      LostMore(g_client_conn_map, c, conns, {h}, conns.Keys);
    }

    /** The next of the connections that were there at the beginning. */
    method TickNext(left: set<nat>, ghost before: seq<nat>, ghost order: seq<nat>,
                    ghost sockets: map<nat, RefObject>, ghost conns: map<nat, RefObject>)
      returns (less: set<nat>, ghost more: seq<nat>)
      requires Valid() && left != {} && left <= g_client_conn_map.Keys && left <= conns.Keys
      requires Lost(g_socket_map, sockets, conns.Keys) && Lost(g_client_conn_map, conns, conns.Keys)
      requires record.ticked == before + order && EachOnce(order, conns.Keys - left)
      modifies this`holders, record`asked, record`ticked, this`g_socket_map, this`g_client_conn_map, all
      ensures Valid() && holders == old(holders) && less < left && less <= g_client_conn_map.Keys
      ensures Lost(g_socket_map, sockets, conns.Keys) && Lost(g_client_conn_map, conns, conns.Keys)
      ensures record.ticked == before + more && EachOnce(more, conns.Keys - less)
    {
      var h :| h in left;
      OnTimerOf(h, sockets, conns);
      OnceMore(order, conns.Keys, left, h);
      Assoc(before, order, [h]);
      less, more := left - {h}, order + [h];
    }

    /** The timer callback: OnTimer of each connection once. */
    method Tick() returns (ghost order: seq<nat>)
      requires Valid()
      modifies this`holders, record`asked, record`ticked, this`g_socket_map, this`g_client_conn_map, all
      ensures Valid() && holders == old(holders)
      ensures record.ticked == old(record.ticked) + order && EachOnce(order, old(g_client_conn_map.Keys))
      ensures Lost(g_socket_map, old(g_socket_map), old(g_client_conn_map.Keys))
      ensures Lost(g_client_conn_map, old(g_client_conn_map), old(g_client_conn_map.Keys))
    {
      ghost var sockets, conns, before := g_socket_map, g_client_conn_map, record.ticked;
      var left := g_client_conn_map.Keys;
      order := [];
      while left != {}
        invariant Valid() && holders == old(holders) && left <= g_client_conn_map.Keys && left <= conns.Keys
        invariant Lost(g_socket_map, sockets, conns.Keys) && Lost(g_client_conn_map, conns, conns.Keys)
        invariant record.ticked == before + order && EachOnce(order, conns.Keys - left)
        decreases left
      {
        left, order := TickNext(left, before, order, sockets, conns);
      }
      assert conns.Keys - left == conns.Keys;
    }

    /** One round of the event loop: an event of a connection or of a listening socket, or
        a timer; or a socket that starts to listen or to connect. */
    method Turn()
      requires Valid() && holders == multiset{}
      modifies this, all, record
      ensures Valid() && holders == multiset{} && old(all) <= all && fresh(all - old(all))
      ensures forall o | o in old(all) && old(o.freed) :: o.freed
    {
      var fd: nat, what: nat, r: bool, w: bool, b: bool := *, *, *, *, *;
      assert forall o | o in all && o.freed :: !IsSocket(o) && !IsConn(o);
      if what == 0 {
        ghost var _ := Tick();
      } else if what == 1 && fd !in g_socket_map {
        var _ := AddSocket(fd);
      } else if what == 2 && fd !in g_socket_map {
        Accept(fd);
      } else if what == 3 {
        DispatchListener(fd);
      } else {
        ghost var _ := Dispatch(fd, r, w, b);
      }
    }

    /** Any run of the event loop from any state between two events. What is freed stays
        freed, so nothing is freed twice. */
    method Loop(rounds: nat)
      requires Valid() && holders == multiset{}
      modifies this, all, record
      ensures Valid() && holders == multiset{} && old(all) <= all
      ensures forall o | o in all :: !o.freed <==> IsSocket(o) || IsConn(o)
      ensures forall o | o in all && !o.freed :: o.m_refCount == 1
      ensures forall o | o in old(all) && old(o.freed) :: o.freed
      ensures g_client_conn_map.Keys <= g_socket_map.Keys
    {
      var i := 0;
      while i < rounds
        invariant Valid() && holders == multiset{} && old(all) <= all && fresh(all - old(all))
        invariant forall o | o in old(all) && old(o.freed) :: o.freed
      {
        Turn();
        i := i + 1;
      }
    }
  }
}
