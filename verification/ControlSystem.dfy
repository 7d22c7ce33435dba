/** The manager and the workers behind its connections, driven by any events in any order: each
    event is a step of the protocol, so that what is proved about its runs holds of the
    objects (c++/server/servConn.cpp:47-266, c++/client/clientConn.cpp:147-210). */
module ControlSystem {
  import opened Bytes
  import opened ControlPlane
  import opened ControlServer

  ghost predicate Leads(steps: seq<Step>, s: System) {
    s == Run(Initial(), steps)
  }

  lemma {:induction false} RunOn(s: System, a: seq<Step>, b: seq<Step>)
    ensures Run(s, a + b) == Run(Run(s, a), b)
    decreases |a|
  {
    if a == [] {
      assert a + b == b;
    } else {
      assert (a + b)[1..] == a[1..] + b;
      RunOn(Next(s, a[0]), a[1..], b);
    }
  }

  lemma {:induction false} Then(steps: seq<Step>, s: System, step: Step) returns (more: seq<Step>, t: System)
    requires Leads(steps, s)
    ensures Leads(more, t) && more == steps + [step] && t == Next(s, step)
  {
    more, t := steps + [step], Next(s, step);
    RunOn(Initial(), steps, [step]);
    assert [step][1..] == [];
  }

  /** The first PDU on the way to the client has been taken. */
  function Taken(s: System, h: nat): System
    requires h in s.server.peers && s.server.peers[h].channel != []
  {
    var p := s.server.peers[h];
    s.(server := Server(s.server.triple, s.server.peers[h := p.(channel := p.channel[1..])]))
  }

  lemma {:induction false} Accepted(steps: seq<Step>, s: System, h: nat, junk: uint16, worker: Triple)
    returns (more: seq<Step>, t: System)
    requires Leads(steps, s) && h !in s.server.peers
    ensures Leads(more, t) && more == steps + [Accept(h, junk, worker)]
    ensures t == System(Server(s.server.triple, s.server.peers[h := Peer(junk, [])]), s.workers[h := worker])
  {
    more, t := Then(steps, s, Accept(h, junk, worker));
  }

  lemma {:induction false} Closed(steps: seq<Step>, s: System, h: nat) returns (more: seq<Step>, t: System)
    requires Leads(steps, s) && h in s.server.peers
    ensures Leads(more, t) && more == steps + [Step.Close(h)] && t == Disconnected(s, h)
  {
    more, t := Then(steps, s, Step.Close(h));
  }

  lemma {:induction false} Received(steps: seq<Step>, s: System, h: nat, r: Request)
    returns (more: seq<Step>, t: System)
    requires Leads(steps, s) && h in s.server.peers
    ensures Leads(more, t) && more == steps + [Receive(h, r)]
    ensures t == System(Handle(s.server, h, r), s.workers)
  {
    more, t := Then(steps, s, Receive(h, r));
  }

  lemma {:induction false} Delivered(steps: seq<Step>, s: System, h: nat) returns (more: seq<Step>, t: System)
    requires Leads(steps, s) && h in s.server.peers && h in s.workers && s.server.peers[h].channel != []
    ensures Leads(more, t) && more == steps + [Deliver(h)]
    ensures var m := s.server.peers[h].channel[0];
            var u := Taken(s, h);
            t == if m.AllClients? then Disconnected(u, h) else u.(workers := u.workers[h := Apply(u.workers[h], m)])
  {
    more, t := Then(steps, s, Deliver(h));
    assert Taken(s, h).server.peers - {h} == s.server.peers - {h};
  }

  /** The workers, each in the client behind the connection of that handle. */
  class Fleet {
    var workers: map<nat, Worker>

    ghost predicate Valid()
      reads this, workers.Values
    {
      && (forall h | h in workers :: workers[h].Valid())
      && (forall g, h | g in workers && h in workers && g != h :: workers[g] != workers[h])
    }

    ghost function Settings(): map<nat, Triple>
      reads this, workers.Values
    {
      map h | h in workers :: workers[h].Settings()
    }

    constructor ()
      ensures Valid() && Settings() == map[] && workers == map[]
    {
      workers := map[];
    }

    /** The worker may have been connected before. */
    method Join(handle: nat, worker: Worker)
      requires Valid() && worker.Valid() && worker !in workers.Values && handle !in workers
      modifies this
      ensures Valid() && workers == old(workers)[handle := worker]
      ensures Settings() == old(Settings())[handle := worker.Settings()]
    {
      assert forall h | h in workers :: workers[h] != worker;
      workers := workers[handle := worker];
    }

    method Leave(handle: nat)
      requires Valid()
      modifies this
      ensures Valid() && workers == old(workers) - {handle}
      ensures Settings() == old(Settings()) - {handle}
    {
      workers := workers - {handle};
    }

    method Work(handle: nat, m: Message)
      requires Valid() && handle in workers
      modifies workers[handle]
      ensures Valid()
      ensures Settings() == old(Settings())[handle := Apply(old(Settings()[handle]), m)]
    {
      workers[handle].HandlePdu(m);
    }
  }

  class Site {
    const manager: Manager
    const fleet: Fleet

    /** The objects are in this state. */
    ghost predicate At(s: System)
      reads manager, manager.Conns(), fleet, fleet.workers.Values
    {
      && manager.Valid() && fleet.Valid()
      && s.server == manager.View() && s.workers == fleet.Settings()
    }

    constructor ()
      ensures At(Initial()) && fresh(manager) && fresh(fleet) && manager.g_client_conn_map == map[]
    {
      manager := new Manager();
      fleet := new Fleet();
    }

    ghost predicate Fewer(conns: set<ServConn>, workers: set<Worker>)
      reads manager`g_client_conn_map, fleet
    {
      manager.Conns() <= conns && fleet.workers.Values <= workers
    }

    /** There is a worker behind every connection. */
    lemma Manned(steps: seq<Step>, s: System)
      requires At(s) && Leads(steps, s)
      ensures fleet.workers.Keys == manager.g_client_conn_map.Keys == s.server.peers.Keys == s.workers.Keys
    {
      WorkersKept(Initial(), steps);
      assert fleet.workers.Keys == fleet.Settings().Keys;
      assert manager.g_client_conn_map.Keys == manager.Peers().Keys;
    }

    method Enter(handle: nat, junk: uint16, worker: Worker, ghost s: System)
      requires At(s) && worker.Valid() && worker !in fleet.workers.Values
      requires handle !in manager.g_client_conn_map && handle !in fleet.workers
      modifies manager`g_client_conn_map, fleet
      ensures At(System(Server(s.server.triple, s.server.peers[handle := Peer(junk, [])]),
                        s.workers[handle := worker.Settings()]))
      ensures fresh(manager.Conns() - old(manager.Conns())) && fleet.workers == old(fleet.workers)[handle := worker]
    {
      var _ := manager.OnConnect2(handle, junk);
      ghost var v := manager.View();
      fleet.Join(handle, worker);
      assert manager.View() == v;
    }

    /** A client connects with its worker. */
    method Connect(handle: nat, junk: uint16, worker: Worker, ghost steps: seq<Step>, ghost s: System)
      returns (ghost more: seq<Step>, ghost t: System)
      requires At(s) && Leads(steps, s)
      requires worker.Valid() && worker !in fleet.workers.Values && handle !in manager.g_client_conn_map
      modifies manager`g_client_conn_map, fleet
      ensures At(t) && Leads(more, t) && more == steps + [Accept(handle, junk, worker.Settings())]
      ensures fresh(manager.Conns() - old(manager.Conns())) && fleet.workers == old(fleet.workers)[handle := worker]
    {
      Manned(steps, s);
      Enter(handle, junk, worker, s);
      more, t := Accepted(steps, s, handle, junk, worker.Settings());
    }

    method Part(handle: nat, ghost s: System)
      requires At(s) && handle in manager.g_client_conn_map
      modifies manager`g_client_conn_map, fleet
      ensures At(Disconnected(s, handle)) && Fewer(old(manager.Conns()), old(fleet.workers.Values))
    {
      manager.Close(handle);
      ghost var v := manager.View();
      fleet.Leave(handle);
      assert manager.View() == v;
    }

    /** A connection is closed at either end. */
    method Disconnect(handle: nat, ghost steps: seq<Step>, ghost s: System)
      returns (ghost more: seq<Step>, ghost t: System)
      requires At(s) && Leads(steps, s) && handle in manager.g_client_conn_map
      modifies manager`g_client_conn_map, fleet
      ensures At(t) && Leads(more, t) && more == steps + [Step.Close(handle)]
      ensures Fewer(old(manager.Conns()), old(fleet.workers.Values))
    {
      Manned(steps, s);
      Part(handle, s);
      more, t := Closed(steps, s, handle);
    }

    method Serve(handle: nat, r: Request, ghost s: System)
      requires At(s) && handle in manager.g_client_conn_map
      modifies manager`status, manager`delay, manager`multi, manager.Conns()
      ensures At(System(Handle(s.server, handle, r), s.workers))
      ensures manager.Conns() == old(manager.Conns()) && fleet.workers == old(fleet.workers)
    {
      manager.HandlePdu(handle, r);
      assert fleet.Settings() == s.workers;
    }

    /** The server handles a request. */
    method Request(handle: nat, r: Request, ghost steps: seq<Step>, ghost s: System)
      returns (ghost more: seq<Step>, ghost t: System)
      requires At(s) && Leads(steps, s) && handle in manager.g_client_conn_map
      modifies manager`status, manager`delay, manager`multi, manager.Conns()
      ensures At(t) && Leads(more, t) && more == steps + [Receive(handle, r)]
      ensures manager.Conns() == old(manager.Conns()) && fleet.workers == old(fleet.workers)
    {
      Manned(steps, s);
      Serve(handle, r, s);
      more, t := Received(steps, s, handle, r);
    }

    method Take(handle: nat, ghost s: System) returns (m: Message)
      requires At(s) && handle in manager.g_client_conn_map && manager.g_client_conn_map[handle].channel != []
      modifies manager.g_client_conn_map[handle]
      ensures handle in s.server.peers && s.server.peers[handle].channel != []
      ensures m == s.server.peers[handle].channel[0] && At(Taken(s, handle))
      ensures manager.Conns() == old(manager.Conns()) && fleet.workers == old(fleet.workers)
    {
      m := manager.Fetch(handle);
      assert fleet.Settings() == s.workers;
    }

    method Obey(handle: nat, m: Message, ghost s: System)
      requires At(s) && handle in fleet.workers
      modifies fleet.workers[handle]
      ensures handle in s.workers && At(s.(workers := s.workers[handle := Apply(s.workers[handle], m)]))
      ensures manager.Conns() == old(manager.Conns()) && fleet.workers == old(fleet.workers)
    {
      fleet.Work(handle, m);
      assert manager.View() == s.server;
    }

    /** A client handles the next PDU on its way. The status of all clients it cannot read, and
        closes. */
    method Work(handle: nat, ghost steps: seq<Step>, ghost s: System)
      returns (ghost more: seq<Step>, ghost t: System)
      requires At(s) && Leads(steps, s) && handle in manager.g_client_conn_map
      requires manager.g_client_conn_map[handle].channel != []
      modifies manager`g_client_conn_map, manager.g_client_conn_map[handle]
      modifies fleet, fleet.workers.Values
      ensures At(t) && Leads(more, t) && more == steps + [Deliver(handle)]
      ensures Fewer(old(manager.Conns()), old(fleet.workers.Values))
    {
      Manned(steps, s);
      var m := Take(handle, s);
      if m.AllClients? {
        Part(handle, Taken(s, handle));
      } else {
        Obey(handle, m, Taken(s, handle));
      }
      more, t := Delivered(steps, s, handle);
    }

    /** A client that may have been connected before: its worker has any settings. */
    method Newcomer(handle: nat, junk: uint16, settings: Triple, ghost steps: seq<Step>, ghost s: System)
      returns (ghost more: seq<Step>, ghost t: System)
      requires At(s) && Leads(steps, s) && handle !in manager.g_client_conn_map
      modifies manager`g_client_conn_map, fleet
      ensures At(t) && Leads(more, t) && steps <= more
      ensures fresh(manager.Conns() - old(manager.Conns()))
      ensures fresh(fleet.workers.Values - old(fleet.workers.Values))
    {
      var worker := new Worker();
      worker.HandlePdu(Status(settings));
      more, t := Connect(handle, junk, worker, steps, s);
    }

    /** One event, unless it is one that cannot happen, after the steps that lead to s. */
    method Event(kind: nat, handle: nat, junk: uint16, settings: Triple, r: Request,
                 ghost steps: seq<Step>, ghost s: System)
      returns (ghost more: seq<Step>, ghost t: System)
      requires At(s) && Leads(steps, s)
      modifies manager, manager.Conns(), fleet, fleet.workers.Values
      ensures At(t) && Leads(more, t) && steps <= more
      ensures fresh(manager.Conns() - old(manager.Conns()))
      ensures fresh(fleet.workers.Values - old(fleet.workers.Values))
    {
      more, t := steps, s;
      if handle !in manager.g_client_conn_map {
        more, t := Newcomer(handle, junk, settings, steps, s);
      } else if kind == 0 {
        more, t := Disconnect(handle, steps, s);
      } else if kind == 1 {
        more, t := Request(handle, r, steps, s);
      } else if manager.g_client_conn_map[handle].channel != [] {
        more, t := Work(handle, steps, s);
      }
    }

    /** Any events, in any order: whatever they are, there is a run of the protocol that takes it
        to where the objects are. */
    method Drive() returns (ghost steps: seq<Step>, ghost s: System)
      requires At(Initial())
      modifies manager, manager.Conns(), fleet, fleet.workers.Values
      ensures At(s) && Leads(steps, s)
    {
      steps, s := [], Initial();
      var rounds: nat := *;
      while rounds > 0
        invariant At(s) && Leads(steps, s)
        invariant fresh(manager.Conns() - old(manager.Conns()))
        invariant fresh(fleet.workers.Values - old(fleet.workers.Values))
      {
        var kind: nat, handle: nat, junk: uint16, settings: Triple, r: Request := *, *, *, *, *;
        steps, s := Event(kind, handle, junk, settings, r, steps, s);
        rounds := rounds - 1;
      }
    }

    /** Of the objects: whatever has happened, the manager's settings are those of the last
        requests that set them. */
    lemma ManagerHasLast(steps: seq<Step>, s: System)
      requires At(s) && Leads(steps, s)
      ensures Triple(manager.status, manager.delay, manager.multi) == LastSettings(Requests(Initial(), steps))
    {
      SettingsOnRuns(steps);
    }

    /** Of the objects: after the answer to its status request, and any events at which the
        client is connected and is not of the PHP type when the settings change, a client that
        has handled everything sent to it has the manager's settings, and its worker has put
        them into shared memory. */
    lemma WorkerHasSettings(before: seq<Step>, h: nat, after: seq<Step>, s: System)
      requires At(s) && Leads(before + [Receive(h, AskStatus)] + after, s)
      requires h in Run(Initial(), before).server.peers
      requires Attentive(Next(Run(Initial(), before), Receive(h, AskStatus)), after, h)
      ensures h in manager.g_client_conn_map && h in fleet.workers
      ensures manager.g_client_conn_map[h].channel == [] ==>
                var w := fleet.workers[h];
                && w.shm_status == w.status == manager.status
                && w.shm_delay == w.delay == manager.delay
                && w.shm_multi == w.multi == manager.multi
    {
      AgreementOnRuns(before, h, after);
      RunOn(Initial(), before + [Receive(h, AskStatus)], after);
      RunOn(Initial(), before, [Receive(h, AskStatus)]);
    }
  }
}
