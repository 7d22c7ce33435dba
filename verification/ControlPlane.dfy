/** The replication of (status, delay, multi) from the server to its clients: the protocol
    as a state machine (c++/server/manager.cpp:21-105, c++/server/servConn.cpp:47-266,
    c++/client/clientConn.cpp:147-210). */
module ControlPlane {
  import opened Bytes
  import opened PduWire
  import opened Sequences

  const CLIENT_CPP: uint16 := 1
  const CLIENT_PHP: uint16 := 2

  datatype Triple = Triple(status: uint16, delay: uint16, multi: uint16)

  /** PDUs from the server to a client. */
  datatype Message =
    | Command(command: uint16)
    | Rate(delay: uint16, multi: uint16)
    | Status(triple: Triple)
    | Reply(code: uint16)
    | AllClients

  /** PDUs from a client or a controller to the server. */
  datatype Request =
    | DoCommand(command: uint16)
    | DoRate(delay: uint16, multi: uint16)
    | AskStatus
    | AskAllClients
    | Register(clientType: uint16)
    | Data
    | Beat
    | Done(remaining: int)

  // ------------------------------------------------------------------- server

  /** A connection: the client type, which nobody sets before the registration, and what
      has been sent and not been handled by the client. */
  datatype Peer = Peer(clientType: uint16, channel: seq<Message>)

  datatype Server = Server(triple: Triple, peers: map<nat, Peer>)

  function Send(p: Peer, m: Message): Peer {
    p.(channel := p.channel + [m])
  }

  /** send_all_client_pdu. */
  function Broadcast(peers: map<nat, Peer>, m: Message): map<nat, Peer> {
    map h | h in peers :: if peers[h].clientType != CLIENT_PHP then Send(peers[h], m) else peers[h]
  }

  function Answer(s: Server, h: nat, m: Message): Server
    requires h in s.peers
  {
    s.(peers := s.peers[h := Send(s.peers[h], m)])
  }

  /** start, stop, pause and resume of the manager. */
  function ChangeStatus(s: Server, command: uint16): Server {
    Server(s.triple.(status := command), Broadcast(s.peers, Command(command)))
  }

  function ChangeRate(s: Server, delay: uint16, multi: uint16): Server {
    Server(Triple(s.triple.status, delay, multi), Broadcast(s.peers, Rate(delay, multi)))
  }

  /** HandlePdu of a server connection. */
  function Handle(s: Server, h: nat, r: Request): (t: Server)
    requires h in s.peers
    ensures t.peers.Keys == s.peers.Keys
  {
    match r
    case DoCommand(c) =>
      if IsServCommand(c) then Answer(ChangeStatus(s, c), h, Reply(0)) else Answer(s, h, Reply(0xFFFF))
    case DoRate(delay, multi) => Answer(ChangeRate(s, delay, multi), h, Reply(0))
    case AskStatus => Answer(s, h, Status(s.triple))
    case AskAllClients => Answer(s, h, AllClients)
    case Register(t) => s.(peers := s.peers[h := s.peers[h].(clientType := t)])
    case Data => Answer(s, h, Reply(0))
    case Beat => s
    case Done(remaining) => if remaining == 0 then ChangeStatus(s, CID_COMMAND_PAUSE) else s
  }

  // ------------------------------------------------------------------- client

  /** HandlePdu of a client connection, as far as the worker's settings go. */
  function Apply(t: Triple, m: Message): Triple {
    match m
    case Command(c) => t.(status := c)
    case Rate(delay, multi) => Triple(t.status, delay, multi)
    case Status(snapshot) => snapshot
    case _ => t
  }

  function ApplyAll(t: Triple, ms: seq<Message>): Triple
    decreases |ms|
  {
    if ms == [] then t else ApplyAll(Apply(t, ms[0]), ms[1..])
  }

  lemma {:induction false} ApplyLast(t: Triple, ms: seq<Message>, m: Message)
    ensures ApplyAll(t, ms + [m]) == Apply(ApplyAll(t, ms), m)
    decreases |ms|
  {
    if ms == [] {
      assert ms + [m] == [m] && [m][1..] == [];
    } else {
      assert (ms + [m])[1..] == ms[1..] + [m];
      ApplyLast(Apply(t, ms[0]), ms[1..], m);
    }
  }

  // ------------------------------------------------------------------- system

  /** The server, and the settings of the worker behind each connection. */
  datatype System = System(server: Server, workers: map<nat, Triple>)

  datatype Step =
    | Accept(handle: nat, junk: uint16, worker: Triple)
    | Close(handle: nat)
    | Receive(handle: nat, request: Request)
    | Deliver(handle: nat)

  function Initial(): System {
    System(Server(Triple(CID_COMMAND_STOP, 0, 1), map[]), map[])
  }

  predicate Reached(s: Server, h: nat) {
    h in s.peers && s.peers[h].clientType != CLIENT_PHP
  }

  predicate Enabled(s: System, step: Step) {
    match step
    case Accept(h, _, _) => h !in s.server.peers
    case Close(h) => h in s.server.peers
    case Receive(h, _) => h in s.server.peers
    case Deliver(h) => h in s.server.peers && h in s.workers && s.server.peers[h].channel != []
  }

  function Disconnected(s: System, h: nat): System {
    System(s.server.(peers := s.server.peers - {h}), s.workers - {h})
  }

  /** A step that is not enabled does nothing. */
  function Next(s: System, step: Step): System {
    if !Enabled(s, step) then s
    else match step
      case Accept(h, junk, worker) =>
        // The new object's client_type is whatever its memory held.
        System(s.server.(peers := s.server.peers[h := Peer(junk, [])]), s.workers[h := worker])
      case Close(h) => Disconnected(s, h)
      case Receive(h, r) => System(Handle(s.server, h, r), s.workers)
      case Deliver(h) =>
        var p := s.server.peers[h];
        // The client's ReadPdu refuses the status of all clients and closes.
        if p.channel[0].AllClients? then Disconnected(s, h)
        else System(s.server.(peers := s.server.peers[h := p.(channel := p.channel[1..])]),
                    s.workers[h := Apply(s.workers[h], p.channel[0])])
  }

  function Run(s: System, steps: seq<Step>): System
    decreases |steps|
  {
    if steps == [] then s else Run(Next(s, steps[0]), steps[1..])
  }

  /** The client comes to the server's settings by handling what is in its channel. */
  predicate Agrees(s: System, h: nat) {
    && h in s.server.peers && h in s.workers
    && ApplyAll(s.workers[h], s.server.peers[h].channel) == s.server.triple
  }

  // -------------------------------------------------- what a request comes to

  /** The requests that the server has handled along the steps: those that came in on a
      connection that was open. */
  function Requests(s: System, steps: seq<Step>): seq<Request>
    decreases |steps|
  {
    if steps == [] then []
    else
      (if steps[0].Receive? && steps[0].handle in s.server.peers then [steps[0].request] else [])
      + Requests(Next(s, steps[0]), steps[1..])
  }

  /** The status: of the last command that is one of the four, or of the last report of a
      finished client without remaining mails, and stopped before any. */
  function LastStatus(rs: seq<Request>): uint16 {
    if rs == [] then CID_COMMAND_STOP
    else
      var r := rs[|rs| - 1];
      if r.DoCommand? && r.command in {CID_COMMAND_START, CID_COMMAND_STOP, CID_COMMAND_PAUSE, CID_COMMAND_RESUME} then
        r.command
      else if r == Done(0) then CID_COMMAND_PAUSE
      else LastStatus(rs[..|rs| - 1])
  }

  /** The rates of the last change, and no delay and one process before any. */
  function LastRate(rs: seq<Request>): (uint16, uint16) {
    if rs == [] then (0, 1)
    else
      var r := rs[|rs| - 1];
      if r.DoRate? then (r.delay, r.multi) else LastRate(rs[..|rs| - 1])
  }

  function LastSettings(rs: seq<Request>): Triple {
    Triple(LastStatus(rs), LastRate(rs).0, LastRate(rs).1)
  }

  lemma {:induction false} StepSettings(s: System, step: Step, rs: seq<Request>)
    requires s.server.triple == LastSettings(rs)
    ensures var handled := if step.Receive? && step.handle in s.server.peers then [step.request] else [];
            Next(s, step).server.triple == LastSettings(rs + handled)
  {
    if step.Receive? && step.handle in s.server.peers {
      assert (rs + [step.request])[..|rs|] == rs;
    } else {
      assert rs + [] == rs;
    }
  }

  lemma {:induction false} SettingsFrom(s: System, steps: seq<Step>, rs: seq<Request>)
    requires s.server.triple == LastSettings(rs)
    ensures Run(s, steps).server.triple == LastSettings(rs + Requests(s, steps))
    decreases |steps|
  {
    if steps == [] {
      assert rs + [] == rs;
    } else {
      var handled := if steps[0].Receive? && steps[0].handle in s.server.peers then [steps[0].request] else [];
      StepSettings(s, steps[0], rs);
      SettingsFrom(Next(s, steps[0]), steps[1..], rs + handled);
      Assoc(rs, handled, Requests(Next(s, steps[0]), steps[1..]));
    }
  }

  /** After any run the server's settings are those of the last requests that set them. */
  lemma SettingsOnRuns(steps: seq<Step>)
    ensures Run(Initial(), steps).server.triple == LastSettings(Requests(Initial(), steps))
  {
    SettingsFrom(Initial(), steps, []);
    assert [] + Requests(Initial(), steps) == Requests(Initial(), steps);
  }

  /** What a request puts into the channel of every connection but those of the PHP type. */
  function ToAll(r: Request): seq<Message> {
    match r
    case DoCommand(c) =>
      if c in {CID_COMMAND_START, CID_COMMAND_STOP, CID_COMMAND_PAUSE, CID_COMMAND_RESUME} then [Command(c)] else []
    case DoRate(delay, multi) => [Rate(delay, multi)]
    case Done(remaining) => if remaining == 0 then [Command(CID_COMMAND_PAUSE)] else []
    case _ => []
  }

  /** What it puts into the channel of the one that sent it, behind that: 0 for a command that
      was carried out, -1 for one that is unknown. */
  function ToSender(r: Request, settings: Triple): seq<Message> {
    match r
    case DoCommand(_) => if ToAll(r) != [] then [Reply(0)] else [Reply(0xFFFF)]
    case DoRate(_, _) => [Reply(0)]
    case AskStatus => [Status(settings)]
    case AskAllClients => [AllClients]
    case Data => [Reply(0)]
    case _ => []
  }

  /** What every connection is sent when a request is handled, and its type afterwards. */
  lemma Answers(s: Server, g: nat, r: Request, h: nat)
    requires g in s.peers && h in s.peers
    ensures var before, after := s.peers[h], Handle(s, g, r).peers[h];
            && after.channel == before.channel + (if before.clientType != CLIENT_PHP then ToAll(r) else [])
                                + (if g == h then ToSender(r, s.triple) else [])
            && after.clientType == if r.Register? && g == h then r.clientType else before.clientType
  {
  }

  /** Where a connection comes to after the server has handled a request of another or of
      its own. */
  lemma AfterRequest(s: Server, g: nat, r: Request, h: nat, w: Triple)
    requires g in s.peers && h in s.peers
    ensures ApplyAll(w, Handle(s, g, r).peers[h].channel) ==
            var before := ApplyAll(w, s.peers[h].channel);
            var after := Handle(s, g, r).triple;
            if r.AskStatus? && g == h then s.triple
            else if s.peers[h].clientType == CLIENT_PHP then before
            else if r.DoRate? then Triple(before.status, after.delay, after.multi)
            else if (r.DoCommand? && IsServCommand(r.command)) || (r.Done? && r.remaining == 0) then
              Triple(after.status, before.delay, before.multi)
            else before
  {
    var c := s.peers[h].channel;
    match r
    case DoCommand(cmd) =>
      if IsServCommand(cmd) && s.peers[h].clientType != CLIENT_PHP {
        ApplyLast(w, c, Command(cmd));
        ApplyLast(w, c + [Command(cmd)], Reply(0));
      } else {
        ApplyLast(w, c, Reply(0));
        ApplyLast(w, c, Reply(0xFFFF));
      }
    case DoRate(delay, multi) =>
      ApplyLast(w, c, Rate(delay, multi));
      ApplyLast(w, c + [Rate(delay, multi)], Reply(0));
      ApplyLast(w, c, Reply(0));
    case AskStatus => ApplyLast(w, c, Status(s.triple));
    case AskAllClients => ApplyLast(w, c, AllClients);
    case Data => ApplyLast(w, c, Reply(0));
    case Done(_) => ApplyLast(w, c, Command(CID_COMMAND_PAUSE));
    case _ =>
  }

  /** A request keeps the agreement of a connection exactly when the connection is not of
      the PHP type or the request leaves the settings as they are. */
  lemma ChangeReaches(s: System, g: nat, r: Request, h: nat)
    requires Enabled(s, Receive(g, r)) && Agrees(s, h)
    ensures var t := Next(s, Receive(g, r));
            Agrees(t, h) <==> s.server.peers[h].clientType != CLIENT_PHP || t.server.triple == s.server.triple
  {
    AfterRequest(s.server, g, r, h, s.workers[h]);
  }

  /** An answered status request brings agreement, whatever was before. */
  lemma SnapshotAgrees(s: System, h: nat)
    requires Enabled(s, Receive(h, AskStatus)) && h in s.workers
    ensures Agrees(Next(s, Receive(h, AskStatus)), h)
  {
    AfterRequest(s.server, h, AskStatus, h, s.workers[h]);
  }

  /** There is a worker behind every connection. */
  lemma WorkersKept(s: System, steps: seq<Step>)
    requires s.workers.Keys == s.server.peers.Keys
    ensures Run(s, steps).workers.Keys == Run(s, steps).server.peers.Keys
    decreases |steps|
  {
    if steps != [] {
      WorkersKept(Next(s, steps[0]), steps[1..]);
    }
  }

  /** Along the steps the connection stays open, and whenever the settings change it is not
      of the PHP type. */
  predicate Attentive(s: System, steps: seq<Step>, h: nat)
    decreases |steps|
  {
    steps == [] || (Attends(s, steps[0], h) && Attentive(Next(s, steps[0]), steps[1..], h))
  }

  predicate Attends(s: System, step: Step, h: nat) {
    var t := Next(s, step);
    h in t.server.peers && (Reached(s.server, h) || t.server.triple == s.server.triple)
  }

  /** The connection agrees at the beginning and after each of the steps. */
  predicate AgreesThroughout(s: System, steps: seq<Step>, h: nat)
    decreases |steps|
  {
    Agrees(s, h) && (steps == [] || AgreesThroughout(Next(s, steps[0]), steps[1..], h))
  }

  lemma StepKeepsAgreement(s: System, step: Step, h: nat)
    requires Agrees(s, h)
    ensures Agrees(Next(s, step), h) <==> Attends(s, step, h)
  {
    match step
    case Receive(g, r) =>
      if Enabled(s, step) {
        ChangeReaches(s, g, r, h);
      }
    case _ =>
  }

  lemma AgreementKept(s: System, steps: seq<Step>, h: nat)
    requires Agrees(s, h)
    ensures AgreesThroughout(s, steps, h) <==> Attentive(s, steps, h)
    ensures Attentive(s, steps, h) ==> Agrees(Run(s, steps), h)
    decreases |steps|
  {
    if steps != [] {
      StepKeepsAgreement(s, steps[0], h);
      if Agrees(Next(s, steps[0]), h) {
        AgreementKept(Next(s, steps[0]), steps[1..], h);
      }
    }
  }

  /** In every run, from the answer to its status request on, a client comes to the server's
      settings by handling what is in its channel, at every moment of the rest of the run,
      if and only if it stays connected and is never of the PHP type when they change. With
      an empty channel it has them. */
  lemma AgreementOnRuns(before: seq<Step>, h: nat, after: seq<Step>)
    requires h in Run(Initial(), before).server.peers
    ensures var s := Next(Run(Initial(), before), Receive(h, AskStatus));
            && (AgreesThroughout(s, after, h) <==> Attentive(s, after, h))
            && (Attentive(s, after, h) ==>
                  var t := Run(s, after);
                  Agrees(t, h) && (t.server.peers[h].channel == [] ==> t.workers[h] == t.server.triple))
  {
    WorkersKept(Initial(), before);
    SnapshotAgrees(Run(Initial(), before), h);
    AgreementKept(Next(Run(Initial(), before), Receive(h, AskStatus)), after, h);
  }

  lemma RunBack(s: System, step: Step, steps: seq<Step>) returns (all: seq<Step>)
    ensures all == [step] + steps && Run(s, all) == Run(Next(s, step), steps)
  {
    all := [step] + steps;
    assert all[1..] == steps;
  }

  /** A client and another connection, once the client has asked for the status. */
  function Asked(junk: uint16): System {
    var t := Triple(0, 0, 1);
    var s := Next(Next(Initial(), Accept(7, junk, t)), Accept(8, CLIENT_CPP, t));
    Next(s, Receive(7, AskStatus))
  }

  lemma AskedState(junk: uint16)
    ensures Asked(junk).server.peers.Keys == {7, 8} == Asked(junk).workers.Keys
    ensures Asked(junk).server.triple == Triple(CID_COMMAND_STOP, 0, 1)
    ensures Asked(junk).server.peers[7] == Peer(junk, [Status(Triple(CID_COMMAND_STOP, 0, 1))])
  {
  }

  lemma AskedIsReached(junk: uint16, later: seq<Step>) returns (steps: seq<Step>)
    ensures Run(Initial(), steps) == Run(Asked(junk), later)
  {
    var t := Triple(0, 0, 1);
    var s1 := Next(Initial(), Accept(7, junk, t));
    var s2 := Next(s1, Accept(8, CLIENT_CPP, t));
    steps := RunBack(s2, Receive(7, AskStatus), later);
    steps := RunBack(s1, Accept(8, CLIENT_CPP, t), steps);
    steps := RunBack(Initial(), Accept(7, junk, t), steps);
  }

  /** Connection 7 has nothing left to handle, and other settings than the server. */
  predicate Misses(s: System) {
    && 7 in s.server.peers && s.server.peers[7].channel == []
    && 7 in s.workers && s.workers[7].status == CID_COMMAND_STOP
    && s.server.triple.status == CID_COMMAND_START
  }

  lemma LateMisses(s: System)
    requires s == Asked(CLIENT_PHP)
    ensures var s1 := Next(s, Receive(8, DoCommand(CID_COMMAND_START)));
            var s3 := Next(Next(s1, Receive(7, Register(CLIENT_CPP))), Deliver(7));
            Misses(s3) && s3.server.peers[7].clientType == CLIENT_CPP
  {
    AskedState(CLIENT_PHP);
  }

  /** A client asks for the status before it registers (c++/client/client.cpp:74-75,
      c++/client/clientConn.cpp:47-55 and 94-101): when the memory of its connection happened to
      hold the PHP type, a command in between does not reach it. */
  lemma LateRegistration() returns (steps: seq<Step>)
    ensures Misses(Run(Initial(), steps)) && Run(Initial(), steps).server.peers[7].clientType == CLIENT_CPP
  {
    var s0 := Asked(CLIENT_PHP);
    var s1 := Next(s0, Receive(8, DoCommand(CID_COMMAND_START)));
    var s2 := Next(s1, Receive(7, Register(CLIENT_CPP)));
    LateMisses(s0);
    steps := RunBack(s2, Deliver(7), []);
    steps := RunBack(s1, Receive(7, Register(CLIENT_CPP)), steps);
    steps := RunBack(s0, Receive(8, DoCommand(CID_COMMAND_START)), steps);
    steps := AskedIsReached(CLIENT_PHP, steps);
  }

  lemma DoneMisses(s: System)
    requires s == Asked(CLIENT_CPP)
    ensures var s2 := Next(Next(s, Deliver(7)), Receive(7, Register(CLIENT_PHP)));
            var s3 := Next(s2, Receive(8, DoCommand(CID_COMMAND_START)));
            Misses(s3) && s3.server.peers[7].clientType == CLIENT_PHP
  {
    AskedState(CLIENT_CPP);
  }

  /** A client reports that it is done with a PDU that carries the id of a registration and
      no type (c++/base/ImPduClient.cpp:281-290): when the type that is stored happens to be
      that of PHP, the next command does not reach the client. */
  lemma DoneRegisters() returns (steps: seq<Step>)
    ensures Misses(Run(Initial(), steps)) && Run(Initial(), steps).server.peers[7].clientType == CLIENT_PHP
  {
    var s0 := Asked(CLIENT_CPP);
    var s1 := Next(s0, Deliver(7));
    var s2 := Next(s1, Receive(7, Register(CLIENT_PHP)));
    DoneMisses(s0);
    steps := RunBack(s2, Receive(8, DoCommand(CID_COMMAND_START)), []);
    steps := RunBack(s1, Receive(7, Register(CLIENT_PHP)), steps);
    steps := RunBack(s0, Deliver(7), steps);
    steps := AskedIsReached(CLIENT_CPP, steps);
  }
}
