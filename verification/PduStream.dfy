/** The byte streams of a connection: what the receiving side makes of the bytes so far,
    what the sending side holds back, and a whole link of the two over a FIFO channel
    (c++/base/imconn.cpp:82-198). */
module PduStream {
  import opened Sequences
  import opened Bytes
  import opened PduWire

  // ---------------------------------------------------------------- receiving

  datatype End = Waiting | Refused | Astray

  /** The PDUs at the front of a buffer, what stays behind them, and why: a frame is not
      complete, or it was refused, or what becomes of it depends on the memory. */
  datatype Drained = Drained(pdus: seq<Incoming>, rest: seq<byte>, end: End)

  /** The loop of OnRead. A refused frame stays in the buffer. About what follows a frame that
      goes astray nothing is specified. */
  function Drain(buf: seq<byte>): Drained
    decreases |buf|
  {
    match Read(buf)
    case NotAvailable => Drained([], buf, Waiting)
    case Thrown(_, _, _) => Drained([], buf, Refused)
    case Unsure(_) => Drained([], buf, Astray)
    case Indeterminate => Drained([], buf, Astray)
    case Got(x) =>
      var d := Drain(buf[x.header.length..]);
      Drained([x] + d.pdus, d.rest, d.end)
  }

  function Behind(x: Incoming, d: Drained): Drained {
    Drained([x] + d.pdus, d.rest, d.end)
  }

  function Frames(pdus: seq<Incoming>): seq<byte> {
    if pdus == [] then [] else pdus[0].frame + Frames(pdus[1..])
  }

  /** What draining does when the buffer starts with a good frame. */
  lemma {:induction false} DrainStep(buf: seq<byte>)
    requires Read(buf).Got?
    ensures var x := Read(buf).pdu;
            var tail := buf[x.header.length..];
            Drain(buf) == Behind(x, Drain(tail)) && x.frame + tail == buf && |tail| < |buf|
  {
  }

  lemma FramesOfMore(x: Incoming, d: Drained)
    ensures Frames(Behind(x, d).pdus) + Behind(x, d).rest == x.frame + (Frames(d.pdus) + d.rest)
  {
    assert ([x] + d.pdus)[1..] == d.pdus;
    Assoc(x.frame, Frames(d.pdus), d.rest);
  }

  /** No byte is lost or invented: the frames handled and what is left are the buffer. */
  lemma {:induction false} DrainConserves(buf: seq<byte>)
    ensures Frames(Drain(buf).pdus) + Drain(buf).rest == buf
    decreases |buf|
  {
    if Read(buf).Got? {
      var tail := buf[Read(buf).pdu.header.length..];
      DrainStep(buf);
      DrainConserves(tail);
      FramesOfMore(Read(buf).pdu, Drain(tail));
    }
  }

  /** What is left never starts with a good frame; it is looked at again with the next
      bytes, and then makes the same impression. */
  lemma {:induction false} DrainStops(buf: seq<byte>)
    ensures var d := Drain(buf);
            match d.end
            case Waiting => Read(d.rest).NotAvailable?
            case Refused => Read(d.rest).Thrown?
            case Astray => Read(d.rest).Unsure? || Read(d.rest).Indeterminate?
    decreases |buf|
  {
    if Read(buf).Got? {
      DrainStops(buf[Read(buf).pdu.header.length..]);
    }
  }

  /** Draining has come to `done` and still has `buf` before it. */
  ghost predicate DrainedTo(whole: Drained, done: seq<Incoming>, buf: seq<byte>) {
    whole == Drained(done + Drain(buf).pdus, Drain(buf).rest, Drain(buf).end)
  }

  lemma DrainBegins(buf: seq<byte>)
    ensures DrainedTo(Drain(buf), [], buf)
  {
    assert [] + Drain(buf).pdus == Drain(buf).pdus;
  }

  lemma DrainGoesOn(whole: Drained, done: seq<Incoming>, buf: seq<byte>)
    requires DrainedTo(whole, done, buf)
    ensures match Read(buf)
            case NotAvailable => whole == Drained(done, buf, Waiting)
            case Thrown(_, _, _) => whole == Drained(done, buf, Refused)
            case Unsure(_) => whole == Drained(done, buf, Astray)
            case Indeterminate => whole == Drained(done, buf, Astray)
            case Got(x) => DrainedTo(whole, done + [x], buf[x.header.length..])
  {
    if Read(buf).Got? {
      var x := Read(buf).pdu;
      Assoc(done, [x], Drain(buf[x.header.length..]).pdus);
    } else {
      assert done + [] == done;
    }
  }

  lemma DrainedBehind(x: Incoming, whole: Drained, done: seq<Incoming>, buf: seq<byte>)
    requires DrainedTo(whole, done, buf)
    ensures DrainedTo(Behind(x, whole), [x] + done, buf)
  {
    Assoc([x], done, Drain(buf).pdus);
  }

  /** A good frame in front stays in front when more comes in. */
  lemma DrainFront(buf: seq<byte>, more: seq<byte>)
    requires Read(buf).Got?
    ensures var x := Read(buf).pdu;
            var tail := buf[x.header.length..];
            Drain(buf) == Behind(x, Drain(tail)) && Drain(buf + more) == Behind(x, Drain(tail + more))
  {
    ReadIsStable(buf, more);
    var n := Read(buf).pdu.header.length;
    assert (buf + more)[n..] == buf[n..] + more;
  }

  /** Reading in two portions is reading the whole: the second time, what was left and the
      new bytes are looked at. */
  lemma {:induction false} DrainAgain(buf: seq<byte>, more: seq<byte>)
    ensures DrainedTo(Drain(buf + more), Drain(buf).pdus, Drain(buf).rest + more)
    decreases |buf|
  {
    if Read(buf).Got? {
      var x := Read(buf).pdu;
      var tail := buf[x.header.length..];
      DrainFront(buf, more);
      DrainAgain(tail, more);
      DrainedBehind(x, Drain(tail + more), Drain(tail).pdus, Drain(tail).rest + more);
    } else {
      DrainBegins(buf + more);
    }
  }

  function Concat(chunks: seq<seq<byte>>): seq<byte> {
    if chunks == [] then [] else Concat(chunks[..|chunks| - 1]) + chunks[|chunks| - 1]
  }

  /** A receiver that is handed its bytes chunk by chunk, until it closes the connection on a
      refused frame. */
  datatype Receiver = Receiver(buffered: seq<byte>, handled: seq<Incoming>, closed: bool)

  function Deliver(r: Receiver, chunk: seq<byte>): Receiver {
    if r.closed then r
    else
      var d := Drain(r.buffered + chunk);
      Receiver(d.rest, r.handled + d.pdus, d.end.Refused?)
  }

  /** The receiver that these bytes make, when they come at once. */
  function Received(bytes: seq<byte>): Receiver {
    var d := Drain(bytes);
    Receiver(d.rest, d.pdus, d.end.Refused?)
  }

  /** A receiver that has drained some bytes and gets more has drained all of them. */
  lemma DeliverStep(bytes: seq<byte>, chunk: seq<byte>)
    requires !Received(bytes).closed
    ensures Deliver(Received(bytes), chunk) == Received(bytes + chunk)
  {
    DrainAgain(bytes, chunk);
  }

  /** More bytes do not change why draining has ended, except that it waited for them. */
  lemma EndStays(bytes: seq<byte>, chunk: seq<byte>)
    ensures var d, all := Drain(bytes), Drain(bytes + chunk);
            !d.end.Waiting? ==> all.end == d.end && all.pdus == d.pdus
  {
    DrainAgain(bytes, chunk);
    DrainStops(bytes);
    var d := Drain(bytes);
    if !d.end.Waiting? {
      ReadIsStable(d.rest, chunk);
      assert d.pdus + [] == d.pdus;
    }
  }

  function DeliverAll(chunks: seq<seq<byte>>): Receiver {
    if chunks == [] then Receiver([], [], false)
    else Deliver(DeliverAll(chunks[..|chunks| - 1]), chunks[|chunks| - 1])
  }

  /** However the bytes are cut into chunks, the receiver handles the same PDUs and closes or
      does not as if it had got them at once, and while it is open it holds the same back.
      Only a frame whose outcome depends on the memory is left aside. */
  lemma {:induction false} ChunkingDoesNotMatter(chunks: seq<seq<byte>>)
    requires !Drain(Concat(chunks)).end.Astray?
    ensures var r, whole := DeliverAll(chunks), Received(Concat(chunks));
            r.handled == whole.handled && r.closed == whole.closed && (!r.closed ==> r == whole)
  {
    if chunks != [] {
      var before := chunks[..|chunks| - 1];
      EndStays(Concat(before), chunks[|chunks| - 1]);
      ChunkingDoesNotMatter(before);
      if !Received(Concat(before)).closed {
        DeliverStep(Concat(before), chunks[|chunks| - 1]);
      }
    }
  }

  // ------------------------------------------------------------------ sending

  datatype Sender = Sender(busy: bool, pending: seq<byte>)

  function Cut(n: nat, s: seq<byte>): nat {
    if n <= |s| then n else |s|
  }

  /** Send, when the socket takes n bytes before it refuses: what the socket took, and
      what the sender keeps. Nothing is offered while the sender is busy. */
  function Sending(s: Sender, data: seq<byte>, n: nat): (seq<byte>, Sender) {
    if s.busy then ([], Sender(true, s.pending + data))
    else (data[..Cut(n, data)], Sender(Cut(n, data) < |data|, s.pending + data[Cut(n, data)..]))
  }

  /** OnWrite, when the socket takes n bytes before it refuses. */
  function Flushing(s: Sender, n: nat): (seq<byte>, Sender) {
    if !s.busy then ([], s)
    else (s.pending[..Cut(n, s.pending)], Sender(Cut(n, s.pending) < |s.pending|, s.pending[Cut(n, s.pending)..]))
  }

  // ---------------------------------------------------------------- the link

  /** A sender, the channel, a receiver, and the PDUs that were given to SendPdu. What comes to
      a receiver that has closed the connection is not read any more. */
  datatype Link = Link(sender: Sender, channel: seq<byte>, receiver: Receiver, sent: seq<Outgoing>)

  type Outgoing = p: Pdu | Fits(p) witness ClientDone

  datatype Step =
    | SendPdu(pdu: Outgoing, taken: nat)
    | Write(taken: nat)
    | Receive(arrived: nat)

  function Next(l: Link, step: Step): Link {
    match step
    case SendPdu(p, n) =>
      var (out, sender) := Sending(l.sender, Wire(p), n);
      Link(sender, l.channel + out, l.receiver, l.sent + [p])
    case Write(n) =>
      var (out, sender) := Flushing(l.sender, n);
      Link(sender, l.channel + out, l.receiver, l.sent)
    case Receive(n) =>
      if l.receiver.closed then l else
      var k := Cut(n, l.channel);
      Link(l.sender, l.channel[k..], Deliver(l.receiver, l.channel[..k]), l.sent)
  }

  function Run(steps: seq<Step>): Link {
    if steps == [] then Link(Sender(false, []), [], Receiver([], [], false), [])
    else Next(Run(steps[..|steps| - 1]), steps[|steps| - 1])
  }

  function Wires(pdus: seq<Outgoing>): seq<byte> {
    if pdus == [] then [] else Wire(pdus[0]) + Wires(pdus[1..])
  }

  function AllPacked(pdus: seq<Outgoing>): seq<Incoming> {
    if pdus == [] then [] else [Packed(pdus[0])] + AllPacked(pdus[1..])
  }

  /** What holds in every state: the bytes that have come out of the channel, that are in
      it and that wait in front of it are the packed PDUs; the sender is busy exactly when
      something waits; the receiver is where the bytes that came out take it. */
  ghost predicate Consistent(l: Link, arrived: seq<byte>) {
    InOrder(l, arrived) && l.receiver == Received(arrived)
  }

  ghost predicate InOrder(l: Link, arrived: seq<byte>) {
    && arrived + l.channel + l.sender.pending == Wires(l.sent)
    && (l.sender.busy <==> l.sender.pending != [])
  }

  lemma {:induction false} WiresOfMore(pdus: seq<Outgoing>, p: Outgoing)
    ensures Wires(pdus + [p]) == Wires(pdus) + Wire(p)
  {
    if pdus == [] {
      assert Wires([]) == [] && [p][1..] == [];
      assert pdus + [p] == [p];
    } else {
      assert (pdus + [p])[1..] == pdus[1..] + [p];
      WiresOfMore(pdus[1..], p);
    }
  }

  lemma SendKeeps(l: Link, p: Outgoing, n: nat, arrived: seq<byte>)
    requires InOrder(l, arrived)
    ensures InOrder(Next(l, SendPdu(p, n)), arrived)
  {
    WiresOfMore(l.sent, p);
    if l.sender.busy {
      assert l.channel + [] == l.channel;
      Assoc(arrived + l.channel, l.sender.pending, Wire(p));
    } else {
      assert l.sender.pending == [];
      Moved(arrived, l.channel, Wire(p), Cut(n, Wire(p)));
      var kept := Wire(p)[Cut(n, Wire(p))..];
      assert arrived + l.channel + [] == arrived + l.channel && [] + kept == kept;
    }
  }

  lemma WriteKeeps(l: Link, n: nat, arrived: seq<byte>)
    requires InOrder(l, arrived)
    ensures InOrder(Next(l, Write(n)), arrived)
  {
    if l.sender.busy {
      Moved(arrived, l.channel, l.sender.pending, Cut(n, l.sender.pending));
    } else {
      assert l.channel + [] == l.channel;
    }
  }

  lemma ReceiveKeeps(l: Link, n: nat, arrived: seq<byte>)
    requires Consistent(l, arrived) && !l.receiver.closed
    ensures Consistent(Next(l, Receive(n)), arrived + l.channel[..Cut(n, l.channel)])
  {
    var k := Cut(n, l.channel);
    Taken(arrived, l.channel, l.sender.pending, k);
    DeliverStep(arrived, l.channel[..k]);
  }

  lemma {:induction false} RunIsConsistent(steps: seq<Step>) returns (arrived: seq<byte>)
    ensures Consistent(Run(steps), arrived)
  {
    if steps == [] {
      arrived := [];
    } else {
      var before := Run(steps[..|steps| - 1]);
      arrived := RunIsConsistent(steps[..|steps| - 1]);
      match steps[|steps| - 1]
      case SendPdu(p, n) => SendKeeps(before, p, n, arrived);
      case Write(n) => WriteKeeps(before, n, arrived);
      case Receive(n) =>
        if !before.receiver.closed {
          ReceiveKeeps(before, n, arrived);
          arrived := arrived + before.channel[..Cut(n, before.channel)];
        }
    }
  }

  lemma DrainFirst(p: Outgoing, rest: seq<byte>)
    ensures Accepted(p) ==> Drain(Wire(p) + rest) == Behind(Packed(p), Drain(rest))
    ensures !Accepted(p) ==> Drain(Wire(p) + rest) == Drained([], Wire(p) + rest, Refused)
  {
    TakenOrRefused(p, rest);
    if Accepted(p) {
      assert (Wire(p) + rest)[|Wire(p)|..] == rest;
    }
  }

  /** What draining makes of the first bytes of a PDU and what follows it. */
  lemma DrainHead(p: Outgoing, t: seq<byte>, bytes: seq<byte>)
    requires bytes <= Wire(p) + t
    ensures |bytes| < |Wire(p)| ==> Drain(bytes) == Drained([], bytes, Waiting)
    ensures |bytes| >= |Wire(p)| ==>
              && bytes[|Wire(p)|..] <= t
              && Drain(bytes) == if Accepted(p) then Behind(Packed(p), Drain(bytes[|Wire(p)|..]))
                                 else Drained([], bytes, Refused)
  {
    SplitPrefix(Wire(p), t, bytes);
    if |bytes| < |Wire(p)| {
      PartOfWire(p, |bytes|);
    } else {
      DrainFirst(p, bytes[|Wire(p)|..]);
    }
  }

  /** The PDUs in front of the first one that is refused. */
  function Front(pdus: seq<Outgoing>): seq<Outgoing> {
    if pdus == [] || !Accepted(pdus[0]) then [] else [pdus[0]] + Front(pdus[1..])
  }

  /** The others: none, or PDUs that begin with a refused one. */
  function Back(pdus: seq<Outgoing>): seq<Outgoing> {
    if pdus == [] || !Accepted(pdus[0]) then pdus else Back(pdus[1..])
  }

  /** Draining the first bytes of a series of packed PDUs. */
  lemma {:induction false} DrainPart(pdus: seq<Outgoing>, bytes: seq<byte>)
    requires bytes <= Wires(pdus)
    ensures Drain(bytes).pdus <= AllPacked(Front(pdus)) && !Drain(bytes).end.Astray?
    ensures Drain(bytes).end.Refused? ==> Drain(bytes).pdus == AllPacked(Front(pdus)) && Back(pdus) != []
  {
    if pdus != [] {
      var p, tail := pdus[0], pdus[1..];
      DrainHead(p, Wires(tail), bytes);
      if |bytes| >= |Wire(p)| && Accepted(p) {
        var rest := bytes[|Wire(p)|..];
        DrainPart(tail, rest);
        PrefixOfMore(Packed(p), Drain(rest).pdus, AllPacked(Front(tail)));
      }
    }
  }

  lemma {:induction false} DrainWhole(pdus: seq<Outgoing>)
    ensures Received(Wires(pdus)) == Receiver(Wires(Back(pdus)), AllPacked(Front(pdus)), Back(pdus) != [])
  {
    if pdus != [] {
      DrainFirst(pdus[0], Wires(pdus[1..]));
      if Accepted(pdus[0]) {
        DrainWhole(pdus[1..]);
      }
    }
  }

  /** Over every run, whatever the sockets do: the frames taken are a prefix of those of the
      PDUs in front of the first refused one, and each is read as what was packed, up to
      the fields that a done report and the command 16 leave to the memory. The receiver
      waits for the rest of a frame, or it has closed the connection, and then it has taken
      all of these PDUs and a refused one followed. Once nothing waits for the channel or is
      in it, all of them have been taken. */
  lemma HandledIsPrefixOfSent(steps: seq<Step>)
    ensures var l := Run(steps);
            && l.receiver.handled <= AllPacked(Front(l.sent))
            && (!l.receiver.closed ==> Read(l.receiver.buffered).NotAvailable?)
            && (l.receiver.closed ==>
                  && Read(l.receiver.buffered).Thrown?
                  && l.receiver.handled == AllPacked(Front(l.sent)) && Back(l.sent) != [])
            && (l.sender.pending == [] && l.channel == [] ==>
                  l.receiver == Receiver(Wires(Back(l.sent)), AllPacked(Front(l.sent)), Back(l.sent) != []))
  {
    var l := Run(steps);
    var arrived := RunIsConsistent(steps);
    Assoc(arrived, l.channel, l.sender.pending);
    DrainPart(l.sent, arrived);
    DrainStops(arrived);
    if l.sender.pending == [] && l.channel == [] {
      assert arrived + [] + [] == arrived;
      DrainWhole(l.sent);
    }
  }

  ghost predicate AllAccepted(pdus: seq<Outgoing>) {
    forall p | p in pdus :: Accepted(p)
  }

  ghost predicate AllSupported(pdus: seq<Outgoing>) {
    forall p | p in pdus :: Supported(p)
  }

  /** Every PDU has been read with the fields it was sent with. */
  ghost predicate AsSent(handled: seq<Incoming>, sent: seq<Outgoing>) {
    |handled| == |sent| && forall i | 0 <= i < |sent| :: handled[i].fields == Fields(sent[i])
  }

  lemma {:induction false} FrontIsPrefix(pdus: seq<Outgoing>)
    ensures Front(pdus) <= pdus && (Back(pdus) == [] <==> Front(pdus) == pdus)
    ensures Back(pdus) == [] <==> AllAccepted(pdus)
  {
    if pdus != [] {
      assert pdus == [pdus[0]] + pdus[1..];
      FrontIsPrefix(pdus[1..]);
    }
  }

  lemma {:induction false} PackedAt(pdus: seq<Outgoing>)
    ensures |AllPacked(pdus)| == |pdus| && forall i | 0 <= i < |pdus| :: AllPacked(pdus)[i] == Packed(pdus[i])
  {
    if pdus != [] {
      PackedAt(pdus[1..]);
    }
  }

  lemma {:induction false} SentIsSupported(sent: seq<Outgoing>)
    requires AllAccepted(sent) && AsSent(AllPacked(sent), sent)
    ensures AllSupported(sent)
  {
    PackedAt(sent);
    forall p | p in sent
      ensures Supported(p)
    {
      var i :| 0 <= i < |sent| && sent[i] == p;
      assert AsRead(p) == Fields(p);
    }
  }

  lemma {:induction false} SupportedIsSent(sent: seq<Outgoing>)
    requires AllSupported(sent)
    ensures AllAccepted(sent) && AsSent(AllPacked(sent), sent)
  {
    PackedAt(sent);
    forall i | 0 <= i < |sent|
      ensures AllPacked(sent)[i].fields == Fields(sent[i])
    {
      assert Supported(sent[i]);
    }
  }

  lemma {:induction false} FrontAsSent(sent: seq<Outgoing>)
    ensures AsSent(AllPacked(Front(sent)), sent) <==> AllSupported(sent)
  {
    FrontIsPrefix(sent);
    PackedAt(Front(sent));
    if AllSupported(sent) {
      SupportedIsSent(sent);
    }
    if AsSent(AllPacked(Front(sent)), sent) {
      assert Front(sent) == sent;
      SentIsSupported(sent);
    }
  }

  /** So, once nothing is on the way, the connection is open and everything has been taken
      exactly when no PDU sent is a refused one; and all has been read as it was sent exactly
      when all PDUs are supported ones. */
  lemma {:induction false} AllHandledExactlyWhen(steps: seq<Step>)
    requires Run(steps).sender.pending == [] && Run(steps).channel == []
    ensures var l := Run(steps);
            && (l.receiver == Receiver([], AllPacked(l.sent), false) <==> AllAccepted(l.sent))
            && (l.receiver.closed <==> !AllAccepted(l.sent))
            && (AsSent(l.receiver.handled, l.sent) <==> AllSupported(l.sent))
  {
    var sent := Run(steps).sent;
    HandledIsPrefixOfSent(steps);
    FrontIsPrefix(sent);
    FrontAsSent(sent);
  }

  /** The sender holds something back exactly while it is busy, and what it let go and
      what it holds back is what it was given, in order. */
  lemma NothingIsLost(steps: seq<Step>)
    ensures var l := Run(steps);
            && (l.sender.busy <==> l.sender.pending != [])
            && exists arrived: seq<byte> ::
                 && arrived + l.channel + l.sender.pending == Wires(l.sent)
                 && Frames(l.receiver.handled) + l.receiver.buffered == arrived
  {
    var arrived := RunIsConsistent(steps);
    DrainConserves(arrived);
  }
}
