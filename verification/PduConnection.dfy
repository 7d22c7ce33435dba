/** Two connection objects with the network between them (c++/base/imconn.cpp:82-198), driven
    by any calls in any order: each call is a step of the link of PduStream, so that what is
    proved about all runs of the link holds of the objects. */
module PduConnection {
  import opened Sequences
  import opened Bytes
  import opened PduWire
  import opened PduStream
  import opened ImConnection

  /** The steps lead to this state. */
  predicate Leads(steps: seq<Step>, l: Link) {
    Run(steps) == l
  }

  lemma Then(steps: seq<Step>, l: Link, step: Step) returns (more: seq<Step>, m: Link)
    requires Leads(steps, l)
    ensures Leads(more, m) && more == steps + [step] && m == Next(l, step)
  {
    more, m := steps + [step], Next(l, step);
    assert more[..|steps|] == steps;
  }

  lemma SendBehind(l: Link, p: Outgoing, n: nat, there: seq<byte>, here: seq<byte>)
    requires l.channel == there + here
    ensures var (out, sender) := PduStream.Sending(l.sender, Wire(p), n);
            Next(l, Step.SendPdu(p, n)) == Link(sender, there + (here + out), l.receiver, l.sent + [p])
  {
    Assoc(there, here, PduStream.Sending(l.sender, Wire(p), n).0);
  }

  lemma WriteBehind(l: Link, n: nat, there: seq<byte>, here: seq<byte>)
    requires l.channel == there + here
    ensures var (out, sender) := Flushing(l.sender, n);
            Next(l, Write(n)) == Link(sender, there + (here + out), l.receiver, l.sent)
  {
    Assoc(there, here, Flushing(l.sender, n).0);
  }

  /** No frame goes astray that the bytes at the front of the channel complete. */
  lemma NoneAstray(steps: seq<Step>, l: Link, chunk: seq<byte>, rest: seq<byte>)
    requires Leads(steps, l) && l.channel == chunk + rest && !l.receiver.closed
    ensures !Drain(l.receiver.buffered + chunk).end.Astray?
  {
    var _, m := ReceiveStep(steps, l, chunk, rest);
    DrainStops(l.receiver.buffered + chunk);
    assert m.receiver.buffered == Drain(l.receiver.buffered + chunk).rest;
  }

  /** The receiver takes these bytes. */
  lemma ReceiveStep(steps: seq<Step>, l: Link, chunk: seq<byte>, rest: seq<byte>)
    returns (more: seq<Step>, m: Link)
    requires Leads(steps, l) && l.channel == chunk + rest && !l.receiver.closed
    ensures Leads(more, m) && more == steps + [Receive(|chunk|)]
    ensures m == Link(l.sender, rest, Deliver(l.receiver, chunk), l.sent)
    ensures Read(m.receiver.buffered).NotAvailable? || Read(m.receiver.buffered).Thrown?
  {
    assert l.channel[..|chunk|] == chunk && l.channel[|chunk|..] == rest;
    more, m := Then(steps, l, Receive(|chunk|));
    HandledIsPrefixOfSent(more);
  }

  lemma Passed(there: seq<byte>, here: seq<byte>, k: nat)
    requires k <= |here|
    ensures (there + here[..k]) + here[k..] == there + here
  {
    assert here[..k] + here[k..] == here;
  }

  class Pair {
    const client: ImConn
    const server: ImConn

    ghost predicate Apart()
      reads client, client.in_buf, client.out_buf, server, server.in_buf, server.out_buf
    {
      && client != server && client.socket != server.socket
      && client.out_buf != server.in_buf && client.out_buf != server.out_buf && client.in_buf != server.in_buf
      && client.out_buf.block != server.in_buf.block
      && client.Valid() && server.Valid()
    }

    /** The bytes between the two connections. */
    function Between(): seq<byte>
      reads client.socket`taken, server.socket`arrived
    {
      server.socket.arrived + client.socket.taken
    }

    /** The objects are in this state. */
    ghost predicate Matches(l: Link)
      reads client, client.in_buf, client.out_buf, client.out_buf.block, client.socket`taken
      reads server, server.in_buf, server.out_buf, server.in_buf.block, server.socket`arrived
    {
      Apart() && l.sender == client.Sending() && l.channel == Between() && l.receiver == server.Receiving()
    }

    constructor ()
      ensures Matches(Run([])) && fresh(client) && fresh(server)
    {
      var near := new Socket();
      var far := new Socket();
      client := new ImConn(near);
      server := new ImConn(far);
    }

    /** SendPdu on the client. */
    method Submit(p: Outgoing, ghost steps: seq<Step>, ghost l: Link)
      returns (ghost more: seq<Step>, ghost m: Link, ghost log: seq<Offer>)
      requires Matches(l) && Leads(steps, l)
      modifies client`busy, client.out_buf, client.out_buf.block, client.socket`taken, client.socket`offers
      ensures Matches(m) && Leads(more, m) && more == steps + [Step.SendPdu(p, Sent(log))]
      ensures client.socket.offers == old(client.socket.offers) + log
      ensures if l.sender.busy then log == [] else OfferedAll(Wire(p), log)
      ensures client.out_buf.block == old(client.out_buf.block) || fresh(client.out_buf.block)
    {
      var len;
      len, log := client.SendPdu(p);
      SendBehind(l, p, Sent(log), server.socket.arrived, old(client.socket.taken));
      more, m := Then(steps, l, Step.SendPdu(p, Sent(log)));
    }

    /** The client's socket takes data again. */
    method Writable(ghost steps: seq<Step>, ghost l: Link)
      returns (ghost more: seq<Step>, ghost m: Link, ghost log: seq<Offer>)
      requires Matches(l) && Leads(steps, l)
      modifies client`busy, client.out_buf, client.out_buf.block, client.socket`taken, client.socket`offers
      ensures Matches(m) && Leads(more, m) && more == steps + [Write(Sent(log))]
      ensures client.socket.offers == old(client.socket.offers) + log
      ensures if l.sender.busy then OfferedAll(l.sender.pending, log) else log == []
      ensures client.out_buf.block == old(client.out_buf.block)
    {
      log := client.OnWrite();
      WriteBehind(l, Sent(log), server.socket.arrived, old(client.socket.taken));
      more, m := Then(steps, l, Write(Sent(log)));
    }

    /** Bytes have arrived at the server, unless it has closed the connection. */
    method Readable(ghost steps: seq<Step>, ghost l: Link)
      returns (ghost more: seq<Step>, ghost m: Link, ghost log: seq<Request>)
      requires Matches(l) && Leads(steps, l)
      modifies server`recv_bytes, server`handled, server`taken, server`closed, server.in_buf, server.in_buf.block
      modifies server.socket`arrived, server.socket`requests
      ensures Matches(m) && Leads(more, m)
      ensures if l.receiver.closed then log == [] && more == steps && m == l
              else AskedAll(log) && more == steps + [Receive(Fetched(log))]
      ensures server.socket.requests == old(server.socket.requests) + log
      ensures server.in_buf.block == old(server.in_buf.block) || fresh(server.in_buf.block)
    {
      more, m, log := steps, l, [];
      if !server.closed {
        ghost var chunk;
        chunk, log := server.OnRead();
        assert Apart() && client.Sending() == l.sender;
        Assoc(chunk, server.socket.arrived, client.socket.taken);
        NoneAstray(steps, l, chunk, Between());
        more, m := ReceiveStep(steps, l, chunk, Between());
      }
    }

    /** The network moves some bytes on. */
    method Transfer(n: nat, ghost l: Link)
      requires Matches(l)
      modifies client.socket`taken, server.socket`arrived
      ensures Matches(l)
    {
      var k := if n <= |client.socket.taken| then n else |client.socket.taken|;
      Passed(server.socket.arrived, client.socket.taken, k);
      server.socket.arrived := server.socket.arrived + client.socket.taken[..k];
      client.socket.taken := client.socket.taken[k..];
    }

    /** One of the calls at the client, after the steps that lead to l. */
    method ClientCall(submit: bool, p: Outgoing, ghost steps: seq<Step>, ghost l: Link)
      returns (ghost more: seq<Step>, ghost m: Link)
      requires Matches(l) && Leads(steps, l)
      modifies client`busy, client.out_buf, client.out_buf.block, client.socket`taken, client.socket`offers
      ensures Matches(m) && Leads(more, m) && steps <= more
      ensures client.out_buf.block == old(client.out_buf.block) || fresh(client.out_buf.block)
    {
      ghost var log: seq<Offer>;
      if submit {
        more, m, log := Submit(p, steps, l);
      } else {
        more, m, log := Writable(steps, l);
      }
    }

    /** The call at the server, or the network at work. */
    method ServerCall(read: bool, n: nat, ghost steps: seq<Step>, ghost l: Link)
      returns (ghost more: seq<Step>, ghost m: Link)
      requires Matches(l) && Leads(steps, l)
      modifies client.socket`taken, server`recv_bytes, server`handled, server`taken, server`closed
      modifies server.in_buf, server.in_buf.block, server.socket`arrived, server.socket`requests
      ensures Matches(m) && Leads(more, m) && steps <= more
      ensures server.in_buf.block == old(server.in_buf.block) || fresh(server.in_buf.block)
    {
      ghost var log: seq<Request>;
      if read {
        more, m, log := Readable(steps, l);
      } else {
        Transfer(n, l);
        more, m := steps, l;
      }
    }

    /** Any calls, in any order: whatever they are, there is a run of the link that takes it to
        where the objects are. */
    method Drive() returns (ghost steps: seq<Step>, ghost l: Link)
      requires Matches(Run([]))
      modifies client`busy, client.out_buf, client.out_buf.block, client.socket`taken, client.socket`offers
      modifies server`recv_bytes, server`handled, server`taken, server`closed, server.in_buf, server.in_buf.block
      modifies server.socket`arrived, server.socket`requests
      ensures Matches(l) && Leads(steps, l)
    {
      steps, l := [], Run([]);
      var rounds: nat := *;
      while rounds > 0
        invariant Matches(l) && Leads(steps, l)
        invariant client.out_buf.block == old(client.out_buf.block) || fresh(client.out_buf.block)
        invariant server.in_buf.block == old(server.in_buf.block) || fresh(server.in_buf.block)
      {
        var atClient: bool, call: bool, p: Outgoing, n: nat := *, *, *, *;
        if atClient {
          steps, l := ClientCall(call, p, steps, l);
        } else {
          steps, l := ServerCall(call, n, steps, l);
        }
        rounds := rounds - 1;
      }
    }

    /** Of the objects, whatever has been called: the PDUs handled so far are, one by one, those
        sent in front of the first refused one, up to the fields that a done report and the
        command 16 leave to the memory. All of them have been handled when the server has
        closed the connection, and when nothing waits in the client's buffer or is between
        the two. The server closes only when a refused PDU was sent. */
    lemma Delivered(steps: seq<Step>, l: Link)
      requires Matches(l) && Leads(steps, l)
      ensures |server.handled| <= |Front(l.sent)| <= |l.sent|
      ensures forall i | 0 <= i < |server.handled| :: ReadFrom(l.sent[i], server.handled[i])
      ensures server.closed || (!client.busy && Between() == []) ==> |server.handled| == |Front(l.sent)|
      ensures server.closed ==> !AllAccepted(l.sent)
    {
      HandledIsPrefixOfSent(steps);
      FrontIsPrefix(l.sent);
      PackedAt(Front(l.sent));
      forall i | 0 <= i < |server.handled|
        ensures ReadFrom(l.sent[i], server.handled[i])
      {
        GivenByPacked(l.sent[i], server.handled[i]);
      }
    }
  }
}
