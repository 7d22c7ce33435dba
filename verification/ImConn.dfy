/** A connection on a non-blocking socket (c++/base/imconn.cpp:82-198,
    c++/base/imconn.h:23-56, c++/base/netlib.cpp:50-70). */
module ImConnection {
  import opened Options
  import opened Sequences
  import opened Bytes
  import opened SimpleBuffer
  import opened PduWire
  import opened PduCodec
  import opened PduStream

  const NETLIB_MAX_SOCKET_BUF_SIZE := 128 * 1024
  const READ_BUF_SIZE := 2048

  /** A call of netlib_send with its result, and one of netlib_recv with the room there was. */
  datatype Offer = Offer(data: seq<byte>, ret: int)
  datatype Request = Request(room: nat, ret: int)

  function Positive(ret: int): nat {
    if ret > 0 then ret else 0
  }

  /** How many bytes these offers, these requests brought on their way. */
  function Sent(log: seq<Offer>): nat {
    if log == [] then 0 else Sent(log[..|log| - 1]) + Positive(log[|log| - 1].ret)
  }

  function Fetched(log: seq<Request>): nat {
    if log == [] then 0 else Fetched(log[..|log| - 1]) + Positive(log[|log| - 1].ret)
  }

  /** The socket was offered the front of the data, and then, as long as it took something, the
      front of what was left: all of it, or the most that is offered at once. */
  predicate Offered(data: seq<byte>, log: seq<Offer>)
    decreases |log|
  {
    log == [] ||
      var before, last := log[..|log| - 1], log[|log| - 1];
      && Offered(data, before) && (before != [] ==> before[|before| - 1].ret > 0)
      && Sent(before) < |data| && last.ret <= |last.data|
      && last.data == Portion(data[Sent(before)..])
  }

  /** It went on until all was taken or the socket refused. */
  predicate OfferedAll(data: seq<byte>, log: seq<Offer>) {
    Offered(data, log) && (Sent(log) == |data| || (log != [] && log[|log| - 1].ret <= 0))
  }

  /** The socket was asked for what had arrived until it refused. */
  predicate AskedAll(log: seq<Request>) {
    && log != [] && log[|log| - 1].ret <= 0
    && (forall i | 0 <= i < |log| - 1 :: log[i].ret > 0)
    && (forall i | 0 <= i < |log| :: log[i].room == READ_BUF_SIZE)
  }

  lemma {:induction false} SentInside(data: seq<byte>, log: seq<Offer>)
    requires Offered(data, log)
    ensures Sent(log) <= |data|
    decreases |log|
  {
    if log != [] {
      SentInside(data, log[..|log| - 1]);
    }
  }

  /** What is offered of the data that are left. */
  function Portion(left: seq<byte>): seq<byte> {
    left[..Cut(NETLIB_MAX_SOCKET_BUF_SIZE, left)]
  }

  /** The socket has taken something of each offer so far. */
  predicate Offering(data: seq<byte>, log: seq<Offer>) {
    Offered(data, log) && Sent(log) <= |data| && (log != [] ==> log[|log| - 1].ret > 0)
  }

  lemma {:induction false} OfferMore(data: seq<byte>, log: seq<Offer>, ret: int)
    requires Offering(data, log) && Sent(log) < |data|
    requires ret <= |Portion(data[Sent(log)..])|
    ensures var n, left := Sent(log), data[Sent(log)..];
            var more := log + [Offer(Portion(left), ret)];
            && Sent(more) == n + Positive(ret) <= |data|
            && if ret > 0 then Offering(data, more) else OfferedAll(data, more)
    ensures var n, left := Sent(log), data[Sent(log)..];
            && data[..n] + Portion(left)[..Positive(ret)] == data[..n + Positive(ret)]
            && left[Positive(ret)..] == data[n + Positive(ret)..]
  {
    var o := Offer(Portion(data[Sent(log)..]), ret);
    assert (log + [o])[..|log|] == log;
  }

  /** A socket that never refuses gets everything, and one that does not get everything has
      refused. */
  lemma AllTakenExactlyWhen(data: seq<byte>, log: seq<Offer>)
    requires OfferedAll(data, log)
    ensures Sent(log) == |data| <==> log == [] || log[|log| - 1].ret > 0
  {
    if log != [] && log[|log| - 1].ret <= 0 {
      assert Sent(log) == Sent(log[..|log| - 1]);
    }
  }

  /** Both directions of a TCP connection: the bytes it took from us and still has, and the
      bytes that have arrived and that nobody has fetched yet; and what has been asked of it. */
  class Socket {
    var taken: seq<byte>
    var arrived: seq<byte>
    ghost var offers: seq<Offer>
    ghost var requests: seq<Request>

    constructor ()
      ensures taken == [] && arrived == [] && offers == [] && requests == []
    {
      taken, arrived, offers, requests := [], [], [], [];
    }

    /** netlib_send: takes any part of the data; nothing when the result is not positive. */
    method Send(data: seq<byte>) returns (ret: int)
      modifies this`taken, this`offers
      ensures ret <= |data| && offers == old(offers) + [Offer(data, ret)]
      ensures taken == old(taken) + data[..if ret > 0 then ret else 0]
    {
      ret := *;
      if ret > |data| {
        ret := |data|;
      }
      offers := offers + [Offer(data, ret)];
      taken := taken + data[..if ret > 0 then ret else 0];
    }

    /** netlib_recv: stores any positive number of bytes that fit and are there, or fails. */
    method Recv(block: array<byte>, at: nat, len: nat) returns (ret: int)
      requires at + len <= block.Length
      modifies this`arrived, this`requests, block
      ensures requests == old(requests) + [Request(len, ret)]
      ensures ret <= len && ret <= |old(arrived)|
      ensures arrived == old(arrived)[if ret > 0 then ret else 0..]
      ensures block[..at] == old(block[..at])
      ensures ret > 0 ==> block[at..at + ret] == old(arrived)[..ret]
    {
      ret := *;
      if ret > len || ret > |arrived| {
        ret := 0;
      }
      requests := requests + [Request(len, ret)];
      if ret > 0 {
        forall i | 0 <= i < ret {
          block[at + i] := arrived[i];
        }
        arrived := arrived[ret..];
      }
    }
  }

  class ImConn {
    const socket: Socket
    const in_buf: Buffer
    const out_buf: Buffer
    var busy: bool
    var recv_bytes: nat
    /** The PDUs given to HandlePdu, what their frames say about them, and whether OnClose has
        been called after a refused frame. */
    var handled: seq<Parsed>
    ghost var taken: seq<Incoming>
    var closed: bool

    ghost predicate Valid()
      reads this, in_buf, out_buf
    {
      && in_buf.Valid() && out_buf.Valid()
      && in_buf != out_buf && in_buf.block != out_buf.block
      && (busy <==> out_buf.writeOffset > 0)
      && |handled| == |taken| && forall i | 0 <= i < |taken| :: Gives(taken[i], handled[i])
    }

    ghost function Sending(): Sender
      requires Valid()
      reads this, in_buf, out_buf, out_buf.block
    {
      Sender(busy, out_buf.Contents())
    }

    ghost function Receiving(): Receiver
      requires Valid()
      reads this, in_buf, out_buf, in_buf.block
    {
      Receiver(in_buf.Contents(), taken, closed)
    }

    constructor (socket: Socket)
      ensures Valid() && fresh(in_buf) && fresh(out_buf) && fresh(in_buf.block) && fresh(out_buf.block)
      ensures this.socket == socket && Sending() == Sender(false, []) && Receiving() == Receiver([], [], false)
    {
      this.socket := socket;
      var input := new Buffer();
      var output := new Buffer();
      in_buf, out_buf := input, output;
      busy, recv_bytes, handled, taken, closed := false, 0, [], [], false;
    }

    /** One round of the loop in Send. */
    method SendOnce(data: seq<byte>, offset: nat) returns (ret: int)
      requires offset < |data|
      modifies socket`taken, socket`offers
      ensures var portion := Portion(data[offset..]);
              && ret <= |portion| && socket.offers == old(socket.offers) + [Offer(portion, ret)]
              && socket.taken == old(socket.taken) + portion[..Positive(ret)]
    {
      var send_size := |data| - offset;
      if send_size > NETLIB_MAX_SOCKET_BUF_SIZE {
        send_size := NETLIB_MAX_SOCKET_BUF_SIZE;
      }
      assert data[offset..offset + send_size] == Portion(data[offset..]);
      ret := socket.Send(data[offset..offset + send_size]);
    }

    /** The loop of Send. */
    method SendNow(data: seq<byte>) returns (offset: nat, ghost log: seq<Offer>)
      modifies socket`taken, socket`offers
      ensures OfferedAll(data, log) && socket.offers == old(socket.offers) + log
      ensures offset == Sent(log) <= |data| && socket.taken == old(socket.taken) + data[..offset]
    {
      offset, log := 0, [];
      while offset < |data|
        invariant Offering(data, log) && offset == Sent(log)
        invariant socket.offers == old(socket.offers) + log && socket.taken == old(socket.taken) + data[..offset]
        modifies socket`taken, socket`offers
      {
        var ret := SendOnce(data, offset);
        OfferMore(data, log, ret);
        Assoc(old(socket.taken), data[..offset], Portion(data[offset..])[..Positive(ret)]);
        log := log + [Offer(Portion(data[offset..]), ret)];
        if ret <= 0 {
          break;
        }
        offset := offset + ret;
      }
    }

    /** Send. What the socket does not take waits in the buffer; while something waits the
        socket is not offered anything. */
    method Send(data: seq<byte>) returns (len: nat, ghost log: seq<Offer>)
      requires Valid()
      modifies this`busy, out_buf, out_buf.block, socket`taken, socket`offers
      ensures Valid() && (out_buf.block == old(out_buf.block) || fresh(out_buf.block)) && len == |data|
      ensures socket.offers == old(socket.offers) + log && if old(busy) then log == [] else OfferedAll(data, log)
      ensures var (out, sender) := PduStream.Sending(old(Sending()), data, Sent(log));
              socket.taken == old(socket.taken) + out && Sending() == sender
      ensures Receiving() == old(Receiving())
    {
      log := [];
      len := |data|;
      if busy {
        var _ := out_buf.Write(Some(data), |data|);
        return;
      }
      var offset;
      offset, log := SendNow(data);
      if offset < |data| {
        var _ := out_buf.Write(Some(data[offset..]), |data| - offset);
        busy := true;
      }
    }

    /** SendPdu on a PDU that a packing constructor has made. */
    method SendPdu(p: Outgoing) returns (len: nat, ghost log: seq<Offer>)
      requires Valid()
      modifies this`busy, out_buf, out_buf.block, socket`taken, socket`offers
      ensures Valid() && (out_buf.block == old(out_buf.block) || fresh(out_buf.block)) && len == |Wire(p)|
      ensures socket.offers == old(socket.offers) + log && if old(busy) then log == [] else OfferedAll(Wire(p), log)
      ensures var (out, sender) := PduStream.Sending(old(Sending()), Wire(p), Sent(log));
              socket.taken == old(socket.taken) + out && Sending() == sender
      ensures Receiving() == old(Receiving())
    {
      var packed := Pack(p);
      len, log := Send(packed.block[..packed.writeOffset]);
    }

    /** One round of the loop in OnWrite. */
    method FlushOnce() returns (ret: int)
      requires in_buf.Valid() && out_buf.Valid() && in_buf != out_buf && in_buf.block != out_buf.block
      requires out_buf.writeOffset > 0
      modifies out_buf`writeOffset, out_buf.block, socket`taken, socket`offers
      ensures out_buf.Valid() && ret <= old(out_buf.writeOffset)
      ensures var waiting := old(out_buf.Contents());
              && socket.offers == old(socket.offers) + [Offer(Portion(waiting), ret)]
              && ret <= |Portion(waiting)|
              && socket.taken == old(socket.taken) + Portion(waiting)[..Positive(ret)]
              && out_buf.Contents() == waiting[Positive(ret)..]
    {
      var send_size := out_buf.writeOffset;
      if send_size > NETLIB_MAX_SOCKET_BUF_SIZE {
        send_size := NETLIB_MAX_SOCKET_BUF_SIZE;
      }
      assert out_buf.block[..send_size] == out_buf.Contents()[..send_size];
      ret := socket.Send(out_buf.block[..send_size]);
      if ret > 0 {
        assert out_buf.block[..send_size][..ret] == out_buf.Contents()[..ret];
        var _ := out_buf.Read(null, ret);
      }
    }

    /** All rounds of the loop in OnWrite. */
    method FlushAll() returns (ghost log: seq<Offer>)
      requires in_buf.Valid() && out_buf.Valid() && in_buf != out_buf && in_buf.block != out_buf.block
      modifies out_buf`writeOffset, out_buf.block, socket`taken, socket`offers
      ensures out_buf.Valid() && OfferedAll(old(out_buf.Contents()), log)
      ensures socket.offers == old(socket.offers) + log && Sent(log) <= |old(out_buf.Contents())|
      ensures socket.taken == old(socket.taken) + old(out_buf.Contents())[..Sent(log)]
      ensures out_buf.Contents() == old(out_buf.Contents())[Sent(log)..]
    {
      log := [];
      ghost var waiting := out_buf.Contents();
      var ret := 1;
      while out_buf.writeOffset > 0 && ret > 0
        invariant out_buf.Valid() && Sent(log) <= |waiting|
        invariant if ret > 0 then Offering(waiting, log) else OfferedAll(waiting, log)
        invariant socket.offers == old(socket.offers) + log
        invariant out_buf.Contents() == waiting[Sent(log)..]
        invariant socket.taken == old(socket.taken) + waiting[..Sent(log)]
        decreases out_buf.writeOffset, ret
      {
        ghost var left := waiting[Sent(log)..];
        ret := FlushOnce();
        OfferMore(waiting, log, ret);
        Assoc(old(socket.taken), waiting[..Sent(log)], Portion(left)[..Positive(ret)]);
        log := log + [Offer(Portion(left), ret)];
      }
    }

    /** OnWrite. When something waits, the socket is offered it until nothing does or the
        socket refuses. */
    method OnWrite() returns (ghost log: seq<Offer>)
      requires Valid()
      modifies this`busy, out_buf`writeOffset, out_buf.block, socket`taken, socket`offers
      ensures Valid() && socket.offers == old(socket.offers) + log
      ensures if old(busy) then OfferedAll(old(out_buf.Contents()), log) else log == []
      ensures var (out, sender) := Flushing(old(Sending()), Sent(log));
              socket.taken == old(socket.taken) + out && Sending() == sender
      ensures Receiving() == old(Receiving())
    {
      log := [];
      if !busy {
        return;
      }
      log := FlushAll();
      if out_buf.writeOffset == 0 {
        busy := false;
      }
    }

    method MakeRoom()
      requires Valid()
      modifies in_buf
      ensures Valid() && (in_buf.block == old(in_buf.block) || fresh(in_buf.block))
      ensures in_buf.allocSize >= old(in_buf.allocSize) && in_buf.writeOffset == old(in_buf.writeOffset)
      ensures in_buf.allocSize - in_buf.writeOffset >= READ_BUF_SIZE
      ensures in_buf.Contents() == old(in_buf.Contents()) && Sending() == old(Sending())
    {
      var free_buf_len := in_buf.allocSize - in_buf.writeOffset;
      if free_buf_len < READ_BUF_SIZE {
        in_buf.Extend(READ_BUF_SIZE);
      }
    }

    /** One round of the first loop of OnRead. */
    method FetchOnce() returns (ret: int)
      requires Valid()
      modifies this`recv_bytes, in_buf, in_buf.block, socket`arrived, socket`requests
      ensures Valid() && (in_buf.block == old(in_buf.block) || fresh(in_buf.block))
      ensures socket.requests == old(socket.requests) + [Request(READ_BUF_SIZE, ret)]
      ensures ret <= |old(socket.arrived)|
      ensures var n := if ret > 0 then ret else 0;
              && socket.arrived == old(socket.arrived)[n..]
              && in_buf.Contents() == old(in_buf.Contents()) + old(socket.arrived)[..n]
              && recv_bytes == old(recv_bytes) + n
      ensures in_buf.allocSize >= old(in_buf.allocSize) && Sending() == old(Sending())
    {
      MakeRoom();
      ret := socket.Recv(in_buf.block, in_buf.writeOffset, READ_BUF_SIZE);
      if ret > 0 {
        recv_bytes := recv_bytes + ret;
        in_buf.IncWriteOffset(ret);
      }
    }

    /** The first loop of OnRead: fetches until the socket refuses. */
    method Fetch() returns (ghost chunk: seq<byte>, ghost log: seq<Request>)
      requires Valid()
      modifies this`recv_bytes, in_buf, in_buf.block, socket`arrived, socket`requests
      ensures Valid() && (in_buf.block == old(in_buf.block) || fresh(in_buf.block))
      ensures socket.requests == old(socket.requests) + log && AskedAll(log) && |chunk| == Fetched(log)
      ensures old(socket.arrived) == chunk + socket.arrived
      ensures in_buf.Contents() == old(in_buf.Contents()) + chunk && recv_bytes == old(recv_bytes) + |chunk|
      ensures Sending() == old(Sending())
    {
      chunk, log := [], [];
      var ret := 1;
      while ret > 0
        invariant Valid() && (in_buf.block == old(in_buf.block) || fresh(in_buf.block))
        invariant socket.requests == old(socket.requests) + log && |chunk| == Fetched(log)
        invariant ret <= 0 ==> AskedAll(log)
        invariant forall i | 0 <= i < |log| :: log[i].room == READ_BUF_SIZE && (ret > 0 ==> log[i].ret > 0)
        invariant old(socket.arrived) == chunk + socket.arrived
        invariant in_buf.Contents() == old(in_buf.Contents()) + chunk && recv_bytes == old(recv_bytes) + |chunk|
        invariant Sending() == old(Sending())
        decreases |socket.arrived|, ret
      {
        ghost var there := socket.arrived;
        ret := FetchOnce();
        ghost var n := Positive(ret);
        assert there == there[..n] + there[n..];
        Assoc(chunk, there[..n], there[n..]);
        Assoc(old(in_buf.Contents()), chunk, there[..n]);
        chunk := chunk + there[..n];
        assert (log + [Request(READ_BUF_SIZE, ret)])[..|log|] == log;
        log := log + [Request(READ_BUF_SIZE, ret)];
      }
    }

    /** One round of the second loop of OnRead: a PDU that the frame allows is handled, and
        the frame leaves the buffer. */
    method HandleOne() returns (r: Reading<Parsed>)
      requires Valid()
      modifies this`handled, this`taken, in_buf`writeOffset, in_buf.block
      ensures Valid() && Meets(Read(old(in_buf.Contents())), r) && Sending() == old(Sending())
      ensures r.Got? ==>
                && IM_PDU_HEADER_LEN <= r.pdu.header.length <= old(in_buf.writeOffset)
                && handled == old(handled) + [r.pdu]
                && in_buf.Contents() == old(in_buf.Contents())[r.pdu.header.length..]
                && (Read(old(in_buf.Contents())).Got? ==>
                      taken == old(taken) + [Read(old(in_buf.Contents())).pdu])
      ensures !r.Got? ==> Receiving() == old(Receiving()) && handled == old(handled)
    {
      ghost var spec := Read(in_buf.Contents());
      r := ReadPdu(in_buf.block, in_buf.writeOffset);
      if r.Got? {
        handled := handled + [r.pdu];
        taken := taken + [if spec.Got? then spec.pdu else Incoming(r.pdu.frame, r.pdu.header, Fields(r.pdu.pdu))];
        var _ := in_buf.Read(null, r.pdu.header.length);
      }
    }

    /** How far the second loop of OnRead has come with what it is to drain. */
    ghost predicate Dispatched(whole: Drained, before: seq<Incoming>, done: seq<Incoming>, more: bool, refused: bool)
      requires Valid()
      reads this, in_buf, out_buf, in_buf.block
    {
      !whole.end.Astray? ==>
        && taken == before + done
        && if more then DrainedTo(whole, done, in_buf.Contents()) && !refused
           else whole == Drained(done, in_buf.Contents(), whole.end) && refused == whole.end.Refused?
    }

    method DispatchOnce(ghost whole: Drained, ghost before: seq<Incoming>, ghost done: seq<Incoming>)
      returns (r: Reading<Parsed>, ghost next: seq<Incoming>)
      requires Valid() && Dispatched(whole, before, done, true, false)
      modifies this`handled, this`taken, in_buf`writeOffset, in_buf.block
      ensures Valid() && Sending() == old(Sending()) && old(handled) <= handled
      ensures Dispatched(whole, before, next, r.Got?, r.Thrown?)
      ensures r.Got? ==> in_buf.writeOffset < old(in_buf.writeOffset)
    {
      ghost var buf := in_buf.Contents();
      if !whole.end.Astray? {
        DrainGoesOn(whole, done, buf);
      }
      r := HandleOne();
      next := done;
      if r.Got? && !whole.end.Astray? {
        Assoc(before, done, [Read(buf).pdu]);
        next := done + [Read(buf).pdu];
      }
    }

    /** The second loop of OnRead: handles every complete PDU; a CPduException ends it and
        closes the connection. What comes behind a frame that goes astray is not specified. */
    method Dispatch()
      requires Valid() && !closed
      modifies this`handled, this`taken, this`closed, in_buf`writeOffset, in_buf.block
      ensures Valid() && Sending() == old(Sending()) && old(handled) <= handled
      ensures var d := Drain(old(in_buf.Contents()));
              !d.end.Astray? ==> Receiving() == Receiver(d.rest, old(taken) + d.pdus, d.end.Refused?)
    {
      ghost var whole, done := Drain(in_buf.Contents()), [];
      DrainBegins(in_buf.Contents());
      var more := true;
      while more
        invariant Valid() && Sending() == old(Sending()) && old(handled) <= handled && (more ==> !closed)
        invariant Dispatched(whole, old(taken), done, more, closed)
        decreases more, in_buf.writeOffset
      {
        var r;
        r, done := DispatchOnce(whole, old(taken), done);
        more := r.Got?;
        if r.Thrown? {
          closed := true;
        }
      }
    }

    /** OnRead on a connection that is still open. What it fetches is appended to the buffer,
        and the buffer is drained. */
    method OnRead() returns (ghost chunk: seq<byte>, ghost log: seq<Request>)
      requires Valid() && !closed
      modifies this`recv_bytes, this`handled, this`taken, this`closed, in_buf, in_buf.block
      modifies socket`arrived, socket`requests
      ensures socket.requests == old(socket.requests) + log && AskedAll(log) && |chunk| == Fetched(log)
      ensures Valid() && (in_buf.block == old(in_buf.block) || fresh(in_buf.block)) && old(handled) <= handled
      ensures old(socket.arrived) == chunk + socket.arrived
      ensures !Drain(old(in_buf.Contents()) + chunk).end.Astray? ==> Receiving() == Deliver(old(Receiving()), chunk)
      ensures Sending() == old(Sending())
    {
      chunk, log := Fetch();
      Dispatch();
    }
  }
}
