/** Packing and unpacking of PDUs through a stream position
    (c++/base/UtilPdu.cpp:74-291, c++/base/ImPduBase.cpp:40-190, c++/base/ImPduClient.cpp). */
module PduCodec {
  import opened Options
  import opened Bytes
  import opened SimpleBuffer
  import opened PduWire

  /** Bytes stored over what is there from position `at` on. */
  function Splice(s: seq<byte>, at: nat, bytes: seq<byte>): (r: seq<byte>)
    requires at + |bytes| <= |s|
    ensures |r| == |s|
  {
    s[..at] + bytes + s[at + |bytes|..]
  }

  method WriteUint16(block: array<byte>, at: nat, data: uint16)
    requires at + 2 <= block.Length
    modifies block
    ensures block[..] == Splice(old(block[..]), at, Be16(data))
  {
    block[at] := data / 0x100 % 0x100;
    block[at + 1] := data % 0x100;
  }

  /** WriteInt32: the shifts go through a signed number. */
  method WriteInt32(block: array<byte>, at: nat, data: int)
    requires at + 4 <= block.Length && -0x8000_0000 <= data < 0x8000_0000
    modifies block
    ensures block[..] == Splice(old(block[..]), at, Be32(data))
  {
    block[at] := data / 0x100_0000 % 0x100;
    block[at + 1] := data / 0x1_0000 % 0x100;
    block[at + 2] := data / 0x100 % 0x100;
    block[at + 3] := data % 0x100;
  }

  // ------------------------------------------------------------------ packing

  /** CByteStream on the buffer of a PDU. */
  class OutStream {
    const buf: Buffer
    var pos: nat

    constructor (buf: Buffer, pos: nat)
      ensures this.buf == buf && this.pos == pos
    {
      this.buf, this.pos := buf, pos;
    }

    method WriteBytes(data: seq<byte>)
      requires buf.Valid()
      modifies this`pos, buf, buf.block
      ensures buf.Valid() && (buf.block == old(buf.block) || fresh(buf.block))
      ensures buf.Contents() == old(buf.Contents()) + data && pos == old(pos) + |data|
    {
      var _ := buf.Write(Some(data), |data|);
      pos := pos + |data|;
    }

    method PutUint16(data: uint16)
      requires buf.Valid()
      modifies this`pos, buf, buf.block
      ensures buf.Valid() && (buf.block == old(buf.block) || fresh(buf.block))
      ensures buf.Contents() == old(buf.Contents()) + Be16(data)
    {
      WriteBytes([data / 0x100 % 0x100, data % 0x100]);
    }

    method PutUint32(data: uint32)
      requires buf.Valid()
      modifies this`pos, buf, buf.block
      ensures buf.Valid() && (buf.block == old(buf.block) || fresh(buf.block))
      ensures buf.Contents() == old(buf.Contents()) + Be32(data)
    {
      WriteBytes([data / 0x100_0000 % 0x100, data / 0x1_0000 % 0x100, data / 0x100 % 0x100, data % 0x100]);
    }

    /** WriteString; a null text counts as an empty one. */
    method PutString(str: Option<seq<byte>>)
      requires buf.Valid() && (str.Some? ==> |str.value| < 0x1_0000_0000)
      modifies this`pos, buf, buf.block
      ensures buf.Valid() && (buf.block == old(buf.block) || fresh(buf.block))
      ensures buf.Contents() == old(buf.Contents()) + Text(if str.Some? then str.value else [])
    {
      var size := if str.Some? then |str.value| else 0;
      PutUint32(size);
      if str.Some? {
        WriteBytes(str.value);
      }
    }
  }

  /** The constructors that write fixed fields behind the header. */
  method PackFixed(os: OutStream, p: Pdu)
    requires os.buf.Valid() && (p.ServerCommand? || p.AdjustRate? || p.RegClientType? || p.ClientDone?)
    modifies os`pos, os.buf, os.buf.block
    ensures os.buf.Valid() && (os.buf.block == old(os.buf.block) || fresh(os.buf.block))
    ensures os.buf.Contents() == old(os.buf.Contents()) + Body(p)
  {
    match p
    case ServerCommand(c) => os.PutUint16(c);
    case AdjustRate(delay, multi) =>
      os.PutUint16(delay);
      os.PutUint16(multi);
    case RegClientType(t) => os.PutUint16(t);
    case ClientDone =>
  }

  method PackResponse(os: OutStream, code: uint16, message: seq<byte>)
    requires os.buf.Valid() && |message| < 0x1_0000_0000
    modifies os`pos, os.buf, os.buf.block
    ensures os.buf.Valid() && (os.buf.block == old(os.buf.block) || fresh(os.buf.block))
    ensures os.buf.Contents() == old(os.buf.Contents()) + (Be16(code) + Text(message))
  {
    ghost var before := os.buf.Contents();
    os.PutUint16(code);
    os.PutString(Some(message));
    assert before + Be16(code) + Text(message) == before + (Be16(code) + Text(message));
  }

  /** The constructors that end in a text. */
  method PackText(os: OutStream, p: Pdu)
    requires os.buf.Valid() && Fits(p) && !(p.ServerCommand? || p.AdjustRate? || p.RegClientType? || p.ClientDone?)
    modifies os`pos, os.buf, os.buf.block
    ensures os.buf.Valid() && (os.buf.block == old(os.buf.block) || fresh(os.buf.block))
    ensures os.buf.Contents() == old(os.buf.Contents()) + Body(p)
  {
    match p
    case ClientData(data) => os.PutString(Some(data));
    case ServerStatusInfo(None) =>
    case ServerStatusInfo(Some(s)) => os.PutString(Some(s));
    case AllClientStatusInfo(clients) => os.PutString(clients);
    case Heartbeat(None) =>
    case Heartbeat(Some(s)) => os.PutString(Some(s));
    case Response(code, message) => PackResponse(os, code, message);
  }

  /** What the packing constructors write behind the header. */
  method PackBody(os: OutStream, p: Pdu)
    requires os.buf.Valid() && Fits(p)
    modifies os`pos, os.buf, os.buf.block
    ensures os.buf.Valid() && (os.buf.block == old(os.buf.block) || fresh(os.buf.block))
    ensures os.buf.Contents() == old(os.buf.Contents()) + Body(p)
  {
    if p.ServerCommand? || p.AdjustRate? || p.RegClientType? || p.ClientDone? {
      PackFixed(os, p);
    } else {
      PackText(os, p);
    }
  }

  function SpliceHeader(s: seq<byte>, h: Header): (r: seq<byte>)
    requires |s| >= IM_PDU_HEADER_LEN
    ensures |r| == |s|
  {
    var s1 := Splice(s, 0, Be32(h.length));
    var s2 := Splice(s1, 4, Be16(h.module_id));
    var s3 := Splice(s2, 6, Be16(h.command_id));
    var s4 := Splice(s3, 8, Be16(h.version));
    Splice(s4, 10, Be16(h.reserved))
  }

  lemma SplicedHeader(s: seq<byte>, h: Header, n: nat)
    requires IM_PDU_HEADER_LEN <= n <= |s|
    ensures SpliceHeader(s, h)[..n] == HeaderBytes(h) + s[..n][IM_PDU_HEADER_LEN..]
  {
    var s1 := Splice(s, 0, Be32(h.length));
    var s2 := Splice(s1, 4, Be16(h.module_id));
    assert s2 == Be32(h.length) + Be16(h.module_id) + s[6..];
    var s3 := Splice(s2, 6, Be16(h.command_id));
    assert s3 == Be32(h.length) + Be16(h.module_id) + Be16(h.command_id) + s[8..];
    var s4 := Splice(s3, 8, Be16(h.version));
    assert s4 == Be32(h.length) + Be16(h.module_id) + Be16(h.command_id) + Be16(h.version) + s[10..];
    assert SpliceHeader(s, h) == HeaderBytes(h) + s[12..];
  }

  /** WriteHeader, over the twelve bytes that were left free. */
  method WriteHeader(buf: Buffer, ids: (uint16, uint16))
    requires buf.Valid() && IM_PDU_HEADER_LEN <= buf.writeOffset < 0x1_0000_0000
    modifies buf.block
    ensures buf.Valid()
    ensures buf.Contents() == HeaderBytes(Header(buf.writeOffset, ids.0, ids.1, IM_PDU_VERSION, 0))
                              + old(buf.Contents())[IM_PDU_HEADER_LEN..]
  {
    SignedBytes(buf.writeOffset);
    WriteInt32(buf.block, 0, ToInt32(buf.writeOffset));
    WriteUint16(buf.block, 4, ids.0);
    WriteUint16(buf.block, 6, ids.1);
    WriteUint16(buf.block, 8, IM_PDU_VERSION);
    WriteUint16(buf.block, 10, 0);
    SplicedHeader(old(buf.block[..]), Header(buf.writeOffset, ids.0, ids.1, IM_PDU_VERSION, 0), buf.writeOffset);
    assert buf.block[..][..buf.writeOffset] == buf.Contents();
    assert old(buf.block[..])[..buf.writeOffset] == old(buf.Contents());
  }

  /** What the buffer holds, with the header in the bytes that were left free for it. */
  lemma {:induction false} Completed(p: Pdu, free: seq<byte>, s: seq<byte>)
    requires Fits(p) && |free| == IM_PDU_HEADER_LEN && s == free + Body(p)
    ensures |s| == HeaderOf(p).length && HeaderBytes(HeaderOf(p)) + s[IM_PDU_HEADER_LEN..] == Wire(p)
  {
    assert s[IM_PDU_HEADER_LEN..] == Body(p);
  }

  /** A packing constructor. */
  method Pack(p: Pdu) returns (buf: Buffer)
    requires Fits(p)
    ensures fresh(buf) && fresh(buf.block) && buf.Valid() && buf.Contents() == Wire(p)
  {
    buf := new Buffer();
    var os := new OutStream(buf, IM_PDU_HEADER_LEN);
    var _ := buf.Write(None, IM_PDU_HEADER_LEN);
    ghost var free := buf.Contents();
    PackBody(os, p);
    Completed(p, free, buf.Contents());
    WriteHeader(buf, Ids(p));
  }

  // ---------------------------------------------------------------- unpacking

  method ReadUint16(block: array<byte>, at: nat) returns (data: uint16)
    requires at + 2 <= block.Length
    ensures data == FromBe16(block[..], at)
  {
    var high: int, low: int := block[at], block[at + 1];
    data := high * 0x100 + low;
  }

  method ReadUint32(block: array<byte>, at: nat) returns (data: uint32)
    requires at + 4 <= block.Length
    ensures data == FromBe32(block[..], at)
  {
    var a: int, b: int, c: int := block[at], block[at + 1], block[at + 2];
    data := a * 0x100_0000 + b * 0x1_0000 + c * 0x100 + block[at + 3];
  }

  /** CByteStream on the body of a received PDU. Positions are uint32_t; reading beyond
      the end leaves the position alone and the target with an arbitrary value. */
  class InStream {
    const block: array<byte>
    const start: nat
    const len: nat
    var pos: uint32

    ghost predicate Valid()
      reads this
    {
      start + len <= block.Length && len + IM_PDU_HEADER_LEN < 0x1_0000_0000
    }

    ghost function Bytes(): (s: seq<byte>)
      requires Valid()
      reads this, block
      ensures |s| == len
    {
      block[start..start + len]
    }

    constructor (block: array<byte>, start: nat, len: nat)
      requires start + len <= block.Length && len + IM_PDU_HEADER_LEN < 0x1_0000_0000
      ensures Valid() && pos == 0 && this.block == block && this.start == start && this.len == len
    {
      this.block, this.start, this.len, this.pos := block, start, len, 0;
    }

    method GetUint16() returns (data: uint16)
      requires Valid() && pos <= len
      modifies this`pos
      ensures old(pos) + 2 <= len ==> pos == old(pos) + 2 && data == FromBe16(Bytes(), old(pos))
      ensures old(pos) + 2 > len ==> pos == old(pos)
    {
      if ToUint32(pos + 2) > len {
        data := *;
        return;
      }
      data := ReadUint16(block, start + pos);
      pos := ToUint32(pos + 2);
    }

    method GetUint32() returns (data: uint32)
      requires Valid() && pos <= len
      modifies this`pos
      ensures old(pos) + 4 <= len ==> pos == old(pos) + 4 && data == FromBe32(Bytes(), old(pos))
      ensures old(pos) + 4 > len ==> pos == old(pos)
    {
      if ToUint32(pos + 4) > len {
        data := *;
        return;
      }
      data := ReadUint32(block, start + pos);
      pos := ToUint32(pos + 4);
    }

    /** ReadString: the place of the text and its length; the position moves on by the
        length without a check, modulo 2^32. */
    method GetString() returns (at: nat, n: uint32)
      requires Valid() && pos <= len
      modifies this`pos
      ensures old(pos) + 4 <= len ==>
                && at == start + old(pos) + 4 && n == FromBe32(Bytes(), old(pos))
                && pos == ToUint32(old(pos) + 4 + n)
      ensures old(pos) + 4 > len ==> at == start + old(pos) && pos == ToUint32(old(pos) + n)
    {
      n := GetUint32();
      at := start + pos;
      pos := ToUint32(pos + n);
    }
  }

  /** A position that wrapped around cannot come out at the end of the body. */
  lemma WrappedPosition(pos: nat, n: uint32, len: uint32)
    requires pos <= len
    ensures ToUint32(pos + n) == len <==> n == len - pos
  {
  }

  /** ReadString and the assertion at the end of a constructor. On a body that holds the
      length word the text is accepted exactly when the word equals the rest of the body;
      without one it may be accepted or not. When it is, it lies inside the frame and ends
      with its last byte. */
  method UnpackString(input: InStream) returns (text: Option<seq<byte>>)
    requires input.Valid() && input.pos <= input.len
    modifies input`pos
    ensures var at := old(input.pos);
            && (at + 4 > input.len ==> text == None || text == Some(Tail(input.Bytes(), at)))
            && (at + 4 <= input.len ==>
                  text == if FromBe32(input.Bytes(), at) == input.len - at - 4 then Some(Tail(input.Bytes(), at + 4))
                          else None)
  {
    ghost var from := if input.pos + 4 <= input.len then input.pos + 4 else input.pos;
    var at, n := input.GetString();
    WrappedPosition(from, n, input.len);
    text := None;
    if input.pos == input.len {
      text := Some(input.block[at..at + n]);
      assert text.value == input.Bytes()[from..];
    }
  }

  /** The unpacking constructors of the command PDUs; None stands for their exception. */
  method UnpackCommand(command_id: uint16, input: InStream) returns (r: Option<Pdu>)
    requires input.Valid() && input.pos == 0 && KnownCommand(SID_COMMAND, command_id)
    modifies input`pos
    ensures Allows(Unpack(SID_COMMAND, command_id, input.Bytes()), r)
  {
    if command_id == CID_COMMAND_ADJUST_RATE {
      var delay := input.GetUint16();
      var multi := input.GetUint16();
      r := if input.pos != input.len then None else Some(AdjustRate(delay, multi));
    } else {
      var servCommand := input.GetUint16();
      r := if input.pos != input.len then None else Some(ServerCommand(servCommand));
    }
  }

  /** The unpacking constructors of the message PDUs. */
  method UnpackMsg(command_id: uint16, input: InStream) returns (r: Option<Pdu>)
    requires input.Valid() && input.pos == 0 && KnownCommand(SID_MSG, command_id)
    modifies input`pos
    ensures Allows(Unpack(SID_MSG, command_id, input.Bytes()), r)
  {
    if command_id == CID_MSG_DATA {
      var text := UnpackString(input);
      r := if text.None? then None else Some(ClientData(text.value));
    } else if command_id == CID_MSG_SERVER_STATUS_INFO {
      if input.len > 0 {
        var text := UnpackString(input);
        r := if text.None? then None else Some(ServerStatusInfo(text));
      } else {
        r := Some(ServerStatusInfo(None));
      }
    } else {
      r := if input.pos != input.len then None else Some(AllClientStatusInfo(None));
    }
  }

  method UnpackResponse(input: InStream) returns (r: Option<Pdu>)
    requires input.Valid() && input.pos == 0
    modifies input`pos
    ensures Allows(Unpack(SID_OTHER, CID_OTHER_RESPONSE, input.Bytes()), r)
  {
    var code := input.GetUint16();
    var text := UnpackString(input);
    r := if text.None? then None else Some(Response(code, text.value));
  }

  /** The unpacking constructors of the other PDUs. */
  method UnpackOther(command_id: uint16, input: InStream) returns (r: Option<Pdu>)
    requires input.Valid() && input.pos == 0 && KnownCommand(SID_OTHER, command_id)
    modifies input`pos
    ensures Allows(Unpack(SID_OTHER, command_id, input.Bytes()), r)
  {
    if command_id == CID_OTHER_HEARTBEAT {
      if input.len > 0 {
        var text := UnpackString(input);
        r := if text.None? then None else Some(Heartbeat(text));
      } else {
        r := Some(Heartbeat(None));
      }
    } else if command_id == CID_OTHER_RESPONSE {
      r := UnpackResponse(input);
    } else if command_id == CID_OTHER_REG_CLIENT_TYPE {
      var clientType := input.GetUint16();
      r := if input.pos != input.len then None else Some(RegClientType(clientType));
    } else {
      r := if input.pos != input.len then None else Some(ClientDone);
    }
  }

  /** ReadPduHeader. */
  method GetHeader(block: array<byte>) returns (h: Header)
    requires IM_PDU_HEADER_LEN <= block.Length
    ensures h == ReadHeader(block[..])
  {
    var length := ReadUint32(block, 0);
    var module_id := ReadUint16(block, 4);
    var command_id := ReadUint16(block, 6);
    var version := ReadUint16(block, 8);
    var reserved := ReadUint16(block, 10);
    h := Header(length, module_id, command_id, version, reserved);
  }

  lemma HeaderPrefix(whole: seq<byte>, n: nat)
    requires IM_PDU_HEADER_LEN <= n <= |whole|
    ensures ReadHeader(whole) == ReadHeader(whole[..n])
  {
  }

  /** The constructor for the ids of a header, on a frame at the front of a block. */
  method UnpackFrame(block: array<byte>, h: Header) returns (r: Option<Pdu>)
    requires IM_PDU_HEADER_LEN <= h.length <= block.Length
    requires KnownModule(h.module_id) && KnownCommand(h.module_id, h.command_id)
    ensures Allows(Unpack(h.module_id, h.command_id, block[IM_PDU_HEADER_LEN..h.length]), r)
  {
    var input := new InStream(block, IM_PDU_HEADER_LEN, h.length - IM_PDU_HEADER_LEN);
    if h.module_id == SID_COMMAND {
      r := UnpackCommand(h.command_id, input);
    } else if h.module_id == SID_MSG {
      r := UnpackMsg(h.command_id, input);
    } else {
      r := UnpackOther(h.command_id, input);
    }
  }

  /** ReadPdu on the first len bytes of a block, for frames with room for a header: an outcome
      that the specified reading leaves open. */
  method ReadPdu(block: array<byte>, len: nat) returns (r: Reading<Parsed>)
    requires len <= block.Length
    ensures Meets(Read(block[..len]), r)
    ensures r.Got? ==> IM_PDU_HEADER_LEN <= r.pdu.header.length <= len && r.pdu.frame == block[..r.pdu.header.length]
  {
    if len < IM_PDU_HEADER_LEN {
      return NotAvailable;
    }
    var h := GetHeader(block);
    HeaderPrefix(block[..], len);
    assert block[..][..len] == block[..len];
    if h.length > len {
      return NotAvailable;
    }
    if !KnownModule(h.module_id) {
      return Thrown(h.module_id, h.command_id, ERROR_CODE_WRONG_SERVICE_ID);
    }
    if !KnownCommand(h.module_id, h.command_id) {
      return Thrown(h.module_id, h.command_id, ERROR_CODE_WRONG_COMMAND_ID);
    }
    if h.length < IM_PDU_HEADER_LEN {
      return Indeterminate;
    }
    var p := UnpackFrame(block, h);
    assert block[..len][IM_PDU_HEADER_LEN..h.length] == block[IM_PDU_HEADER_LEN..h.length];
    assert block[..len][..h.length] == block[..h.length];
    r := if p.None? then Thrown(h.module_id, h.command_id, ERROR_CODE_PARSE_FAILED)
         else Got(Parsed(block[..h.length], h, p.value));
  }
}
