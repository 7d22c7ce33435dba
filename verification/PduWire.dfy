/** What the PDUs of the system look like on the wire, and what a receiver makes of the
    bytes it has (c++/base/ImPduBase.h:15-52, c++/base/ImPduBase.cpp:68-190,
    c++/base/ImPduClient.cpp:18-293). */
module PduWire {
  import opened Options
  import opened Bytes

  const IM_PDU_HEADER_LEN := 12
  const IM_PDU_VERSION := 1

  const SID_COMMAND := 1
  const SID_MSG := 2
  const SID_OTHER := 3

  const CID_COMMAND_START := 1
  const CID_COMMAND_STOP := 2
  const CID_COMMAND_PAUSE := 4
  const CID_COMMAND_RESUME := 8
  const CID_COMMAND_ADJUST_RATE := 16

  const CID_MSG_DATA := 1
  const CID_MSG_SERVER_STATUS_INFO := 2
  const CID_MSG_ALL_CLIENT_STATUS_INFO := 3

  const CID_OTHER_HEARTBEAT := 1
  const CID_OTHER_RESPONSE := 2
  const CID_OTHER_REG_CLIENT_TYPE := 3
  const CID_OTHER_CLIENT_DONE := 4

  const ERROR_CODE_PARSE_FAILED := 1
  const ERROR_CODE_WRONG_SERVICE_ID := 2
  const ERROR_CODE_WRONG_COMMAND_ID := 3

  /** The PDU classes with the fields that they carry in their body. A status report and
      a heartbeat come with or without a text. */
  datatype Pdu =
    | ServerCommand(servCommand: uint16)
    | AdjustRate(delay: uint16, multi: uint16)
    | ClientData(data: seq<byte>)
    | ServerStatusInfo(status: Option<seq<byte>>)
    | AllClientStatusInfo(clients: Option<seq<byte>>)
    | Heartbeat(beat: Option<seq<byte>>)
    | Response(code: uint16, message: seq<byte>)
    | RegClientType(clientType: uint16)
    | ClientDone

  datatype Header = Header(length: uint32, module_id: uint16, command_id: uint16, version: uint16, reserved: uint16)

  /** A PDU that has come in: the bytes it was read from, its header and its fields. */
  datatype Parsed = Parsed(frame: seq<byte>, header: Header, pdu: Pdu)

  /** What the frame of a PDU says about its fields. */
  datatype Incoming = Incoming(frame: seq<byte>, header: Header, fields: Fields)

  // ------------------------------------------------------------------ packing

  /** The module and command ids that the packing constructors write. The one of
      ClientDone writes the command id of RegClientType (c++/base/ImPduClient.cpp:283). */
  function Ids(p: Pdu): (uint16, uint16) {
    match p
    case ServerCommand(c) => (SID_COMMAND, c)
    case AdjustRate(_, _) => (SID_COMMAND, CID_COMMAND_ADJUST_RATE)
    case ClientData(_) => (SID_MSG, CID_MSG_DATA)
    case ServerStatusInfo(_) => (SID_MSG, CID_MSG_SERVER_STATUS_INFO)
    case AllClientStatusInfo(_) => (SID_MSG, CID_MSG_ALL_CLIENT_STATUS_INFO)
    case Heartbeat(_) => (SID_OTHER, CID_OTHER_HEARTBEAT)
    case Response(_, _) => (SID_OTHER, CID_OTHER_RESPONSE)
    case RegClientType(_) => (SID_OTHER, CID_OTHER_REG_CLIENT_TYPE)
    case ClientDone => (SID_OTHER, CID_OTHER_REG_CLIENT_TYPE)
  }

  function Text(s: seq<byte>): seq<byte> {
    Be32(|s|) + s
  }

  function Body(p: Pdu): seq<byte> {
    match p
    case ServerCommand(c) => Be16(c)
    case AdjustRate(delay, multi) => Be16(delay) + Be16(multi)
    case ClientData(data) => Text(data)
    case ServerStatusInfo(status) => if status.Some? then Text(status.value) else []
    case AllClientStatusInfo(clients) => Text(if clients.Some? then clients.value else [])
    case Heartbeat(beat) => if beat.Some? then Text(beat.value) else []
    case Response(code, message) => Be16(code) + Text(message)
    case RegClientType(t) => Be16(t)
    case ClientDone => []
  }

  function HeaderBytes(h: Header): (s: seq<byte>)
    ensures |s| == IM_PDU_HEADER_LEN
  {
    Be32(h.length) + Be16(h.module_id) + Be16(h.command_id) + Be16(h.version) + Be16(h.reserved)
  }

  /** The four bytes of a 32-bit number, the highest first. */
  predicate IsNumber(s: seq<byte>, n: nat) {
    |s| == 4 && n == s[0] as nat * 16_777_216 + s[1] as nat * 65_536 + s[2] as nat * 256 + s[3] as nat
  }

  /** A PDU must leave its length to 32 bits. */
  predicate Fits(p: Pdu) {
    IM_PDU_HEADER_LEN + |Body(p)| < 0x1_0000_0000
  }

  function HeaderOf(p: Pdu): Header
    requires Fits(p)
  {
    Header(IM_PDU_HEADER_LEN + |Body(p)|, Ids(p).0, Ids(p).1, IM_PDU_VERSION, 0)
  }

  /** The bytes of a packed PDU. */
  function Wire(p: Pdu): (s: seq<byte>)
    requires Fits(p)
    ensures |s| == HeaderOf(p).length
  {
    HeaderBytes(HeaderOf(p)) + Body(p)
  }

  // ---------------------------------------------------------------- unpacking

  /** What an unpacking constructor makes of a body: a PDU; a PDU of which only so many of
      the words are in the body, while the others are what the memory happened to hold; such
      a PDU or an exception, which again depends on the memory; or an exception. */
  datatype Fields = Fields(pdu: Pdu) | Loose(pdu: Pdu, words: nat) | Doubtful(pdu: Pdu, words: nat) | Wrong

  /** A PDU that equals p but for the words behind the first ones. */
  predicate Like(p: Pdu, words: nat, q: Pdu) {
    match p
    case ServerCommand(c) => q.ServerCommand? && (words >= 1 ==> q.servCommand == c)
    case AdjustRate(delay, multi) =>
      q.AdjustRate? && (words >= 1 ==> q.delay == delay) && (words >= 2 ==> q.multi == multi)
    case RegClientType(t) => q.RegClientType? && (words >= 1 ==> q.clientType == t)
    case Response(code, message) => q.Response? && q.message == message && (words >= 1 ==> q.code == code)
    case _ => q == p
  }

  /** The constructor may end with this PDU, or with an exception. */
  predicate Allows(f: Fields, r: Option<Pdu>) {
    match f
    case Fields(p) => r == Some(p)
    case Loose(p, n) => r.Some? && Like(p, n, r.value)
    case Doubtful(p, n) => r.Some? ==> Like(p, n, r.value)
    case Wrong => r == None
  }

  /** This PDU may have been read from that frame. */
  predicate Gives(x: Incoming, y: Parsed) {
    y.frame == x.frame && y.header == x.header && Allows(x.fields, Some(y.pdu))
  }

  /** What ReadPdu comes to: nothing yet, a PDU, a CPduException, either of these depending
      on memory nobody initialised, or something that depends on memory nobody owns. */
  datatype Reading<T> =
    | NotAvailable
    | Got(pdu: T)
    | Thrown(module_id: uint16, command_id: uint16, error: nat)
    | Unsure(pdu: T)
    | Indeterminate

  /** An outcome that the specified one leaves open. */
  predicate Meets(spec: Reading<Incoming>, r: Reading<Parsed>) {
    match spec
    case NotAvailable => r == NotAvailable
    case Got(x) => r.Got? && Gives(x, r.pdu)
    case Thrown(m, c, e) => r == Thrown(m, c, e)
    case Unsure(x) =>
      || r == Thrown(x.header.module_id, x.header.command_id, ERROR_CODE_PARSE_FAILED)
      || (r.Got? && Gives(x, r.pdu))
    case Indeterminate => true
  }

  /** The 16-bit field at a position of a body. */
  function Word(body: seq<byte>, at: nat): uint16 {
    if at + 2 <= |body| then FromBe16(body, at) else 0
  }

  function Tail(body: seq<byte>, at: nat): seq<byte> {
    if at <= |body| then body[at..] else []
  }

  predicate KnownModule(m: uint16) {
    m == SID_COMMAND || m == SID_MSG || m == SID_OTHER
  }

  predicate IsServCommand(c: uint16) {
    c == CID_COMMAND_START || c == CID_COMMAND_STOP || c == CID_COMMAND_PAUSE || c == CID_COMMAND_RESUME
  }

  predicate KnownCommand(m: uint16, c: uint16) {
    if m == SID_COMMAND then IsServCommand(c) || c == CID_COMMAND_ADJUST_RATE
    else if m == SID_MSG then
      c == CID_MSG_DATA || c == CID_MSG_SERVER_STATUS_INFO || c == CID_MSG_ALL_CLIENT_STATUS_INFO
    else
      || c == CID_OTHER_HEARTBEAT || c == CID_OTHER_RESPONSE
      || c == CID_OTHER_REG_CLIENT_TYPE || c == CID_OTHER_CLIENT_DONE
  }

  /** A body of fixed fields of 16 bits: a field beyond the end keeps what its temporary
      held before, and this goes unnoticed when the position is at the end nevertheless. */
  function FixedBody(body: seq<byte>, size: nat, p: Pdu): Fields {
    if |body| == size then Fields(p)
    else if |body| < size && |body| % 2 == 0 then Loose(p, |body| / 2)
    else Wrong
  }

  /** Where the text starts whose length word belongs at `at`; fields beyond the end do not
      move the position. */
  function TextAt(body: seq<byte>, at: nat): nat {
    if |body| >= at + 4 then at + 4 else if |body| >= at then at else 0
  }

  /** A body with a text whose length word is at `at`: it must say that the text goes
      exactly to the end of the body. A length word beyond the end is what its temporary
      held before. */
  function TextBody(body: seq<byte>, at: nat, p: Pdu): Fields {
    if |body| < at + 4 then Doubtful(p, if |body| >= at then at / 2 else 0)
    else if FromBe32(body, at) == |body| - at - 4 then Fields(p)
    else Wrong
  }

  /** What the constructor for these ids makes of a body. */
  function Unpack(m: uint16, c: uint16, body: seq<byte>): Fields
    requires KnownModule(m) && KnownCommand(m, c)
  {
    if m == SID_COMMAND then
      if c == CID_COMMAND_ADJUST_RATE then FixedBody(body, 4, AdjustRate(Word(body, 0), Word(body, 2)))
      else FixedBody(body, 2, ServerCommand(Word(body, 0)))
    else if m == SID_MSG then
      if c == CID_MSG_DATA then TextBody(body, 0, ClientData(Tail(body, TextAt(body, 0))))
      else if c == CID_MSG_SERVER_STATUS_INFO then
        if body == [] then Fields(ServerStatusInfo(None))
        else TextBody(body, 0, ServerStatusInfo(Some(Tail(body, TextAt(body, 0)))))
      else FixedBody(body, 0, AllClientStatusInfo(None))
    else
      if c == CID_OTHER_HEARTBEAT then
        if body == [] then Fields(Heartbeat(None))
        else TextBody(body, 0, Heartbeat(Some(Tail(body, TextAt(body, 0)))))
      else if c == CID_OTHER_RESPONSE then TextBody(body, 2, Response(Word(body, 0), Tail(body, TextAt(body, 2))))
      else if c == CID_OTHER_REG_CLIENT_TYPE then FixedBody(body, 2, RegClientType(Word(body, 0)))
      else FixedBody(body, 0, ClientDone)
  }

  function ReadHeader(buf: seq<byte>): Header
    requires |buf| >= IM_PDU_HEADER_LEN
  {
    Header(FromBe32(buf, 0), FromBe16(buf, 4), FromBe16(buf, 6), FromBe16(buf, 8), FromBe16(buf, 10))
  }

  /** ReadPdu on all the bytes a receiver has. */
  function Read(buf: seq<byte>): (r: Reading<Incoming>)
    ensures r.Got? || r.Unsure? ==>
              IM_PDU_HEADER_LEN <= r.pdu.header.length <= |buf| && r.pdu.frame == buf[..r.pdu.header.length]
  {
    if |buf| < IM_PDU_HEADER_LEN || FromBe32(buf, 0) > |buf| then NotAvailable
    else
      var h := ReadHeader(buf);
      if !KnownModule(h.module_id) then
        Thrown(h.module_id, h.command_id, ERROR_CODE_WRONG_SERVICE_ID)
      else if !KnownCommand(h.module_id, h.command_id) then
        Thrown(h.module_id, h.command_id, ERROR_CODE_WRONG_COMMAND_ID)
      else if h.length < IM_PDU_HEADER_LEN then Indeterminate
      else
        var f := Unpack(h.module_id, h.command_id, buf[IM_PDU_HEADER_LEN..h.length]);
        if f.Wrong? then Thrown(h.module_id, h.command_id, ERROR_CODE_PARSE_FAILED)
        else if f.Doubtful? then Unsure(Incoming(buf[..h.length], h, f))
        else Got(Incoming(buf[..h.length], h, f))
  }

  // --------------------------------------------------------------- properties

  lemma NumberBytes(n: uint32)
    ensures IsNumber(Be32(n), n)
  {
    Coding32(Be32(n), 0, n);
    assert Be32(n)[0..4] == Be32(n);
  }

  /** The module and the command id of each kind. */
  function IdNumbers(p: Pdu): (byte, uint16) {
    match p
    case ServerCommand(c) => (1, c)
    case AdjustRate(_, _) => (1, 16)
    case ClientData(_) => (2, 1)
    case ServerStatusInfo(_) => (2, 2)
    case AllClientStatusInfo(_) => (2, 3)
    case Heartbeat(_) => (3, 1)
    case Response(_, _) => (3, 2)
    case RegClientType(_) => (3, 3)
    case ClientDone => (3, 3)
  }

  /** A text behind its length. */
  predicate IsText(s: seq<byte>, t: seq<byte>) {
    |s| >= 4 && IsNumber(s[..4], |t|) && s[4..] == t
  }

  /** The fields of each kind, 16-bit numbers with the high byte first. */
  predicate IsBody(s: seq<byte>, p: Pdu) {
    match p
    case ServerCommand(c) => s == [c / 256, c % 256]
    case AdjustRate(delay, multi) => s == [delay / 256, delay % 256, multi / 256, multi % 256]
    case ClientData(t) => IsText(s, t)
    case ServerStatusInfo(t) => if t.Some? then IsText(s, t.value) else s == []
    case AllClientStatusInfo(t) => if t.Some? then IsText(s, t.value) else s == [0, 0, 0, 0]
    case Heartbeat(t) => if t.Some? then IsText(s, t.value) else s == []
    case Response(code, t) => |s| >= 2 && s[..2] == [code / 256, code % 256] && IsText(s[2..], t)
    case RegClientType(t) => s == [t / 256, t % 256]
    case ClientDone => s == []
  }

  lemma TextBytes(t: seq<byte>)
    requires |t| < 0x1_0000_0000
    ensures IsText(Text(t), t)
  {
    NumberBytes(|t|);
    assert Text(t)[..4] == Be32(|t|);
  }

  lemma WordBytes(x: uint16)
    ensures Be16(x) == [x / 256, x % 256]
  {
  }

  lemma TextBodyBytes(p: Pdu)
    requires Fits(p) && !p.ServerCommand? && !p.AdjustRate? && !p.RegClientType? && !p.Response?
    ensures IsBody(Body(p), p)
  {
    match p
    case ClientData(t) => TextBytes(t);
    case ServerStatusInfo(t) => if t.Some? { TextBytes(t.value); }
    case AllClientStatusInfo(t) => TextBytes(if t.Some? then t.value else []);
    case Heartbeat(t) => if t.Some? { TextBytes(t.value); }
    case ClientDone =>
  }

  lemma ResponseBytes(code: uint16, t: seq<byte>)
    requires |t| < 0x1_0000_0000
    ensures IsBody(Be16(code) + Text(t), Response(code, t))
  {
    WordBytes(code);
    TextBytes(t);
    assert (Be16(code) + Text(t))[2..] == Text(t);
  }

  lemma BodyBytes(p: Pdu)
    requires Fits(p)
    ensures IsBody(Body(p), p)
  {
    match p
    case ServerCommand(c) => WordBytes(c);
    case AdjustRate(delay, multi) =>
      WordBytes(delay);
      WordBytes(multi);
    case RegClientType(t) => WordBytes(t);
    case Response(code, t) => ResponseBytes(code, t);
    case _ => TextBodyBytes(p);
  }

  lemma HeaderInBytes(h: Header)
    ensures var s := HeaderBytes(h);
            && IsNumber(s[..4], h.length)
            && s[4..] == [h.module_id / 256, h.module_id % 256, h.command_id / 256, h.command_id % 256,
                          h.version / 256, h.version % 256, h.reserved / 256, h.reserved % 256]
  {
    NumberBytes(h.length);
    assert HeaderBytes(h)[..4] == Be32(h.length);
    WordBytes(h.module_id);
    WordBytes(h.command_id);
    WordBytes(h.version);
    WordBytes(h.reserved);
  }

  lemma IdsAre(p: Pdu)
    ensures Ids(p) == (IdNumbers(p).0, IdNumbers(p).1)
  {
  }

  /** A packed PDU byte for byte: its length, 0 and the module id, the command id, the version
      1, two reserved bytes, and the fields. */
  lemma WireBytes(p: Pdu)
    requires Fits(p)
    ensures var s, ids := Wire(p), IdNumbers(p);
            && |s| >= 12 && IsNumber(s[..4], |s|)
            && s[4..12] == [0, ids.0, ids.1 / 256, ids.1 % 256, 0, 1, 0, 0]
            && IsBody(s[12..], p)
  {
    var h := HeaderOf(p);
    HeaderInBytes(h);
    IdsAre(p);
    BodyBytes(p);
    Parts(HeaderBytes(h), Body(p));
  }

  lemma Parts(a: seq<byte>, b: seq<byte>)
    requires |a| == 12
    ensures (a + b)[..4] == a[..4] && (a + b)[4..12] == a[4..] && (a + b)[12..] == b
  {
  }

  /** A frame is looked at when it is there, and one with a module id or a command id that no PDU
      has is refused, whatever follows the header. */
  lemma ForeignIds(s: seq<byte>, n: nat)
    requires |s| >= 12 && IsNumber(s[..4], n)
    ensures Read(s) == NotAvailable <==> n > |s|
    ensures var m, c := s[4] as nat * 256 + s[5] as nat, s[6] as nat * 256 + s[7] as nat;
            n <= |s| ==>
              && (m !in {1, 2, 3} ==> Read(s) == Thrown(m, c, 2))
              && (m == 1 && c !in {1, 2, 4, 8, 16} ==> Read(s) == Thrown(m, c, 3))
              && (m == 2 && c !in {1, 2, 3} ==> Read(s) == Thrown(m, c, 3))
              && (m == 3 && c !in {1, 2, 3, 4} ==> Read(s) == Thrown(m, c, 3))
  {
    assert FromBe32(s, 0) == n;
  }

  /** What is read from the front of the buffer does not depend on what follows. */
  lemma ReadIsStable(buf: seq<byte>, more: seq<byte>)
    requires !Read(buf).NotAvailable?
    ensures Read(buf + more) == Read(buf)
  {
    var all := buf + more;
    assert ReadHeader(all) == ReadHeader(buf);
    var n := FromBe32(buf, 0);
    assert all[..n] == buf[..n];
    if n >= IM_PDU_HEADER_LEN {
      assert all[IM_PDU_HEADER_LEN..n] == buf[IM_PDU_HEADER_LEN..n];
    }
  }

  lemma HeaderRoundTrip(h: Header, rest: seq<byte>)
    ensures ReadHeader(HeaderBytes(h) + rest) == h
  {
    var all := HeaderBytes(h) + rest;
    Coding32(all, 0, h.length);
    Coding16(all, 4, h.module_id);
    Coding16(all, 6, h.command_id);
    Coding16(all, 8, h.version);
    Coding16(all, 10, h.reserved);
  }

  /** The PDUs that the other side gets as they were packed. */
  predicate Supported(p: Pdu) {
    match p
    case ServerCommand(c) => IsServCommand(c)
    case AllClientStatusInfo(_) => false
    case ClientDone => false
    case _ => true
  }

  /** The PDUs that the other side takes: also the report of a finished client, for a
      registration without its field, and the command 16, for a rate without its second
      field. */
  predicate Accepted(p: Pdu) {
    Supported(p) || p.ClientDone? || p == ServerCommand(CID_COMMAND_ADJUST_RATE)
  }

  function AsRead(p: Pdu): Fields {
    match p
    case ClientDone => Loose(RegClientType(0), 0)
    case ServerCommand(c) =>
      if c == CID_COMMAND_ADJUST_RATE then Loose(AdjustRate(CID_COMMAND_ADJUST_RATE, 0), 1) else Fields(p)
    case _ => Fields(p)
  }

  /** What the other side gets of a packed PDU. */
  function Packed(p: Pdu): Incoming
    requires Fits(p)
  {
    Incoming(Wire(p), HeaderOf(p), AsRead(p))
  }

  lemma TextRoundTrip(before: seq<byte>, s: seq<byte>, p: Pdu)
    requires |s| < 0x1_0000_0000
    ensures TextBody(before + Text(s), |before|, p) == Fields(p)
    ensures Tail(before + Text(s), TextAt(before + Text(s), |before|)) == s
  {
    Coding32(before + Text(s), |before|, |s|);
  }

  /** Unpacking gives back the fields. */
  lemma BodyRoundTrip(p: Pdu)
    requires Fits(p) && Supported(p)
    ensures KnownModule(Ids(p).0) && KnownCommand(Ids(p).0, Ids(p).1)
    ensures Unpack(Ids(p).0, Ids(p).1, Body(p)) == Fields(p)
  {
    match p
    case ServerCommand(c) => Coding16(Body(p), 0, c);
    case AdjustRate(delay, multi) =>
      Coding16(Body(p), 0, delay);
      Coding16(Body(p), 2, multi);
    case ClientData(s) =>
      TextRoundTrip([], s, p);
      assert [] + Text(s) == Text(s);
    case ServerStatusInfo(Some(s)) =>
      TextRoundTrip([], s, p);
      assert [] + Text(s) == Text(s);
    case Heartbeat(Some(s)) =>
      TextRoundTrip([], s, p);
      assert [] + Text(s) == Text(s);
    case Response(code, s) =>
      TextRoundTrip(Be16(code), s, p);
      Coding16(Body(p), 0, code);
    case RegClientType(t) => Coding16(Body(p), 0, t);
    case _ =>
  }

  /** The header and the body are where they were packed. */
  lemma WireParts(p: Pdu, rest: seq<byte>)
    requires Fits(p)
    ensures var all, n := Wire(p) + rest, HeaderOf(p).length;
            && FromBe32(all, 0) == n && ReadHeader(all) == HeaderOf(p)
            && all[..n] == Wire(p) && all[IM_PDU_HEADER_LEN..n] == Body(p)
  {
    var all := Wire(p) + rest;
    assert all == HeaderBytes(HeaderOf(p)) + (Body(p) + rest);
    HeaderRoundTrip(HeaderOf(p), Body(p) + rest);
    assert FromBe32(all, 0) == ReadHeader(all).length;
  }

  /** What the receiver reads depends on the ids and the body that were packed. */
  lemma ReadWire(p: Pdu, rest: seq<byte>)
    requires Fits(p)
    ensures var (m, c) := Ids(p);
            Read(Wire(p) + rest) ==
              if !KnownCommand(m, c) then Thrown(m, c, ERROR_CODE_WRONG_COMMAND_ID)
              else
                var f := Unpack(m, c, Body(p));
                if f.Wrong? then Thrown(m, c, ERROR_CODE_PARSE_FAILED)
                else if f.Doubtful? then Unsure(Incoming(Wire(p), HeaderOf(p), f))
                else Got(Incoming(Wire(p), HeaderOf(p), f))
  {
    WireParts(p, rest);
  }

  /** A packed PDU followed by any bytes is read as the PDU it was packed from, with the
      length that WriteHeader stored, exactly when it is a supported one. */
  lemma PduRoundTrip(p: Pdu, rest: seq<byte>)
    requires Fits(p)
    ensures Read(Wire(p) + rest) == Got(Incoming(Wire(p), HeaderOf(p), Fields(p))) <==> Supported(p)
  {
    ReadWire(p, rest);
    if Supported(p) {
      BodyRoundTrip(p);
    } else {
      Unsupported(p, rest);
    }
  }

  /** What becomes of the others: the report of a finished client is taken for a
      registration without its field, and the command 16 for a rate without its second
      field; the reply with the status of all clients is refused by its own unpacking
      constructor, and any other command for its id. */
  lemma Unsupported(p: Pdu, rest: seq<byte>)
    requires Fits(p) && !Supported(p)
    ensures Read(Wire(p) + rest) ==
              match p
              case AllClientStatusInfo(_) => Thrown(SID_MSG, CID_MSG_ALL_CLIENT_STATUS_INFO, ERROR_CODE_PARSE_FAILED)
              case ServerCommand(c) => if c == CID_COMMAND_ADJUST_RATE then Got(Packed(p))
                                       else Thrown(SID_COMMAND, c, ERROR_CODE_WRONG_COMMAND_ID)
              case _ => Got(Packed(p))
  {
    ReadWire(p, rest);
    if p == ServerCommand(CID_COMMAND_ADJUST_RATE) {
      Coding16(Body(p), 0, CID_COMMAND_ADJUST_RATE);
    }
  }

  /** So a PDU is taken or refused, and which of the two does not depend on the memory. */
  lemma TakenOrRefused(p: Pdu, rest: seq<byte>)
    requires Fits(p)
    ensures Accepted(p) ==> Read(Wire(p) + rest) == Got(Packed(p))
    ensures !Accepted(p) ==> Read(Wire(p) + rest).Thrown?
  {
    if Supported(p) {
      PduRoundTrip(p, rest);
    } else {
      Unsupported(p, rest);
    }
  }

  /** What may have been read from the frame of a packed PDU: that PDU; in place of a report
      of a finished client any registration, and in place of the command 16 a rate with this
      delay. */
  predicate ReadFrom(p: Pdu, y: Parsed)
    requires Fits(p)
  {
    && y.frame == Wire(p) && y.header == HeaderOf(p)
    && match p
       case ClientDone => y.pdu.RegClientType?
       case ServerCommand(c) =>
         if c == CID_COMMAND_ADJUST_RATE then y.pdu.AdjustRate? && y.pdu.delay == c else y.pdu == p
       case _ => y.pdu == p
  }

  lemma GivenByPacked(p: Pdu, y: Parsed)
    requires Fits(p)
    ensures Gives(Packed(p), y) <==> ReadFrom(p, y)
  {
  }

  /** As long as a PDU has not come in completely nothing is read. */
  lemma PartOfWire(p: Pdu, n: nat)
    requires Fits(p) && n < |Wire(p)|
    ensures Read(Wire(p)[..n]) == NotAvailable
  {
    if n >= IM_PDU_HEADER_LEN {
      var part := Wire(p)[..n];
      assert part == HeaderBytes(HeaderOf(p)) + Body(p)[..n - IM_PDU_HEADER_LEN];
      HeaderRoundTrip(HeaderOf(p), Body(p)[..n - IM_PDU_HEADER_LEN]);
      assert FromBe32(part, 0) == ReadHeader(part).length;
    }
  }

  /** The body is what packing the fields makes, as far as they are in it. */
  predicate Exact(f: Fields, body: seq<byte>) {
    match f
    case Fields(p) => body == if p.AllClientStatusInfo? then [] else Body(p)
    case Loose(p, n) => 2 * n < |Body(p)| && body == Body(p)[..2 * n]
    case _ => true
  }

  lemma ExactCommand(c: uint16, body: seq<byte>)
    requires KnownCommand(SID_COMMAND, c)
    ensures Exact(Unpack(SID_COMMAND, c, body), body)
  {
    ExactFields(body);
  }

  lemma ExactMsg(c: uint16, body: seq<byte>)
    requires KnownCommand(SID_MSG, c)
    ensures Exact(Unpack(SID_MSG, c, body), body)
  {
    ExactOptional(body);
  }

  lemma ExactOther(c: uint16, body: seq<byte>)
    requires KnownCommand(SID_OTHER, c)
    ensures Exact(Unpack(SID_OTHER, c, body), body)
  {
    ExactFields(body);
    ExactOptional(body);
    if |body| >= 6 && FromBe32(body, 2) == |body| - 6 {
      ExactText(body, 2);
    }
  }

  /** A received PDU has the body that packing its fields makes, as far as they are in the
      frame: nothing of the frame is left over and a text ends with the last byte. Only the
      request for the status of all clients comes without the text that its packing
      constructor always writes. */
  lemma GotIsExact(buf: seq<byte>)
    requires Read(buf).Got?
    ensures var x := Read(buf).pdu;
            && x.frame == buf[..x.header.length] && x.header == ReadHeader(buf)
            && (x.fields.Fields? || x.fields.Loose?) && Exact(x.fields, x.frame[IM_PDU_HEADER_LEN..])
  {
    var x := Read(buf).pdu;
    var body := buf[IM_PDU_HEADER_LEN..x.header.length];
    assert x.frame[IM_PDU_HEADER_LEN..] == body;
    if x.header.module_id == SID_COMMAND {
      ExactCommand(x.header.command_id, body);
    } else if x.header.module_id == SID_MSG {
      ExactMsg(x.header.command_id, body);
    } else {
      ExactOther(x.header.command_id, body);
    }
  }

  lemma ExactOptional(body: seq<byte>)
    ensures |body| >= 4 && FromBe32(body, 0) == |body| - 4 ==> body == Text(body[4..])
  {
    if |body| >= 4 && FromBe32(body, 0) == |body| - 4 {
      ExactText(body, 0);
    }
  }

  lemma ExactFields(body: seq<byte>)
    ensures |body| == 2 ==> Be16(FromBe16(body, 0)) == body
    ensures |body| == 4 ==> Be16(FromBe16(body, 0)) + Be16(FromBe16(body, 2)) == body
  {
    if |body| == 2 {
      Coding16(body, 0, FromBe16(body, 0));
    } else if |body| == 4 {
      Coding16(body, 0, FromBe16(body, 0));
      Coding16(body, 2, FromBe16(body, 2));
      assert body == body[0..2] + body[2..4];
    }
  }

  /** A text whose length word is right ends with the last byte. */
  lemma ExactText(body: seq<byte>, at: nat)
    requires at + 4 <= |body| && FromBe32(body, at) == |body| - at - 4
    ensures body == body[..at] + Text(body[at + 4..])
    ensures at == 0 ==> body == Text(body[4..])
    ensures at == 2 ==> body == Be16(FromBe16(body, 0)) + Text(body[6..])
  {
    Coding32(body, at, |body| - at - 4);
    assert body == body[..at] + (body[at..at + 4] + body[at + 4..]);
    if at == 2 {
      Coding16(body, 0, FromBe16(body, 0));
    }
  }
}
