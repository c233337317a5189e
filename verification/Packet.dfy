/** The OpenVPN packet codec: parsing by advancing an offset, serializing by appending. */
module Packets {
  import opened Common
  import opened OpCodes

  const MAX_ACK_COUNT: nat := 16

  datatype Header = Header(
    opcode: OpCode,
    keyId: KeyId,
    sessionId: Option<SessionId>,
    hmac: Option<Bytes32>,
    packetId: Option<u32>,
    timestamp: Option<u32>)

  datatype Packet =
    | Control(
        header: Header,
        remoteSessionId: Option<SessionId>,
        acks: seq<u32>,
        messageId: Option<u32>,
        payload: seq<byte>)
    | Data(header: Header, peerId: Option<u32>, payload: seq<byte>)

  // ---------------------------------------------------------------- serializing

  function OptBytes(b: Option<seq<byte>>): seq<byte> {
    match b case None => [] case Some(v) => v
  }

  function OptU32(n: Option<u32>): seq<byte> {
    match n case None => [] case Some(v) => PutU32(v)
  }

  function OptU24(n: Option<u32>): seq<byte> {
    match n case None => [] case Some(v) => PutU24(v % 0x100_0000)
  }

  function HeaderBytes(h: Header): seq<byte> {
    [h.opcode.ToByte(h.keyId)] + OptBytes(h.sessionId) + OptBytes(h.hmac)
    + OptU32(h.packetId) + OptU32(h.timestamp)
  }

  function AckBytes(acks: seq<u32>): (b: seq<byte>)
    ensures |b| == 4 * |acks|
  {
    if acks == [] then [] else PutU32(acks[0]) + AckBytes(acks[1..])
  }

  /** The count byte, the acks, and the remote session id when there are acks. */
  function AckBlock(acks: seq<u32>, remote: Option<SessionId>): seq<byte> {
    [|acks| % 256] + AckBytes(acks) + if acks == [] then [] else OptBytes(remote)
  }

  function PacketBytes(p: Packet): seq<byte> {
    match p
    case Control(h, remote, acks, messageId, payload) =>
      HeaderBytes(h) + (AckBlock(acks, remote) + (OptU32(messageId) + payload))
    case Data(h, peerId, payload) =>
      HeaderBytes(h) + (OptU24(peerId) + payload)
  }

  // ---------------------------------------------------------------- parsing

  /** The header and the offset just after it. */
  function ParseHeader(data: seq<byte>, tlsAuth: bool): Result<(Header, nat), ProtocolError> {
    if data == [] then Err(PacketTooShort(1, 0))
    else
      var opcode :- OpCodeFromByte(data[0]);
      var keyId := KeyIdFromByte(data[0]);
      if opcode.IsData() then Ok((Header(opcode, keyId, None, None, None, None), 1))
      else if |data| < 9 then Err(PacketTooShort(9, |data|))
      else if !tlsAuth then Ok((Header(opcode, keyId, Some(data[1..9]), None, None, None), 9))
      else if |data| < 41 then Err(PacketTooShort(41, |data|))
      else if |data| < 45 then Err(PacketTooShort(45, |data|))
      else if |data| < 49 then Err(PacketTooShort(49, |data|))
      else
        Ok((Header(opcode, keyId, Some(data[1..9]), Some(data[9..41]),
                   Some(GetU32(data[41..45])), Some(GetU32(data[45..49]))), 49))
  }

  /** `count` ack ids starting at `offset`, and the offset just after them. */
  function ReadAcks(data: seq<byte>, offset: nat, count: nat): Result<(seq<u32>, nat), ProtocolError>
    decreases count
  {
    if count == 0 then Ok(([], offset))
    else if |data| < offset + 4 then Err(PacketTooShort(offset + 4, |data|))
    else
      var (rest, end) :- ReadAcks(data, offset + 4, count - 1);
      Ok(([GetU32(data[offset..offset + 4])] + rest, end))
  }

  /** The ack list, the remote session id that follows a non-empty list, and the offset after both. */
  function ReadAckBlock(data: seq<byte>, offset: nat)
    : Result<(seq<u32>, Option<SessionId>, nat), ProtocolError>
  {
    if |data| < offset + 1 then Err(PacketTooShort(offset + 1, |data|))
    else if data[offset] > MAX_ACK_COUNT then Err(TooManyAcks(data[offset]))
    else if data[offset] == 0 then Ok(([], None, offset + 1))
    else
      var (acks, end) :- ReadAcks(data, offset + 1, data[offset]);
      if |data| < end + 8 then Err(PacketTooShort(end + 8, |data|))
      else Ok((acks, Some(data[end..end + 8]), end + 8))
  }

  /** Everything after the header, given the header and the offset after it. */
  function ParseBody(data: seq<byte>, header: Header, offset: nat): Result<Packet, ProtocolError> {
    if header.opcode.IsData() then
      if header.opcode != DataV2 then
        if offset > |data| then Err(PacketTooShort(offset, |data|))
        else Ok(Data(header, None, data[offset..]))
      else if |data| < offset + 3 then Err(PacketTooShort(offset + 3, |data|))
      else Ok(Data(header, Some(GetU24(data[offset..offset + 3])), data[offset + 3..]))
    else
      var (acks, remote, end) :- ReadAckBlock(data, offset);
      var (messageId, payload) := ReadMessage(header.opcode, data, end);
      Ok(Control(header, remote, acks, messageId, payload))
  }

  /** The message id, absent on a pure ack or when too few bytes are left, and the payload. */
  function ReadMessage(opcode: OpCode, data: seq<byte>, offset: nat): (Option<u32>, seq<byte>) {
    if opcode != AckV1 && |data| >= offset + 4 then
      (Some(GetU32(data[offset..offset + 4])), data[offset + 4..])
    else (None, if offset < |data| then data[offset..] else [])
  }

  function ParsePacket(data: seq<byte>, tlsAuth: bool): Result<Packet, ProtocolError> {
    var (header, offset) :- ParseHeader(data, tlsAuth);
    ParseBody(data, header, offset)
  }

  // ---------------------------------------------------------------- well-formed packets

  predicate WellFormedHeader(h: Header, tlsAuth: bool) {
    && (h.sessionId.Some? <==> h.opcode.IsControl())
    && (h.hmac.Some? <==> h.opcode.IsControl() && tlsAuth)
    && (h.packetId.Some? <==> h.opcode.IsControl() && tlsAuth)
    && (h.timestamp.Some? <==> h.opcode.IsControl() && tlsAuth)
  }

  /** The packets that survive the wire: at most 16 acks, a remote session id exactly when there
      are acks, no message id on a pure ack, and a missing one elsewhere only when fewer than four
      bytes follow; a 24-bit peer id exactly on P_DATA_V2. */
  predicate WellFormed(p: Packet, tlsAuth: bool) {
    && WellFormedHeader(p.header, tlsAuth)
    && match p
       case Control(h, remote, acks, messageId, payload) =>
         && h.opcode.IsControl()
         && |acks| <= MAX_ACK_COUNT
         && (remote.Some? <==> acks != [])
         && (h.opcode == AckV1 ==> messageId.None?)
         && (h.opcode != AckV1 && messageId.None? ==> |payload| < 4)
       case Data(h, peerId, _) =>
         && h.opcode.IsData()
         && (peerId.Some? <==> h.opcode == DataV2)
         && (peerId.Some? ==> peerId.value < 0x100_0000)
  }

  // ---------------------------------------------------------------- the codec is a bijection

  lemma ParsedHeader(data: seq<byte>, tlsAuth: bool)
    requires ParseHeader(data, tlsAuth).Ok?
    ensures var (h, n) := ParseHeader(data, tlsAuth).value;
            n <= |data| && WellFormedHeader(h, tlsAuth) && HeaderBytes(h) == data[..n]
  {
    var (h, n) := ParseHeader(data, tlsAuth).value;
    OpCodeByteIff(data[0], h.opcode, h.keyId);
    if n == 49 {
      U32Bytes(data[41..45]);
      U32Bytes(data[45..49]);
      assert data[..49] == [data[0]] + data[1..9] + data[9..41] + data[41..45] + data[45..49];
    } else if n == 9 {
      assert data[..9] == [data[0]] + data[1..9];
    }
  }

  lemma {:induction false} ReadAcksBytes(data: seq<byte>, offset: nat, count: nat)
    requires ReadAcks(data, offset, count).Ok? && offset <= |data|
    ensures var (acks, end) := ReadAcks(data, offset, count).value;
            |acks| == count && end == offset + 4 * count <= |data| && AckBytes(acks) == data[offset..end]
    decreases count
  {
    if count > 0 {
      ReadAcksBytes(data, offset + 4, count - 1);
      var (acks, end) := ReadAcks(data, offset, count).value;
      U32Bytes(data[offset..offset + 4]);
      assert acks[1..] == ReadAcks(data, offset + 4, count - 1).value.0;
      assert data[offset..end] == data[offset..offset + 4] + data[offset + 4..end];
    }
  }

  lemma ReadAckBlockBytes(data: seq<byte>, offset: nat)
    requires ReadAckBlock(data, offset).Ok?
    ensures var (acks, remote, end) := ReadAckBlock(data, offset).value;
            && |acks| <= MAX_ACK_COUNT && (remote.Some? <==> acks != [])
            && offset <= end <= |data| && AckBlock(acks, remote) == data[offset..end]
  {
    hide ReadAcks, AckBytes;
    if data[offset] != 0 {
      ReadAcksBytes(data, offset + 1, data[offset]);
      var (acks, end) := ReadAcks(data, offset + 1, data[offset]).value;
      assert data[offset..end + 8] == [data[offset]] + data[offset + 1..end] + data[end..end + 8];
    }
  }

  lemma ParsedDataBody(data: seq<byte>, h: Header, n: nat)
    requires n <= |data| && h.opcode.IsData() && ParseBody(data, h, n).Ok?
    ensures var p := ParseBody(data, h, n).value;
            p.header == h && PacketBytes(p) == HeaderBytes(h) + data[n..]
  {
    hide PutU24, GetU24, HeaderBytes;
    if h.opcode == DataV2 {
      U24Bytes(data[n..n + 3]);
      assert data[n..] == data[n..n + 3] + data[n + 3..];
    }
  }

  lemma ReadMessageBytes(opcode: OpCode, data: seq<byte>, offset: nat)
    requires offset <= |data|
    ensures var (messageId, payload) := ReadMessage(opcode, data, offset);
            OptU32(messageId) + payload == data[offset..]
  {
    hide PutU32, GetU32;
    if opcode != AckV1 && |data| >= offset + 4 {
      U32Bytes(data[offset..offset + 4]);
    }
  }

  lemma ParsedControlBody(data: seq<byte>, h: Header, n: nat)
    requires n <= |data| && h.opcode.IsControl() && ParseBody(data, h, n).Ok?
    ensures var p := ParseBody(data, h, n).value;
            p.header == h && PacketBytes(p) == HeaderBytes(h) + data[n..]
  {
    hide HeaderBytes, AckBlock, ReadAckBlock, ReadMessage, OptU32;
    ReadAckBlockBytes(data, n);
    var (acks, remote, end) := ReadAckBlock(data, n).value;
    ReadMessageBytes(h.opcode, data, end);
    assert data[n..end] + data[end..] == data[n..];
  }

  /** Serializing what was parsed gives back the input, for every byte string the parser accepts. */
  lemma SerializeAfterParse(data: seq<byte>, tlsAuth: bool)
    requires ParsePacket(data, tlsAuth).Ok?
    ensures WellFormed(ParsePacket(data, tlsAuth).value, tlsAuth)
    ensures PacketBytes(ParsePacket(data, tlsAuth).value) == data
  {
    hide PutU32, GetU32, PutU24, GetU24, HeaderBytes, ReadAckBlock, AckBlock, PacketBytes;
    var (h, n) := ParseHeader(data, tlsAuth).value;
    ParsedHeader(data, tlsAuth);
    assert data == data[..n] + data[n..];
    if h.opcode.IsControl() {
      ParsedControlBody(data, h, n);
      ReadAckBlockBytes(data, n);
    } else {
      ParsedDataBody(data, h, n);
    }
  }

  lemma HeaderBytesParse(h: Header, rest: seq<byte>, tlsAuth: bool)
    requires WellFormedHeader(h, tlsAuth)
    ensures ParseHeader(HeaderBytes(h) + rest, tlsAuth) == Ok((h, |HeaderBytes(h)|))
  {
    var data := HeaderBytes(h) + rest;
    OpCodeByteIff(data[0], h.opcode, h.keyId);
    if h.opcode.IsControl() {
      assert data[1..9] == h.sessionId.value;
      if tlsAuth {
        HeaderFields(h, rest);
      }
    }
  }

  lemma HeaderFields(h: Header, rest: seq<byte>)
    requires h.sessionId.Some? && h.hmac.Some? && h.packetId.Some? && h.timestamp.Some?
    ensures |HeaderBytes(h)| == 49
    ensures var data := HeaderBytes(h) + rest;
            && data[9..41] == h.hmac.value
            && GetU32(data[41..45]) == h.packetId.value
            && GetU32(data[45..49]) == h.timestamp.value
  {
    hide PutU32, GetU32;
    var data := HeaderBytes(h) + rest;
    assert data[41..45] == PutU32(h.packetId.value);
    assert data[45..49] == PutU32(h.timestamp.value);
    U32RoundTrip(h.packetId.value);
    U32RoundTrip(h.timestamp.value);
  }

  lemma {:induction false} AckBytesRead(pre: seq<byte>, acks: seq<u32>, post: seq<byte>)
    ensures ReadAcks(pre + AckBytes(acks) + post, |pre|, |acks|) == Ok((acks, |pre| + 4 * |acks|))
    decreases |acks|
  {
    hide PutU32, GetU32;
    if acks != [] {
      var data := pre + AckBytes(acks) + post;
      assert data[|pre|..|pre| + 4] == PutU32(acks[0]);
      U32RoundTrip(acks[0]);
      assert data == (pre + PutU32(acks[0])) + AckBytes(acks[1..]) + post;
      AckBytesRead(pre + PutU32(acks[0]), acks[1..], post);
      assert [acks[0]] + acks[1..] == acks;
    }
  }

  lemma AckBlockRead(pre: seq<byte>, acks: seq<u32>, remote: Option<SessionId>, post: seq<byte>)
    requires |acks| <= MAX_ACK_COUNT && (remote.Some? <==> acks != [])
    ensures ReadAckBlock(pre + AckBlock(acks, remote) + post, |pre|)
            == Ok((acks, remote, |pre| + |AckBlock(acks, remote)|))
  {
    hide ReadAcks, AckBytes;
    var data := pre + AckBlock(acks, remote) + post;
    assert data[|pre|] == |acks|;
    if acks != [] {
      assert data == (pre + [|acks|]) + AckBytes(acks) + (remote.value + post);
      AckBytesRead(pre + [|acks|], acks, remote.value + post);
      var end := |pre| + 1 + 4 * |acks|;
      assert data[end..end + 8] == remote.value;
    }
  }

  lemma MessageRead(opcode: OpCode, pre: seq<byte>, messageId: Option<u32>, payload: seq<byte>)
    requires opcode == AckV1 ==> messageId.None?
    requires opcode != AckV1 && messageId.None? ==> |payload| < 4
    ensures ReadMessage(opcode, pre + (OptU32(messageId) + payload), |pre|) == (messageId, payload)
  {
    hide PutU32, GetU32;
    var data := pre + (OptU32(messageId) + payload);
    if messageId.Some? {
      assert data[|pre|..|pre| + 4] == PutU32(messageId.value);
      U32RoundTrip(messageId.value);
      assert data[|pre| + 4..] == payload;
    } else {
      assert data[|pre|..] == payload;
    }
  }

  /** Parsing what was serialized gives back the packet, for every well-formed packet. */
  lemma ParseAfterSerialize(p: Packet, tlsAuth: bool)
    requires WellFormed(p, tlsAuth)
    ensures ParsePacket(PacketBytes(p), tlsAuth) == Ok(p)
  {
    hide HeaderBytes, AckBlock, ReadAckBlock, ReadMessage, OptU32, OptU24, ParseHeader, PutU24, GetU24;
    var data, n := PacketBytes(p), |HeaderBytes(p.header)|;
    match p {
      case Control(h, remote, acks, messageId, payload) =>
        var tail := OptU32(messageId) + payload;
        HeaderBytesParse(h, AckBlock(acks, remote) + tail, tlsAuth);
        var pre := HeaderBytes(h) + AckBlock(acks, remote);
        assert data == pre + tail;
        AckBlockRead(HeaderBytes(h), acks, remote, tail);
        MessageRead(h.opcode, pre, messageId, payload);
      case Data(h, peerId, payload) =>
        HeaderBytesParse(h, OptU24(peerId) + payload, tlsAuth);
        DataBodyRead(h, peerId, payload);
    }
  }

  lemma DataBodyRead(h: Header, peerId: Option<u32>, payload: seq<byte>)
    requires h.opcode.IsData() && (peerId.Some? <==> h.opcode == DataV2)
    requires peerId.Some? ==> peerId.value < 0x100_0000
    ensures ParseBody(HeaderBytes(h) + (OptU24(peerId) + payload), h, |HeaderBytes(h)|)
            == Ok(Data(h, peerId, payload))
  {
    hide PutU24, GetU24, HeaderBytes;
    var data, n := HeaderBytes(h) + (OptU24(peerId) + payload), |HeaderBytes(h)|;
    if peerId.Some? {
      assert data[n..n + 3] == PutU24(peerId.value);
      U24RoundTrip(peerId.value);
      assert data[n + 3..] == payload;
    } else {
      assert data[n..] == payload;
    }
  }

  /** The parser accepts exactly the serializations of well-formed packets, and inverts them. */
  lemma ParseIff(data: seq<byte>, p: Packet, tlsAuth: bool)
    ensures ParsePacket(data, tlsAuth) == Ok(p) <==> WellFormed(p, tlsAuth) && PacketBytes(p) == data
  {
    hide ParsePacket, PacketBytes, WellFormed;
    if ParsePacket(data, tlsAuth) == Ok(p) {
      SerializeAfterParse(data, tlsAuth);
    }
    if WellFormed(p, tlsAuth) {
      ParseAfterSerialize(p, tlsAuth);
    }
  }

  // ---------------------------------------------------------------- where the fields are

  lemma HeaderLayout(h: Header, rest: seq<byte>, tlsAuth: bool)
    requires WellFormedHeader(h, tlsAuth) && h.opcode.IsControl()
    ensures var d := HeaderBytes(h) + rest;
            && |d| >= 9 && d[0] == h.opcode.ToByte(h.keyId) && d[1..9] == h.sessionId.value
            && (if tlsAuth
                then && |d| >= 49 && d[9..41] == h.hmac.value && GetU32(d[41..45]) == h.packetId.value
                     && GetU32(d[45..49]) == h.timestamp.value && d[49..] == rest
                else d[9..] == rest)
  {
    hide PutU32, GetU32;
    var d := HeaderBytes(h) + rest;
    assert d[1..9] == h.sessionId.value;
    if tlsAuth {
      assert d[9..41] == h.hmac.value;
      assert d[41..45] == PutU32(h.packetId.value) && d[45..49] == PutU32(h.timestamp.value);
      U32RoundTrip(h.packetId.value);
      U32RoundTrip(h.timestamp.value);
    }
  }

  lemma {:induction false} AckAt(acks: seq<u32>, i: nat)
    requires i < |acks|
    ensures GetU32(AckBytes(acks)[4 * i..4 * i + 4]) == acks[i]
  {
    hide PutU32, GetU32;
    var b := AckBytes(acks);
    if i == 0 {
      assert b[..4] == PutU32(acks[0]);
      U32RoundTrip(acks[0]);
    } else {
      AckAt(acks[1..], i - 1);
      assert b[4..] == AckBytes(acks[1..]);
      assert b[4 * i..4 * i + 4] == b[4..][4 * (i - 1)..4 * (i - 1) + 4];
    }
  }

  /** After the header of a control packet: the number of acks, the acks, the remote session id if there are
      any, the message id, the payload. */
  lemma BodyLayout(p: Packet)
    requires p.Control? && |p.acks| < 256 && (p.acks != [] ==> p.remoteSessionId.Some?)
    ensures var b := AckBlock(p.acks, p.remoteSessionId) + (OptU32(p.messageId) + p.payload);
            var m := 1 + 4 * |p.acks|;
            var n := if p.acks == [] then m else m + 8;
            && |b| >= n && b[0] == |p.acks|
            && (forall i | 0 <= i < |p.acks| :: GetU32(b[1 + 4 * i..5 + 4 * i]) == p.acks[i])
            && (p.acks != [] ==> b[m..n] == p.remoteSessionId.value)
            && (p.messageId.Some? ==> |b| >= n + 4 && GetU32(b[n..n + 4]) == p.messageId.value && b[n + 4..] == p.payload)
            && (p.messageId.None? ==> b[n..] == p.payload)
  {
    hide AckBlock, OptU32, GetU32;
    AckBlockLayout(p.acks, p.remoteSessionId, OptU32(p.messageId) + p.payload);
    MessageLayout(p.messageId, p.payload);
    var tail := OptU32(p.messageId) + p.payload;
    var b := AckBlock(p.acks, p.remoteSessionId) + tail;
    var n := |AckBlock(p.acks, p.remoteSessionId)|;
    assert b[n..] == tail;
    if p.messageId.Some? {
      assert b[n..n + 4] == tail[..4] && b[n + 4..] == tail[4..];
    }
  }

  lemma AckBlockLayout(acks: seq<u32>, remote: Option<SessionId>, rest: seq<byte>)
    requires |acks| < 256 && (acks != [] ==> remote.Some?)
    ensures var b := AckBlock(acks, remote) + rest;
            var m := 1 + 4 * |acks|;
            var n := if acks == [] then m else m + 8;
            && |AckBlock(acks, remote)| == n && b[0] == |acks|
            && (forall i | 0 <= i < |acks| :: GetU32(b[1 + 4 * i..5 + 4 * i]) == acks[i])
            && (acks != [] ==> b[m..n] == remote.value)
  {
    hide GetU32, AckBytes;
    var b, m := AckBlock(acks, remote) + rest, 1 + 4 * |acks|;
    assert b[1..m] == AckBytes(acks);
    assert acks != [] ==> b[m..m + 8] == remote.value;
    forall i | 0 <= i < |acks|
      ensures GetU32(b[1 + 4 * i..5 + 4 * i]) == acks[i]
    {
      AckAt(acks, i);
      assert b[1 + 4 * i..5 + 4 * i] == b[1..m][4 * i..4 * i + 4];
    }
  }

  lemma MessageLayout(id: Option<u32>, payload: seq<byte>)
    ensures var b := OptU32(id) + payload;
            if id.Some? then |b| >= 4 && GetU32(b[..4]) == id.value && b[4..] == payload else b == payload
  {
    hide PutU32, GetU32;
    if id.Some? {
      U32RoundTrip(id.value);
      assert (PutU32(id.value) + payload)[..4] == PutU32(id.value);
    }
  }

  /** A control packet on the wire: opcode and key id, session id, then, with tls-auth, the HMAC, packet id and
      timestamp, then the body. */
  lemma ControlLayout(p: Packet, tlsAuth: bool)
    requires p.Control? && p.header.opcode.IsControl() && WellFormedHeader(p.header, tlsAuth)
    ensures var d := PacketBytes(p);
            var body := AckBlock(p.acks, p.remoteSessionId) + (OptU32(p.messageId) + p.payload);
            && |d| >= 9 && d[0] == p.header.opcode.ToByte(p.header.keyId) && d[1..9] == p.header.sessionId.value
            && (!tlsAuth ==> d[9..] == body)
            && (tlsAuth ==> && |d| >= 49 && d[9..41] == p.header.hmac.value && GetU32(d[41..45]) == p.header.packetId.value
                            && GetU32(d[45..49]) == p.header.timestamp.value && d[49..] == body)
  {
    HeaderLayout(p.header, AckBlock(p.acks, p.remoteSessionId) + (OptU32(p.messageId) + p.payload), tlsAuth);
    hide HeaderBytes, AckBlock, OptU32, GetU32;
  }

  // ---------------------------------------------------------------- packets a session emits

  /** A control packet as the session builds it: any ack list, and whatever remote id it knows. */
  predicate Emitted(p: Packet, tlsAuth: bool) {
    && p.Control?
    && p.header.opcode.IsControl()
    && WellFormedHeader(p.header, tlsAuth)
    && (p.messageId.None? <==> p.header.opcode == AckV1)
  }

  /** The packet without the remote session id that the serializer leaves out. */
  function OnWire(p: Packet): Packet
    requires p.Control?
  {
    p.(remoteSessionId := if p.acks == [] then None else p.remoteSessionId)
  }

  /** The peer recovers an emitted packet exactly when it carries at most 16 acks and, if it
      carries any, the remote session id is known. */
  lemma EmittedSurvivesIff(p: Packet, tlsAuth: bool)
    requires Emitted(p, tlsAuth)
    ensures ParsePacket(PacketBytes(p), tlsAuth) == Ok(OnWire(p))
            <==> |p.acks| <= MAX_ACK_COUNT && (p.acks != [] ==> p.remoteSessionId.Some?)
  {
    assert PacketBytes(p) == PacketBytes(OnWire(p));
    ParseIff(PacketBytes(p), OnWire(p), tlsAuth);
  }

  /** A count byte above 16 makes the peer reject the packet. */
  lemma TooManyAcksRejected(p: Packet, tlsAuth: bool)
    requires Emitted(p, tlsAuth) && |p.acks| % 256 > MAX_ACK_COUNT
    ensures ParsePacket(PacketBytes(p), tlsAuth) == Err(TooManyAcks(|p.acks| % 256))
  {
    hide HeaderBytes, AckBytes, ReadAcks, ParseHeader, OptU32;
    var h, n := p.header, |HeaderBytes(p.header)|;
    var body := AckBlock(p.acks, p.remoteSessionId) + (OptU32(p.messageId) + p.payload);
    HeaderBytesParse(h, body, tlsAuth);
    assert PacketBytes(p)[n] == body[0] == |p.acks| % 256;
  }

  /** What the peer does not read as something else: the count byte is above 16, or it is the number of
      acks and, if there are any, the remote session id follows them or nothing that could pass for it. */
  predicate NotMisread(p: Packet)
    requires p.Control?
  {
    || |p.acks| % 256 > MAX_ACK_COUNT
    || (&& |p.acks| <= MAX_ACK_COUNT
        && (p.acks == [] || p.remoteSessionId.Some? || |OptU32(p.messageId)| + |p.payload| < 8))
  }

  lemma {:induction false} ReadAcksOkIff(data: seq<byte>, offset: nat, count: nat)
    requires offset <= |data|
    ensures ReadAcks(data, offset, count).Ok? <==> |data| >= offset + 4 * count
    ensures ReadAcks(data, offset, count).Ok? ==> ReadAcks(data, offset, count).value.1 == offset + 4 * count
    decreases count
  {
    hide GetU32;
    if count > 0 && |data| >= offset + 4 {
      ReadAcksOkIff(data, offset + 4, count - 1);
    }
  }

  lemma ReadAckBlockOkIff(data: seq<byte>, offset: nat)
    requires offset < |data|
    ensures ReadAckBlock(data, offset).Ok?
            <==> data[offset] <= MAX_ACK_COUNT && (data[offset] == 0 || |data| >= offset + 4 * data[offset] + 9)
  {
    hide ReadAcks;
    ReadAcksOkIff(data, offset + 1, data[offset]);
  }

  lemma EmittedParsesIff(p: Packet, tlsAuth: bool)
    requires Emitted(p, tlsAuth)
    ensures var c, block := |p.acks| % 256, AckBlock(p.acks, p.remoteSessionId);
            ParsePacket(PacketBytes(p), tlsAuth).Ok?
            <==> c <= MAX_ACK_COUNT
                 && (c == 0 || |block| + |OptU32(p.messageId)| + |p.payload| >= 4 * c + 9)
  {
    hide HeaderBytes, AckBytes, ReadAckBlock, ReadMessage, ParseHeader, OptU32;
    var data, h, n := PacketBytes(p), p.header, |HeaderBytes(p.header)|;
    var block, tail := AckBlock(p.acks, p.remoteSessionId), OptU32(p.messageId) + p.payload;
    HeaderBytesParse(h, block + tail, tlsAuth);
    assert data[n] == block[0] == |p.acks| % 256;
    assert |data| == n + |block| + |tail|;
    hide PacketBytes, AckBlock;
    ReadAckBlockOkIff(data, n);
  }

  lemma AckBlockLength(acks: seq<u32>, remote: Option<SessionId>)
    ensures |AckBlock(acks, remote)| == 1 + 4 * |acks| + if acks == [] || remote.None? then 0 else 8
  {
  }

  /** For every control packet a session emits, whatever its acks: the peer rejects it or reads it as it is
      if and only if it is not one of those that can be misread. */
  lemma RejectedOrReadIff(p: Packet, tlsAuth: bool)
    requires Emitted(p, tlsAuth)
    ensures var r := ParsePacket(PacketBytes(p), tlsAuth);
            r.Err? || r == Ok(OnWire(p)) <==> NotMisread(p)
  {
    assert p.Control?;
    var n := |p.acks|;
    assert n < 256 ==> n % 256 == n;
    assert n >= 256 ==> n >= n % 256 + 256;
    hide PacketBytes, ParsePacket, AckBlock, AckBytes, OnWire, OptU32, Emitted;
    EmittedSurvivesIff(p, tlsAuth);
    EmittedParsesIff(p, tlsAuth);
    AckBlockLength(p.acks, p.remoteSessionId);
  }

  /** What the peer makes of 256 or more acks when the count byte is at most 16: it takes that many for the
      acks, the next two for the remote session id unless the count is zero, the next one for the message
      id unless the packet is a pure ack, and everything after that for payload. */
  function Misread(p: Packet): Packet
    requires p.Control? && |p.acks| >= 256
  {
    var c, tail := |p.acks| % 256, OptBytes(p.remoteSessionId) + (OptU32(p.messageId) + p.payload);
    assert c + 3 <= |p.acks| || c > MAX_ACK_COUNT;
    if c > MAX_ACK_COUNT then p
    else
      var k := if c == 0 then 0 else c + 2;
      var remote := if c == 0 then None else Some(PutU32(p.acks[c]) + PutU32(p.acks[c + 1]));
      if p.header.opcode == AckV1 then Control(p.header, remote, p.acks[..c], None, AckBytes(p.acks[k..]) + tail)
      else Control(p.header, remote, p.acks[..c], Some(p.acks[k]), AckBytes(p.acks[k + 1..]) + tail)
  }

  lemma AcksMisread(p: Packet, tlsAuth: bool)
    requires Emitted(p, tlsAuth) && |p.acks| >= 256 && |p.acks| % 256 <= MAX_ACK_COUNT
    ensures ParsePacket(PacketBytes(p), tlsAuth) == Ok(Misread(p))
  {
    SameBytes(p);
    ParseIff(PacketBytes(p), Misread(p), tlsAuth);
    hide PacketBytes, ParsePacket, AckBytes;
  }

  lemma {:induction false} AckBytesAppend(a: seq<u32>, b: seq<u32>)
    ensures AckBytes(a + b) == AckBytes(a) + AckBytes(b)
  {
    hide PutU32;
    if a == [] {
      assert a + b == b;
    } else {
      assert (a + b)[1..] == a[1..] + b;
      AckBytesAppend(a[1..], b);
    }
  }

  /** The acks from `k` on are the ack `k` and the acks after it. */
  lemma AckBytesNext(acks: seq<u32>, k: nat)
    requires k < |acks|
    ensures AckBytes(acks[k..]) == PutU32(acks[k]) + AckBytes(acks[k + 1..])
  {
    hide PutU32;
    assert acks[k..][1..] == acks[k + 1..];
  }

  lemma Assoc(a: seq<byte>, b: seq<byte>, c: seq<byte>)
    ensures a + (b + c) == a + b + c
  {
  }

  lemma AckBytesSplit(acks: seq<u32>, c: nat)
    requires c + 3 <= |acks|
    ensures AckBytes(acks) == AckBytes(acks[..c]) + AckBytes(acks[c..])
    ensures AckBytes(acks[c..]) == PutU32(acks[c]) + PutU32(acks[c + 1]) + AckBytes(acks[c + 2..])
  {
    hide PutU32, AckBytes;
    assert acks == acks[..c] + acks[c..];
    AckBytesAppend(acks[..c], acks[c..]);
    AckBytesNext(acks, c);
    AckBytesNext(acks, c + 1);
    Assoc(PutU32(acks[c]), PutU32(acks[c + 1]), AckBytes(acks[c + 2..]));
  }

  /** The acks, read the peer's way: `rest` is what it takes for the beginning of the payload. */
  lemma MisreadShape(p: Packet) returns (rest: seq<byte>)
    requires p.Control? && |p.acks| >= 256 && |p.acks| % 256 <= MAX_ACK_COUNT
    requires p.messageId.None? <==> p.header.opcode == AckV1
    ensures var q := Misread(p);
            && q.Control? && q.header == p.header && q.acks == p.acks[..|p.acks| % 256]
            && (q.remoteSessionId.Some? <==> q.acks != [])
            && q.payload == rest + (OptBytes(p.remoteSessionId) + (OptU32(p.messageId) + p.payload))
            && AckBytes(p.acks) == AckBytes(q.acks) + (OptBytes(q.remoteSessionId) + (OptU32(q.messageId) + rest))
  {
    var acks, c := p.acks, |p.acks| % 256;
    var k := if c == 0 then 0 else c + 2;
    hide PutU32, AckBytes;
    AckBytesSplit(acks, c);
    AckBytesNext(acks, k);
    rest := if p.header.opcode == AckV1 then AckBytes(acks[k..]) else AckBytes(acks[k + 1..]);
    assert [] + AckBytes(acks[k..]) == AckBytes(acks[k..]);
  }

  lemma Regroup(a: seq<byte>, b: seq<byte>, c: seq<byte>, d: seq<byte>, e: seq<byte>, f: seq<byte>)
    ensures a + (b + (c + (d + e))) + f == a + b + c + (d + (e + f))
  {
  }

  lemma SameBytes(p: Packet)
    requires p.Control? && |p.acks| >= 256 && |p.acks| % 256 <= MAX_ACK_COUNT
    requires p.messageId.None? <==> p.header.opcode == AckV1
    ensures PacketBytes(Misread(p)) == PacketBytes(p)
  {
    var c, message := |p.acks| % 256, OptU32(p.messageId) + p.payload;
    var rest := MisreadShape(p);
    var q := Misread(p);
    hide HeaderBytes, AckBytes, Misread, OptU32;
    Regroup([c], AckBytes(q.acks), OptBytes(q.remoteSessionId), OptU32(q.messageId), rest,
            OptBytes(p.remoteSessionId) + message);
    Assoc([c] + AckBytes(p.acks), OptBytes(p.remoteSessionId), message);
    assert |q.acks| % 256 == c;
    assert q.acks == [] ==> OptBytes(q.remoteSessionId) == [];
  }

  // ---------------------------------------------------------------- the imperative codec

  method PutAcks(buf: seq<byte>, acks: seq<u32>) returns (out: seq<byte>)
    ensures out == buf + AckBytes(acks)
  {
    hide PutU32;
    out := buf;
    for i := 0 to |acks|
      invariant out + AckBytes(acks[i..]) == buf + AckBytes(acks)
    {
      assert AckBytes(acks[i..]) == PutU32(acks[i]) + AckBytes(acks[i + 1..]) by {
        assert acks[i..][1..] == acks[i + 1..];
      }
      out := out + PutU32(acks[i]);
    }
  }

  method Serialize(p: Packet) returns (buf: seq<byte>)
    ensures buf == PacketBytes(p)
  {
    hide HeaderBytes, AckBytes, PutU32, PutU24;
    buf := HeaderBytes(p.header);
    match p {
      case Control(h, remote, acks, messageId, payload) =>
        buf := buf + [|acks| % 256];
        buf := PutAcks(buf, acks);
        if acks != [] && remote.Some? {
          buf := buf + remote.value;
        }
        assert buf == HeaderBytes(h) + AckBlock(acks, remote);
        if messageId.Some? {
          buf := buf + PutU32(messageId.value);
        }
        buf := buf + payload;
      case Data(h, peerId, payload) =>
        if peerId.Some? {
          buf := buf + PutU24(peerId.value % 0x100_0000);
        }
        buf := buf + payload;
    }
  }

  method ParseAcks(data: seq<byte>, start: nat, count: nat) returns (r: Result<(seq<u32>, nat), ProtocolError>)
    ensures r == ReadAcks(data, start, count)
  {
    hide GetU32;
    var acks: seq<u32>, offset: nat := [], start;
    ghost var all := ReadAcks(data, start, count);
    assert all.Ok? ==> [] + all.value.0 == all.value.0;
    for i := 0 to count
      invariant ReadAcks(data, start, count) == AfterAcks(acks, ReadAcks(data, offset, count - i))
    {
      if |data| < offset + 4 {
        return Err(PacketTooShort(offset + 4, |data|));
      }
      ghost var rest := ReadAcks(data, offset + 4, count - i - 1);
      var ack := GetU32(data[offset..offset + 4]);
      assert rest.Ok? ==> acks + ([ack] + rest.value.0) == acks + [ack] + rest.value.0;
      acks, offset := acks + [ack], offset + 4;
    }
    assert acks + [] == acks;
    return Ok((acks, offset));
  }

  /** The outcome of a read that continues after `acks` were already read. */
  ghost function AfterAcks(acks: seq<u32>, r: Result<(seq<u32>, nat), ProtocolError>)
    : Result<(seq<u32>, nat), ProtocolError>
  {
    if r.Ok? then Ok((acks + r.value.0, r.value.1)) else r
  }

  method Parse(data: seq<byte>, tlsAuth: bool) returns (r: Result<Packet, ProtocolError>)
    ensures r == ParsePacket(data, tlsAuth)
  {
    hide ParseHeader, ReadAcks, GetU32, GetU24;
    var parsed := ParseHeader(data, tlsAuth);
    if parsed.Err? {
      return Err(parsed.error);
    }
    var (header, offset) := parsed.value;
    if header.opcode.IsData() {
      return ParseBody(data, header, offset);
    }
    var remote: Option<SessionId>, acks := None, [];
    if |data| < offset + 1 {
      return Err(PacketTooShort(offset + 1, |data|));
    }
    var count := data[offset];
    if count > MAX_ACK_COUNT {
      return Err(TooManyAcks(count));
    }
    offset := offset + 1;
    if count > 0 {
      var read := ParseAcks(data, offset, count);
      if read.Err? {
        return Err(read.error);
      }
      acks, offset := read.value.0, read.value.1;
      if |data| < offset + 8 {
        return Err(PacketTooShort(offset + 8, |data|));
      }
      remote := Some(data[offset..offset + 8]);
      offset := offset + 8;
    }
    var messageId: Option<u32> := None;
    if header.opcode != AckV1 && |data| >= offset + 4 {
      messageId := Some(GetU32(data[offset..offset + 4]));
      offset := offset + 4;
    }
    var payload := if offset < |data| then data[offset..] else [];
    assert offset == |data| ==> data[offset..] == [];
    return Ok(Control(header, remote, acks, messageId, payload));
  }
}
