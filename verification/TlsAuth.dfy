/** tls-auth: the HMAC wrapping of control packets and the key directions.
    HMAC-SHA256 is the parameter `mac`, any function from key and message to 32 bytes. */
module TlsAuth {
  import opened Common
  import opened OpCodes
  import opened Packets

  type Mac = (Bytes32, seq<byte>) -> Bytes32
  type TaKey = s: seq<byte> | |s| == 256 witness seq(256, _ => 0)

  // ---------------------------------------------------------------- key directions

  datatype HmacAuth = HmacAuth(txKey: Bytes32, rxKey: Bytes32)

  function FromTaKey(ta: TaKey, isServer: bool, direction: Option<byte>): Result<HmacAuth, ProtocolError> {
    match (isServer, direction)
    case (true, Some(0)) => Ok(HmacAuth(ta[64..96], ta[192..224]))
    case (true, None) => Ok(HmacAuth(ta[64..96], ta[192..224]))
    case (true, Some(1)) => Ok(HmacAuth(ta[192..224], ta[64..96]))
    case (false, Some(1)) => Ok(HmacAuth(ta[192..224], ta[64..96]))
    case (false, None) => Ok(HmacAuth(ta[192..224], ta[64..96]))
    case (false, Some(0)) => Ok(HmacAuth(ta[64..96], ta[192..224]))
    case _ => Err(InvalidKeyDirection)
  }

  /** A server defaults to direction 0, a client to direction 1. */
  function EffectiveDirection(isServer: bool, direction: Option<byte>): byte {
    match direction
    case Some(d) => d
    case None => if isServer then 0 else 1
  }

  /** The 256 bytes are four parts of 64. In direction 0 an end sends with the first 32 bytes of the second
      part and receives with those of the fourth; in direction 1 the other way round. */
  lemma DirectionKeys(c0: seq<byte>, h0: seq<byte>, c1: seq<byte>, h1: seq<byte>, isServer: bool, direction: Option<byte>)
    requires |c0| == |h0| == |c1| == |h1| == 64
    ensures FromTaKey(c0 + h0 + c1 + h1, isServer, direction)
            == match direction
               case Some(0) => Ok(HmacAuth(h0[..32], h1[..32]))
               case Some(1) => Ok(HmacAuth(h1[..32], h0[..32]))
               case None => Ok(if isServer then HmacAuth(h0[..32], h1[..32]) else HmacAuth(h1[..32], h0[..32]))
               case _ => Err(InvalidKeyDirection)
  {
    var ta := c0 + h0 + c1 + h1;
    assert ta[64..96] == h0[..32] && ta[192..224] == h1[..32];
  }

  /** Two ends of one static key can talk to each other, both ways, exactly when their directions
      are complementary (or the two HMAC halves of the key happen to coincide). */
  lemma DirectionsAgreeIff(ta: TaKey, aServer: bool, aDir: Option<byte>, bServer: bool, bDir: Option<byte>)
    requires FromTaKey(ta, aServer, aDir).Ok? && FromTaKey(ta, bServer, bDir).Ok?
    ensures var a, b := FromTaKey(ta, aServer, aDir).value, FromTaKey(ta, bServer, bDir).value;
            (a.txKey == b.rxKey && a.rxKey == b.txKey)
            <==> EffectiveDirection(aServer, aDir) + EffectiveDirection(bServer, bDir) == 1
                 || ta[64..96] == ta[192..224]
  {
  }

  // ---------------------------------------------------------------- wrapping and verifying

  /** What the sender puts on the wire for the serialized packet `d`. */
  function Wrap(mac: Mac, txKey: Bytes32, d: seq<byte>, packetId: u32, timestamp: u32): seq<byte>
    requires |d| >= 9
  {
    var stamp := PutU32(packetId) + PutU32(timestamp);
    d[..9] + mac(txKey, stamp + d) + stamp + d[9..]
  }

  /** The check `process_packet` makes before parsing; `None` lets the packet through. */
  function HmacError(mac: Mac, rxKey: Bytes32, data: seq<byte>): Option<ProtocolError> {
    if data == [] then None
    else
      match OpCodeFromByte(data[0])
      case Err(e) => Some(e)
      case Ok(op) =>
        if !op.IsControl() then None
        else if |data| < 49 then Some(PacketTooShort(49, |data|))
        else
          var input := data[41..49] + data[..9] + data[49..];
          if mac(rxKey, input) == data[9..41] then None else Some(HmacVerificationFailed)
  }

  function Unwrap(data: seq<byte>): seq<byte>
    requires |data| >= 49
  {
    data[..9] + data[49..]
  }

  /** A control packet passes the check exactly when it is the wrapping, under the receive key, of
      some packet, packet id and timestamp, which are then those read off it. */
  lemma VerifiedIffWrapped(mac: Mac, key: Bytes32, data: seq<byte>)
    requires |data| >= 49 && OpCodeFromByte(data[0]).Ok? && OpCodeFromByte(data[0]).value.IsControl()
    ensures HmacError(mac, key, data).None?
            <==> data == Wrap(mac, key, Unwrap(data), GetU32(data[41..45]), GetU32(data[45..49]))
  {
    hide PutU32, GetU32;
    U32Bytes(data[41..45]);
    U32Bytes(data[45..49]);
    var stamp, d := data[41..45] + data[45..49], Unwrap(data);
    assert stamp == data[41..49];
    assert d[..9] == data[..9] && d[9..] == data[49..];
    assert data[41..49] + data[..9] + data[49..] == stamp + d;
    assert data == data[..9] + data[9..41] + stamp + data[49..];
    var w := d[..9] + mac(key, stamp + d) + stamp + d[9..];
    assert w[9..41] == mac(key, stamp + d);
  }

  /** The receiver reassembles exactly the bytes the sender authenticated, so with matching keys
      every wrapped control packet passes, and unwrapping gives the packet back. */
  lemma WrappedVerifies(mac: Mac, key: Bytes32, d: seq<byte>, packetId: u32, timestamp: u32)
    requires |d| >= 9 && OpCodeFromByte(d[0]).Ok? && OpCodeFromByte(d[0]).value.IsControl()
    ensures var w := Wrap(mac, key, d, packetId, timestamp);
            && |w| == |d| + 40
            && HmacError(mac, key, w).None?
            && Unwrap(w) == d
            && w[9..41] == mac(key, PutU32(packetId) + PutU32(timestamp) + d)
            && GetU32(w[41..45]) == packetId && GetU32(w[45..49]) == timestamp
  {
    hide PutU32, GetU32;
    var w := Wrap(mac, key, d, packetId, timestamp);
    var stamp := PutU32(packetId) + PutU32(timestamp);
    assert w[41..45] == PutU32(packetId) && w[45..49] == PutU32(timestamp);
    U32RoundTrip(packetId);
    U32RoundTrip(timestamp);
    assert w[..9] == d[..9] && w[49..] == d[9..];
    assert d == d[..9] + d[9..];
    assert w[41..49] + w[..9] + w[49..] == stamp + d;
  }

  // ---------------------------------------------------------------- parsing under tls-auth

  /** A parse error of the bare packet, as reported at the wrapped packet's offsets. */
  function ShiftError(e: ProtocolError): ProtocolError {
    match e
    case PacketTooShort(expected, got) => PacketTooShort(expected + 40, got + 40)
    case _ => e
  }

  function WithTlsFields(p: Packet, hmac: Bytes32, packetId: u32, timestamp: u32): Packet {
    p.(header := p.header.(hmac := Some(hmac), packetId := Some(packetId), timestamp := Some(timestamp)))
  }

  function WithTlsFieldsResult(r: Result<Packet, ProtocolError>, hmac: Bytes32, packetId: u32, timestamp: u32)
    : Result<Packet, ProtocolError>
  {
    match r
    case Ok(p) => Ok(WithTlsFields(p, hmac, packetId, timestamp))
    case Err(e) => Err(ShiftError(e))
  }

  /** The bytes after the session id are the same, forty places further on. */
  lemma SliceShift(d: seq<byte>, w: seq<byte>, a: nat, b: nat)
    requires 9 <= a <= b <= |d| && |w| == |d| + 40 && w[49..] == d[9..]
    ensures w[a + 40..b + 40] == d[a..b]
  {
    forall i | 0 <= i < b - a
      ensures w[a + 40..b + 40][i] == d[a..b][i]
    {
      assert w[a + 40 + i] == w[49..][a - 9 + i];
      assert d[a + i] == d[9..][a - 9 + i];
    }
  }

  lemma {:induction false} ReadAcksShift(d: seq<byte>, w: seq<byte>, offset: nat, count: nat)
    requires 9 <= offset && |w| == |d| + 40 >= 49 && w[49..] == d[9..]
    ensures ReadAcks(w, offset + 40, count) ==
            match ReadAcks(d, offset, count)
            case Ok((acks, end)) => Ok((acks, end + 40))
            case Err(e) => Err(ShiftError(e))
    decreases count
  {
    hide GetU32;
    if count > 0 && |d| >= offset + 4 {
      ReadAcksShift(d, w, offset + 4, count - 1);
      SliceShift(d, w, offset, offset + 4);
    }
  }

  lemma ParseBodyShift(d: seq<byte>, w: seq<byte>, h: Header, h': Header)
    requires |w| == |d| + 40 >= 49 && w[49..] == d[9..]
    requires h.opcode.IsControl() && h'.opcode == h.opcode
    ensures ParseBody(w, h', 49) ==
            match ParseBody(d, h, 9)
            case Ok(p) => Ok(p.(header := h'))
            case Err(e) => Err(ShiftError(e))
  {
    hide GetU32, ReadMessage;
    ReadAckBlockShift(d, w);
    if ReadAckBlock(d, 9).Ok? {
      ReadAckBlockBytes(d, 9);
      ReadMessageShift(h.opcode, d, w, ReadAckBlock(d, 9).value.2);
    }
  }

  lemma ReadAckBlockShift(d: seq<byte>, w: seq<byte>)
    requires |w| == |d| + 40 >= 49 && w[49..] == d[9..]
    ensures ReadAckBlock(w, 49) ==
            match ReadAckBlock(d, 9)
            case Ok((acks, remote, end)) => Ok((acks, remote, end + 40))
            case Err(e) => Err(ShiftError(e))
  {
    hide ReadAcks;
    if |d| >= 10 {
      assert w[49] == w[49..][0] == d[9..][0] == d[9];
      ReadAcksShift(d, w, 10, d[9]);
      var r := ReadAcks(d, 10, d[9]);
      if r.Ok? && |d| >= r.value.1 + 8 {
        ReadAcksBytes(d, 10, d[9]);
        var end := r.value.1;
        SliceShift(d, w, end, end + 8);
      }
    }
  }

  lemma ReadMessageShift(op: OpCode, d: seq<byte>, w: seq<byte>, end: nat)
    requires |w| == |d| + 40 >= 49 && w[49..] == d[9..] && 9 <= end <= |d|
    ensures ReadMessage(op, w, end + 40) == ReadMessage(op, d, end)
  {
    hide GetU32;
    SliceShift(d, w, end, |d|);
    assert w[end + 40..] == w[end + 40..|d| + 40] && d[end..] == d[end..|d|];
    if |d| >= end + 4 {
      SliceShift(d, w, end, end + 4);
      SliceShift(d, w, end + 4, |d|);
      assert w[end + 44..] == w[end + 44..|d| + 40] && d[end + 4..] == d[end + 4..|d|];
    }
  }

  /** Parsing the wire form with tls-auth is parsing the bare packet without it, plus the three
      tls-auth fields; errors are the same errors, forty bytes later. */
  lemma ParseWrapped(mac: Mac, key: Bytes32, d: seq<byte>, packetId: u32, timestamp: u32)
    requires |d| >= 9 && OpCodeFromByte(d[0]).Ok? && OpCodeFromByte(d[0]).value.IsControl()
    ensures var w := Wrap(mac, key, d, packetId, timestamp);
            ParsePacket(w, true)
            == WithTlsFieldsResult(ParsePacket(d, false),
                                   mac(key, PutU32(packetId) + PutU32(timestamp) + d), packetId, timestamp)
  {
    var w := Wrap(mac, key, d, packetId, timestamp);
    WrappedVerifies(mac, key, d, packetId, timestamp);
    WrappedHeader(d, w);
    var (h, n) := ParseHeader(d, false).value;
    var (h', n') := ParseHeader(w, true).value;
    hide PutU32, GetU32, Wrap, ParseHeader, ParseBody;
    UnwrapTail(w, d);
    ParseBodyShift(d, w, h, h');
    if ParseBody(d, h, n).Ok? {
      ParsedControlBody(d, h, n);
    }
  }

  lemma UnwrapTail(w: seq<byte>, d: seq<byte>)
    requires |w| >= 49 && Unwrap(w) == d
    ensures w[..9] == d[..9] && w[49..] == d[9..]
  {
  }

  lemma WrappedHeader(d: seq<byte>, w: seq<byte>)
    requires |w| >= 49 && Unwrap(w) == d
    requires OpCodeFromByte(d[0]).Ok? && OpCodeFromByte(d[0]).value.IsControl()
    ensures ParseHeader(d, false).Ok? && ParseHeader(w, true).Ok?
    ensures var (h, n) := ParseHeader(d, false).value;
            n == 9 && h.opcode.IsControl()
            && ParseHeader(w, true) == Ok((h.(hmac := Some(w[9..41]), packetId := Some(GetU32(w[41..45])),
                                              timestamp := Some(GetU32(w[45..49]))), 49))
  {
    hide GetU32;
    assert w[0] == w[..9][0] == d[..9][0];
    assert w[1..9] == d[1..9];
  }

  // ---------------------------------------------------------------- the receiving end

  /** The HMAC check followed by the parse, as `process_packet` runs them. */
  function Receive(mac: Mac, rxKey: Bytes32, data: seq<byte>): Result<Packet, ProtocolError> {
    match HmacError(mac, rxKey, data)
    case Some(e) => Err(e)
    case None => ParsePacket(data, true)
  }

  /** With tls-auth no control packet shorter than the wrapping is looked at. */
  lemma ShortRejected(mac: Mac, rxKey: Bytes32, data: seq<byte>)
    requires data != [] && |data| < 49 && OpCodeFromByte(data[0]).Ok? && OpCodeFromByte(data[0]).value.IsControl()
    ensures Receive(mac, rxKey, data) == Err(PacketTooShort(49, |data|))
  {
  }

  /** Every control packet a session emits with at most 16 acks, wrapped by one end and received by
      the other end of the same static key, arrives as that packet with the tls-auth fields. */
  lemma EmittedIsReceived(mac: Mac, ta: TaKey, aServer: bool, aDir: Option<byte>, bServer: bool, bDir: Option<byte>,
                          p: Packet, packetId: u32, timestamp: u32)
    requires FromTaKey(ta, aServer, aDir).Ok? && FromTaKey(ta, bServer, bDir).Ok?
    requires EffectiveDirection(aServer, aDir) + EffectiveDirection(bServer, bDir) == 1
    requires Emitted(p, false) && |p.acks| <= MAX_ACK_COUNT && (p.acks != [] ==> p.remoteSessionId.Some?)
    ensures var a, b := FromTaKey(ta, aServer, aDir).value, FromTaKey(ta, bServer, bDir).value;
            var d := PacketBytes(p);
            && |d| >= 9
            && Receive(mac, b.rxKey, Wrap(mac, a.txKey, d, packetId, timestamp))
               == Ok(WithTlsFields(OnWire(p), mac(a.txKey, PutU32(packetId) + PutU32(timestamp) + d),
                                   packetId, timestamp))
  {
    DirectionsAgreeIff(ta, aServer, aDir, bServer, bDir);
    EmittedBytes(p);
    hide PutU32, PacketBytes, Wrap, ParsePacket, FromTaKey, HmacError;
    var a := FromTaKey(ta, aServer, aDir).value;
    EmittedSurvivesIff(p, false);
    WrappedVerifies(mac, a.txKey, PacketBytes(p), packetId, timestamp);
    ParseWrapped(mac, a.txKey, PacketBytes(p), packetId, timestamp);
  }

  lemma EmittedBytes(p: Packet)
    requires Emitted(p, false)
    ensures |PacketBytes(p)| >= 10 && OpCodeFromByte(PacketBytes(p)[0]) == Ok(p.header.opcode)
  {
    OpCodeByteIff(PacketBytes(p)[0], p.header.opcode, p.header.keyId);
  }
}
