/** One end of a connection as a value: what each operation of the protocol session does to it. */
module SessionSteps {
  import opened Common
  import opened OpCodes
  import opened Packets
  import opened TlsAuth
  import opened ReplayProtection
  import opened Reliable
  import opened Reassembly
  import opened Chunking
  import opened PacketCiphers
  import opened KeyDerivation
  import opened DataChannels

  datatype ProtocolState = Initial | TlsHandshake | KeyExchange | Authenticating | Established | Rekeying | Terminated

  datatype Session = Session(
    localId: SessionId,
    remoteId: Option<SessionId>,
    state: ProtocolState,
    keyId: KeyId,
    sender: Sender,
    receiver: Receiver,
    buffer: seq<byte>,
    channels: map<KeyId, Channel>,
    peerId: Option<u32>,
    auth: Option<HmacAuth>,
    arrivals: seq<nat>,
    stamp: u32)

  /** The foreign functions a session calls. */
  datatype Env = Env(mac: Mac, aead: Aead)

  datatype Processed =
    | Nothing
    | HardReset(sessionId: SessionId)
    | HardResetAck
    | TlsData(records: seq<seq<byte>>)
    | DataOut(plain: seq<byte>)
    | SoftReset

  function NewSession(localId: SessionId, auth: Option<HmacAuth>): Session {
    Session(localId, None, Initial, 0, NEW_SENDER, NEW_RECEIVER, [], map[], None, auth, [], 1)
  }

  // ---------------------------------------------------------------- incoming packets

  /** The HMAC check, when tls-auth is on, and the parse. */
  function Decode(env: Env, s: Session, data: seq<byte>): Result<Packet, ProtocolError> {
    match s.auth
    case Some(keys) => Receive(env.mac, keys.rxKey, data)
    case None => ParsePacket(data, false)
  }

  /** The tls-auth replay check; without tls-auth everything is admitted. */
  function CheckReplay(s: Session, p: Packet): (bool, Session) {
    if s.auth.Some? && p.header.packetId.Some? then
      (Admits(TLS_AUTH_WINDOW, s.arrivals, p.header.packetId.value),
       s.(arrivals := s.arrivals + [p.header.packetId.value]))
    else (true, s)
  }

  /** A hard reset packet: its message id goes through the reliable transport with no payload. */
  function AcceptReset(s: Session, p: Packet, outcome: Processed): (Result<Processed, ProtocolError>, Session)
    requires p.Control?
  {
    var s1 := if p.header.sessionId.Some? then s.(remoteId := p.header.sessionId) else s;
    if p.messageId.None? then (Ok(outcome), s1.(state := TlsHandshake))
    else
      var (r, receiver') := ReceiveStep(s1.receiver, p.messageId.value, []);
      if r.Err? then (Err(r.error), s1.(receiver := receiver'))
      else (Ok(outcome), s1.(receiver := receiver', state := TlsHandshake))
  }

  /** A TLS payload: delivered in order, it is added to the buffer and complete records come out. */
  function AcceptTls(s: Session, p: Packet): (Result<Processed, ProtocolError>, Session)
    requires p.Control?
  {
    if p.messageId.None? then (Ok(Nothing), s)
    else
      var (r, receiver') := ReceiveStep(s.receiver, p.messageId.value, p.payload);
      var s1 := s.(receiver := receiver');
      if r.Err? then (Err(r.error), s1)
      else if r.value.None? then (Ok(Nothing), s1)
      else
        match FeedOne(MAX_BUFFER, s.buffer, r.value.value)
        case Err(e) => (Err(e), s1)
        case Ok((records, left)) =>
          (Ok(if records == [] then Nothing else TlsData(records)), s1.(buffer := left))
  }

  const ZERO_ID: SessionId := [0, 0, 0, 0, 0, 0, 0, 0]

  function Dispatch(s: Session, p: Packet): (Result<Processed, ProtocolError>, Session)
    requires p.Control?
  {
    match p.header.opcode
    case HardResetClientV2 =>
      if p.header.sessionId == Some(ZERO_ID) then (Err(InvalidSessionId), s)
      else AcceptReset(s, p, HardReset(s.localId))
    case HardResetClientV3 =>
      if p.header.sessionId == Some(ZERO_ID) then (Err(InvalidSessionId), s)
      else AcceptReset(s, p, HardReset(s.localId))
    case HardResetServerV2 => AcceptReset(s, p, HardResetAck)
    case ControlV1 => AcceptTls(s, p)
    case AckV1 => (Ok(Nothing), s)
    case SoftResetV1 => (Ok(SoftReset), s.(state := Rekeying))
    case _ => (Err(UnknownOpcode(p.header.opcode.Code())), s)
  }

  function TakeAcks(s: Session, now: real, acks: seq<u32>): Session {
    if acks == [] then s else s.(sender := AckStep(s.sender, now, acks))
  }

  function ProcessControl(s: Session, now: real, p: Packet): (Result<Processed, ProtocolError>, Session)
    requires p.Control?
  {
    var (admitted, s1) := CheckReplay(s, p);
    if !admitted then (Err(ReplayDetected), s1) else Dispatch(TakeAcks(s1, now, p.acks), p)
  }

  ghost function ProcessData(env: Env, s: Session, p: Packet): (Result<Processed, ProtocolError>, Session)
    requires p.Data?
  {
    var k := p.header.keyId;
    if k !in s.channels then (Err(KeyNotAvailable(k)), s)
    else
      var (r, ch') := ChannelDecrypt(env.aead, s.channels[k], DataPacket(k, p.peerId, p.payload));
      (match r case Ok(plain) => Ok(DataOut(plain)) case Err(e) => Err(e), s.(channels := s.channels[k := ch']))
  }

  ghost function ProcessPacket(env: Env, s: Session, now: real, data: seq<byte>)
    : (Result<Processed, ProtocolError>, Session)
  {
    match Decode(env, s, data)
    case Err(e) => (Err(e), s)
    case Ok(p) => if p.Control? then ProcessControl(s, now, p) else ProcessData(env, s, p)
  }

  // ---------------------------------------------------------------- outgoing packets

  /** A packet as the session builds it; the hard reset response always has key id 0. */
  function ControlPacket(s: Session, opcode: OpCode, acks: seq<u32>, id: Option<u32>, payload: seq<byte>): Packet {
    var keyId := if opcode == HardResetServerV2 then 0 else s.keyId;
    Control(Header(opcode, keyId, Some(s.localId), None, None, None), s.remoteId, acks, id, payload)
  }

  /** The bytes sent for a packet, wrapped and stamped when tls-auth is on. */
  function Emit(env: Env, s: Session, timestamp: u32, p: Packet): (seq<byte>, Session) {
    var d := PacketBytes(p);
    if s.auth.None? || |d| < 9 then (d, s)
    else (Wrap(env.mac, s.auth.value.txKey, d, s.stamp, timestamp), s.(stamp := Wrapping(s.stamp + 1)))
  }

  /** Queue a payload under the next id and emit it in a packet that carries all pending acks. */
  function SendControl(env: Env, s: Session, now: real, timestamp: u32, opcode: OpCode, payload: seq<byte>)
    : (Result<seq<byte>, ProtocolError>, Session)
  {
    var (r, sender') := SendStep(DEFAULT_CONFIG, s.sender, now, payload);
    if r.Err? then (Err(r.error), s.(sender := sender'))
    else
      var s1 := s.(sender := sender', receiver := s.receiver.(pendingAcks := []));
      var (wire, s2) := Emit(env, s1, timestamp, ControlPacket(s, opcode, s.receiver.pendingAcks, Some(r.value), payload));
      (Ok(wire), s2)
  }

  /** One packet per chunk, stopping at the first error. */
  function SendChunks(env: Env, s: Session, now: real, timestamp: u32, chunks: seq<seq<byte>>)
    : (Result<seq<seq<byte>>, ProtocolError>, Session)
    decreases |chunks|
  {
    if chunks == [] then (Ok([]), s)
    else
      var (r, s1) := SendControl(env, s, now, timestamp, ControlV1, chunks[0]);
      if r.Err? then (Err(r.error), s1)
      else
        var (rest, s2) := SendChunks(env, s1, now, timestamp, chunks[1..]);
        (match rest case Ok(wires) => Ok([r.value] + wires) case Err(e) => Err(e), s2)
  }

  /** The hard reset of a client carries no acks and leaves the pending ones queued. */
  function SendClientReset(env: Env, s: Session, now: real, timestamp: u32)
    : (Result<seq<byte>, ProtocolError>, Session)
  {
    var (r, sender') := SendStep(DEFAULT_CONFIG, s.sender, now, []);
    if r.Err? then (Err(r.error), s.(sender := sender'))
    else
      var p := Control(Header(HardResetClientV2, 0, Some(s.localId), None, None, None), None, [], Some(r.value), []);
      var (wire, s') := Emit(env, s.(sender := sender'), timestamp, p);
      (Ok(wire), s')
  }

  /** A packet of nothing but the pending acks, if there are any. */
  function SendAcks(env: Env, s: Session, timestamp: u32): (Option<seq<byte>>, Session) {
    if s.receiver.pendingAcks == [] then (None, s)
    else
      var s1 := s.(receiver := s.receiver.(pendingAcks := []));
      var (wire, s2) := Emit(env, s1, timestamp, ControlPacket(s, AckV1, s.receiver.pendingAcks, None, []));
      (Some(wire), s2)
  }

  /** Retransmissions are rebuilt as P_CONTROL_V1 without acks, whatever the first copy was. */
  function EmitResends(env: Env, s: Session, timestamp: u32, list: seq<(u32, seq<byte>)>): (seq<seq<byte>>, Session)
    decreases |list|
  {
    if list == [] then ([], s)
    else
      var (wire, s1) := Emit(env, s, timestamp, ControlPacket(s, ControlV1, [], Some(list[0].0), list[0].1));
      var (rest, s2) := EmitResends(env, s1, timestamp, list[1..]);
      ([wire] + rest, s2)
  }

  // ---------------------------------------------------------------- keys and data

  function InstallKeys(s: Session, km: KeyMaterial, isServer: bool): Session {
    var (encKey, decKey) := if isServer then (ServerDataKey(km), ClientDataKey(km))
                            else (ClientDataKey(km), ServerDataKey(km));
    s.(channels := s.channels[s.keyId := NewChannel(s.keyId, encKey, decKey, s.peerId.Some?, s.peerId)])
  }

  ghost function EncryptData(env: Env, s: Session, plain: seq<byte>): (Result<seq<byte>, ProtocolError>, Session)
    requires Correct(env.aead)
  {
    if s.keyId !in s.channels then (Err(KeyNotAvailable(s.keyId)), s)
    else
      var (r, ch') := ChannelEncrypt(env.aead, s.channels[s.keyId], plain);
      (match r case Ok(p) => Ok(DataBytes(p)) case Err(e) => Err(e), s.(channels := s.channels[s.keyId := ch']))
  }

  /** The next key id, with a fresh tls-auth replay window. */
  function RotateKey(s: Session): Session {
    s.(keyId := NextKeyId(s.keyId), arrivals := [])
  }
}
