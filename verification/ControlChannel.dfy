/** Two sessions talking over a network that may lose, duplicate, delay and reorder packets: the
    invariant of every run, and the stream theorem. */
module ControlChannel {
  import opened Common
  import opened OpCodes
  import opened Packets
  import opened TlsAuth
  import opened ReplayProtection
  import opened Reliable
  import opened Reassembly
  import opened Chunking
  import opened SessionSteps
  import SendRuns
  import ReceiveRuns

  /** One end: its session, every wire packet it ever sent that the peer cannot misread, the history of
      its transport's two halves and the TLS records it extracted. */
  datatype End = End(
    s: Session,
    out: seq<seq<byte>>,
    sendOps: seq<SendRuns.Op>,
    recvOps: seq<ReceiveRuns.Op>,
    records: seq<seq<byte>>)

  function NewEnd(localId: SessionId, auth: Option<HmacAuth>): End {
    End(NewSession(localId, auth), [], [], [], [])
  }

  datatype Action =
    | SendPacket(now: real, timestamp: u32, opcode: OpCode, payload: seq<byte>)
    | ClientReset(now: real, timestamp: u32)
    | AckPacket(timestamp: u32)
    | Resend(now: real, timestamp: u32, list: seq<(u32, seq<byte>)>)
    | Deliver(now: real, data: seq<byte>)
    | Rotate

  // ---------------------------------------------------------------- what a delivery does

  /** The control packet that gets past decoding and the replay check, if there is one. */
  function Admitted(env: Env, s: Session, data: seq<byte>): Option<Packet> {
    match Decode(env, s, data)
    case Err(_) => None
    case Ok(p) => if p.Control? && CheckReplay(s, p).0 then Some(p) else None
  }

  predicate IsReset(p: Packet)
    requires p.Control?
  {
    p.header.opcode in {HardResetClientV2, HardResetClientV3, HardResetServerV2}
  }

  /** What a packet hands to the receiving half of the transport. */
  function Arrival(p: Packet): seq<ReceiveRuns.Op>
    requires p.Control?
  {
    if p.messageId.None? then []
    else if p.header.opcode == ControlV1 then [ReceiveRuns.Arrive(p.messageId.value, p.payload)]
    else if IsReset(p) && (p.header.opcode == HardResetServerV2 || p.header.sessionId != Some(ZERO_ID)) then
      [ReceiveRuns.Arrive(p.messageId.value, [])]
    else []
  }

  /** What a packet hands to the sending half. */
  function Acknowledged(p: Packet, now: real): seq<SendRuns.Op>
    requires p.Control?
  {
    if p.acks == [] then [] else [SendRuns.GotAcks(now, p.acks)]
  }

  function RecordsOf(r: Result<Processed, ProtocolError>): seq<seq<byte>> {
    if r.Ok? && r.value.TlsData? then r.value.records else []
  }

  // ---------------------------------------------------------------- one action of one end

  ghost function Act(env: Env, e: End, action: Action): End {
    match action
    case SendPacket(now, timestamp, opcode, payload) => AfterSend(env, e, now, timestamp, opcode, payload)
    case ClientReset(now, timestamp) =>
      var (r, s') := SendClientReset(env, e.s, now, timestamp);
      e.(s := s', out := if r.Ok? then e.out + [r.value] else e.out,
         sendOps := e.sendOps + [SendRuns.Send(now, [])])
    case AckPacket(timestamp) =>
      var (r, s') := SendAcks(env, e.s, timestamp);
      e.(s := s', out := if r.Some? then e.out + [r.value] else e.out,
         recvOps := if r.Some? then e.recvOps + [ReceiveRuns.TakeAcks] else e.recvOps)
    case Resend(now, timestamp, list) =>
      var bumped := e.s.(sender := RetransmitStep(DEFAULT_CONFIG, e.s.sender, now));
      var (wires, s') := EmitResends(env, bumped, timestamp, list);
      e.(s := s', out := e.out + wires, sendOps := e.sendOps + [SendRuns.Retransmit(now)])
    case Deliver(now, data) => AfterDelivery(env, e, now, data)
    case Rotate => e.(s := RotateKey(e.s))
  }

  ghost function AfterSend(env: Env, e: End, now: real, timestamp: u32, opcode: OpCode, payload: seq<byte>): End {
    var (r, s') := SendControl(env, e.s, now, timestamp, opcode, payload);
    End(s', if r.Ok? && CanCarryAcks(e.s, payload) then e.out + [r.value] else e.out,
        e.sendOps + [SendRuns.Send(now, payload)],
        if r.Ok? then e.recvOps + [ReceiveRuns.TakeAcks] else e.recvOps,
        e.records)
  }

  ghost function AfterDelivery(env: Env, e: End, now: real, data: seq<byte>): End {
    var (r, s') := ProcessPacket(env, e.s, now, data);
    var p := Admitted(env, e.s, data);
    End(s', e.out,
        if p.Some? then e.sendOps + Acknowledged(p.value, now) else e.sendOps,
        if p.Some? then e.recvOps + Arrival(p.value) else e.recvOps,
        e.records + RecordsOf(r))
  }

  /** What the code that calls a session guarantees: payloads of at most 1100 bytes, hard resets
      empty, resends exactly those due. */
  ghost predicate Enabled(e: End, action: Action) {
    match action
    case SendPacket(_, _, opcode, payload) =>
      && (opcode == ControlV1 || (opcode == HardResetServerV2 && payload == []))
      && |payload| <= MAX_CONTROL_PAYLOAD
    case ClientReset(_, _) => true
    case AckPacket(_) => true
    case Resend(now, _, list) => IsRetransmitList(DEFAULT_CONFIG, e.s.sender.pending, now, list)
    case Deliver(_, _) => true
    case Rotate => true
  }

  /** The acks queued now cannot make the peer misread a packet with this payload. */
  predicate CanCarryAcks(s: Session, payload: seq<byte>) {
    NotMisread(ControlPacket(s, ControlV1, s.receiver.pendingAcks, Some(0), payload))
  }

  // ---------------------------------------------------------------- the invariant of one direction

  function Sent(e: End): seq<seq<byte>> {
    SendRuns.Run(DEFAULT_CONFIG, e.sendOps).sent
  }

  function Received(e: End): ReceiveRuns.History {
    ReceiveRuns.Run(e.recvOps)
  }

  /** The two ends' tls-auth keys belong together, or neither uses tls-auth. */
  predicate KeysAgree(x: Session, y: Session) {
    match (x.auth, y.auth)
    case (None, None) => true
    case (Some(a), Some(b)) => a.txKey == b.rxKey
    case _ => false
  }

  /** A packet that carries what was sent under its message id. */
  predicate Genuine(p: Packet, sent: seq<seq<byte>>) {
    && p.Control?
    && (p.messageId.Some? ==>
          && p.messageId.value < |sent| && p.payload == sent[p.messageId.value]
          && (p.header.opcode == ControlV1 || p.payload == []))
  }

  /** At the other end a wire packet is rejected or is genuine. */
  predicate GenuineWire(env: Env, y: Session, wire: seq<byte>, sent: seq<seq<byte>>) {
    var d := Decode(env, y, wire);
    d.Ok? ==> Genuine(d.value, sent)
  }

  ghost predicate HalvesTracked(e: End) {
    && e.s.sender == SendRuns.Run(DEFAULT_CONFIG, e.sendOps).s
    && e.s.receiver == Received(e).r
  }

  /** Everything on its way from `x` is genuine, and everything that arrived at `y` was. */
  ghost predicate Flow(env: Env, x: End, y: End) {
    && KeysAgree(x.s, y.s)
    && (forall wire | wire in x.out :: GenuineWire(env, y.s, wire, Sent(x)))
    && ReceiveRuns.Authentic(y.recvOps, Sent(x))
    && (forall i | 0 <= i < |Sent(x)| :: |Sent(x)[i]| <= MAX_CONTROL_PAYLOAD)
  }

  // ---------------------------------------------------------------- emitted packets are genuine

  lemma EmitKeeps(env: Env, s: Session, timestamp: u32, p: Packet)
    ensures Emit(env, s, timestamp, p).1 == s.(stamp := Emit(env, s, timestamp, p).1.stamp)
  {
    hide PacketBytes, Wrap;
  }

  /** Whatever the acks, a pure ack carries no message. */
  lemma AckHasNoMessage(p: Packet)
    requires Emitted(p, false) && p.header.opcode == AckV1
    ensures var r := ParsePacket(PacketBytes(p), false);
            r.Ok? ==> r.value.Control? && r.value.messageId.None?
  {
    hide HeaderBytes, AckBlock, ReadAckBlock, ParseHeader, OptU32;
    HeaderBytesParse(p.header, AckBlock(p.acks, p.remoteSessionId) + (OptU32(p.messageId) + p.payload), false);
    hide PacketBytes;
  }

  lemma DecodedBare(p: Packet, sent: seq<seq<byte>>)
    requires Emitted(p, false) && Genuine(p, sent) && (p.header.opcode == AckV1 || NotMisread(p))
    ensures var r := ParsePacket(PacketBytes(p), false); r.Ok? ==> Genuine(r.value, sent)
  {
    hide PacketBytes, ParsePacket, NotMisread;
    if p.header.opcode == AckV1 {
      AckHasNoMessage(p);
    } else {
      RejectedOrReadIff(p, false);
    }
  }

  /** What one session emits, the other rejects or reads as the same message, unless its acks make it one
      that can be misread, which Packets.RejectedOrReadIff says exactly; a pure ack carries no message either
      way. */
  lemma EmitGenuine(env: Env, x: Session, y: Session, timestamp: u32, p: Packet, sent: seq<seq<byte>>)
    requires KeysAgree(x, y) && Genuine(p, sent)
    requires Emitted(p, false) && (p.header.opcode == AckV1 || NotMisread(p))
    ensures GenuineWire(env, y, Emit(env, x, timestamp, p).0, sent)
  {
    var d := PacketBytes(p);
    EmittedBytes(p);
    DecodedBare(p, sent);
    if x.auth.Some? {
      var key := x.auth.value.txKey;
      WrappedVerifies(env.mac, key, d, x.stamp, timestamp);
      ParseWrapped(env.mac, key, d, x.stamp, timestamp);
    }
    hide PacketBytes, ParsePacket, Wrap, HmacError, PutU32, GetU32, Unwrap, WellFormedHeader, NotMisread;
  }

  lemma GenuineGrows(env: Env, y: Session, wire: seq<byte>, sent: seq<seq<byte>>, sent': seq<seq<byte>>)
    requires sent <= sent' && GenuineWire(env, y, wire, sent)
    ensures GenuineWire(env, y, wire, sent')
  {
    hide Decode;
  }

  lemma GenuineSameKeys(env: Env, y: Session, y': Session, wire: seq<byte>, sent: seq<seq<byte>>)
    requires y'.auth == y.auth && GenuineWire(env, y, wire, sent)
    ensures GenuineWire(env, y', wire, sent)
  {
    hide Receive, ParsePacket, Genuine;
  }

  // ---------------------------------------------------------------- the effect of a delivery

  ghost predicate Fed(buffer: seq<byte>, chunk: seq<byte>, records: seq<seq<byte>>, buffer': seq<byte>) {
    match FeedOne(MAX_BUFFER, buffer, chunk)
    case Ok((rs, left)) => records == rs && buffer' == left
    case Err(_) => records == [] && buffer' == buffer
  }

  /** What an admitted packet does to the receiving half, the buffer and the extracted records. */
  ghost predicate ReceiveEffect(s: Session, p: Packet, r: Result<Processed, ProtocolError>, s': Session)
    requires p.Control?
  {
    if Arrival(p) == [] then s'.receiver == s.receiver && s'.buffer == s.buffer && RecordsOf(r) == []
    else
      var op := Arrival(p)[0];
      var (up, receiver') := ReceiveStep(s.receiver, op.id, op.data);
      && s'.receiver == receiver'
      && if p.header.opcode == ControlV1 && up.Ok? && up.value.Some?
         then Fed(s.buffer, up.value.value, RecordsOf(r), s'.buffer)
         else s'.buffer == s.buffer && RecordsOf(r) == []
  }

  lemma ResetEffect(s: Session, p: Packet, outcome: Processed)
    requires p.Control? && IsReset(p) && !outcome.TlsData?
    requires p.header.opcode == HardResetServerV2 || p.header.sessionId != Some(ZERO_ID)
    ensures var (r, s') := AcceptReset(s, p, outcome);
            s'.auth == s.auth && s'.sender == s.sender && ReceiveEffect(s, p, r, s')
  {
    hide ReceiveStep;
  }

  lemma TlsEffect(s: Session, p: Packet)
    requires p.Control? && p.header.opcode == ControlV1
    ensures var (r, s') := AcceptTls(s, p);
            s'.auth == s.auth && s'.sender == s.sender && ReceiveEffect(s, p, r, s')
  {
    hide ReceiveStep, Cut;
    if p.messageId.Some? {
      var (up, _) := ReceiveStep(s.receiver, p.messageId.value, p.payload);
      if up.Ok? && up.value.Some? {
        var fed := FeedOne(MAX_BUFFER, s.buffer, up.value.value);
        assert fed.Ok? ==> fed.value == (fed.value.0, fed.value.1);
      }
    }
  }

  lemma DispatchEffect(s: Session, p: Packet)
    requires p.Control?
    ensures var (r, s') := Dispatch(s, p);
            s'.auth == s.auth && s'.sender == s.sender && ReceiveEffect(s, p, r, s')
  {
    hide AcceptReset, AcceptTls, ReceiveStep;
    match p.header.opcode {
      case ControlV1 => TlsEffect(s, p);
      case HardResetServerV2 => ResetEffect(s, p, HardResetAck);
      case _ =>
        if IsReset(p) && p.header.sessionId != Some(ZERO_ID) {
          ResetEffect(s, p, HardReset(s.localId));
        }
    }
  }

  lemma ProcessEffect(env: Env, s: Session, now: real, data: seq<byte>)
    ensures var (r, s') := ProcessPacket(env, s, now, data);
            var p := Admitted(env, s, data);
            && s'.auth == s.auth
            && (p.None? ==> s'.sender == s.sender && s'.receiver == s.receiver && s'.buffer == s.buffer
                            && RecordsOf(r) == [])
            && (p.Some? ==> s'.sender == TakeAcks(s, now, p.value.acks).sender && ReceiveEffect(s, p.value, r, s'))
  {
    hide Decode, Admits, AckStep, ReceiveEffect, Dispatch;
    var p := Admitted(env, s, data);
    if p.Some? {
      var s1 := TakeAcks(CheckReplay(s, p.value).1, now, p.value.acks);
      DispatchEffect(s1, p.value);
      SameReceiver(s, s1, p.value, Dispatch(s1, p.value).0, Dispatch(s1, p.value).1);
    }
  }

  lemma SameReceiver(s: Session, s1: Session, p: Packet, r: Result<Processed, ProtocolError>, s': Session)
    requires p.Control? && s1.receiver == s.receiver && s1.buffer == s.buffer && ReceiveEffect(s1, p, r, s')
    ensures ReceiveEffect(s, p, r, s')
  {
    hide ReceiveStep, Arrival, Fed;
  }

  // ---------------------------------------------------------------- the halves follow their histories

  lemma SendSnoc(e: End, e': End, op: SendRuns.Op)
    requires e'.sendOps == e.sendOps + [op]
    ensures SendRuns.Run(DEFAULT_CONFIG, e'.sendOps)
            == SendRuns.Step(DEFAULT_CONFIG, SendRuns.Run(DEFAULT_CONFIG, e.sendOps), op)
  {
    hide SendRuns.Step;
    assert e'.sendOps[..|e.sendOps|] == e.sendOps;
  }

  lemma RecvSnoc(e: End, e': End, op: ReceiveRuns.Op)
    requires e'.recvOps == e.recvOps + [op]
    ensures Received(e') == ReceiveRuns.Step(Received(e), op)
  {
    hide ReceiveRuns.Step;
    assert e'.recvOps[..|e.recvOps|] == e.recvOps;
  }

  lemma TrackSend(env: Env, e: End, now: real, timestamp: u32, opcode: OpCode, payload: seq<byte>)
    requires HalvesTracked(e)
    ensures HalvesTracked(Act(env, e, SendPacket(now, timestamp, opcode, payload)))
  {
    var e' := Act(env, e, SendPacket(now, timestamp, opcode, payload));
    SendSnoc(e, e', SendRuns.Send(now, payload));
    var (r, sender') := SendStep(DEFAULT_CONFIG, e.s.sender, now, payload);
    hide SendStep, Emit, SendRuns.Run, ReceiveRuns.Run;
    if r.Ok? {
      RecvSnoc(e, e', ReceiveRuns.TakeAcks);
      var s1 := e.s.(sender := sender', receiver := e.s.receiver.(pendingAcks := []));
      EmitKeeps(env, s1, timestamp, ControlPacket(e.s, opcode, e.s.receiver.pendingAcks, Some(r.value), payload));
    } else {
      SendFullUnchanged(e.s.sender, now, payload);
    }
  }

  lemma SendFullUnchanged(s: Sender, now: real, data: seq<byte>)
    ensures SendStep(DEFAULT_CONFIG, s, now, data).0.Err? ==> SendStep(DEFAULT_CONFIG, s, now, data).1 == s
  {
  }

  lemma TrackReset(env: Env, e: End, now: real, timestamp: u32)
    requires HalvesTracked(e)
    ensures HalvesTracked(Act(env, e, ClientReset(now, timestamp)))
  {
    var e' := Act(env, e, ClientReset(now, timestamp));
    SendSnoc(e, e', SendRuns.Send(now, []));
    var (r, sender') := SendStep(DEFAULT_CONFIG, e.s.sender, now, []);
    hide SendStep, Emit, SendRuns.Run, ReceiveRuns.Run;
    if r.Ok? {
      var p := Control(Header(HardResetClientV2, 0, Some(e.s.localId), None, None, None), None, [], Some(r.value), []);
      EmitKeeps(env, e.s.(sender := sender'), timestamp, p);
    } else {
      SendFullUnchanged(e.s.sender, now, []);
    }
  }

  lemma TrackAck(env: Env, e: End, timestamp: u32)
    requires HalvesTracked(e)
    ensures HalvesTracked(Act(env, e, AckPacket(timestamp)))
  {
    var e' := Act(env, e, AckPacket(timestamp));
    hide Emit, SendRuns.Run, ReceiveRuns.Run;
    if e.s.receiver.pendingAcks != [] {
      RecvSnoc(e, e', ReceiveRuns.TakeAcks);
      var s1 := e.s.(receiver := e.s.receiver.(pendingAcks := []));
      EmitKeeps(env, s1, timestamp, ControlPacket(e.s, AckV1, e.s.receiver.pendingAcks, None, []));
    }
  }

  lemma {:induction false} ResendsKeep(env: Env, s: Session, timestamp: u32, list: seq<(u32, seq<byte>)>)
    ensures var s' := EmitResends(env, s, timestamp, list).1; s' == s.(stamp := s'.stamp)
    decreases |list|
  {
    hide Emit;
    if list != [] {
      var p := ControlPacket(s, ControlV1, [], Some(list[0].0), list[0].1);
      EmitKeeps(env, s, timestamp, p);
      ResendsKeep(env, Emit(env, s, timestamp, p).1, timestamp, list[1..]);
    }
  }

  lemma TrackResend(env: Env, e: End, now: real, timestamp: u32, list: seq<(u32, seq<byte>)>)
    requires HalvesTracked(e)
    ensures HalvesTracked(Act(env, e, Resend(now, timestamp, list)))
  {
    var e' := Act(env, e, Resend(now, timestamp, list));
    SendSnoc(e, e', SendRuns.Retransmit(now));
    hide EmitResends, SendRuns.Run, ReceiveRuns.Run, BumpDue;
    ResendsKeep(env, e.s.(sender := RetransmitStep(DEFAULT_CONFIG, e.s.sender, now)), timestamp, list);
  }

  lemma TrackDeliverSend(env: Env, e: End, now: real, data: seq<byte>)
    requires e.s.sender == SendRuns.Run(DEFAULT_CONFIG, e.sendOps).s
    ensures var e' := AfterDelivery(env, e, now, data); e'.s.sender == SendRuns.Run(DEFAULT_CONFIG, e'.sendOps).s
  {
    var e', p := AfterDelivery(env, e, now, data), Admitted(env, e.s, data);
    ProcessEffect(env, e.s, now, data);
    assert p.Some? ==> p.value.Control?;
    hide ProcessPacket, SendRuns.Run, ReceiveEffect, Admitted, AckStep, Arrival;
    assert e.sendOps + [] == e.sendOps;
    if p.Some? && p.value.acks != [] {
      SendSnoc(e, e', SendRuns.GotAcks(now, p.value.acks));
    }
  }

  /** The receiving half after a packet was handed to it. */
  lemma ArrivalTracks(e: End, e': End, p: Packet, r: Result<Processed, ProtocolError>)
    requires p.Control? && e.s.receiver == Received(e).r && e'.recvOps == e.recvOps + Arrival(p)
    requires ReceiveEffect(e.s, p, r, e'.s)
    ensures e'.s.receiver == Received(e').r
  {
    hide ReceiveRuns.Run, ReceiveStep, RecordsOf, Fed;
    assert e.recvOps + [] == e.recvOps;
    if Arrival(p) != [] {
      RecvSnoc(e, e', Arrival(p)[0]);
    }
  }

  lemma TrackDeliverReceive(env: Env, e: End, now: real, data: seq<byte>)
    requires e.s.receiver == Received(e).r
    ensures var e' := AfterDelivery(env, e, now, data); e'.s.receiver == Received(e').r
  {
    var e', p := AfterDelivery(env, e, now, data), Admitted(env, e.s, data);
    ProcessEffect(env, e.s, now, data);
    assert p.Some? ==> p.value.Control?;
    hide ProcessPacket, ReceiveRuns.Run, ReceiveEffect, Admitted, AckStep, Acknowledged, RecordsOf, Arrival;
    if p.Some? {
      ArrivalTracks(e, e', p.value, ProcessPacket(env, e.s, now, data).0);
    }
  }

  lemma TrackDeliver(env: Env, e: End, now: real, data: seq<byte>)
    requires HalvesTracked(e)
    ensures HalvesTracked(Act(env, e, Deliver(now, data)))
  {
    TrackDeliverSend(env, e, now, data);
    TrackDeliverReceive(env, e, now, data);
    hide AfterDelivery, SendRuns.Run, ReceiveRuns.Run;
  }

  lemma ActTracks(env: Env, e: End, action: Action)
    requires HalvesTracked(e)
    ensures HalvesTracked(Act(env, e, action))
  {
    hide HalvesTracked, Act;
    match action {
      case SendPacket(now, timestamp, opcode, payload) => TrackSend(env, e, now, timestamp, opcode, payload);
      case ClientReset(now, timestamp) => TrackReset(env, e, now, timestamp);
      case AckPacket(timestamp) => TrackAck(env, e, timestamp);
      case Resend(now, timestamp, list) => TrackResend(env, e, now, timestamp, list);
      case Deliver(now, data) => TrackDeliver(env, e, now, data);
      case Rotate => TrackRotate(env, e);
    }
  }

  lemma TrackRotate(env: Env, e: End)
    requires HalvesTracked(e)
    ensures HalvesTracked(Act(env, e, Rotate))
  {
  }

  // ---------------------------------------------------------------- the sender's side of the flow

  /** What an action adds to what `x` sent and put on the wire, as seen from `y`. */
  ghost predicate SenderGrows(env: Env, x: End, x': End, y: Session) {
    && x'.s.auth == x.s.auth
    && Sent(x) <= Sent(x')
    && (forall wire | wire in x'.out :: wire in x.out || GenuineWire(env, y, wire, Sent(x')))
    && (forall i | |Sent(x)| <= i < |Sent(x')| :: |Sent(x')[i]| <= MAX_CONTROL_PAYLOAD)
  }

  lemma FlowFromSender(env: Env, x: End, x': End, y: End)
    requires Flow(env, x, y) && SenderGrows(env, x, x', y.s)
    ensures Flow(env, x', y)
  {
    hide Decode, Genuine, Sent;
    forall wire | wire in x'.out ensures GenuineWire(env, y.s, wire, Sent(x')) {
      if wire in x.out {
        GenuineGrows(env, y.s, wire, Sent(x), Sent(x'));
      }
    }
  }

  /** A send that finds room queues the payload under the next id, and the packet carries that id. */
  lemma SentNext(e: End, now: real, payload: seq<byte>)
    requires HalvesTracked(e) && |e.sendOps| + 1 < U32_LIMIT
    requires |e.s.sender.pending| < DEFAULT_CONFIG.windowSize
    ensures var h := SendRuns.Run(DEFAULT_CONFIG, e.sendOps);
            && SendStep(DEFAULT_CONFIG, e.s.sender, now, payload).0 == Ok(|h.sent|)
            && SendRuns.Step(DEFAULT_CONFIG, h, SendRuns.Send(now, payload)).sent == h.sent + [payload]
  {
    SendRuns.SendInvariant(DEFAULT_CONFIG, e.sendOps);
    hide SendRuns.Run, SendRuns.Counted, CalculateRto;
  }

  lemma SentNone(e: End, now: real, payload: seq<byte>)
    requires HalvesTracked(e) && |e.s.sender.pending| >= DEFAULT_CONFIG.windowSize
    ensures var h := SendRuns.Run(DEFAULT_CONFIG, e.sendOps);
            && SendStep(DEFAULT_CONFIG, e.s.sender, now, payload).0.Err?
            && SendRuns.Step(DEFAULT_CONFIG, h, SendRuns.Send(now, payload)).sent == h.sent
  {
    hide SendRuns.Run;
  }

  lemma GrowsByOne(env: Env, x: End, x': End, y: Session, payload: seq<byte>, wire: seq<byte>)
    requires x'.s.auth == x.s.auth && x'.out == x.out + [wire] && GenuineWire(env, y, wire, Sent(x'))
    requires Sent(x') == Sent(x) + [payload] && |payload| <= MAX_CONTROL_PAYLOAD
    ensures SenderGrows(env, x, x', y)
  {
    hide GenuineWire, Sent;
  }

  lemma QueuedIsGenuine(p: Packet, sent: seq<seq<byte>>, payload: seq<byte>)
    requires p.Control? && p.messageId == Some(|sent|) && p.payload == payload
    requires p.header.opcode == ControlV1 || payload == []
    ensures Genuine(p, sent + [payload])
  {
  }

  /** A send that finds room emits one packet. */
  lemma AfterSendShape(env: Env, x: End, now: real, timestamp: u32, opcode: OpCode, payload: seq<byte>)
    requires SendStep(DEFAULT_CONFIG, x.s.sender, now, payload).0.Ok?
    ensures var (r, sender') := SendStep(DEFAULT_CONFIG, x.s.sender, now, payload);
            var s1 := x.s.(sender := sender', receiver := x.s.receiver.(pendingAcks := []));
            var p := ControlPacket(x.s, opcode, x.s.receiver.pendingAcks, Some(r.value), payload);
            var x' := AfterSend(env, x, now, timestamp, opcode, payload);
            && x'.s.auth == x.s.auth
            && x'.out == (if CanCarryAcks(x.s, payload) then x.out + [Emit(env, s1, timestamp, p).0] else x.out)
            && x'.sendOps == x.sendOps + [SendRuns.Send(now, payload)]
  {
    hide SendStep, Emit, CanCarryAcks;
    var (r, sender') := SendStep(DEFAULT_CONFIG, x.s.sender, now, payload);
    var s1 := x.s.(sender := sender', receiver := x.s.receiver.(pendingAcks := []));
    EmitKeeps(env, s1, timestamp, ControlPacket(x.s, opcode, x.s.receiver.pendingAcks, Some(r.value), payload));
  }

  lemma SendRoomGrows(env: Env, x: End, now: real, timestamp: u32, opcode: OpCode, payload: seq<byte>, y: Session)
    requires HalvesTracked(x) && KeysAgree(x.s, y) && |x.sendOps| + 1 < U32_LIMIT
    requires Enabled(x, SendPacket(now, timestamp, opcode, payload))
    requires |x.s.sender.pending| < DEFAULT_CONFIG.windowSize
    ensures SenderGrows(env, x, AfterSend(env, x, now, timestamp, opcode, payload), y)
  {
    hide SendStep, Emit, SendRuns.Run, SendRuns.Step, GenuineWire, ReceiveRuns.Run, AfterSend, SenderGrows;
    SentNext(x, now, payload);
    var (r, sender') := SendStep(DEFAULT_CONFIG, x.s.sender, now, payload);
    AfterSendShape(env, x, now, timestamp, opcode, payload);
    var x' := AfterSend(env, x, now, timestamp, opcode, payload);
    SendSnoc(x, x', SendRuns.Send(now, payload));
    var s1 := x.s.(sender := sender', receiver := x.s.receiver.(pendingAcks := []));
    var p := ControlPacket(x.s, opcode, x.s.receiver.pendingAcks, Some(r.value), payload);
    if CanCarryAcks(x.s, payload) {
      QueuedIsGenuine(p, Sent(x), payload);
      hide Genuine;
      EmitGenuine(env, s1, y, timestamp, p, Sent(x'));
      GrowsByOne(env, x, x', y, payload, Emit(env, s1, timestamp, p).0);
    } else {
      GrowsUnseen(env, x, x', y, payload);
    }
  }

  lemma GrowsUnseen(env: Env, x: End, x': End, y: Session, payload: seq<byte>)
    requires x'.s.auth == x.s.auth && x'.out == x.out
    requires Sent(x') == Sent(x) + [payload] && |payload| <= MAX_CONTROL_PAYLOAD
    ensures SenderGrows(env, x, x', y)
  {
    hide GenuineWire, Sent;
  }

  lemma SendGrows(env: Env, x: End, now: real, timestamp: u32, opcode: OpCode, payload: seq<byte>, y: Session)
    requires HalvesTracked(x) && KeysAgree(x.s, y) && |x.sendOps| + 1 < U32_LIMIT
    requires Enabled(x, SendPacket(now, timestamp, opcode, payload))
    ensures SenderGrows(env, x, AfterSend(env, x, now, timestamp, opcode, payload), y)
  {
    if |x.s.sender.pending| < DEFAULT_CONFIG.windowSize {
      SendRoomGrows(env, x, now, timestamp, opcode, payload, y);
    } else {
      SentNone(x, now, payload);
      SendSnoc(x, AfterSend(env, x, now, timestamp, opcode, payload), SendRuns.Send(now, payload));
      hide SendStep, Emit, SendRuns.Run, SendRuns.Step, GenuineWire;
    }
  }

  lemma ResetGrows(env: Env, x: End, now: real, timestamp: u32, y: Session)
    requires HalvesTracked(x) && KeysAgree(x.s, y) && |x.sendOps| + 1 < U32_LIMIT
    ensures SenderGrows(env, x, Act(env, x, ClientReset(now, timestamp)), y)
  {
    var x' := Act(env, x, ClientReset(now, timestamp));
    SendSnoc(x, x', SendRuns.Send(now, []));
    var (r, sender') := SendStep(DEFAULT_CONFIG, x.s.sender, now, []);
    hide SendStep, Emit, SendRuns.Run, SendRuns.Step, GenuineWire;
    if |x.s.sender.pending| < DEFAULT_CONFIG.windowSize {
      SentNext(x, now, []);
      var s1 := x.s.(sender := sender');
      var p := Control(Header(HardResetClientV2, 0, Some(x.s.localId), None, None, None), None, [], Some(r.value), []);
      QueuedIsGenuine(p, Sent(x), []);
      hide Genuine;
      EmitKeeps(env, s1, timestamp, p);
      EmitGenuine(env, s1, y, timestamp, p, Sent(x'));
      hide SenderGrows, Sent;
      GrowsByOne(env, x, x', y, [], Emit(env, s1, timestamp, p).0);
    } else {
      SentNone(x, now, []);
    }
  }

  lemma AckGrows(env: Env, x: End, timestamp: u32, y: Session)
    requires KeysAgree(x.s, y) && Enabled(x, AckPacket(timestamp))
    ensures SenderGrows(env, x, Act(env, x, AckPacket(timestamp)), y)
  {
    var x' := Act(env, x, AckPacket(timestamp));
    hide Emit, SendRuns.Run, GenuineWire;
    if x.s.receiver.pendingAcks != [] {
      var s1 := x.s.(receiver := x.s.receiver.(pendingAcks := []));
      var p := ControlPacket(x.s, AckV1, x.s.receiver.pendingAcks, None, []);
      EmitKeeps(env, s1, timestamp, p);
      EmitGenuine(env, s1, y, timestamp, p, Sent(x'));
    }
  }

  lemma {:induction false} ResendsGenuine(env: Env, s: Session, y: Session, timestamp: u32,
                                          list: seq<(u32, seq<byte>)>, sent: seq<seq<byte>>)
    requires KeysAgree(s, y)
    requires forall e | e in list :: e.0 < |sent| && e.1 == sent[e.0]
    ensures forall wire | wire in EmitResends(env, s, timestamp, list).0 :: GenuineWire(env, y, wire, sent)
    decreases |list|
  {
    hide Emit, GenuineWire;
    if list != [] {
      assert list[0] in list;
      var p := ControlPacket(s, ControlV1, [], Some(list[0].0), list[0].1);
      EmitKeeps(env, s, timestamp, p);
      EmitGenuine(env, s, y, timestamp, p, sent);
      ResendsGenuine(env, Emit(env, s, timestamp, p).1, y, timestamp, list[1..], sent);
    }
  }

  lemma ResendGrows(env: Env, x: End, now: real, timestamp: u32, list: seq<(u32, seq<byte>)>, y: Session)
    requires HalvesTracked(x) && KeysAgree(x.s, y) && |x.sendOps| + 1 < U32_LIMIT
    requires Enabled(x, Resend(now, timestamp, list))
    ensures SenderGrows(env, x, Act(env, x, Resend(now, timestamp, list)), y)
  {
    var x' := Act(env, x, Resend(now, timestamp, list));
    SendSnoc(x, x', SendRuns.Retransmit(now));
    SendRuns.SendInvariant(DEFAULT_CONFIG, x.sendOps);
    var bumped := x.s.(sender := RetransmitStep(DEFAULT_CONFIG, x.s.sender, now));
    assert forall e | e in list :: e.0 < |Sent(x)| && e.1 == Sent(x)[e.0];
    assert Sent(x') == Sent(x);
    hide SendRuns.Run, SendRuns.Step, GenuineWire, EmitResends, Sent, BumpDue, IsRetransmitList;
    ResendsKeep(env, bumped, timestamp, list);
    ResendsGenuine(env, bumped, y, timestamp, list, Sent(x'));
  }

  lemma DeliverGrows(env: Env, x: End, now: real, data: seq<byte>, y: Session)
    ensures SenderGrows(env, x, Act(env, x, Deliver(now, data)), y)
  {
    var x', p := Act(env, x, Deliver(now, data)), Admitted(env, x.s, data);
    ProcessEffect(env, x.s, now, data);
    assert p.Some? ==> p.value.Control?;
    hide ProcessPacket, SendRuns.Run, ReceiveEffect, Admitted, GenuineWire;
    assert x.sendOps + [] == x.sendOps;
    if p.Some? && p.value.acks != [] {
      SendSnoc(x, x', SendRuns.GotAcks(now, p.value.acks));
    }
  }

  lemma ActGrows(env: Env, x: End, action: Action, y: Session)
    requires HalvesTracked(x) && KeysAgree(x.s, y) && |x.sendOps| + 1 < U32_LIMIT && Enabled(x, action)
    ensures SenderGrows(env, x, Act(env, x, action), y)
  {
    match action {
      case SendPacket(now, timestamp, opcode, payload) => SendGrows(env, x, now, timestamp, opcode, payload, y);
      case ClientReset(now, timestamp) => ResetGrows(env, x, now, timestamp, y);
      case AckPacket(timestamp) => AckGrows(env, x, timestamp, y);
      case Resend(now, timestamp, list) => ResendGrows(env, x, now, timestamp, list, y);
      case Deliver(now, data) => DeliverGrows(env, x, now, data, y);
      case Rotate => hide GenuineWire;
    }
  }

  // ---------------------------------------------------------------- the receiver's side of the flow

  /** A delivery at `y` is of something `x` put on the wire and that cannot be misread, or of bytes that do
      not get through. */
  ghost predicate FromPeer(env: Env, x: End, y: End, action: Action) {
    action.Deliver? ==> action.data in x.out || Admitted(env, y.s, action.data).None?
  }

  lemma AuthMaintained(env: Env, e: End, action: Action)
    ensures Act(env, e, action).s.auth == e.s.auth
  {
    hide Emit, EmitResends, ProcessPacket, SendStep, BumpDue;
    match action {
      case SendPacket(now, timestamp, opcode, payload) =>
        var (r, sender') := SendStep(DEFAULT_CONFIG, e.s.sender, now, payload);
        if r.Ok? {
          var s1 := e.s.(sender := sender', receiver := e.s.receiver.(pendingAcks := []));
          EmitKeeps(env, s1, timestamp, ControlPacket(e.s, opcode, e.s.receiver.pendingAcks, Some(r.value), payload));
        }
      case ClientReset(now, timestamp) =>
        var (r, sender') := SendStep(DEFAULT_CONFIG, e.s.sender, now, []);
        if r.Ok? {
          var p := Control(Header(HardResetClientV2, 0, Some(e.s.localId), None, None, None), None, [], Some(r.value), []);
          EmitKeeps(env, e.s.(sender := sender'), timestamp, p);
        }
      case AckPacket(timestamp) =>
        var s1 := e.s.(receiver := e.s.receiver.(pendingAcks := []));
        EmitKeeps(env, s1, timestamp, ControlPacket(e.s, AckV1, e.s.receiver.pendingAcks, None, []));
      case Resend(now, timestamp, list) =>
        ResendsKeep(env, e.s.(sender := RetransmitStep(DEFAULT_CONFIG, e.s.sender, now)), timestamp, list);
      case Deliver(now, data) => ProcessEffect(env, e.s, now, data);
      case Rotate =>
    }
  }

  /** Whatever arrives at the receiving half arrives as it was sent. */
  lemma ArrivalsAuthentic(env: Env, x: End, y: End, action: Action)
    requires Flow(env, x, y) && FromPeer(env, x, y, action)
    ensures ReceiveRuns.Authentic(Act(env, y, action).recvOps, Sent(x))
  {
    hide Emit, EmitResends, ProcessPacket, SendStep, Sent, CheckReplay, Decode;
    if action.Deliver? {
      var p := Admitted(env, y.s, action.data);
      if p.Some? {
        assert GenuineWire(env, y.s, action.data, Sent(x));
        assert Genuine(p.value, Sent(x));
      }
    }
  }

  lemma FlowToReceiver(env: Env, x: End, y: End, action: Action)
    requires Flow(env, x, y) && FromPeer(env, x, y, action)
    ensures Flow(env, x, Act(env, y, action))
  {
    AuthMaintained(env, y, action);
    ArrivalsAuthentic(env, x, y, action);
    hide Act, Sent, ReceiveRuns.Authentic, GenuineWire;
    forall wire | wire in x.out ensures GenuineWire(env, Act(env, y, action).s, wire, Sent(x)) {
      GenuineSameKeys(env, y.s, Act(env, y, action).s, wire, Sent(x));
    }
  }

  // ---------------------------------------------------------------- runs of the two ends

  datatype World = World(a: End, b: End)

  datatype Event = Event(atA: bool, action: Action)

  ghost function Next(env: Env, w: World, ev: Event): World {
    if ev.atA then w.(a := Act(env, w.a, ev.action)) else w.(b := Act(env, w.b, ev.action))
  }

  ghost predicate Possible(env: Env, w: World, ev: Event) {
    if ev.atA then Enabled(w.a, ev.action) && FromPeer(env, w.b, w.a, ev.action)
    else Enabled(w.b, ev.action) && FromPeer(env, w.a, w.b, ev.action)
  }

  ghost function Run(env: Env, w: World, evs: seq<Event>): World {
    if evs == [] then w else Next(env, Run(env, w, evs[..|evs| - 1]), evs[|evs| - 1])
  }

  ghost predicate PossibleRun(env: Env, w: World, evs: seq<Event>) {
    forall k | 0 <= k < |evs| :: Possible(env, Run(env, w, evs[..k]), evs[k])
  }

  /** Two new ends whose tls-auth keys, if any, match in both directions. */
  ghost predicate Fresh(w: World) {
    && (exists id, auth :: w.a == NewEnd(id, auth))
    && (exists id, auth :: w.b == NewEnd(id, auth))
    && KeysAgree(w.a.s, w.b.s) && KeysAgree(w.b.s, w.a.s)
  }

  ghost predicate Inv(env: Env, w: World) {
    HalvesTracked(w.a) && HalvesTracked(w.b) && Flow(env, w.a, w.b) && Flow(env, w.b, w.a)
  }

  lemma FreshInv(env: Env, w: World)
    requires Fresh(w)
    ensures Inv(env, w) && w.a.sendOps == [] && w.b.sendOps == []
  {
  }

  lemma ActStep(env: Env, x: End, y: End, action: Action)
    requires HalvesTracked(x) && Flow(env, x, y) && Flow(env, y, x)
    requires Enabled(x, action) && FromPeer(env, y, x, action) && |x.sendOps| + 1 < U32_LIMIT
    ensures HalvesTracked(Act(env, x, action)) && Flow(env, Act(env, x, action), y) && Flow(env, y, Act(env, x, action))
    ensures |Act(env, x, action).sendOps| <= |x.sendOps| + 1
  {
    ActTracks(env, x, action);
    ActGrows(env, x, action, y.s);
    OpsGrow(env, x, action);
    hide Act, HalvesTracked, SenderGrows;
    FlowFromSender(env, x, Act(env, x, action), y);
    FlowToReceiver(env, y, x, action);
  }

  lemma OpsGrow(env: Env, x: End, action: Action)
    ensures var x' := Act(env, x, action);
            x.sendOps <= x'.sendOps && |x'.sendOps| <= |x.sendOps| + 1 && x.recvOps <= x'.recvOps
  {
    hide SendControl, SendClientReset, SendAcks, EmitResends, ProcessPacket, Admitted;
    assert x.recvOps + [] == x.recvOps;
  }

  /** In every run of fewer than 2^32 - 1 events: each end's transport follows its history, everything
      on the wire in either direction is rejected by the peer or carries the payload sent under its
      id, and everything that arrived at either end was so sent. */
  lemma {:induction false} RunInvariant(env: Env, w: World, evs: seq<Event>)
    requires Fresh(w) && PossibleRun(env, w, evs) && |evs| + 1 < U32_LIMIT
    ensures var w' := Run(env, w, evs);
            Inv(env, w') && |w'.a.sendOps| <= |evs| && |w'.b.sendOps| <= |evs|
  {
    if evs == [] {
      FreshInv(env, w);
    } else {
      var before, ev := evs[..|evs| - 1], evs[|evs| - 1];
      assert forall k | 0 <= k < |before| :: before[..k] == evs[..k] && before[k] == evs[k];
      RunInvariant(env, w, before);
      var v := Run(env, w, before);
      hide Act, HalvesTracked, Flow, Enabled, FromPeer, Fresh;
      if ev.atA {
        ActStep(env, v.a, v.b, ev.action);
      } else {
        ActStep(env, v.b, v.a, ev.action);
      }
    }
  }

  // ---------------------------------------------------------------- the stream theorem

  /** The end that sends, and the end that receives, in one direction. */
  function From(w: World, toA: bool): End { if toA then w.b else w.a }

  function To(w: World, toA: bool): End { if toA then w.a else w.b }

  /** The records extracted and the bytes left over are what feeding the payloads handed up so far
      gives, where a payload that does not fit the buffer is dropped. */
  ghost predicate Reassembles(y: End) {
    (y.records, y.s.buffer) == FeedAll(MAX_BUFFER, Received(y).payloads)
  }

  lemma DeliverReassembles(env: Env, y: End, now: real, data: seq<byte>)
    requires HalvesTracked(y) && Reassembles(y)
    ensures Reassembles(AfterDelivery(env, y, now, data))
  {
    var y', p := AfterDelivery(env, y, now, data), Admitted(env, y.s, data);
    ProcessEffect(env, y.s, now, data);
    assert p.Some? ==> p.value.Control?;
    hide ProcessPacket, Admitted, FeedAll, ReceiveRuns.Run, SendRuns.Run, Acknowledged, ReceiveStep;
    assert y.recvOps + [] == y.recvOps && y.records + [] == y.records;
    if p.Some? && Arrival(p.value) != [] {
      RecvSnoc(y, y', Arrival(p.value)[0]);
      OneArrival(y, y', p.value, ProcessPacket(env, y.s, now, data).0);
    }
  }

  /** Handing one arrival up and feeding it to the reassembler, which may refuse it. A hard reset is not
      fed, but it has nothing to feed. */
  lemma OneArrival(y: End, y': End, p: Packet, r: Result<Processed, ProtocolError>)
    requires Reassembles(y) && y.s.receiver == Received(y).r
    requires p.Control? && Arrival(p) != []
    requires Received(y') == ReceiveRuns.Step(Received(y), Arrival(p)[0])
    requires ReceiveEffect(y.s, p, r, y'.s) && y'.records == y.records + RecordsOf(r)
    ensures Reassembles(y')
  {
    var op := Arrival(p)[0];
    var (up, _) := ReceiveStep(y.s.receiver, op.id, op.data);
    UpIsData(y.s.receiver, op.id, op.data);
    hide ReceiveStep, Cut, Received, RecordsOf, FeedAll;
    var payloads := Received(y).payloads;
    assert y.records + [] == y.records;
    if up.Ok? && up.value.Some? {
      assert Received(y').payloads == payloads + [op.data];
      FeedAllSnoc(MAX_BUFFER, payloads, op.data);
      if p.header.opcode != ControlV1 {
        FeedAllNothing(MAX_BUFFER, payloads);
      }
    }
  }

  lemma UpIsData(r: Receiver, id: u32, data: seq<byte>)
    ensures var up := ReceiveStep(r, id, data).0; up.Ok? && up.value.Some? ==> up.value.value == data
  {
    hide Drain;
  }

  lemma BufferKept(env: Env, e: End, action: Action)
    requires !action.Deliver?
    ensures var e' := Act(env, e, action); e'.s.buffer == e.s.buffer && e'.records == e.records
    ensures var e' := Act(env, e, action); e'.recvOps == e.recvOps || e'.recvOps == e.recvOps + [ReceiveRuns.TakeAcks]
  {
    hide Emit, EmitResends, SendStep, BumpDue;
    match action {
      case SendPacket(now, timestamp, opcode, payload) =>
        var (r, sender') := SendStep(DEFAULT_CONFIG, e.s.sender, now, payload);
        if r.Ok? {
          var s1 := e.s.(sender := sender', receiver := e.s.receiver.(pendingAcks := []));
          EmitKeeps(env, s1, timestamp, ControlPacket(e.s, opcode, e.s.receiver.pendingAcks, Some(r.value), payload));
        }
      case ClientReset(now, timestamp) =>
        var (r, sender') := SendStep(DEFAULT_CONFIG, e.s.sender, now, []);
        if r.Ok? {
          var p := Control(Header(HardResetClientV2, 0, Some(e.s.localId), None, None, None), None, [], Some(r.value), []);
          EmitKeeps(env, e.s.(sender := sender'), timestamp, p);
        }
      case AckPacket(timestamp) =>
        var s1 := e.s.(receiver := e.s.receiver.(pendingAcks := []));
        EmitKeeps(env, s1, timestamp, ControlPacket(e.s, AckV1, e.s.receiver.pendingAcks, None, []));
      case Resend(now, timestamp, list) =>
        ResendsKeep(env, e.s.(sender := RetransmitStep(DEFAULT_CONFIG, e.s.sender, now)), timestamp, list);
      case Rotate =>
    }
  }

  lemma ActReassembles(env: Env, y: End, action: Action)
    requires HalvesTracked(y) && Reassembles(y)
    ensures Reassembles(Act(env, y, action))
  {
    if action.Deliver? {
      DeliverReassembles(env, y, action.now, action.data);
    } else {
      BufferKept(env, y, action);
      var y' := Act(env, y, action);
      hide Act, FeedAll, ReceiveRuns.Run;
      if y'.recvOps != y.recvOps {
        RecvSnoc(y, y', ReceiveRuns.TakeAcks);
      }
    }
  }

  lemma {:induction false} ReassemblesThroughout(env: Env, w: World, evs: seq<Event>, toA: bool)
    requires Fresh(w) && PossibleRun(env, w, evs) && |evs| + 1 < U32_LIMIT
    ensures Reassembles(To(Run(env, w, evs), toA))
  {
    if evs == [] {
      FreshReassembles(w, toA);
    } else {
      var before, ev := evs[..|evs| - 1], evs[|evs| - 1];
      PossiblePrefix(env, w, evs);
      RunInvariant(env, w, before);
      var v := Run(env, w, before);
      hide Act, HalvesTracked, Flow, Enabled, FromPeer, Fresh, Reassembles, PossibleRun;
      ReassemblesThroughout(env, w, before, toA);
      if ev.atA == toA {
        ActReassembles(env, To(v, toA), ev.action);
      }
    }
  }

  lemma PossiblePrefix(env: Env, w: World, evs: seq<Event>)
    requires PossibleRun(env, w, evs) && evs != []
    ensures PossibleRun(env, w, evs[..|evs| - 1])
    ensures Possible(env, Run(env, w, evs[..|evs| - 1]), evs[|evs| - 1])
  {
    hide Possible, Run;
    var before := evs[..|evs| - 1];
    assert forall k | 0 <= k < |before| :: before[..k] == evs[..k] && before[k] == evs[k];
  }

  lemma FreshReassembles(w: World, toA: bool)
    requires Fresh(w)
    ensures Reassembles(To(w, toA))
  {
  }

  lemma NoWrapHere(env: Env, x: End, y: End)
    requires Flow(env, x, y) && |x.sendOps| + 1 < U32_LIMIT
    ensures ReceiveRuns.NoWrap(y.recvOps) && |Sent(x)| <= |x.sendOps|
  {
    SendRuns.SendInvariant(DEFAULT_CONFIG, x.sendOps);
    hide SendRuns.Run, SendRuns.Inv, GenuineWire;
  }

  /** Leaving out empty payloads makes no difference to the reassembler. */
  lemma {:induction false} FeedKept(maxSize: nat, sent: seq<seq<byte>>, ids: seq<u32>, n: u32)
    requires n <= |sent| && ReceiveRuns.OnlyEmptyMissing(sent, ids, n)
    ensures FeedAll(maxSize, ReceiveRuns.Kept(sent, ids, n)) == FeedAll(maxSize, sent[..n])
  {
    hide FeedAll, FeedOne;
    if n == 0 {
      assert sent[..0] == [];
    } else {
      FeedKept(maxSize, sent, ids, n - 1);
      var kept := ReceiveRuns.Kept(sent, ids, n - 1);
      assert sent[..n] == sent[..n - 1] + [sent[n - 1]];
      FeedAllSnoc(maxSize, sent[..n - 1], sent[n - 1]);
      if n - 1 in ids {
        FeedAllSnoc(maxSize, kept, sent[n - 1]);
      } else {
        FeedAllNothing(maxSize, sent[..n - 1]);
        assert kept + [] == kept;
      }
    }
  }

  /** Some payloads are left out and the others fed: the result is the cut of all of them exactly if only
      empty ones are left out and none of them is refused. */
  lemma FeedKeptIff(maxSize: nat, sent: seq<seq<byte>>, ids: seq<u32>, n: u32)
    requires n <= |sent|
    ensures FeedAll(maxSize, ReceiveRuns.Kept(sent, ids, n)) == Cut(Concat(sent[..n]))
            <==> ReceiveRuns.OnlyEmptyMissing(sent, ids, n) && Feed(maxSize, [], sent[..n]).Ok?
  {
    hide FeedAll, Cut, Feed, Concat, ReceiveRuns.Kept, ReceiveRuns.OnlyEmptyMissing;
    if ReceiveRuns.OnlyEmptyMissing(sent, ids, n) {
      FeedKept(maxSize, sent, ids, n);
      FeedAllIsCutIff(maxSize, sent[..n]);
    } else {
      ReceiveRuns.KeptAllIff(sent, ids, n);
      FeedAllCounts(maxSize, ReceiveRuns.Kept(sent, ids, n));
      CutSound(Concat(sent[..n]));
    }
  }

  lemma PayloadsOfRun(env: Env, x: End, y: End)
    requires Flow(env, x, y) && |x.sendOps| + 1 < U32_LIMIT
    ensures var h := Received(y);
            var n := h.r.nextRecvId;
            && n <= |Sent(x)| && h.payloads == ReceiveRuns.Kept(Sent(x), h.ids, n)
            && Concat(Sent(x)[..n]) <= Concat(Sent(x))
            && (ReceiveRuns.OnlyEmptyMissing(Sent(x), h.ids, n) <==> ReceiveRuns.NothingSetAside(y.recvOps, n))
  {
    NoWrapHere(env, x, y);
    ReceiveRuns.AuthenticRun(y.recvOps, Sent(x));
    ReceiveRuns.MissingIsBuffered(y.recvOps, Sent(x));
    hide ReceiveRuns.Run, SendRuns.Run, ReceiveRuns.NothingSetAside, ReceiveRuns.OnlyEmptyMissing, ReceiveRuns.Kept;
    var n := Received(y).r.nextRecvId;
    assert Sent(x) == Sent(x)[..n] + Sent(x)[n..];
    ConcatAppend(Sent(x)[..n], Sent(x)[n..]);
  }

  /** The stream theorem. In every run of two fresh ends, in either direction, with any loss,
      duplication, delay, reordering and retransmission, and for every sender stream: the records the
      receiver extracted and the bytes it has left are the cut at record boundaries of a prefix of the
      sender's stream, namely of the payloads of all ids below the next expected one, if and only if no
      arrival among them that was not empty took the buffering branch of the transport and each of them
      fits in the reassembler's buffer beside the incomplete record before it. */
  lemma StreamTheorem(env: Env, w: World, evs: seq<Event>, toA: bool)
    requires Fresh(w) && PossibleRun(env, w, evs) && |evs| + 1 < U32_LIMIT
    ensures var x, y := From(Run(env, w, evs), toA), To(Run(env, w, evs), toA);
            var n := y.s.receiver.nextRecvId;
            && n <= |Sent(x)|
            && Concat(Sent(x)[..n]) <= Concat(Sent(x))
            && ((y.records, y.s.buffer) == Cut(Concat(Sent(x)[..n]))
                <==> && ReceiveRuns.NothingSetAside(y.recvOps, n)
                     && FitsThroughout(MAX_BUFFER, Sent(x)[..n]))
  {
    RunInvariant(env, w, evs);
    ReassemblesThroughout(env, w, evs, toA);
    var x, y := From(Run(env, w, evs), toA), To(Run(env, w, evs), toA);
    assert y.s.receiver == Received(y).r;
    hide Run, HalvesTracked, Flow, Fresh, PossibleRun, Received, Sent, Cut, Feed, FeedAll,
         ReceiveRuns.NothingSetAside, ReceiveRuns.OnlyEmptyMissing, ReceiveRuns.Kept, FitsThroughout;
    PayloadsOfRun(env, x, y);
    FeedFitsIff(MAX_BUFFER, Sent(x)[..Received(y).r.nextRecvId]);
    FeedKeptIff(MAX_BUFFER, Sent(x), Received(y).ids, Received(y).r.nextRecvId);
  }

  /** Without overtaking only the reassembler's buffer matters. */
  lemma StreamInOrderIff(env: Env, w: World, evs: seq<Event>, toA: bool)
    requires Fresh(w) && PossibleRun(env, w, evs) && |evs| + 1 < U32_LIMIT
    requires ReceiveRuns.NoOvertaking(To(Run(env, w, evs), toA).recvOps)
    ensures var x, y := From(Run(env, w, evs), toA), To(Run(env, w, evs), toA);
            var n := y.s.receiver.nextRecvId;
            && n <= |Sent(x)|
            && ((y.records, y.s.buffer) == Cut(Concat(Sent(x)[..n])) <==> FitsThroughout(MAX_BUFFER, Sent(x)[..n]))
  {
    StreamTheorem(env, w, evs, toA);
    var y := To(Run(env, w, evs), toA);
    hide Run, Fresh, PossibleRun, Sent, Cut, FitsThroughout, ReceiveRuns.NothingSetAside, ReceiveRuns.NoOvertaking;
    ReceiveRuns.NothingBuffered(y.recvOps, y.s.receiver.nextRecvId);
  }

  lemma LegalFits(sent: seq<seq<byte>>, n: nat, max: nat)
    requires n <= |sent| && max <= MAX_SAFE_BODY && Legal(Concat(sent), max)
    requires forall i | 0 <= i < |sent| :: |sent[i]| <= MAX_CONTROL_PAYLOAD
    ensures FitsThroughout(MAX_BUFFER, sent[..n])
  {
    hide Cut, Feed, Legal, Concat, FitsThroughout;
    assert sent == sent[..n] + sent[n..];
    ConcatAppend(sent[..n], sent[n..]);
    LegalPrefix(Concat(sent[..n]), Concat(sent[n..]), max);
    ControlChannelNeverTooLarge(sent[..n], max);
    FeedFitsIff(MAX_BUFFER, sent[..n]);
  }

  /** And for a stream of records whose bodies have at most 64432 bytes, as all TLS records do, it always
      suffices. */
  lemma LegalStreamArrives(env: Env, w: World, evs: seq<Event>, toA: bool, max: nat)
    requires Fresh(w) && PossibleRun(env, w, evs) && |evs| + 1 < U32_LIMIT
    requires ReceiveRuns.NoOvertaking(To(Run(env, w, evs), toA).recvOps)
    requires max <= MAX_SAFE_BODY && Legal(Concat(Sent(From(Run(env, w, evs), toA))), max)
    ensures var x, y := From(Run(env, w, evs), toA), To(Run(env, w, evs), toA);
            var n := y.s.receiver.nextRecvId;
            && n <= |Sent(x)|
            && (y.records, y.s.buffer) == Cut(Concat(Sent(x)[..n]))
            && Concat(y.records) + y.s.buffer == Concat(Sent(x)[..n])
            && AllRecords(y.records)
  {
    hide Run, Fresh, PossibleRun, Sent, Cut, FitsThroughout, Legal, Concat, HalvesTracked, ReceiveRuns.NoOvertaking,
         GenuineWire, ReceiveRuns.Authentic, AllRecords, Incomplete;
    StreamInOrderIff(env, w, evs, toA);
    RunInvariant(env, w, evs);
    var x, y := From(Run(env, w, evs), toA), To(Run(env, w, evs), toA);
    assert Flow(env, x, y);
    var n := y.s.receiver.nextRecvId;
    LegalFits(Sent(x), n, max);
    CutSound(Concat(Sent(x)[..n]));
  }

  /** Why a refused payload is lost for good: the transport has moved past it and queued its ack. */
  lemma RefusedPayloadIsLost(s: Session, p: Packet)
    requires p.Control? && p.header.opcode == ControlV1 && p.messageId == Some(s.receiver.nextRecvId)
    requires |s.buffer| + |p.payload| > MAX_BUFFER && s.receiver.nextRecvId + 1 < U32_LIMIT
    requires ReceiveRuns.BufferOk(s.receiver.outOfOrder, s.receiver.nextRecvId)
    ensures var (r, s') := AcceptTls(s, p);
            && r == Err(TlsRecordTooLarge) && s'.buffer == s.buffer
            && s'.receiver.pendingAcks == s.receiver.pendingAcks + [s.receiver.nextRecvId]
            && s'.receiver.nextRecvId > s.receiver.nextRecvId
  {
    var next := s.receiver.nextRecvId;
    assert Wrapping(next + 1) == next + 1;
    ReceiveRuns.DrainExact(next + 1, s.receiver.outOfOrder);
    hide Drain;
  }

  /** A record with the largest body its header can announce, 65535 bytes. */
  function LargestRecord(): seq<byte> {
    [23, 3, 3, 255, 255] + seq(65535, _ => 0)
  }

  /** Sent as 59 payloads of 1100 bytes and one of 640, it never arrives: the last one is refused. */
  lemma LargestRecordIsRefused()
    ensures IsRecord(LargestRecord()) && Feed(MAX_BUFFER, [], Chunks(LargestRecord())).Err?
  {
    var r := LargestRecord();
    assert |r| == 65540 && r[3..5] == [255, 255];
    assert BodyLength(r) == 65535;
    ChunksCover(r);
    hide LargestRecord, Chunks, Feed, BodyLength;
    RecordFitsIff(r, Chunks(r));
  }

  /** Without any condition on the order: in every run, in either direction, the bytes handed up to the
      reassembler are all bytes sent under the ids below the next expected one exactly if no arrival
      among them that was not empty took the buffering branch. */
  lemma DeliveredBytesIff(env: Env, w: World, evs: seq<Event>, toA: bool)
    requires Fresh(w) && PossibleRun(env, w, evs) && |evs| + 1 < U32_LIMIT
    ensures var x, y := From(Run(env, w, evs), toA), To(Run(env, w, evs), toA);
            var h := Received(y);
            && ReceiveRuns.Inv(h)
            && h.r == y.s.receiver && h.r.nextRecvId <= |Sent(x)|
            && (Concat(h.payloads) == Concat(Sent(x)[..h.r.nextRecvId])
                <==> ReceiveRuns.NothingSetAside(y.recvOps, h.r.nextRecvId))
  {
    RunInvariant(env, w, evs);
    var x, y := From(Run(env, w, evs), toA), To(Run(env, w, evs), toA);
    hide Run, Fresh, PossibleRun, Sent, ReceiveRuns.Inv, ReceiveRuns.NothingSetAside;
    NoWrapHere(env, x, y);
    ReceiveRuns.ReceiveInvariant(y.recvOps);
    ReceiveRuns.DeliveredPrefixIff(y.recvOps, Sent(x));
  }

  // ---------------------------------------------------------------- a whole call of create_control_packets

  lemma {:induction false} SendChunksSender(env: Env, s: Session, now: real, timestamp: u32, chunks: seq<seq<byte>>)
    ensures var (r, s') := SendChunks(env, s, now, timestamp, chunks);
            var (q, sender') := SendAll(DEFAULT_CONFIG, s.sender, now, chunks);
            s'.sender == sender' && (r.Ok? <==> q.Ok?) && (r.Ok? ==> |r.value| == |chunks|)
    decreases |chunks|
  {
    hide SendStep, Emit;
    if chunks != [] {
      var (q, sender') := SendStep(DEFAULT_CONFIG, s.sender, now, chunks[0]);
      if q.Ok? {
        var s1 := s.(sender := sender', receiver := s.receiver.(pendingAcks := []));
        EmitKeeps(env, s1, timestamp, ControlPacket(s, ControlV1, s.receiver.pendingAcks, Some(q.value), chunks[0]));
        SendChunksSender(env, SendControl(env, s, now, timestamp, ControlV1, chunks[0]).1, now, timestamp, chunks[1..]);
      }
    }
  }

  /** The actions of a call that sends these chunks. */
  function Sends(now: real, timestamp: u32, chunks: seq<seq<byte>>): seq<Action> {
    seq(|chunks|, i requires 0 <= i < |chunks| => SendPacket(now, timestamp, ControlV1, chunks[i]))
  }

  ghost function ActAll(env: Env, e: End, actions: seq<Action>): End
    decreases |actions|
  {
    if actions == [] then e else ActAll(env, Act(env, e, actions[0]), actions[1..])
  }

  lemma SendsNext(now: real, timestamp: u32, chunks: seq<seq<byte>>)
    requires chunks != []
    ensures var actions := Sends(now, timestamp, chunks);
            actions != [] && actions[0] == SendPacket(now, timestamp, ControlV1, chunks[0])
            && actions[1..] == Sends(now, timestamp, chunks[1..])
  {
  }

  /** A send that finds the window full changes nothing. */
  lemma FullSendKeeps(env: Env, e: End, now: real, timestamp: u32, payload: seq<byte>)
    requires |e.s.sender.pending| >= DEFAULT_CONFIG.windowSize
    ensures AfterSend(env, e, now, timestamp, ControlV1, payload).s == e.s
    ensures SendControl(env, e.s, now, timestamp, ControlV1, payload).0.Err?
  {
    hide Emit;
  }

  lemma {:induction false} FullCallKeeps(env: Env, e: End, now: real, timestamp: u32, chunks: seq<seq<byte>>)
    requires |e.s.sender.pending| >= DEFAULT_CONFIG.windowSize
    ensures ActAll(env, e, Sends(now, timestamp, chunks)).s == e.s
    decreases |chunks|
  {
    hide AfterSend, Sends;
    if chunks == [] {
      assert Sends(now, timestamp, chunks) == [] by { NoSends(now, timestamp); }
    } else {
      SendsNext(now, timestamp, chunks);
      FullSendKeeps(env, e, now, timestamp, chunks[0]);
      FullCallKeeps(env, AfterSend(env, e, now, timestamp, ControlV1, chunks[0]), now, timestamp, chunks[1..]);
    }
  }

  lemma NoSends(now: real, timestamp: u32)
    ensures Sends(now, timestamp, []) == []
  {
  }

  lemma SendFailsWhenFull(env: Env, s: Session, now: real, timestamp: u32, payload: seq<byte>)
    ensures SendControl(env, s, now, timestamp, ControlV1, payload).0.Err?
            <==> |s.sender.pending| >= DEFAULT_CONFIG.windowSize
    ensures SendControl(env, s, now, timestamp, ControlV1, payload).0.Err? ==>
              SendControl(env, s, now, timestamp, ControlV1, payload).1 == s
  {
    hide Emit;
  }

  /** A call is a run of send actions: it leaves the session as they do. */
  lemma {:induction false} CallIsSends(env: Env, e: End, now: real, timestamp: u32, chunks: seq<seq<byte>>)
    ensures ActAll(env, e, Sends(now, timestamp, chunks)).s == SendChunks(env, e.s, now, timestamp, chunks).1
    decreases |chunks|
  {
    if chunks == [] {
      NoSends(now, timestamp);
    } else {
      hide Sends, SendControl;
      SendsNext(now, timestamp, chunks);
      SendFailsWhenFull(env, e.s, now, timestamp, chunks[0]);
      if |e.s.sender.pending| >= DEFAULT_CONFIG.windowSize {
        FullCallKeeps(env, e, now, timestamp, chunks);
      } else {
        CallIsSends(env, AfterSend(env, e, now, timestamp, ControlV1, chunks[0]), now, timestamp, chunks[1..]);
      }
    }
  }

  lemma {:induction false} CallTracks(env: Env, e: End, now: real, timestamp: u32, chunks: seq<seq<byte>>)
    requires HalvesTracked(e)
    ensures var e' := ActAll(env, e, Sends(now, timestamp, chunks));
            HalvesTracked(e') && Sent(e') == Queue(DEFAULT_CONFIG, SendRuns.Run(DEFAULT_CONFIG, e.sendOps), now, chunks).sent
    decreases |chunks|
  {
    if chunks == [] {
      NoSends(now, timestamp);
    } else {
      var e1 := AfterSend(env, e, now, timestamp, ControlV1, chunks[0]);
      SendSnoc(e, e1, SendRuns.Send(now, chunks[0]));
      hide Sends, HalvesTracked, SendRuns.Run, SendRuns.Step, AfterSend;
      SendsNext(now, timestamp, chunks);
      TrackSend(env, e, now, timestamp, ControlV1, chunks[0]);
      CallTracks(env, e1, now, timestamp, chunks[1..]);
    }
  }

  lemma SendsAreEnabled(e: End, now: real, timestamp: u32, data: seq<byte>, action: Action)
    requires action in Sends(now, timestamp, Chunks(data))
    ensures Enabled(e, action)
  {
    ChunksCover(data);
    hide Chunks;
  }

  lemma CallQueues(env: Env, e: End, now: real, timestamp: u32, data: seq<byte>)
    requires HalvesTracked(e) && |e.sendOps| + |Chunks(data)| < U32_LIMIT
    ensures var r := SendChunks(env, e.s, now, timestamp, Chunks(data)).0;
            var sent := Queue(DEFAULT_CONFIG, SendRuns.Run(DEFAULT_CONFIG, e.sendOps), now, Chunks(data)).sent;
            var room := Room(DEFAULT_CONFIG, e.s.sender);
            && (r.Ok? <==> |Chunks(data)| <= room)
            && (r.Ok? ==> |r.value| == |Chunks(data)| && Concat(sent) == Concat(Sent(e)) + data)
            && (r.Err? ==> sent == Sent(e) + Chunks(data)[..room])
  {
    var chunks, h := Chunks(data), SendRuns.Run(DEFAULT_CONFIG, e.sendOps);
    SendRuns.SendInvariant(DEFAULT_CONFIG, e.sendOps);
    assert |h.sent| <= |e.sendOps|;
    hide SendRuns.Run, SendRuns.Inv, Chunks, SendChunks, SendAll, Queue, Room, Concat, Received;
    SendChunksSender(env, e.s, now, timestamp, chunks);
    SendAllExact(DEFAULT_CONFIG, h, now, chunks);
    ChunksCover(data);
    assert chunks[..|chunks|] == chunks;
    ConcatAppend(h.sent, chunks);
  }

  /** A call of create_control_packets is a sequence of send actions, all of them allowed in a run, one per
      chunk. It succeeds exactly when the chunks fit the window, and then it makes one packet per chunk and
      extends the sender's stream by exactly the data; a call that fails has queued the leading chunks that
      fitted, and they stay in the stream. */
  lemma CallExtendsStream(env: Env, e: End, now: real, timestamp: u32, data: seq<byte>)
    requires HalvesTracked(e) && |e.sendOps| + |Chunks(data)| < U32_LIMIT
    ensures var (r, s') := SendChunks(env, e.s, now, timestamp, Chunks(data));
            var actions := Sends(now, timestamp, Chunks(data));
            var e' := ActAll(env, e, actions);
            var room := Room(DEFAULT_CONFIG, e.s.sender);
            && e'.s == s'
            && (forall d: End, action | action in actions :: Enabled(d, action))
            && (r.Ok? <==> |Chunks(data)| <= room)
            && (r.Ok? ==> |r.value| == |Chunks(data)| && Concat(Sent(e')) == Concat(Sent(e)) + data)
            && (r.Err? ==> Sent(e') == Sent(e) + Chunks(data)[..room])
  {
    hide SendRuns.Run, Chunks, SendChunks, Queue, Room, ActAll, Sends, Enabled, HalvesTracked, Concat;
    CallIsSends(env, e, now, timestamp, Chunks(data));
    CallTracks(env, e, now, timestamp, Chunks(data));
    CallQueues(env, e, now, timestamp, data);
    forall d: End, action | action in Sends(now, timestamp, Chunks(data))
      ensures Enabled(d, action)
    {
      SendsAreEnabled(d, now, timestamp, data, action);
    }
  }
}
