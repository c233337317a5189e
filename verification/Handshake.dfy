/** What the packets of a session say, and what the two ends of a connection therefore know about each
    other over whole runs: whose packets they are, and which messages arrived. */
module Handshakes {
  import opened Common
  import opened OpCodes
  import opened Packets
  import opened TlsAuth
  import opened ReplayProtection
  import opened Reliable
  import opened Reassembly
  import opened SessionSteps
  import opened ControlChannel
  import ServerSteps
  import SendRuns
  import ReceiveRuns

  // ---------------------------------------------------------------- what the peer reads

  /** A control packet with these contents; the remote session id is on the wire only beside acks. */
  predicate Says(d: Result<Packet, ProtocolError>, opcode: OpCode, keyId: KeyId, from: SessionId, to: Option<SessionId>,
                 acks: seq<u32>, id: Option<u32>, payload: seq<byte>)
  {
    && d.Ok? && d.value.Control?
    && d.value.header.opcode == opcode && d.value.header.keyId == keyId && d.value.header.sessionId == Some(from)
    && d.value.remoteSessionId == (if acks == [] then None else to)
    && d.value.acks == acks && d.value.messageId == id && d.value.payload == payload
  }

  /** A packet with the given acks can be read: at most 16, and for a known peer. */
  predicate Readable(acks: seq<u32>, to: Option<SessionId>) {
    acks == [] || (|acks| <= MAX_ACK_COUNT && to.Some?)
  }

  /** What the other end makes of the bytes of an emitted packet: with tls-auth, the same as of the bare
      packet, plus the tls-auth fields. */
  lemma DecodedEmit(env: Env, x: Session, y: Session, timestamp: u32, p: Packet)
    requires KeysAgree(x, y) && Emitted(p, false)
    ensures var bare, d := ParsePacket(PacketBytes(p), false), Decode(env, y, Emit(env, x, timestamp, p).0);
            && (bare.Ok? <==> d.Ok?)
            && (d.Ok? && x.auth.None? ==> d == bare)
            && (d.Ok? && x.auth.Some? ==>
                  exists hmac :: d.value == WithTlsFields(bare.value, hmac, x.stamp, timestamp))
  {
    var d := PacketBytes(p);
    EmittedBytes(p);
    if x.auth.Some? {
      var key := x.auth.value.txKey;
      WrappedVerifies(env.mac, key, d, x.stamp, timestamp);
      ParseWrapped(env.mac, key, d, x.stamp, timestamp);
    }
    hide PacketBytes, ParsePacket, Wrap, HmacError, PutU32, GetU32, Unwrap, WellFormedHeader;
  }

  /** The peer reads an emitted packet as it was meant exactly if its acks are readable. */
  lemma EmittedSaysIff(env: Env, x: Session, y: Session, timestamp: u32, p: Packet)
    requires KeysAgree(x, y) && Emitted(p, false)
    ensures Says(Decode(env, y, Emit(env, x, timestamp, p).0), p.header.opcode, p.header.keyId, p.header.sessionId.value,
                 p.remoteSessionId, p.acks, p.messageId, p.payload)
            <==> Readable(p.acks, p.remoteSessionId)
  {
    DecodedEmit(env, x, y, timestamp, p);
    EmittedSurvivesIff(p, false);
    ParsedHeader(p);
    hide PacketBytes, ParsePacket, Decode, Emit, KeysAgree;
    var bare := ParsePacket(PacketBytes(p), false);
    if bare.Ok? && bare.value.Control? {
      assert bare.value == Control(bare.value.header, bare.value.remoteSessionId, bare.value.acks, bare.value.messageId,
                                   bare.value.payload);
    }
  }

  /** Whatever its acks, the header is read as it is. */
  lemma ParsedHeader(p: Packet)
    requires Emitted(p, false)
    ensures var r := ParsePacket(PacketBytes(p), false);
            r.Ok? ==> r.value.Control? && r.value.header == p.header
  {
    hide HeaderBytes, AckBlock, ReadAckBlock, ParseHeader, OptU32;
    HeaderBytesParse(p.header, AckBlock(p.acks, p.remoteSessionId) + (OptU32(p.messageId) + p.payload), false);
    hide PacketBytes;
  }

  /** A control packet or a hard reset response carries every ack queued when it is built, under the next
      message id; after that none is queued. */
  lemma SendSaysIff(env: Env, s: Session, y: Session, now: real, timestamp: u32, opcode: OpCode, payload: seq<byte>)
    requires KeysAgree(s, y) && (opcode == ControlV1 || opcode == HardResetServerV2)
    requires |s.sender.pending| < DEFAULT_CONFIG.windowSize
    ensures var (r, s') := SendControl(env, s, now, timestamp, opcode, payload);
            && r.Ok? && s'.receiver == s.receiver.(pendingAcks := [])
            && (Says(Decode(env, y, r.value), opcode, if opcode == ControlV1 then s.keyId else 0, s.localId, s.remoteId,
                     s.receiver.pendingAcks, Some(s.sender.nextSendId), payload)
                <==> Readable(s.receiver.pendingAcks, s.remoteId))
  {
    hide Emit, Decode, CalculateRto, Says, Readable;
    var (id, sender') := SendStep(DEFAULT_CONFIG, s.sender, now, payload);
    var s1 := s.(sender := sender', receiver := s.receiver.(pendingAcks := []));
    var p := ControlPacket(s, opcode, s.receiver.pendingAcks, Some(id.value), payload);
    EmitKeeps(env, s1, timestamp, p);
    EmittedSaysIff(env, s1, y, timestamp, p);
  }

  /** So does a pure ack, which carries no message. */
  lemma AckSaysIff(env: Env, s: Session, y: Session, timestamp: u32)
    requires KeysAgree(s, y) && s.receiver.pendingAcks != []
    ensures var (r, s') := SendAcks(env, s, timestamp);
            && r.Some? && s'.receiver == s.receiver.(pendingAcks := [])
            && (Says(Decode(env, y, r.value), AckV1, s.keyId, s.localId, s.remoteId, s.receiver.pendingAcks, None, [])
                <==> Readable(s.receiver.pendingAcks, s.remoteId))
  {
    hide Emit, Decode, Says, Readable;
    var s1 := s.(receiver := s.receiver.(pendingAcks := []));
    var p := ControlPacket(s, AckV1, s.receiver.pendingAcks, None, []);
    EmitKeeps(env, s1, timestamp, p);
    EmittedSaysIff(env, s1, y, timestamp, p);
  }

  /** A client's hard reset says who it is and carries nothing else; queued acks stay queued. */
  lemma ResetSays(env: Env, s: Session, y: Session, now: real, timestamp: u32)
    requires KeysAgree(s, y) && |s.sender.pending| < DEFAULT_CONFIG.windowSize
    ensures var (r, s') := SendClientReset(env, s, now, timestamp);
            && r.Ok? && s'.receiver == s.receiver
            && Says(Decode(env, y, r.value), HardResetClientV2, 0, s.localId, None, [], Some(s.sender.nextSendId), [])
  {
    hide Emit, Decode, CalculateRto, Says;
    var (id, sender') := SendStep(DEFAULT_CONFIG, s.sender, now, []);
    var p := Control(Header(HardResetClientV2, 0, Some(s.localId), None, None, None), None, [], Some(id.value), []);
    EmitKeeps(env, s.(sender := sender'), timestamp, p);
    EmittedSaysIff(env, s.(sender := sender'), y, timestamp, p);
  }

  /** Resends go out in the order of the list, each with its own id and bytes and without acks. */
  lemma {:induction false} ResendsSay(env: Env, s: Session, y: Session, timestamp: u32, list: seq<(u32, seq<byte>)>)
    requires KeysAgree(s, y)
    ensures var wires := EmitResends(env, s, timestamp, list).0;
            && |wires| == |list|
            && forall i | 0 <= i < |list| ::
                 Says(Decode(env, y, wires[i]), ControlV1, s.keyId, s.localId, None, [], Some(list[i].0), list[i].1)
    decreases |list|
  {
    hide Emit, Decode;
    if list != [] {
      var p := ControlPacket(s, ControlV1, [], Some(list[0].0), list[0].1);
      EmitKeeps(env, s, timestamp, p);
      EmittedSaysIff(env, s, y, timestamp, p);
      ResendsSay(env, Emit(env, s, timestamp, p).1, y, timestamp, list[1..]);
    }
  }

  // ---------------------------------------------------------------- what a delivery teaches

  /** The datagram is a hard reset that gets through and names its sender. */
  predicate Introduces(env: Env, s: Session, data: seq<byte>) {
    var p := Admitted(env, s, data);
    && p.Some? && IsReset(p.value) && p.value.header.sessionId.Some?
    && (p.value.header.opcode == HardResetServerV2 || p.value.header.sessionId != Some(ZERO_ID))
  }

  lemma DispatchRemote(s: Session, p: Packet)
    requires p.Control?
    ensures var s' := Dispatch(s, p).1;
            && s'.localId == s.localId && s'.keyId == s.keyId
            && s'.remoteId == (if && IsReset(p) && p.header.sessionId.Some?
                                  && (p.header.opcode == HardResetServerV2 || p.header.sessionId != Some(ZERO_ID))
                               then p.header.sessionId else s.remoteId)
  {
    hide ReceiveStep, FeedOne;
  }

  /** A session takes the sender's id from every such packet, and from nothing else. */
  lemma RemoteAfter(env: Env, s: Session, now: real, data: seq<byte>)
    ensures var s' := ProcessPacket(env, s, now, data).1;
            && s'.localId == s.localId && s'.keyId == s.keyId
            && s'.remoteId == (if Introduces(env, s, data) then Admitted(env, s, data).value.header.sessionId
                               else s.remoteId)
  {
    hide Decode, Admits, AckStep, Dispatch;
    var d := Decode(env, s, data);
    if d.Ok? && d.value.Control? {
      DispatchRemote(TakeAcks(CheckReplay(s, d.value).1, now, d.value.acks), d.value);
    }
  }

  lemma RemoteKept(env: Env, e: End, action: Action)
    ensures var s' := Act(env, e, action).s;
            && s'.localId == e.s.localId
            && s'.remoteId == (if action.Deliver? && Introduces(env, e.s, action.data)
                               then Admitted(env, e.s, action.data).value.header.sessionId else e.s.remoteId)
  {
    hide Emit, EmitResends, ProcessPacket, SendStep, BumpDue, Introduces, Admitted;
    match action {
      case SendPacket(now, timestamp, opcode, payload) =>
        var (r, sender') := SendStep(DEFAULT_CONFIG, e.s.sender, now, payload);
        if r.Ok? {
          var s1 := e.s.(sender := sender', receiver := e.s.receiver.(pendingAcks := []));
          EmitKeeps(env, s1, timestamp, ControlPacket(e.s, opcode, e.s.receiver.pendingAcks, Some(r.value), payload));
        }
      case ClientReset(now, timestamp) =>
        var (r, sender') := SendStep(DEFAULT_CONFIG, e.s.sender, now, []);
        if r.Ok? {
          var p := Control(Header(HardResetClientV2, 0, Some(e.s.localId), None, None, None), None, [], Some(r.value), []);
          EmitKeeps(env, e.s.(sender := sender'), timestamp, p);
        }
      case AckPacket(timestamp) =>
        var s1 := e.s.(receiver := e.s.receiver.(pendingAcks := []));
        EmitKeeps(env, s1, timestamp, ControlPacket(e.s, AckV1, e.s.receiver.pendingAcks, None, []));
      case Resend(now, timestamp, list) =>
        ResendsKeep(env, e.s.(sender := RetransmitStep(DEFAULT_CONFIG, e.s.sender, now)), timestamp, list);
      case Deliver(now, data) => RemoteAfter(env, e.s, now, data);
      case Rotate =>
    }
  }

  // ---------------------------------------------------------------- whose packets are on the wire

  /** The packet names its sender and acknowledges only what arrived there. */
  predicate Voiced(p: Packet, from: SessionId, arrived: seq<u32>) {
    p.Control? && p.header.sessionId == Some(from) && forall a | a in p.acks :: a in arrived
  }

  predicate VoicedWire(env: Env, y: Session, wire: seq<byte>, from: SessionId, arrived: seq<u32>) {
    var d := Decode(env, y, wire);
    d.Ok? ==> Voiced(d.value, from, arrived)
  }

  lemma ParsedVoiced(p: Packet, from: SessionId, arrived: seq<u32>)
    requires Emitted(p, false) && Voiced(p, from, arrived)
    requires NotMisread(p) || (p.header.opcode == AckV1 && p.payload == [])
    ensures var r := ParsePacket(PacketBytes(p), false); r.Ok? ==> Voiced(r.value, from, arrived)
  {
    hide PacketBytes, ParsePacket;
    if |p.acks| % 256 > MAX_ACK_COUNT {
      TooManyAcksRejected(p, false);
    } else if |p.acks| >= 256 {
      AcksMisread(p, false);
    } else {
      RejectedOrReadIff(p, false);
    }
  }

  lemma EmitVoiced(env: Env, x: Session, y: Session, timestamp: u32, p: Packet, from: SessionId, arrived: seq<u32>)
    requires KeysAgree(x, y) && Emitted(p, false) && Voiced(p, from, arrived)
    requires NotMisread(p) || (p.header.opcode == AckV1 && p.payload == [])
    ensures VoicedWire(env, y, Emit(env, x, timestamp, p).0, from, arrived)
  {
    ParsedVoiced(p, from, arrived);
    DecodedEmit(env, x, y, timestamp, p);
    hide PacketBytes, ParsePacket, Decode, Emit, NotMisread, WellFormedHeader;
  }

  function Arrived(e: End): seq<u32> { ReceiveRuns.ArrivedIds(e.recvOps) }

  /** Direction from `x` to `y`: every packet of `x` names it and acknowledges only what arrived at `x`;
      and `y` takes its peer for nobody else. */
  ghost predicate Acquainted(env: Env, x: End, y: End) {
    && KeysAgree(x.s, y.s)
    && (forall wire | wire in x.out :: VoicedWire(env, y.s, wire, x.s.localId, Arrived(x)))
    && (y.s.remoteId.Some? ==> y.s.remoteId == Some(x.s.localId))
  }

  lemma PendingArrived(e: End)
    requires HalvesTracked(e)
    ensures forall a | a in e.s.receiver.pendingAcks :: a in Arrived(e)
  {
    ReceiveRuns.EveryArrivalIsAcked(e.recvOps);
    hide ReceiveRuns.Run, ReceiveRuns.ArrivedIds;
  }

  /** What an action adds to the wire is voiced. */
  ghost predicate VoicesGrow(env: Env, x: End, x': End, y: Session) {
    forall wire | wire in x'.out :: wire in x.out || VoicedWire(env, y, wire, x.s.localId, Arrived(x))
  }

  lemma SendVoiced(env: Env, x: End, now: real, timestamp: u32, opcode: OpCode, payload: seq<byte>, y: Session)
    requires HalvesTracked(x) && KeysAgree(x.s, y) && (opcode == ControlV1 || opcode == HardResetServerV2)
    ensures VoicesGrow(env, x, AfterSend(env, x, now, timestamp, opcode, payload), y)
  {
    PendingArrived(x);
    hide SendStep, Emit, HalvesTracked, VoicedWire, Arrived;
    var (r, sender') := SendStep(DEFAULT_CONFIG, x.s.sender, now, payload);
    if r.Ok? {
      var s1 := x.s.(sender := sender', receiver := x.s.receiver.(pendingAcks := []));
      var p := ControlPacket(x.s, opcode, x.s.receiver.pendingAcks, Some(r.value), payload);
      EmitKeeps(env, s1, timestamp, p);
      if CanCarryAcks(x.s, payload) {
        EmitVoiced(env, s1, y, timestamp, p, x.s.localId, Arrived(x));
      }
    }
  }

  lemma ResetVoiced(env: Env, x: End, now: real, timestamp: u32, y: Session)
    requires KeysAgree(x.s, y)
    ensures VoicesGrow(env, x, Act(env, x, ClientReset(now, timestamp)), y)
  {
    hide SendStep, Emit, VoicedWire, Arrived;
    var (r, sender') := SendStep(DEFAULT_CONFIG, x.s.sender, now, []);
    if r.Ok? {
      var p := Control(Header(HardResetClientV2, 0, Some(x.s.localId), None, None, None), None, [], Some(r.value), []);
      EmitKeeps(env, x.s.(sender := sender'), timestamp, p);
      EmitVoiced(env, x.s.(sender := sender'), y, timestamp, p, x.s.localId, Arrived(x));
    }
  }

  lemma AckVoiced(env: Env, x: End, timestamp: u32, y: Session)
    requires HalvesTracked(x) && KeysAgree(x.s, y)
    ensures VoicesGrow(env, x, Act(env, x, AckPacket(timestamp)), y)
  {
    PendingArrived(x);
    hide Emit, HalvesTracked, VoicedWire, Arrived;
    if x.s.receiver.pendingAcks != [] {
      var s1 := x.s.(receiver := x.s.receiver.(pendingAcks := []));
      var p := ControlPacket(x.s, AckV1, x.s.receiver.pendingAcks, None, []);
      EmitKeeps(env, s1, timestamp, p);
      EmitVoiced(env, s1, y, timestamp, p, x.s.localId, Arrived(x));
    }
  }

  lemma {:induction false} ResendsVoiced(env: Env, s: Session, y: Session, timestamp: u32, list: seq<(u32, seq<byte>)>,
                                         arrived: seq<u32>)
    requires KeysAgree(s, y)
    ensures forall wire | wire in EmitResends(env, s, timestamp, list).0 ::
              VoicedWire(env, y, wire, s.localId, arrived)
    decreases |list|
  {
    hide Emit, VoicedWire;
    if list != [] {
      var p := ControlPacket(s, ControlV1, [], Some(list[0].0), list[0].1);
      EmitKeeps(env, s, timestamp, p);
      EmitVoiced(env, s, y, timestamp, p, s.localId, arrived);
      ResendsVoiced(env, Emit(env, s, timestamp, p).1, y, timestamp, list[1..], arrived);
    }
  }

  lemma ActVoiced(env: Env, x: End, action: Action, y: Session)
    requires HalvesTracked(x) && KeysAgree(x.s, y) && Enabled(x, action)
    ensures VoicesGrow(env, x, Act(env, x, action), y)
  {
    hide HalvesTracked, VoicedWire, EmitResends, RetransmitStep, IsRetransmitList, ProcessPacket;
    match action {
      case SendPacket(now, timestamp, opcode, payload) => SendVoiced(env, x, now, timestamp, opcode, payload, y);
      case ClientReset(now, timestamp) => ResetVoiced(env, x, now, timestamp, y);
      case AckPacket(timestamp) => AckVoiced(env, x, timestamp, y);
      case Resend(now, timestamp, list) =>
        var bumped := x.s.(sender := RetransmitStep(DEFAULT_CONFIG, x.s.sender, now));
        ResendsVoiced(env, bumped, y, timestamp, list, Arrived(x));
      case Deliver(now, data) =>
      case Rotate =>
    }
  }

  lemma {:induction false} ArrivedGrow(a: seq<ReceiveRuns.Op>, b: seq<ReceiveRuns.Op>)
    requires a <= b
    ensures forall id | id in ReceiveRuns.ArrivedIds(a) :: id in ReceiveRuns.ArrivedIds(b)
    decreases |b|
  {
    if a != b {
      assert a <= b[..|b| - 1];
      ArrivedGrow(a, b[..|b| - 1]);
    } else {
      assert a == b;
    }
  }

  lemma VoicedGrows(env: Env, y: Session, y': Session, wire: seq<byte>, from: SessionId, arrived: seq<u32>, arrived': seq<u32>)
    requires y'.auth == y.auth && (forall id | id in arrived :: id in arrived')
    requires VoicedWire(env, y, wire, from, arrived)
    ensures VoicedWire(env, y', wire, from, arrived')
  {
    hide Receive, ParsePacket;
  }

  /** An action of `x` keeps the direction from `x`. */
  lemma AcquaintedFrom(env: Env, x: End, y: End, action: Action)
    requires HalvesTracked(x) && Acquainted(env, x, y) && Enabled(x, action)
    ensures Acquainted(env, Act(env, x, action), y)
  {
    var x' := Act(env, x, action);
    ActVoiced(env, x, action, y.s);
    OpsGrow(env, x, action);
    ArrivedGrow(x.recvOps, x'.recvOps);
    AuthMaintained(env, x, action);
    RemoteKept(env, x, action);
    hide Act, HalvesTracked, Enabled, VoicedWire, Introduces, Admitted, ReceiveRuns.ArrivedIds;
    forall wire | wire in x'.out
      ensures VoicedWire(env, y.s, wire, x'.s.localId, Arrived(x'))
    {
      VoicedGrows(env, y.s, y.s, wire, x.s.localId, Arrived(x), Arrived(x'));
    }
  }

  /** And the direction to `x`. */
  lemma AcquaintedTo(env: Env, y: End, x: End, action: Action)
    requires Acquainted(env, y, x) && FromPeer(env, y, x, action)
    ensures Acquainted(env, y, Act(env, x, action))
  {
    var x' := Act(env, x, action);
    AuthMaintained(env, x, action);
    RemoteKept(env, x, action);
    if action.Deliver? && Introduces(env, x.s, action.data) {
      assert VoicedWire(env, x.s, action.data, y.s.localId, Arrived(y));
      assert Decode(env, x.s, action.data) == Ok(Admitted(env, x.s, action.data).value);
    }
    hide Act, VoicedWire, Admitted, ReceiveRuns.ArrivedIds, Introduces;
    forall wire | wire in y.out
      ensures VoicedWire(env, x'.s, wire, y.s.localId, Arrived(y))
    {
      VoicedGrows(env, x.s, x'.s, wire, y.s.localId, Arrived(y), Arrived(y));
    }
  }

  lemma {:induction false} AcquaintedThroughout(env: Env, w: World, evs: seq<Event>, toA: bool)
    requires Fresh(w) && PossibleRun(env, w, evs) && |evs| + 1 < U32_LIMIT
    ensures var w' := Run(env, w, evs); Acquainted(env, From(w', toA), To(w', toA))
  {
    if evs == [] {
      FreshAcquainted(env, w, toA);
    } else {
      var before, ev := evs[..|evs| - 1], evs[|evs| - 1];
      PossiblePrefix(env, w, evs);
      RunInvariant(env, w, before);
      var v := Run(env, w, before);
      hide Act, HalvesTracked, Flow, Enabled, FromPeer, Fresh, Acquainted, PossibleRun;
      AcquaintedThroughout(env, w, before, toA);
      if ev.atA == toA {
        AcquaintedTo(env, From(v, toA), To(v, toA), ev.action);
      } else {
        AcquaintedFrom(env, From(v, toA), To(v, toA), ev.action);
      }
    }
  }

  lemma FreshAcquainted(env: Env, w: World, toA: bool)
    requires Fresh(w)
    ensures Acquainted(env, From(w, toA), To(w, toA))
  {
  }

  /** Event `k` delivers a hard reset of the peer. */
  ghost predicate IntroducedAt(env: Env, w: World, evs: seq<Event>, toA: bool, k: nat) {
    && k < |evs| && evs[k].atA == toA && evs[k].action.Deliver?
    && Introduces(env, To(Run(env, w, evs[..k]), toA).s, evs[k].action.data)
  }

  ghost predicate Introduced(env: Env, w: World, evs: seq<Event>, toA: bool) {
    exists k :: IntroducedAt(env, w, evs, toA, k)
  }

  lemma IntroducedSnoc(env: Env, w: World, evs: seq<Event>, toA: bool)
    requires evs != []
    ensures var n := |evs| - 1;
            Introduced(env, w, evs, toA) <==> Introduced(env, w, evs[..n], toA) || IntroducedAt(env, w, evs, toA, n)
  {
    hide Run, Introduces;
    var n := |evs| - 1;
    assert forall k: nat | k < n :: evs[..n][..k] == evs[..k];
    assert forall k: nat | k < n :: IntroducedAt(env, w, evs[..n], toA, k) <==> IntroducedAt(env, w, evs, toA, k);
    if Introduced(env, w, evs[..n], toA) {
      var k: nat :| IntroducedAt(env, w, evs[..n], toA, k);
      assert IntroducedAt(env, w, evs, toA, k);
    }
  }

  /** In every run of two fresh ends: an end knows its peer's session id from the first hard reset of the
      peer that got through, and knows no other id before or after. */
  lemma {:induction false} PeerIdExact(env: Env, w: World, evs: seq<Event>, toA: bool)
    requires Fresh(w) && PossibleRun(env, w, evs) && |evs| + 1 < U32_LIMIT
    ensures var w' := Run(env, w, evs);
            && From(w', toA).s.localId == From(w, toA).s.localId
            && To(w', toA).s.remoteId == if Introduced(env, w, evs, toA) then Some(From(w, toA).s.localId) else None
  {
    if evs == [] {
      FreshKnowsNobody(w, toA);
    } else {
      var before, ev := evs[..|evs| - 1], evs[|evs| - 1];
      PossiblePrefix(env, w, evs);
      AcquaintedThroughout(env, w, evs, toA);
      IntroducedSnoc(env, w, evs, toA);
      var v := Run(env, w, before);
      hide Act, Fresh, PossibleRun, Introduced, Introduces, Admitted, VoicedWire;
      PeerIdExact(env, w, before, toA);
      RemoteKept(env, if ev.atA then v.a else v.b, ev.action);
      if IntroducedAt(env, w, evs, toA, |evs| - 1) {
        IntroducesSome(env, To(v, toA).s, ev.action.data);
      }
    }
  }

  lemma IntroducesSome(env: Env, s: Session, data: seq<byte>)
    requires Introduces(env, s, data)
    ensures Admitted(env, s, data).Some? && Admitted(env, s, data).value.header.sessionId.Some?
  {
  }

  lemma FreshKnowsNobody(w: World, toA: bool)
    requires Fresh(w)
    ensures To(w, toA).s.remoteId == None
  {
  }

  // ---------------------------------------------------------------- acknowledgements

  function Acked(e: End): set<u32> { SendRuns.Run(DEFAULT_CONFIG, e.sendOps).acked }

  /** Everything acknowledged to `x` arrived at `y`. */
  ghost predicate AckedArrived(x: End, y: End) {
    forall id | id in Acked(x) :: id in Arrived(y)
  }

  lemma SendKeepsAcked(h: SendRuns.History, op: SendRuns.Op)
    requires !op.GotAcks?
    ensures SendRuns.Step(DEFAULT_CONFIG, h, op).acked == h.acked
  {
    hide SendStep, RetransmitStep;
  }

  /** Acks acknowledge what they list and was pending. */
  lemma AcksAcknowledge(h: SendRuns.History, now: real, acks: seq<u32>)
    ensures SendRuns.Step(DEFAULT_CONFIG, h, SendRuns.GotAcks(now, acks)).acked
            == h.acked + set id | id in h.s.pending && id in acks
  {
    SendRuns.AckStepPending(h.s, now, acks);
    hide AckStep;
  }

  lemma OneOpAcks(x: End, x': End, op: SendRuns.Op)
    requires HalvesTracked(x) && x'.sendOps == x.sendOps + [op]
    ensures Acked(x') == Acked(x) + if op.GotAcks? then (set id | id in x.s.sender.pending && id in op.acks) else {}
  {
    hide SendRuns.Run, SendRuns.Step, ReceiveRuns.Run;
    SendSnoc(x, x', op);
    if op.GotAcks? {
      AcksAcknowledge(SendRuns.Run(DEFAULT_CONFIG, x.sendOps), op.now, op.acks);
    } else {
      SendKeepsAcked(SendRuns.Run(DEFAULT_CONFIG, x.sendOps), op);
    }
  }

  /** The acks that an action brings: those of the packet it delivers, if it gets through. */
  function AcksBrought(env: Env, s: Session, action: Action): seq<u32> {
    if !action.Deliver? then []
    else
      var p := Admitted(env, s, action.data);
      if p.Some? then p.value.acks else []
  }

  /** Only they acknowledge anything. */
  lemma ActAcked(env: Env, x: End, action: Action)
    requires HalvesTracked(x)
    ensures Acked(Act(env, x, action))
            == Acked(x) + set id | id in x.s.sender.pending && id in AcksBrought(env, x.s, action)
  {
    SendOpsOf(env, x, action);
    hide Act, HalvesTracked, Acked, AcksBrought;
    var x' := Act(env, x, action);
    if x'.sendOps != x.sendOps {
      OneOpAcks(x, x', x'.sendOps[|x.sendOps|]);
    } else {
      SameOpsAcked(x, x');
    }
  }

  lemma SameOpsAcked(x: End, x': End)
    requires x'.sendOps == x.sendOps
    ensures Acked(x') == Acked(x)
  {
  }

  lemma SendOpsOf(env: Env, x: End, action: Action)
    ensures var x', acks := Act(env, x, action), AcksBrought(env, x.s, action);
            || (x'.sendOps == x.sendOps && acks == [])
            || (&& |x'.sendOps| == |x.sendOps| + 1 && x'.sendOps == x.sendOps + [x'.sendOps[|x.sendOps|]]
                && var op := x'.sendOps[|x.sendOps|];
                   if acks == [] then !op.GotAcks? else op.GotAcks? && op.acks == acks)
  {
    hide SendControl, SendClientReset, SendAcks, EmitResends, ProcessPacket, Decode, CheckReplay;
    assert x.sendOps + [] == x.sendOps;
  }

  lemma AckedArrivedFrom(env: Env, x: End, y: End, action: Action)
    requires HalvesTracked(x) && AckedArrived(x, y) && Acquainted(env, y, x) && FromPeer(env, y, x, action)
    ensures AckedArrived(Act(env, x, action), y)
  {
    ActAcked(env, x, action);
    if action.Deliver? && Admitted(env, x.s, action.data).Some? {
      assert VoicedWire(env, x.s, action.data, y.s.localId, Arrived(y));
      assert Decode(env, x.s, action.data) == Ok(Admitted(env, x.s, action.data).value);
    }
    hide Act, Acked, Arrived, Decode, HalvesTracked, CheckReplay;
  }

  lemma {:induction false} AckedArrivedThroughout(env: Env, w: World, evs: seq<Event>, toA: bool)
    requires Fresh(w) && PossibleRun(env, w, evs) && |evs| + 1 < U32_LIMIT
    ensures var w' := Run(env, w, evs); AckedArrived(From(w', toA), To(w', toA))
  {
    if evs == [] {
      FreshAcked(w, toA);
    } else {
      var before, ev := evs[..|evs| - 1], evs[|evs| - 1];
      PossiblePrefix(env, w, evs);
      RunInvariant(env, w, before);
      AcquaintedThroughout(env, w, before, !toA);
      var v := Run(env, w, before);
      hide HalvesTracked, Flow, Enabled, FromPeer, Fresh, Acquainted, PossibleRun, Acked, ReceiveRuns.ArrivedIds;
      AckedArrivedThroughout(env, w, before, toA);
      if ev.atA == toA {
        OpsGrow(env, To(v, toA), ev.action);
        ArrivedGrow(To(v, toA).recvOps, Act(env, To(v, toA), ev.action).recvOps);
        hide Act;
      } else {
        hide Act;
        AckedArrivedFrom(env, From(v, toA), To(v, toA), ev.action);
      }
    }
  }

  lemma FreshAcked(w: World, toA: bool)
    requires Fresh(w)
    ensures Acked(From(w, toA)) == {}
  {
  }

  /** In every run: what an end has sent and no longer keeps for retransmission arrived at the other end, with
      the bytes sent under its id. */
  lemma ForgottenHasArrived(env: Env, w: World, evs: seq<Event>, toA: bool, id: u32)
    requires Fresh(w) && PossibleRun(env, w, evs) && |evs| + 1 < U32_LIMIT
    requires var x := From(Run(env, w, evs), toA); id < |Sent(x)| && id !in x.s.sender.pending
    ensures var x, y := From(Run(env, w, evs), toA), To(Run(env, w, evs), toA);
            ReceiveRuns.Arrive(id, Sent(x)[id]) in y.recvOps
  {
    hide Run, PossibleRun, Fresh, HalvesTracked, Sent, Acked, Arrived, GenuineWire, ReceiveRuns.Authentic;
    var x, y := From(Run(env, w, evs), toA), To(Run(env, w, evs), toA);
    RunInvariant(env, w, evs);
    AckedArrivedThroughout(env, w, evs, toA);
    ForgottenIsAcked(x, id);
    ArrivedAsSent(y, Sent(x), id);
  }

  lemma ForgottenIsAcked(x: End, id: u32)
    requires HalvesTracked(x) && |x.sendOps| < U32_LIMIT && id < |Sent(x)|
    ensures id in x.s.sender.pending <==> id !in Acked(x)
  {
    SendRuns.SendInvariant(DEFAULT_CONFIG, x.sendOps);
    hide SendRuns.Run, SendRuns.Counted, ReceiveRuns.Run;
  }

  lemma ArrivedAsSent(y: End, sent: seq<seq<byte>>, id: u32)
    requires id in Arrived(y) && ReceiveRuns.Authentic(y.recvOps, sent)
    ensures id < |sent| && ReceiveRuns.Arrive(id, sent[id]) in y.recvOps
  {
    ArrivedOp(y.recvOps, id);
    var op :| op in y.recvOps && op.Arrive? && op.id == id;
    assert op == ReceiveRuns.Arrive(id, op.data);
  }

  lemma {:induction false} ArrivedOp(ops: seq<ReceiveRuns.Op>, id: u32)
    requires id in ReceiveRuns.ArrivedIds(ops)
    ensures exists op | op in ops :: op.Arrive? && op.id == id
  {
    var n := |ops| - 1;
    if ops[n].Arrive? && ops[n].id == id {
      assert ops[n] in ops;
    } else {
      ArrivedOp(ops[..n], id);
      var op :| op in ops[..n] && op.Arrive? && op.id == id;
      assert op in ops;
    }
  }

  // ---------------------------------------------------------------- an ack that gets through frees its id

  /** The packet an end emits that carries its queued acks. */
  ghost function AckingWire(env: Env, s: Session, action: Action): Option<seq<byte>> {
    match action
    case SendPacket(now, timestamp, opcode, payload) =>
      var r := SendControl(env, s, now, timestamp, opcode, payload).0;
      if r.Ok? then Some(r.value) else None
    case AckPacket(timestamp) => SendAcks(env, s, timestamp).0
    case _ => None
  }

  lemma AckingWireAcks(env: Env, e: End, y: Session, action: Action)
    requires KeysAgree(e.s, y) && Enabled(e, action) && AckingWire(env, e.s, action).Some?
    requires Readable(e.s.receiver.pendingAcks, e.s.remoteId)
    ensures var d := Decode(env, y, AckingWire(env, e.s, action).value);
            d.Ok? && d.value.Control? && d.value.acks == e.s.receiver.pendingAcks
  {
    hide Decode, Readable, IsRetransmitList;
    match action {
      case SendPacket(now, timestamp, opcode, payload) =>
        SendFails(env, e.s, now, timestamp, opcode, payload);
        SendSaysIff(env, e.s, y, now, timestamp, opcode, payload);
      case AckPacket(timestamp) => AckSaysIff(env, e.s, y, timestamp);
      case _ =>
    }
  }

  lemma SendFails(env: Env, s: Session, now: real, timestamp: u32, opcode: OpCode, payload: seq<byte>)
    ensures SendControl(env, s, now, timestamp, opcode, payload).0.Ok? ==> |s.sender.pending| < DEFAULT_CONFIG.windowSize
  {
    hide Emit, CalculateRto;
  }

  lemma {:induction false} EndAdvances(env: Env, w: World, evs: seq<Event>, k: nat, toA: bool)
    requires k <= |evs|
    ensures To(Run(env, w, evs), toA).s.auth == To(Run(env, w, evs[..k]), toA).s.auth
    ensures To(Run(env, w, evs[..k]), toA).sendOps <= To(Run(env, w, evs), toA).sendOps
    decreases |evs|
  {
    hide Act;
    if k == |evs| {
      assert evs[..k] == evs;
    } else {
      var before, ev := evs[..|evs| - 1], evs[|evs| - 1];
      assert before[..k] == evs[..k];
      EndAdvances(env, w, before, k, toA);
      var v := To(Run(env, w, before), toA);
      AuthMaintained(env, v, ev.action);
      OpsGrow(env, v, ev.action);
    }
  }

  lemma PossibleUpTo(env: Env, w: World, evs: seq<Event>, k: nat)
    requires PossibleRun(env, w, evs) && k <= |evs|
    ensures PossibleRun(env, w, evs[..k]) && (k < |evs| ==> Possible(env, Run(env, w, evs[..k]), evs[k]))
    ensures k < |evs| ==> Run(env, w, evs[..k + 1]) == Next(env, Run(env, w, evs[..k]), evs[k])
  {
    hide Possible, Next;
    assert forall i | 0 <= i < k :: evs[..k][..i] == evs[..i] && evs[..k][i] == evs[i];
    if k < |evs| {
      assert evs[..k + 1][..k] == evs[..k];
    }
  }

  /** The end that acknowledges received `id`, so its peer had sent it. */
  lemma QueuedWasSent(env: Env, w: World, evs: seq<Event>, toA: bool, id: u32)
    requires Fresh(w) && PossibleRun(env, w, evs) && |evs| + 1 < U32_LIMIT
    requires id in To(Run(env, w, evs), toA).s.receiver.pendingAcks
    ensures id < |Sent(From(Run(env, w, evs), toA))|
  {
    hide Run, PossibleRun, Fresh, HalvesTracked, Sent, Arrived, GenuineWire, ReceiveRuns.Authentic;
    var x, y := From(Run(env, w, evs), toA), To(Run(env, w, evs), toA);
    RunInvariant(env, w, evs);
    PendingArrived(y);
    ArrivedAsSent(y, Sent(x), id);
  }

  lemma {:induction false} SentGrows(a: seq<SendRuns.Op>, b: seq<SendRuns.Op>)
    requires a <= b
    ensures SendRuns.Run(DEFAULT_CONFIG, a).sent <= SendRuns.Run(DEFAULT_CONFIG, b).sent
    decreases |b|
  {
    hide SendStep, AckStep, RetransmitStep;
    if a != b {
      assert a <= b[..|b| - 1];
      SentGrows(a, b[..|b| - 1]);
    } else {
      assert a == b;
    }
  }

  /** A packet with `id` in its acks that gets through acknowledges `id`, if it was ever given out. */
  lemma DeliveredAckCounts(env: Env, x: End, now: real, data: seq<byte>, id: u32)
    requires HalvesTracked(x) && |x.sendOps| < U32_LIMIT && id < |Sent(x)|
    requires id in AcksBrought(env, x.s, Deliver(now, data))
    ensures id in Acked(Act(env, x, Deliver(now, data)))
  {
    hide Act, AcksBrought, HalvesTracked, Acked, Sent;
    ActAcked(env, x, Deliver(now, data));
    ForgottenIsAcked(x, id);
  }

  lemma StaysAcked(x: End, x': End, id: u32)
    requires x.sendOps <= x'.sendOps && |x'.sendOps| < U32_LIMIT - 1 && id in Acked(x) && HalvesTracked(x')
    ensures id !in x'.s.sender.pending
  {
    assert x'.sendOps[..|x.sendOps|] == x.sendOps;
    SendRuns.AckedStaysAcked(DEFAULT_CONFIG, x'.sendOps, |x.sendOps|, id);
    SendRuns.SendInvariant(DEFAULT_CONFIG, x'.sendOps);
    hide SendRuns.Run, SendRuns.Counted, ReceiveRuns.Run;
  }

  /** What the peer reads from an acking packet at a later time. */
  lemma AckReadLater(env: Env, w: World, evs: seq<Event>, toA: bool, j: nat, action: Action)
    requires Fresh(w) && PossibleRun(env, w, evs) && |evs| + 1 < U32_LIMIT && j <= |evs|
    requires var y := From(Run(env, w, evs[..j]), toA);
             && Enabled(y, action) && Readable(y.s.receiver.pendingAcks, y.s.remoteId)
             && AckingWire(env, y.s, action).Some?
    ensures var y := From(Run(env, w, evs[..j]), toA);
            var d := Decode(env, To(Run(env, w, evs), toA).s, AckingWire(env, y.s, action).value);
            d.Ok? && d.value.Control? && d.value.acks == y.s.receiver.pendingAcks
  {
    hide Run, PossibleRun, Fresh, Enabled, Readable, AckingWire, HalvesTracked, GenuineWire, Sent, Decode;
    RunInvariant(env, w, evs);
    EndAdvances(env, w, evs, j, !toA);
    AckingWireAcks(env, From(Run(env, w, evs[..j]), toA), To(Run(env, w, evs), toA).s, action);
  }

  /** What the acking end had queued, the other end has sent, then and later. */
  lemma QueuedStaysSent(env: Env, w: World, evs: seq<Event>, toA: bool, j: nat, id: u32)
    requires Fresh(w) && PossibleRun(env, w, evs) && |evs| + 1 < U32_LIMIT && j <= |evs|
    requires id in From(Run(env, w, evs[..j]), toA).s.receiver.pendingAcks
    ensures id < |Sent(To(Run(env, w, evs), toA))|
  {
    hide Run, Fresh, SendRuns.Run;
    PossibleUpTo(env, w, evs, j);
    hide PossibleRun;
    QueuedWasSent(env, w, evs[..j], !toA, id);
    EndAdvances(env, w, evs, j, toA);
    SentGrows(To(Run(env, w, evs[..j]), toA).sendOps, To(Run(env, w, evs), toA).sendOps);
  }

  /** The ack in question: event `j` emits a packet while an ack for `id` is queued, at most 16 are and the
      peer is known; event `k` delivers it to the peer, where it gets through. */
  ghost predicate AckDelivered(env: Env, w: World, evs: seq<Event>, toA: bool, j: nat, k: nat, id: u32) {
    && j < k < |evs| && evs[j].atA != toA && evs[k].atA == toA && evs[k].action.Deliver?
    && var s := From(Run(env, w, evs[..j]), toA).s;
       && id in s.receiver.pendingAcks && Readable(s.receiver.pendingAcks, s.remoteId)
       && AckingWire(env, s, evs[j].action) == Some(evs[k].action.data)
       && Admitted(env, To(Run(env, w, evs[..k]), toA).s, evs[k].action.data).Some?
  }

  lemma AckCounted(env: Env, w: World, evs: seq<Event>, toA: bool, j: nat, k: nat, id: u32)
    requires Fresh(w) && PossibleRun(env, w, evs) && |evs| + 1 < U32_LIMIT && AckDelivered(env, w, evs, toA, j, k, id)
    ensures id in Acked(To(Run(env, w, evs[..k + 1]), toA))
  {
    hide Run, Fresh, Act, Readable, AckingWire, HalvesTracked, Flow, Acked, Sent;
    PossibleUpTo(env, w, evs, j);
    PossibleUpTo(env, w, evs, k);
    hide PossibleRun, Enabled, FromPeer;
    assert evs[..k][..j] == evs[..j];
    var x := To(Run(env, w, evs[..k]), toA);
    RunInvariant(env, w, evs[..k]);
    AckReadLater(env, w, evs[..k], toA, j, evs[j].action);
    QueuedStaysSent(env, w, evs[..k], toA, j, id);
    assert Decode(env, x.s, evs[k].action.data) == Ok(Admitted(env, x.s, evs[k].action.data).value);
    hide Decode, CheckReplay;
    DeliveredAckCounts(env, x, evs[k].action.now, evs[k].action.data, id);
  }

  /** In every run: when an end with readable acks emits a packet while it owes an ack for `id`, and the packet
      gets through to the peer at any later time, then from there on the peer no longer keeps `id` for
      retransmission. */
  lemma AckFreesId(env: Env, w: World, evs: seq<Event>, toA: bool, j: nat, k: nat, id: u32)
    requires Fresh(w) && PossibleRun(env, w, evs) && |evs| + 1 < U32_LIMIT && AckDelivered(env, w, evs, toA, j, k, id)
    ensures id !in To(Run(env, w, evs), toA).s.sender.pending
  {
    hide Run, PossibleRun, Fresh, Possible, HalvesTracked, Flow, Acked, Readable, AckingWire, Admitted;
    assert k < |evs|;
    hide AckDelivered;
    AckCounted(env, w, evs, toA, j, k, id);
    EndAdvances(env, w, evs, k + 1, toA);
    RunInvariant(env, w, evs);
    StaysAcked(To(Run(env, w, evs[..k + 1]), toA), To(Run(env, w, evs), toA), id);
  }

  // ---------------------------------------------------------------- the protocol state

  /** A control packet that no session expects is rejected: opcodes other than the three hard resets, the soft
      reset, control and ack packets, and client hard resets with a zero session id. */
  lemma UnexpectedRejected(s: Session, p: Packet)
    requires p.Control?
    ensures var (r, s') := Dispatch(s, p);
            && (p.header.opcode in {DataV1, DataV2, ControlWkcV1} <==> r == Err(UnknownOpcode(p.header.opcode.Code())))
            && (p.header.opcode in {HardResetClientV2, HardResetClientV3} && p.header.sessionId == Some(ZERO_ID)
                <==> r == Err(InvalidSessionId))
            && (r.Err? && (r.error.UnknownOpcode? || r.error.InvalidSessionId?) ==> s' == s)
  {
    hide Drain, Cut;
  }

  /** What the delivery at event `k` returned. */
  ghost function Returned(env: Env, w: World, evs: seq<Event>, toA: bool, k: nat): Result<Processed, ProtocolError>
    requires k < |evs| && evs[k].action.Deliver?
  {
    ProcessPacket(env, To(Run(env, w, evs[..k]), toA).s, evs[k].action.now, evs[k].action.data).0
  }

  /** Event `k` moved the handshake: a hard reset was accepted, or a soft reset arrived. */
  ghost predicate MovedAt(env: Env, w: World, evs: seq<Event>, toA: bool, k: nat) {
    && k < |evs| && evs[k].atA == toA && evs[k].action.Deliver?
    && var r := Returned(env, w, evs, toA, k);
       r.Ok? && (r.value.HardReset? || r.value.HardResetAck? || r.value.SoftReset?)
  }

  /** The state that the last such event leads to. */
  ghost function StateOf(env: Env, w: World, evs: seq<Event>, toA: bool): ProtocolState {
    if evs == [] then Initial
    else
      var n := |evs| - 1;
      if !MovedAt(env, w, evs, toA, n) then StateOf(env, w, evs[..n], toA)
      else if Returned(env, w, evs, toA, n).value.SoftReset? then Rekeying else TlsHandshake
  }

  lemma StateKept(env: Env, e: End, action: Action)
    requires !action.Deliver?
    ensures Act(env, e, action).s.state == e.s.state
  {
    hide Emit, EmitResends, SendStep, BumpDue;
    match action {
      case SendPacket(now, timestamp, opcode, payload) =>
        var (r, sender') := SendStep(DEFAULT_CONFIG, e.s.sender, now, payload);
        if r.Ok? {
          var s1 := e.s.(sender := sender', receiver := e.s.receiver.(pendingAcks := []));
          EmitKeeps(env, s1, timestamp, ControlPacket(e.s, opcode, e.s.receiver.pendingAcks, Some(r.value), payload));
        }
      case ClientReset(now, timestamp) =>
        var (r, sender') := SendStep(DEFAULT_CONFIG, e.s.sender, now, []);
        if r.Ok? {
          var p := Control(Header(HardResetClientV2, 0, Some(e.s.localId), None, None, None), None, [], Some(r.value), []);
          EmitKeeps(env, e.s.(sender := sender'), timestamp, p);
        }
      case AckPacket(timestamp) =>
        var s1 := e.s.(receiver := e.s.receiver.(pendingAcks := []));
        EmitKeeps(env, s1, timestamp, ControlPacket(e.s, AckV1, e.s.receiver.pendingAcks, None, []));
      case Resend(now, timestamp, list) =>
        ResendsKeep(env, e.s.(sender := RetransmitStep(DEFAULT_CONFIG, e.s.sender, now)), timestamp, list);
      case Rotate =>
    }
  }

  lemma DeliveredState(env: Env, e: End, now: real, data: seq<byte>)
    ensures Act(env, e, Deliver(now, data)).s.state
            == ServerSteps.StateAfter(e.s.state, ProcessPacket(env, e.s, now, data).0)
  {
    hide ProcessPacket, Admitted, ServerSteps.StateAfter;
    ServerSteps.OutcomeDecidesState(env, e.s, now, data);
  }

  lemma FreshState(w: World, toA: bool)
    requires Fresh(w)
    ensures To(w, toA).s.state == Initial
  {
  }

  /** In every run of two fresh ends, whatever is delivered: the protocol state of an end is the one that the
      last accepted hard reset or soft reset leads to, and the initial one before. */
  lemma {:induction false} StateExact(env: Env, w: World, evs: seq<Event>, toA: bool)
    requires Fresh(w)
    ensures To(Run(env, w, evs), toA).s.state == StateOf(env, w, evs, toA)
  {
    if evs == [] {
      FreshState(w, toA);
    } else {
      hide Act, Fresh, ProcessPacket;
      var n := |evs| - 1;
      StateExact(env, w, evs[..n], toA);
      var e := To(Run(env, w, evs[..n]), toA);
      if evs[n].action.Deliver? {
        DeliveredState(env, e, evs[n].action.now, evs[n].action.data);
      } else {
        StateKept(env, e, evs[n].action);
      }
    }
  }

  /** TLS records are handed on exactly when the expected control packet arrives, its payload fits the buffer and
      completes at least one record; then they are all the records complete by then, and the rest stays buffered. */
  lemma TlsDataIff(s: Session, p: Packet, records: seq<seq<byte>>)
    requires p.Control?
    ensures var (r, s') := Dispatch(s, p);
            r == Ok(TlsData(records))
            <==> && p.header.opcode == ControlV1 && p.messageId == Some(s.receiver.nextRecvId)
                 && |s.buffer| + |p.payload| <= 65536 && records == Cut(s.buffer + p.payload).0 != []
                 && s'.buffer == Cut(s.buffer + p.payload).1
  {
    hide Drain, Cut;
    var all := s.buffer + p.payload;
    assert Cut(all) == (Cut(all).0, Cut(all).1);
  }
}
