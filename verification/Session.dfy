/** The protocol session object: the imperative code, proved against the steps of SessionSteps. */
module Sessions {
  import opened Common
  import opened OpCodes
  import opened Packets
  import opened TlsAuth
  import opened ReplayProtection
  import opened Reliable
  import opened Reassembly
  import opened Chunking
  import opened PacketCiphers
  import opened KeyDerivation
  import opened DataChannels
  import opened SessionSteps

  class ProtocolSession {
    const env: Env
    const localId: SessionId
    var remoteId: Option<SessionId>
    var state: ProtocolState
    var currentKeyId: KeyId
    const reliable: ReliableTransport
    const reassembler: TlsRecordReassembler
    const table: ChannelTable
    var peerId: Option<u32>
    var auth: Option<HmacAuth>
    const replayWindow: ReplayWindow
    var stamp: u32

    ghost predicate Valid()
      reads this, replayWindow, table, table.Repr
    {
      && replayWindow.Valid() && replayWindow.width == TLS_AUTH_WINDOW
      && reliable.config == DEFAULT_CONFIG && reassembler.maxSize == MAX_BUFFER
      && table.Valid() && table.aead == env.aead
      && this !in table.Repr && reliable !in table.Repr && reassembler !in table.Repr && replayWindow !in table.Repr
    }

    ghost function State(): Session
      requires Valid()
      reads this, reliable, reassembler, replayWindow, table, table.Repr
    {
      Session(localId, remoteId, state, currentKeyId, reliable.SendHalf(), reliable.RecvHalf(),
              reassembler.buffer, table.Contents(), peerId, auth, replayWindow.arrivals, stamp)
    }

    constructor (env: Env, localId: SessionId, auth: Option<HmacAuth>)
      ensures Valid() && this.env == env && State() == NewSession(localId, auth)
      ensures fresh(reliable) && fresh(reassembler) && fresh(replayWindow) && fresh(table) && table.Repr == {}
    {
      this.env, this.localId, this.auth := env, localId, auth;
      remoteId, state, currentKeyId, peerId, stamp := None, Initial, 0, None, 1;
      table := new ChannelTable(env.aead);
      reliable := new ReliableTransport(DEFAULT_CONFIG);
      reassembler := new TlsRecordReassembler(MAX_BUFFER);
      replayWindow := new ReplayWindow(TLS_AUTH_WINDOW);
    }

    // -------------------------------------------------------------- incoming

    method Process(now: real, data: seq<byte>) returns (r: Result<Processed, ProtocolError>)
      requires Valid()
      modifies this, reliable, reassembler, replayWindow, table.Repr
      ensures Valid() && table.Repr == old(table.Repr)
      ensures (r, State()) == ProcessPacket(env, old(State()), now, data)
    {
      hide ChannelTable.Valid, ChannelTable.Contents, ProcessControl, ProcessData, HmacError, ParsePacket;
      if auth.Some? {
        var failure := HmacError(env.mac, auth.value.rxKey, data);
        if failure.Some? {
          return Err(failure.value);
        }
      }
      var parsed := Parse(data, auth.Some?);
      if parsed.Err? {
        return Err(parsed.error);
      }
      if parsed.value.Control? {
        r := ProcessControlPacket(now, parsed.value);
      } else {
        r := ProcessDataPacket(parsed.value);
      }
    }

    method ProcessControlPacket(now: real, p: Packet) returns (r: Result<Processed, ProtocolError>)
      requires Valid() && p.Control?
      modifies this, reliable, reassembler, replayWindow
      ensures Valid()
      ensures (r, State()) == ProcessControl(old(State()), now, p)
    {
      hide ChannelTable.Valid, ChannelTable.Contents, Admits, AckStep, Dispatch;
      if auth.Some? && p.header.packetId.Some? {
        var admitted := replayWindow.CheckAndUpdate(p.header.packetId.value);
        if !admitted {
          return Err(ReplayDetected);
        }
      }
      if p.acks != [] {
        reliable.ProcessAcks(now, p.acks);
      }
      r := DispatchPacket(p);
    }

    method DispatchPacket(p: Packet) returns (r: Result<Processed, ProtocolError>)
      requires Valid() && p.Control?
      modifies this, reliable, reassembler
      ensures Valid()
      ensures (r, State()) == Dispatch(old(State()), p)
    {
      hide ChannelTable.Valid, ChannelTable.Contents, AcceptReset, AcceptTls;
      match p.header.opcode {
        case HardResetClientV2 =>
          if p.header.sessionId == Some(ZERO_ID) {
            return Err(InvalidSessionId);
          }
          r := ReceiveReset(p, HardReset(localId));
        case HardResetClientV3 =>
          if p.header.sessionId == Some(ZERO_ID) {
            return Err(InvalidSessionId);
          }
          r := ReceiveReset(p, HardReset(localId));
        case HardResetServerV2 =>
          r := ReceiveReset(p, HardResetAck);
        case ControlV1 =>
          r := ReceiveTls(p);
        case AckV1 =>
          return Ok(Nothing);
        case SoftResetV1 =>
          state := Rekeying;
          return Ok(SoftReset);
        case _ =>
          return Err(UnknownOpcode(p.header.opcode.Code()));
      }
    }

    method ReceiveReset(p: Packet, outcome: Processed) returns (r: Result<Processed, ProtocolError>)
      requires Valid() && p.Control?
      modifies this, reliable
      ensures Valid()
      ensures (r, State()) == AcceptReset(old(State()), p, outcome)
    {
      hide ChannelTable.Valid, ChannelTable.Contents, ReceiveStep;
      if p.header.sessionId.Some? {
        remoteId := p.header.sessionId;
      }
      if p.messageId.Some? {
        var received := reliable.Receive(p.messageId.value, []);
        if received.Err? {
          return Err(received.error);
        }
      }
      state := TlsHandshake;
      return Ok(outcome);
    }

    method ReceiveTls(p: Packet) returns (r: Result<Processed, ProtocolError>)
      requires Valid() && p.Control?
      modifies reliable, reassembler
      ensures Valid()
      ensures (r, State()) == AcceptTls(old(State()), p)
    {
      hide ChannelTable.Valid, ChannelTable.Contents, ReceiveStep, Cut;
      if p.messageId.Some? {
        var received := reliable.Receive(p.messageId.value, p.payload);
        if received.Err? {
          return Err(received.error);
        }
        if received.value.Some? {
          var added := reassembler.Add(received.value.value);
          if added.Err? {
            return Err(added.error);
          }
          var records := reassembler.ExtractRecords();
          if records != [] {
            return Ok(TlsData(records));
          }
        }
      }
      return Ok(Nothing);
    }

    method ProcessDataPacket(p: Packet) returns (r: Result<Processed, ProtocolError>)
      requires Valid() && p.Data?
      modifies table.Repr
      ensures Valid() && table.Repr == old(table.Repr)
      ensures (r, State()) == ProcessData(env, old(State()), p)
    {
      hide ChannelTable.Valid, ChannelDecrypt;
      var k := p.header.keyId;
      if k !in table.channels {
        return Err(KeyNotAvailable(k));
      }
      var plain := table.Decrypt(k, DataPacket(k, p.peerId, p.payload));
      if plain.Err? {
        return Err(plain.error);
      }
      return Ok(DataOut(plain.value));
    }

    // -------------------------------------------------------------- outgoing

    method MaybeWrap(timestamp: u32, p: Packet) returns (wire: seq<byte>)
      requires Valid()
      modifies this`stamp
      ensures Valid()
      ensures (wire, State()) == Emit(env, old(State()), timestamp, p)
    {
      hide ChannelTable.Valid, ChannelTable.Contents, PacketBytes, Wrap;
      wire := Serialize(p);
      if auth.Some? && |wire| >= 9 {
        wire := Wrap(env.mac, auth.value.txKey, wire, stamp, timestamp);
        stamp := Wrapping(stamp + 1);
      }
    }

    /** The client's first packet: key id 0, no acks, no remote session id. */
    method CreateHardResetClient(now: real, timestamp: u32) returns (r: Result<seq<byte>, ProtocolError>)
      requires Valid()
      modifies this`stamp, reliable
      ensures Valid()
      ensures (r, State()) == SendClientReset(env, old(State()), now, timestamp)
    {
      hide ChannelTable.Valid, ChannelTable.Contents, SendStep, Emit;
      var sent := reliable.Send(now, []);
      if sent.Err? {
        return Err(sent.error);
      }
      var p := Control(Header(HardResetClientV2, 0, Some(localId), None, None, None), None, [], Some(sent.value), []);
      var wire := MaybeWrap(timestamp, p);
      return Ok(wire);
    }

    /** The server's answer: key id 0 and all pending acks. */
    method CreateHardResetResponse(now: real, timestamp: u32) returns (r: Result<seq<byte>, ProtocolError>)
      requires Valid()
      modifies this`stamp, reliable
      ensures Valid()
      ensures (r, State()) == SendControl(env, old(State()), now, timestamp, HardResetServerV2, [])
    {
      hide ChannelTable.Valid, ChannelTable.Contents, SendStep, Emit;
      var sent := reliable.Send(now, []);
      if sent.Err? {
        return Err(sent.error);
      }
      var acks := reliable.GetAcks();
      var p := Control(Header(HardResetServerV2, 0, Some(localId), None, None, None), remoteId, acks,
                       Some(sent.value), []);
      var wire := MaybeWrap(timestamp, p);
      return Ok(wire);
    }

    method CreateControlPacket(now: real, timestamp: u32, payload: seq<byte>)
      returns (r: Result<seq<byte>, ProtocolError>)
      requires Valid()
      modifies this`stamp, reliable
      ensures Valid()
      ensures (r, State()) == SendControl(env, old(State()), now, timestamp, ControlV1, payload)
    {
      hide ChannelTable.Valid, ChannelTable.Contents, SendStep, Emit;
      var sent := reliable.Send(now, payload);
      if sent.Err? {
        return Err(sent.error);
      }
      var acks := reliable.GetAcks();
      var p := Control(Header(ControlV1, currentKeyId, Some(localId), None, None, None), remoteId, acks,
                       Some(sent.value), payload);
      var wire := MaybeWrap(timestamp, p);
      return Ok(wire);
    }

    /** Splits the data over as many packets as needed. */
    method CreateControlPackets(now: real, timestamp: u32, tlsData: seq<byte>)
      returns (r: Result<seq<seq<byte>>, ProtocolError>)
      requires Valid()
      modifies this`stamp, reliable
      ensures Valid()
      ensures (r, State()) == SendChunks(env, old(State()), now, timestamp, Chunks(tlsData))
    {
      hide ChannelTable.Valid, ChannelTable.Contents, SendControl;
      ghost var start := State();
      var packets: seq<seq<byte>> := [];
      if |tlsData| <= MAX_CONTROL_PAYLOAD {
        var packet := CreateControlPacket(now, timestamp, tlsData);
        OnlyChunk(env, start, now, timestamp, tlsData);
        if packet.Err? {
          return Err(packet.error);
        }
        packets := packets + [packet.value];
        assert packets == [packet.value];
      } else {
        var offset := 0;
        assert tlsData[0..] == tlsData;
        AfterNothing(SendChunks(env, start, now, timestamp, Chunks(tlsData)));
        while offset < |tlsData|
          invariant 0 <= offset <= |tlsData| && Valid()
          invariant SendChunks(env, start, now, timestamp, Chunks(tlsData))
                 == After(packets, SendChunks(env, State(), now, timestamp, Remaining(tlsData[offset..])))
        {
          var end := Min(offset + MAX_CONTROL_PAYLOAD, |tlsData|);
          ghost var before, left := State(), tlsData[offset..];
          assert tlsData[offset..end] == left[..end - offset] && tlsData[end..] == left[end - offset..];
          var packet := CreateControlPacket(now, timestamp, tlsData[offset..end]);
          NextChunk(env, before, now, timestamp, left);
          if packet.Err? {
            return Err(packet.error);
          }
          AfterNext(packets, packet.value, SendChunks(env, State(), now, timestamp, Remaining(tlsData[end..])));
          packets := packets + [packet.value];
          offset := end;
        }
        assert packets + [] == packets;
      }
      return Ok(packets);
    }

    method CreateAckPacket(timestamp: u32) returns (r: Option<seq<byte>>)
      requires Valid()
      modifies this`stamp, reliable
      ensures Valid()
      ensures (r, State()) == SendAcks(env, old(State()), timestamp)
    {
      hide ChannelTable.Valid, ChannelTable.Contents, Emit;
      var acks := reliable.GetAcks();
      if acks == [] {
        return None;
      }
      var p := Control(Header(AckV1, currentKeyId, Some(localId), None, None, None), remoteId, acks, None, []);
      var wire := MaybeWrap(timestamp, p);
      return Some(wire);
    }

    method GetRetransmits(now: real, timestamp: u32) returns (wires: seq<seq<byte>>, ghost list: seq<(u32, seq<byte>)>)
      requires Valid()
      modifies this`stamp, reliable
      ensures Valid()
      ensures IsRetransmitList(DEFAULT_CONFIG, old(State()).sender.pending, now, list)
      ensures var bumped := old(State()).(sender := RetransmitStep(DEFAULT_CONFIG, old(State()).sender, now));
              (wires, State()) == EmitResends(env, bumped, timestamp, list)
    {
      hide ChannelTable.Valid, ChannelTable.Contents, Emit, BumpDue, IsRetransmitList;
      var due := reliable.GetRetransmits(now);
      list := due;
      ghost var start := State();
      wires := [];
      assert [] + EmitResends(env, State(), timestamp, due[0..]).0 == EmitResends(env, State(), timestamp, due).0 by {
        assert due[0..] == due;
      }
      for i := 0 to |due|
        invariant Valid()
        invariant EmitResends(env, start, timestamp, due)
               == (wires + EmitResends(env, State(), timestamp, due[i..]).0, EmitResends(env, State(), timestamp, due[i..]).1)
      {
        assert due[i..][1..] == due[i + 1..];
        ghost var before := State();
        var p := Control(Header(ControlV1, currentKeyId, Some(localId), None, None, None), remoteId, [],
                         Some(due[i].0), due[i].1);
        var wire := MaybeWrap(timestamp, p);
        assert wires + ([wire] + EmitResends(env, State(), timestamp, due[i + 1..]).0)
            == wires + [wire] + EmitResends(env, State(), timestamp, due[i + 1..]).0;
        wires := wires + [wire];
      }
      assert wires + [] == wires;
    }

    /** Encrypts with the channel of the current key id. */
    method Encrypt(plain: seq<byte>) returns (r: Result<seq<byte>, ProtocolError>)
      requires Valid() && Correct(env.aead)
      modifies table.Repr
      ensures Valid() && table.Repr == old(table.Repr)
      ensures (r, State()) == EncryptData(env, old(State()), plain)
    {
      hide ChannelTable.Valid, ChannelEncrypt, DataBytes, Correct;
      if currentKeyId !in table.channels {
        return Err(KeyNotAvailable(currentKeyId));
      }
      var packet := table.Encrypt(currentKeyId, plain);
      if packet.Err? {
        return Err(packet.error);
      }
      return Ok(DataBytes(packet.value));
    }

    method Rotate()
      requires Valid()
      modifies this`currentKeyId, replayWindow
      ensures Valid()
      ensures State() == RotateKey(old(State()))
    {
      hide ChannelTable.Valid, ChannelTable.Contents;
      currentKeyId := NextKeyId(currentKeyId);
      replayWindow.Reset();
    }

    method Install(km: KeyMaterial, isServer: bool)
      requires Valid()
      modifies table
      ensures Valid() && fresh(table.Repr - old(table.Repr))
      ensures State() == InstallKeys(old(State()), km, isServer)
    {
      hide ChannelTable.Valid, ChannelTable.Contents, NewChannel;
      var encKey, decKey := ClientDataKey(km), ServerDataKey(km);
      if isServer {
        encKey, decKey := ServerDataKey(km), ClientDataKey(km);
      }
      table.Install(currentKeyId, encKey, decKey, peerId.Some?, peerId);
    }
  }

  // ---------------------------------------------------------------- the chunking loop

  /** The chunks still to send, given what is left of data longer than one chunk. */
  ghost function Remaining(left: seq<byte>): seq<seq<byte>> {
    if left == [] then [] else Chunks(left)
  }

  /** The outcome of a send that continues after `packets` were already made. */
  ghost function After(packets: seq<seq<byte>>, r: (Result<seq<seq<byte>>, ProtocolError>, Session))
    : (Result<seq<seq<byte>>, ProtocolError>, Session)
  {
    match r.0
    case Ok(more) => (Ok(packets + more), r.1)
    case Err(e) => (Err(e), r.1)
  }

  lemma AfterNothing(r: (Result<seq<seq<byte>>, ProtocolError>, Session))
    ensures After([], r) == r
  {
    if r.0.Ok? {
      assert [] + r.0.value == r.0.value;
    }
    assert r == (r.0, r.1);
  }

  lemma AfterNext(packets: seq<seq<byte>>, next: seq<byte>, r: (Result<seq<seq<byte>>, ProtocolError>, Session))
    ensures After(packets, After([next], r)) == After(packets + [next], r)
  {
    if r.0.Ok? {
      assert packets + ([next] + r.0.value) == packets + [next] + r.0.value;
    }
  }

  lemma OnlyChunk(env: Env, s: Session, now: real, timestamp: u32, data: seq<byte>)
    requires |data| <= MAX_CONTROL_PAYLOAD
    ensures var (r, s1) := SendControl(env, s, now, timestamp, ControlV1, data);
            SendChunks(env, s, now, timestamp, Chunks(data))
            == (match r case Ok(wire) => Ok([wire]) case Err(e) => Err(e), s1)
  {
    hide SendControl;
    assert Chunks(data)[1..] == [];
    var (r, s1) := SendControl(env, s, now, timestamp, ControlV1, data);
    assert SendChunks(env, s1, now, timestamp, []) == (Ok([]), s1);
    assert r.Ok? ==> [r.value] + [] == [r.value];
  }

  lemma NextChunk(env: Env, s: Session, now: real, timestamp: u32, left: seq<byte>)
    requires left != []
    ensures var end := Min(MAX_CONTROL_PAYLOAD, |left|);
            var (r, s1) := SendControl(env, s, now, timestamp, ControlV1, left[..end]);
            SendChunks(env, s, now, timestamp, Chunks(left))
            == if r.Err? then (Err(r.error), s1)
               else After([r.value], SendChunks(env, s1, now, timestamp, Remaining(left[end..])))
  {
    hide SendControl;
    var end := Min(MAX_CONTROL_PAYLOAD, |left|);
    var rest := Remaining(left[end..]);
    assert left[..|left|] == left;
    assert Chunks(left) == [left[..end]] + rest;
    assert Chunks(left)[1..] == rest;
  }
}
