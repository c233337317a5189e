/** tls-auth over whole runs of two ends: the packet ids of one end only grow, so the other end's replay window
    lets every new packet through and rejects every copy. */
module TlsAuthRuns {
  import opened Common
  import opened OpCodes
  import opened Packets
  import opened TlsAuth
  import opened ReplayProtection
  import opened Reliable
  import opened SessionSteps
  import opened ControlChannel
  import opened Handshakes
  import SendRuns
  import ReceiveRuns

  // ---------------------------------------------------------------- the receiving end

  /** A control packet gets through exactly if it decodes and, with tls-auth, a 64-wide window over the ids
      checked since the last key rotation admits its id, which is then among the checked ones. */
  lemma AdmittedIff(env: Env, s: Session, now: real, data: seq<byte>)
    ensures var d := Decode(env, s, data);
            && (Admitted(env, s, data).Some?
                <==> && d.Ok? && d.value.Control?
                     && (s.auth.Some? && d.value.header.packetId.Some? ==>
                           Admits(64, s.arrivals, d.value.header.packetId.value)))
            && ProcessPacket(env, s, now, data).1.arrivals
               == if d.Ok? && d.value.Control? && s.auth.Some? && d.value.header.packetId.Some?
                  then s.arrivals + [d.value.header.packetId.value] else s.arrivals
  {
    hide Decode, Admits, AckStep, Dispatch;
    var d := Decode(env, s, data);
    if d.Ok? && d.value.Control? {
      DispatchArrivals(TakeAcks(CheckReplay(s, d.value).1, now, d.value.acks), d.value);
    }
  }

  lemma DispatchArrivals(s: Session, p: Packet)
    requires p.Control?
    ensures Dispatch(s, p).1.arrivals == s.arrivals
  {
    hide ReceiveStep;
  }

  /** With tls-auth, a datagram that was checked once is rejected as a replay ever after. */
  lemma CopyRejected(env: Env, s: Session, now: real, data: seq<byte>)
    requires var d := Decode(env, s, data);
             && d.Ok? && d.value.Control? && s.auth.Some? && d.value.header.packetId.Some?
             && d.value.header.packetId.value in s.arrivals
    ensures ProcessPacket(env, s, now, data).0 == Err(ReplayDetected)
  {
    hide Decode;
  }

  // ---------------------------------------------------------------- the sending end

  /** The packet id the other end reads from a wire packet. */
  function StampOf(env: Env, y: Session, wire: seq<byte>): Option<u32> {
    var d := Decode(env, y, wire);
    if d.Ok? && d.value.Control? then d.value.header.packetId else None
  }

  /** With tls-auth every emitted packet carries the counter, which then advances. */
  lemma EmitStamps(env: Env, x: Session, y: Session, timestamp: u32, p: Packet)
    requires KeysAgree(x, y) && Emitted(p, false) && x.auth.Some? && x.stamp + 1 < U32_LIMIT
    ensures var (wire, x') := Emit(env, x, timestamp, p);
            && x' == x.(stamp := x.stamp + 1)
            && (Decode(env, y, wire).Ok? ==> StampOf(env, y, wire) == Some(x.stamp))
  {
    hide PacketBytes, ParsePacket, Decode, Wrap, KeysAgree, Emitted;
    EmittedBytes(p);
    Handshakes.ParsedHeader(p);
    DecodedEmit(env, x, y, timestamp, p);
  }

  /** The wires emitted by an action have ids from the counter before it to the counter after it. */
  ghost predicate StampsGrow(env: Env, x: End, x': End, y: Session) {
    && x.s.stamp <= x'.s.stamp <= x.s.stamp + 8
    && forall wire | wire in x'.out :: wire in x.out || StampBetween(env, y, wire, x.s.stamp, x'.s.stamp)
  }

  predicate StampBetween(env: Env, y: Session, wire: seq<byte>, from: int, to: int) {
    Decode(env, y, wire).Ok? ==> StampOf(env, y, wire).Some? && from <= StampOf(env, y, wire).value < to
  }

  lemma SendStamps(env: Env, x: End, now: real, timestamp: u32, opcode: OpCode, payload: seq<byte>, y: Session)
    requires KeysAgree(x.s, y) && x.s.auth.Some? && x.s.stamp + 8 < U32_LIMIT
    requires opcode == ControlV1 || opcode == HardResetServerV2
    ensures StampsGrow(env, x, AfterSend(env, x, now, timestamp, opcode, payload), y)
  {
    hide SendStep, Emit, Decode, CanCarryAcks;
    var (r, sender') := SendStep(DEFAULT_CONFIG, x.s.sender, now, payload);
    if r.Ok? {
      var s1 := x.s.(sender := sender', receiver := x.s.receiver.(pendingAcks := []));
      EmitStamps(env, s1, y, timestamp, ControlPacket(x.s, opcode, x.s.receiver.pendingAcks, Some(r.value), payload));
    }
  }

  lemma ResetStamps(env: Env, x: End, now: real, timestamp: u32, y: Session)
    requires KeysAgree(x.s, y) && x.s.auth.Some? && x.s.stamp + 8 < U32_LIMIT
    ensures StampsGrow(env, x, Act(env, x, ClientReset(now, timestamp)), y)
  {
    hide SendStep, Emit, Decode;
    var (r, sender') := SendStep(DEFAULT_CONFIG, x.s.sender, now, []);
    if r.Ok? {
      var p := Control(Header(HardResetClientV2, 0, Some(x.s.localId), None, None, None), None, [], Some(r.value), []);
      EmitStamps(env, x.s.(sender := sender'), y, timestamp, p);
    }
  }

  lemma AckStamps(env: Env, x: End, timestamp: u32, y: Session)
    requires KeysAgree(x.s, y) && x.s.auth.Some? && x.s.stamp + 8 < U32_LIMIT
    ensures StampsGrow(env, x, Act(env, x, AckPacket(timestamp)), y)
  {
    hide Emit, Decode;
    if x.s.receiver.pendingAcks != [] {
      var s1 := x.s.(receiver := x.s.receiver.(pendingAcks := []));
      EmitStamps(env, s1, y, timestamp, ControlPacket(x.s, AckV1, x.s.receiver.pendingAcks, None, []));
    }
  }

  lemma {:induction false} ResendStamps(env: Env, s: Session, y: Session, timestamp: u32, list: seq<(u32, seq<byte>)>)
    requires KeysAgree(s, y) && s.auth.Some? && s.stamp + |list| < U32_LIMIT
    ensures var (wires, s') := EmitResends(env, s, timestamp, list);
            && s' == s.(stamp := s.stamp + |list|)
            && forall wire | wire in wires :: StampBetween(env, y, wire, s.stamp, s'.stamp)
    decreases |list|
  {
    hide Emit, Decode;
    if list != [] {
      var p := ControlPacket(s, ControlV1, [], Some(list[0].0), list[0].1);
      EmitStamps(env, s, y, timestamp, p);
      ResendStamps(env, s.(stamp := s.stamp + 1), y, timestamp, list[1..]);
    }
  }

  function IdsOf(list: seq<(u32, seq<byte>)>): set<u32> {
    set e | e in list :: e.0
  }

  lemma {:induction false} DistinctIds(list: seq<(u32, seq<byte>)>)
    requires AscendingIds(list)
    ensures |IdsOf(list)| == |list|
  {
    if list != [] {
      var n := |list| - 1;
      DistinctIds(list[..n]);
      assert IdsOf(list) == IdsOf(list[..n]) + {list[n].0} by {
        assert list == list[..n] + [list[n]];
      }
      assert list[n].0 !in IdsOf(list[..n]);
    }
  }

  /** At most a window of packets is resent at once. */
  lemma ResendCount(c: Config, pending: map<u32, Pending>, now: real, list: seq<(u32, seq<byte>)>)
    requires IsRetransmitList(c, pending, now, list)
    ensures |list| <= |pending|
  {
    DistinctIds(list);
    assert IdsOf(list) <= pending.Keys;
    SubsetSize(IdsOf(list), pending.Keys);
  }

  lemma ActStamps(env: Env, x: End, action: Action, y: Session)
    requires HalvesTracked(x) && |x.sendOps| < U32_LIMIT && KeysAgree(x.s, y) && Enabled(x, action)
    requires x.s.auth.Some? && x.s.stamp + 8 < U32_LIMIT
    ensures StampsGrow(env, x, Act(env, x, action), y)
  {
    match action {
      case SendPacket(now, timestamp, opcode, payload) => SendStamps(env, x, now, timestamp, opcode, payload, y);
      case ClientReset(now, timestamp) => ResetStamps(env, x, now, timestamp, y);
      case AckPacket(timestamp) => AckStamps(env, x, timestamp, y);
      case Resend(now, timestamp, list) =>
        SendRuns.SendInvariant(DEFAULT_CONFIG, x.sendOps);
        hide Decode, StampOf, EmitResends, IsRetransmitList, SendRuns.Run, BumpDue;
        ResendCount(DEFAULT_CONFIG, x.s.sender.pending, now, list);
        ResendStamps(env, x.s.(sender := RetransmitStep(DEFAULT_CONFIG, x.s.sender, now)), y, timestamp, list);
      case Deliver(now, data) =>
        hide Decode, StampOf;
        DeliverKeepsStamp(env, x.s, now, data);
      case Rotate => hide Decode;
    }
  }

  lemma DeliverKeepsStamp(env: Env, s: Session, now: real, data: seq<byte>)
    ensures ProcessPacket(env, s, now, data).1.stamp == s.stamp
  {
    hide Decode, Admits, AckStep, Dispatch;
    var d := Decode(env, s, data);
    if d.Ok? && d.value.Control? {
      DispatchKeepsStamp(TakeAcks(CheckReplay(s, d.value).1, now, d.value.acks), d.value);
    }
  }

  lemma DispatchKeepsStamp(s: Session, p: Packet)
    requires p.Control?
    ensures Dispatch(s, p).1.stamp == s.stamp
  {
    hide ReceiveStep;
  }

  // ---------------------------------------------------------------- runs

  /** Every id `x` has used, and every id `y` has checked, is below the counter of `x`. */
  ghost predicate StampsBelow(env: Env, x: End, y: End) {
    x.s.auth.Some? ==>
      && KeysAgree(x.s, y.s) && 1 <= x.s.stamp
      && (forall wire | wire in x.out :: StampBetween(env, y.s, wire, 0, x.s.stamp))
      && (forall a | a in y.s.arrivals :: a < x.s.stamp)
  }

  lemma SameDecode(env: Env, y: Session, y': Session, wire: seq<byte>)
    requires y'.auth == y.auth
    ensures Decode(env, y', wire) == Decode(env, y, wire)
  {
    hide Receive, ParsePacket;
  }

  lemma BelowFrom(env: Env, x: End, y: End, action: Action)
    requires HalvesTracked(x) && |x.sendOps| < U32_LIMIT && Enabled(x, action)
    requires StampsBelow(env, x, y) && x.s.stamp + 8 < U32_LIMIT
    ensures StampsBelow(env, Act(env, x, action), y)
  {
    AuthMaintained(env, x, action);
    if x.s.auth.Some? {
      ActStamps(env, x, action, y.s);
    }
    hide Act, HalvesTracked, Enabled, Decode, StampOf;
  }

  /** What `y` checks was sent by `x`, or is rejected because it is not above what was checked before. */
  lemma CheckedIsBelow(env: Env, x: End, y: End, now: real, data: seq<byte>)
    requires StampsBelow(env, x, y) && x.s.auth.Some? && FromPeer(env, x, y, Deliver(now, data))
    ensures forall a | a in ProcessPacket(env, y.s, now, data).1.arrivals :: a < x.s.stamp
  {
    AdmittedIff(env, y.s, now, data);
    hide ProcessPacket, Decode, CheckReplay;
  }

  lemma BelowTo(env: Env, x: End, y: End, action: Action)
    requires StampsBelow(env, x, y) && FromPeer(env, x, y, action)
    ensures StampsBelow(env, x, Act(env, y, action))
  {
    var y' := Act(env, y, action);
    AuthMaintained(env, y, action);
    ArrivalsChange(env, y, action);
    hide Act, Decode, ProcessPacket, FromPeer;
    if x.s.auth.Some? {
      if action.Deliver? {
        CheckedIsBelow(env, x, y, action.now, action.data);
      }
      forall wire | wire in x.out
        ensures StampBetween(env, y'.s, wire, 0, x.s.stamp)
      {
        SameDecode(env, y.s, y'.s, wire);
      }
    }
  }

  /** Only a delivery checks an id, and only a rotation forgets them. */
  lemma ArrivalsChange(env: Env, e: End, action: Action)
    ensures Act(env, e, action).s.arrivals
            == match action
               case Deliver(now, data) => ProcessPacket(env, e.s, now, data).1.arrivals
               case Rotate => []
               case _ => e.s.arrivals
  {
    hide Emit, EmitResends, ProcessPacket, SendStep, BumpDue;
    match action {
      case SendPacket(now, timestamp, opcode, payload) =>
        var (r, sender') := SendStep(DEFAULT_CONFIG, e.s.sender, now, payload);
        if r.Ok? {
          var s1 := e.s.(sender := sender', receiver := e.s.receiver.(pendingAcks := []));
          EmitKeeps(env, s1, timestamp, ControlPacket(e.s, opcode, e.s.receiver.pendingAcks, Some(r.value), payload));
        }
      case ClientReset(now, timestamp) =>
        var (r, sender') := SendStep(DEFAULT_CONFIG, e.s.sender, now, []);
        if r.Ok? {
          var p := Control(Header(HardResetClientV2, 0, Some(e.s.localId), None, None, None), None, [], Some(r.value), []);
          EmitKeeps(env, e.s.(sender := sender'), timestamp, p);
        }
      case AckPacket(timestamp) =>
        var s1 := e.s.(receiver := e.s.receiver.(pendingAcks := []));
        EmitKeeps(env, s1, timestamp, ControlPacket(e.s, AckV1, e.s.receiver.pendingAcks, None, []));
      case Resend(now, timestamp, list) =>
        ResendsKeep(env, e.s.(sender := RetransmitStep(DEFAULT_CONFIG, e.s.sender, now)), timestamp, list);
      case Deliver(now, data) =>
      case Rotate =>
    }
  }

  /** In every run of fewer than 2^29 - 1 events. */
  lemma {:induction false} StampsThroughout(env: Env, w: World, evs: seq<Event>, toA: bool)
    requires Fresh(w) && PossibleRun(env, w, evs) && 8 * (|evs| + 1) < U32_LIMIT
    ensures var w' := Run(env, w, evs);
            && StampsBelow(env, From(w', toA), To(w', toA))
            && (From(w', toA).s.auth.Some? ==> From(w', toA).s.stamp <= 1 + 8 * |evs|)
  {
    if evs == [] {
      FreshStamps(env, w, toA);
    } else {
      var before, ev := evs[..|evs| - 1], evs[|evs| - 1];
      PossiblePrefix(env, w, evs);
      RunInvariant(env, w, before);
      var v := Run(env, w, before);
      hide Act, HalvesTracked, Flow, Enabled, FromPeer, Fresh, PossibleRun, StampBetween;
      StampsThroughout(env, w, before, toA);
      if ev.atA == toA {
        BelowTo(env, From(v, toA), To(v, toA), ev.action);
      } else {
        var x := From(v, toA);
        AuthMaintained(env, x, ev.action);
        if x.s.auth.Some? {
          BelowFrom(env, x, To(v, toA), ev.action);
          ActStamps(env, x, ev.action, To(v, toA).s);
        }
      }
    }
  }

  lemma FreshStamps(env: Env, w: World, toA: bool)
    requires Fresh(w)
    ensures StampsBelow(env, From(w, toA), To(w, toA)) && From(w, toA).s.stamp == 1
  {
  }

  /** In every such run: a packet that an end puts on the wire now passes the other end's replay check, if it is
      delivered next and decodes. */
  lemma NewPacketsPass(env: Env, w: World, evs: seq<Event>, toA: bool, action: Action, wire: seq<byte>)
    requires Fresh(w) && PossibleRun(env, w, evs) && 8 * (|evs| + 1) < U32_LIMIT
    requires var x := From(Run(env, w, evs), toA);
             Enabled(x, action) && wire in Act(env, x, action).out && wire !in x.out
    ensures var y := To(Run(env, w, evs), toA);
            Decode(env, y.s, wire).Ok? && Decode(env, y.s, wire).value.Control? ==> Admitted(env, y.s, wire).Some?
  {
    hide Run, Fresh, PossibleRun, Act, Enabled, HalvesTracked, GenuineWire, ReceiveRuns.Authentic, Sent, Decode, Admitted,
         StampsBelow;
    var x, y := From(Run(env, w, evs), toA), To(Run(env, w, evs), toA);
    RunInvariant(env, w, evs);
    StampsThroughout(env, w, evs, toA);
    NewPasses(env, x, y, action, wire);
  }

  lemma NewPasses(env: Env, x: End, y: End, action: Action, wire: seq<byte>)
    requires HalvesTracked(x) && |x.sendOps| < U32_LIMIT && Enabled(x, action) && KeysAgree(x.s, y.s)
    requires StampsBelow(env, x, y) && (x.s.auth.Some? ==> x.s.stamp + 8 < U32_LIMIT)
    requires wire in Act(env, x, action).out && wire !in x.out
    ensures Decode(env, y.s, wire).Ok? && Decode(env, y.s, wire).value.Control? ==> Admitted(env, y.s, wire).Some?
  {
    hide Act, Enabled, HalvesTracked, Decode, Admitted;
    AdmittedIff(env, y.s, 0.0, wire);
    if x.s.auth.Some? {
      ActStamps(env, x, action, y.s);
    }
  }

  // ---------------------------------------------------------------- copies

  lemma {:induction false} CheckedStays(env: Env, w: World, evs: seq<Event>, toA: bool, k: nat, id: nat)
    requires k <= |evs| && id in To(Run(env, w, evs[..k]), toA).s.arrivals
    requires forall i | k <= i < |evs| :: evs[i].atA == toA ==> !evs[i].action.Rotate?
    ensures id in To(Run(env, w, evs), toA).s.arrivals
    decreases |evs|
  {
    hide Act;
    if k == |evs| {
      assert evs[..k] == evs;
    } else {
      var n := |evs| - 1;
      assert evs[..n][..k] == evs[..k];
      CheckedStays(env, w, evs[..n], toA, k, id);
      if evs[n].atA == toA {
        ArrivalKept(env, To(Run(env, w, evs[..n]), toA), evs[n].action, id);
      }
    }
  }

  lemma ArrivalKept(env: Env, e: End, action: Action, id: nat)
    requires id in e.s.arrivals && !action.Rotate?
    ensures id in Act(env, e, action).s.arrivals
  {
    hide Act, ProcessPacket, Decode, Admitted;
    ArrivalsChange(env, e, action);
    if action.Deliver? {
      AdmittedIff(env, e.s, action.now, action.data);
    }
  }

  lemma DeliveryChecks(env: Env, e: End, now: real, data: seq<byte>)
    requires e.s.auth.Some? && StampOf(env, e.s, data).Some?
    ensures StampOf(env, e.s, data).value in Act(env, e, Deliver(now, data)).s.arrivals
  {
    hide Act, ProcessPacket, Decode, Admitted;
    ArrivalsChange(env, e, Deliver(now, data));
    AdmittedIff(env, e.s, now, data);
  }

  /** With tls-auth, in every run: a datagram delivered a second time to the same end, with no key rotation there
      in between, is rejected as a replay. */
  lemma CopiesRejected(env: Env, w: World, evs: seq<Event>, toA: bool, k: nat, now: real)
    requires k < |evs| && evs[k].atA == toA && evs[k].action.Deliver?
    requires forall i | k < i < |evs| :: evs[i].atA == toA ==> !evs[i].action.Rotate?
    requires var s := To(Run(env, w, evs[..k]), toA).s; s.auth.Some? && StampOf(env, s, evs[k].action.data).Some?
    ensures ProcessPacket(env, To(Run(env, w, evs), toA).s, now, evs[k].action.data).0 == Err(ReplayDetected)
  {
    hide Act, ProcessPacket, Decode;
    var e, data := To(Run(env, w, evs[..k]), toA), evs[k].action.data;
    RunNext(env, w, evs, k);
    DeliveryChecks(env, e, evs[k].action.now, data);
    hide Run;
    CheckedStays(env, w, evs, toA, k + 1, StampOf(env, e.s, data).value);
    EndAdvances(env, w, evs, k, toA);
    SameDecode(env, e.s, To(Run(env, w, evs), toA).s, data);
    CopyRejected(env, To(Run(env, w, evs), toA).s, now, data);
  }

  lemma RunNext(env: Env, w: World, evs: seq<Event>, k: nat)
    requires k < |evs|
    ensures Run(env, w, evs[..k + 1]) == Next(env, Run(env, w, evs[..k]), evs[k])
  {
    hide Next;
    assert evs[..k + 1][..k] == evs[..k];
  }
}
