/** One client of the running server: its session, the session of its connection, and the packets that
    reach the TUN device. The runs of the server are joined with those of the data path. */
module ServedData {
  import opened Common
  import opened SessionSteps
  import opened ServerSteps
  import opened ServerRuns
  import opened LoginTokens
  import opened DataPath
  import PacketCiphers
  import KeyMethods
  import CipherRuns
  import OpCodes
  import ReplayProtection
  import DataChannels
  import Packets

  /** The events of the server, what the two sessions did, and what went to the TUN device. */
  datatype Served = Served(events: seq<Event>, ops: seq<Op>, tun: seq<seq<byte>>)

  datatype Input =
    | AtClient(act: Act)
    | DataFrom(now: real, data: seq<byte>, room: bool)
    | ControlFrom(now: real, data: seq<byte>, answers: TlsAnswers)
    | FromConnection(act: Act)   // the server encrypts, answers, acknowledges or resends
    | Elsewhere(event: Event)    // other clients, completed logins, the cleanup, repeated hard resets

  /** The client, the key id in use, and the sessions right after both installed their keys. */
  datatype Setting = Setting(env: Env, cfg: Config, peer: Peer, k: OpCodes.KeyId, start: Path)

  ghost predicate Proper(c: Setting) {
    PacketCiphers.Correct(c.env.aead) && c.cfg.net.prefix <= 30 && c.start.y.channels.Keys == {c.k}
  }

  ghost function Sessions(c: Setting, w: Served): Path
    requires Proper(c)
  {
    DataPath.Run(c.env, c.k, c.start, w.ops)
  }

  function Now(c: Setting, w: Served): Server
    requires c.cfg.net.prefix <= 30
  {
    ServerRuns.Run(c.cfg, w.events)
  }

  /** The packets of `p` among the outputs of a handler. */
  function Handed(p: Peer, out: seq<Output>): seq<seq<byte>> {
    if out == [] then []
    else
      var n := |out| - 1;
      Handed(p, out[..n]) + if out[n].ToTun? && out[n].peer == p then [out[n].packet] else []
  }

  ghost function Result(c: Setting, w: Served, now: real, data: seq<byte>): Result<Processed, ProtocolError>
    requires Proper(c)
  {
    ProcessPacket(c.env, Sessions(c, w).y, now, data).0
  }

  /** The event of the server's loop that an input is, if it is one. */
  ghost function EventOf(c: Setting, w: Served, input: Input): Option<Event>
    requires Proper(c)
  {
    match input
    case DataFrom(now, data, room) => Some(DataIn(now, c.peer, Result(c, w, now, data), room))
    case ControlFrom(now, data, answers) => Some(ControlIn(now, c.peer, Result(c, w, now, data), answers))
    case Elsewhere(event) => Some(event)
    case _ => None
  }

  predicate Serving(s: Server, p: Peer) { p in s.connections && s.connections[p].state == Established }

  /** What the sessions do: data packets are processed only once the connection is established. */
  function OpsOf(c: Setting, s: Server, input: Input): seq<Op> {
    match input
    case AtClient(act) => [AtX(act)]
    case FromConnection(act) => [AtY(act)]
    case DataFrom(now, data, _) => if Serving(s, c.peer) then [AtY(Present(now, data))] else []
    case ControlFrom(now, data, _) => [AtY(Present(now, data))]
    case Elsewhere(_) => []
  }

  ghost function After(c: Setting, w: Served, input: Input): Served
    requires Proper(c)
  {
    var ops, e := w.ops + OpsOf(c, Now(c, w), input), EventOf(c, w, input);
    if e.None? then w.(ops := ops)
    else Served(w.events + [e.value], ops, w.tun + Handed(c.peer, ServerRuns.Step(c.cfg, Now(c, w), e.value).1))
  }

  /** The control packet completes a key exchange, after which keys are installed. */
  predicate Rekeys(s: Server, p: Peer, r: Result<Processed, ProtocolError>, t: TlsAnswers) {
    && p in s.connections && s.connections[p].tls && r.Ok? && r.value.TlsData?
    && t.processed && t.complete && AwaitingKeys(s.connections[p].(state := StateAfter(s.connections[p].state, r)))
    && t.plain.Some? && KeyMethods.ParseClient(t.plain.value).Ok? && t.keyed
  }

  /** The input neither replaces the connection or its keys, nor the keys of the client. */
  ghost predicate Keeps(c: Setting, w: Served, input: Input)
    requires Proper(c)
  {
    match input
    case AtClient(act) => !Reinstalls(Sessions(c, w).x, c.k, act)
    case FromConnection(act) => act.Encrypt? || act.Send? || act.Acknowledge? || act.Resend?
    case DataFrom(_, _, _) => true
    case ControlFrom(now, data, answers) => !Rekeys(Now(c, w), c.peer, Result(c, w, now, data), answers)
    case Elsewhere(e) =>
      var (s', out) := ServerRuns.Step(c.cfg, Now(c, w), e);
      && (e.DataIn? || e.ControlIn? ==> e.peer != c.peer)
      && c.peer in s'.connections && forall o | o in out :: o.NewReset? ==> o.peer != c.peer
  }

  ghost function Run(c: Setting, before: seq<Event>, inputs: seq<Input>): Served
    requires Proper(c)
  {
    if inputs == [] then Served(before, [], [])
    else After(c, Run(c, before, inputs[..|inputs| - 1]), inputs[|inputs| - 1])
  }

  /** The same connection and the same keys throughout. */
  ghost predicate Undisturbed(c: Setting, before: seq<Event>, inputs: seq<Input>)
    requires Proper(c)
  {
    inputs == [] ||
    var n := |inputs| - 1;
    Undisturbed(c, before, inputs[..n]) && Keeps(c, Run(c, before, inputs[..n]), inputs[n])
  }

  // ---------------------------------------------------------------- what reaches the TUN device was delivered

  /** `a` is `b` with some elements left out. */
  predicate Sublist(a: seq<seq<byte>>, b: seq<seq<byte>>) {
    a == [] ||
    (b != [] && var m, n := |a| - 1, |b| - 1;
                Sublist(a, b[..n]) || (a[m] == b[n] && Sublist(a[..m], b[..n])))
  }

  lemma SublistGrows(a: seq<seq<byte>>, b: seq<seq<byte>>, x: seq<byte>)
    requires Sublist(a, b)
    ensures Sublist(a, b + [x]) && Sublist(a + [x], b + [x])
  {
    assert (b + [x])[..|b|] == b && (a + [x])[..|a|] == a;
  }

  ghost predicate Good(c: Setting, w: Served)
    requires Proper(c)
  {
    && Lasting(c.env, c.k, c.start, w.ops)
    && Sessions(c, w).y.channels.Keys == {c.k}
    && Sublist(w.tun, Sessions(c, w).delivered)
  }

  lemma NothingHanded(p: Peer, out: seq<Output>)
    requires forall o | o in out :: o.ToTun? ==> o.peer != p
    ensures Handed(p, out) == []
  {
    if out != [] {
      var n := |out| - 1;
      NothingHanded(p, out[..n]);
      assert out[n] in out;
    }
  }

  /** Only a data packet from the client itself, on its established connection, is handed over. */
  lemma OthersHandNothing(cfg: Config, s: Server, e: Event, p: Peer)
    requires cfg.net.prefix <= 30 && !(e.DataIn? && e.peer == p && Serving(s, p))
    ensures Handed(p, ServerRuns.Step(cfg, s, e).1) == []
  {
    hide ServerRuns.Step, Handed;
    var out := ServerRuns.Step(cfg, s, e).1;
    forall o | o in out
      ensures o.ToTun? ==> o.peer != p
    {
      if o.ToTun? {
        assert o == ToTun(o.peer, o.packet);
        ForwardsIff(cfg, s, e, o.peer, o.packet);
      }
    }
    NothingHanded(p, out);
  }

  /** A data packet hands over what the session returned, or nothing. */
  lemma DataHands(cfg: Config, s: Server, now: real, p: Peer, r: Result<Processed, ProtocolError>, room: bool)
    requires cfg.net.prefix <= 30
    ensures var h := Handed(p, ServerRuns.Step(cfg, s, DataIn(now, p, r, room)).1);
            h == [] || (r.Ok? && r.value.DataOut? && h == [r.value.plain])
  {
    var out := ServerRuns.Step(cfg, s, DataIn(now, p, r, room)).1;
    assert |out| <= 1 && out[..0] == [];
    assert Handed(p, out[..0]) == [];
  }

  /** With channels for `k` alone, what the session returns as data came under `k`. */
  lemma DataOutIsForK(env: Env, y: Session, k: OpCodes.KeyId, now: real, data: seq<byte>)
    requires y.channels.Keys == {k}
    ensures var r := ProcessPacket(env, y, now, data).0;
            r.Ok? && r.value.DataOut? ==> DataFor(env, y, k, data).Some?
  {
    hide Decode, DataChannels.ChannelDecrypt, ProcessControl;
    var d := Decode(env, y, data);
    if d.Ok? {
      if d.value.Control? {
        ControlIsNotData(y, now, d.value);
      } else {
        assert d.value.header.keyId in y.channels <==> d.value.header.keyId in y.channels.Keys;
      }
    }
  }

  lemma ControlIsNotData(s: Session, now: real, p: Packets.Packet)
    requires p.Control?
    ensures var r := ProcessControl(s, now, p).0; r.Ok? ==> !r.value.DataOut?
  {
    hide CheckReplay, TakeAcks;
  }

  lemma SameKeys(env: Env, s: Session, act: Act)
    requires PacketCiphers.Correct(env.aead) && !act.Install?
    ensures Acted(env, s, act).channels.Keys == s.channels.Keys
  {
    hide PacketCiphers.Correct, DataChannels.ChannelDecrypt, DataChannels.ChannelEncrypt, ProcessControl, Decode;
    if act.Present? {
      var d := Decode(env, s, act.data);
      if d.Ok? && d.value.Control? {
        ControlKeepsChannels(s, act.now, d.value);
      }
    } else if !act.Encrypt? {
      hide Acted;
      ControlActsKeepChannels(env, s, act);
    }
  }

  lemma OneOp(c: Setting, ops: seq<Op>, op: Op)
    requires Proper(c) && Lasting(c.env, c.k, c.start, ops)
    ensures var path := DataPath.Run(c.env, c.k, c.start, ops);
            && DataPath.Run(c.env, c.k, c.start, ops + [op]) == DataPath.Step(c.env, c.k, path, op)
            && (!Reinstalls(if op.AtX? then path.x else path.y, c.k, op.act) ==> Lasting(c.env, c.k, c.start, ops + [op]))
  {
    hide DataPath.Step, PacketCiphers.Correct, Reinstalls;
    assert (ops + [op])[..|ops|] == ops;
  }

  /** A datagram presented to the connection's session: what comes out as data is delivered. */
  lemma PresentDelivers(env: Env, k: OpCodes.KeyId, path: Path, now: real, data: seq<byte>)
    requires PacketCiphers.Correct(env.aead) && path.y.channels.Keys == {k}
    ensures var r, path' := ProcessPacket(env, path.y, now, data).0, DataPath.Step(env, k, path, AtY(Present(now, data)));
            && path'.y.channels.Keys == {k}
            && path'.delivered == if r.Ok? && r.value.DataOut? then path.delivered + [r.value.plain] else path.delivered
  {
    DataOutIsForK(env, path.y, k, now, data);
    SameKeys(env, path.y, Present(now, data));
    assert k in path.y.channels.Keys;
    hide ProcessPacket, DataFor, PacketCiphers.Correct;
  }

  lemma ActIsGood(c: Setting, w: Served, op: Op)
    requires Proper(c) && Good(c, w) && (op.AtY? ==> !op.act.Install? && !op.act.Present?)
    requires op.AtX? ==> !Reinstalls(Sessions(c, w).x, c.k, op.act)
    ensures Good(c, w.(ops := w.ops + [op]))
  {
    OneOp(c, w.ops, op);
    if op.AtY? {
      SameKeys(c.env, Sessions(c, w).y, op.act);
    }
    hide DataPath.Run, Lasting, PacketCiphers.Correct, Acted, Sublist;
  }

  /** `tun` stays within what was delivered when a datagram is presented and its data, or nothing, is
      handed over. */
  lemma PresentIsGood(c: Setting, w: Served, now: real, data: seq<byte>, handed: seq<seq<byte>>, events: seq<Event>)
    requires Proper(c) && Good(c, w)
    requires var r := Result(c, w, now, data);
             handed == [] || (r.Ok? && r.value.DataOut? && handed == [r.value.plain])
    ensures Good(c, Served(events, w.ops + [AtY(Present(now, data))], w.tun + handed))
  {
    var path, r := Sessions(c, w), Result(c, w, now, data);
    OneOp(c, w.ops, AtY(Present(now, data)));
    PresentDelivers(c.env, c.k, path, now, data);
    hide DataPath.Run, DataPath.Step, Lasting, PacketCiphers.Correct, Sublist, ProcessPacket;
    if r.Ok? && r.value.DataOut? {
      SublistGrows(w.tun, path.delivered, r.value.plain);
    }
    assert w.tun + [] == w.tun;
  }

  lemma AfterIsGood(c: Setting, w: Served, input: Input)
    requires Proper(c) && Good(c, w) && Keeps(c, w, input)
    ensures Good(c, After(c, w, input))
  {
    var s, e := Now(c, w), EventOf(c, w, input);
    hide Good, Handed, ServerRuns.Run, DataPath.Run, PacketCiphers.Correct, ServerRuns.Step, Rekeys, ProcessPacket;
    assert w.tun + [] == w.tun && w.ops + [] == w.ops;
    match input
    case AtClient(act) => ActIsGood(c, w, AtX(act));
    case FromConnection(act) => ActIsGood(c, w, AtY(act));
    case ControlFrom(now, data, answers) =>
      OthersHandNothing(c.cfg, s, e.value, c.peer);
      PresentIsGood(c, w, now, data, [], w.events + [e.value]);
    case DataFrom(now, data, room) =>
      if Serving(s, c.peer) {
        DataHands(c.cfg, s, now, c.peer, Result(c, w, now, data), room);
        PresentIsGood(c, w, now, data, Handed(c.peer, ServerRuns.Step(c.cfg, s, e.value).1), w.events + [e.value]);
      } else {
        OthersHandNothing(c.cfg, s, e.value, c.peer);
        EventsDoNotMatter(c, w, w.events + [e.value]);
      }
    case Elsewhere(_) =>
      OthersHandNothing(c.cfg, s, e.value, c.peer);
      EventsDoNotMatter(c, w, w.events + [e.value]);
  }

  lemma EventsDoNotMatter(c: Setting, w: Served, events: seq<Event>)
    requires Proper(c) && Good(c, w)
    ensures Good(c, w.(events := events))
  {
  }

  lemma {:induction false} RunIsGood(c: Setting, before: seq<Event>, inputs: seq<Input>)
    requires Proper(c) && Undisturbed(c, before, inputs)
    ensures Good(c, Run(c, before, inputs))
  {
    hide Keeps, After, PacketCiphers.Correct;
    if inputs != [] {
      var n := |inputs| - 1;
      RunIsGood(c, before, inputs[..n]);
      hide Good;
      AfterIsGood(c, Run(c, before, inputs[..n]), inputs[n]);
    }
  }

  // ---------------------------------------------------------------- what reaches the TUN device was encrypted

  lemma OneLess(b: seq<seq<byte>>, issued: seq<CipherRuns.Issue>, ids: seq<u32>)
    requires b != [] && DeliversIssued(b, issued, ids)
    ensures var n := |b| - 1;
            && |ids| == |b| && DeliversIssued(b[..n], issued, ids[..n])
            && ids[n] !in ids[..n] && 1 <= ids[n] <= |issued| && b[n] == issued[ids[n] - 1].plain
  {
  }

  lemma OneMore(a: seq<seq<byte>>, x: seq<byte>, issued: seq<CipherRuns.Issue>, ids: seq<u32>, id: u32)
    requires DeliversIssued(a, issued, ids) && id !in ids && 1 <= id <= |issued| && x == issued[id - 1].plain
    ensures DeliversIssued(a + [x], issued, ids + [id])
  {
  }

  /** What is left of a list of deliveries still has distinct encryptions. */
  lemma {:induction false} SublistDelivers(a: seq<seq<byte>>, b: seq<seq<byte>>, issued: seq<CipherRuns.Issue>, ids: seq<u32>)
    returns (kept: seq<u32>)
    requires Sublist(a, b) && DeliversIssued(b, issued, ids)
    ensures DeliversIssued(a, issued, kept) && forall i | i in kept :: i in ids
    decreases |b|
  {
    if a == [] {
      kept := [];
    } else {
      var m, n := |a| - 1, |b| - 1;
      OneLess(b, issued, ids);
      hide DeliversIssued;
      if Sublist(a, b[..n]) {
        kept := SublistDelivers(a, b[..n], issued, ids[..n]);
      } else {
        kept := SublistDelivers(a[..m], b[..n], issued, ids[..n]);
        OneMore(a[..m], b[n], issued, kept, ids[n]);
        assert a[..m] + [b[n]] == a;
        kept := kept + [ids[n]];
      }
    }
  }

  /** In every run of the server, for every client whose keys match those of its connection and as long as
      neither is replaced, whatever arrives from anyone: what is handed to the TUN device for this client
      are packets that it encrypted under those keys, each at most once, provided the AEAD is not forged. */
  lemma TunPacketsWereEncrypted(c: Setting, key: Bytes32, iv: PacketCiphers.Nonce, before: seq<Event>,
                                inputs: seq<Input>)
    requires Proper(c) && Follows(c.env, c.k, key, iv, c.start) && Undisturbed(c, before, inputs)
    requires CipherRuns.IdealRun(c.env.aead, key, iv, Sessions(c, Run(c, before, inputs)).ciphered)
    ensures var w := Run(c, before, inputs);
            var issued := CipherRuns.Run(c.env.aead, key, iv, Sessions(c, w).ciphered).issued;
            exists ids :: DeliversIssued(w.tun, issued, ids)
  {
    var w := Run(c, before, inputs);
    RunIsGood(c, before, inputs);
    hide Run, Undisturbed, Follows, DataPath.Run, CipherRuns.Run, CipherRuns.IdealRun, PacketCiphers.Correct, DeliversIssued,
         Lasting, Sublist;
    DeliversOnlyEncrypted(c.env, c.k, key, iv, c.start, w.ops);
    var path := Sessions(c, w);
    var issued := CipherRuns.Run(c.env.aead, key, iv, path.ciphered).issued;
    var ids :| DeliversIssued(path.delivered, issued, ids);
    var kept := SublistDelivers(w.tun, path.delivered, issued, ids);
  }

  lemma HandedAfterLogin(c: Setting, w: Served, e: Event)
    requires Proper(c) && c.cfg.oauth && FreshTokens(w.events) && Handed(c.peer, ServerRuns.Step(c.cfg, Now(c, w), e).1) != []
    ensures exists m, j :: LoginOf(c.cfg, w.events, c.peer, m, j)
  {
    var out := ServerRuns.Step(c.cfg, Now(c, w), e).1;
    hide ServerRuns.Step, LoginOf, ServerRuns.Run, PacketCiphers.Correct, FreshTokens;
    if o :| o in out && o.ToTun? && o.peer == c.peer {
      assert o == ToTun(c.peer, o.packet);
      DataOnlyAfterIssuedLogin(c.cfg, w.events, e, c.peer, o.packet);
    } else {
      NothingHanded(c.peer, out);
    }
  }

  ghost predicate LoggedInBy(c: Setting, events: seq<Event>, n: nat)
    requires c.cfg.net.prefix <= 30
  {
    n <= |events| && exists m, j :: LoginOf(c.cfg, events[..n], c.peer, m, j)
  }

  lemma StillLoggedIn(c: Setting, events: seq<Event>, more: seq<Event>, n: nat)
    requires c.cfg.net.prefix <= 30 && LoggedInBy(c, events, n)
    ensures LoggedInBy(c, events + more, n)
  {
    hide LoginOf;
    assert (events + more)[..n] == events[..n];
  }

  /** The first packet handed over is one handed over by this input. */
  lemma FirstFollowsLogin(c: Setting, w: Served, input: Input)
    requires Proper(c) && c.cfg.oauth && FreshTokens(w.events) && w.tun == [] && After(c, w, input).tun != []
    ensures LoggedInBy(c, After(c, w, input).events, |w.events|)
  {
    hide ServerRuns.Step, ServerRuns.Run, LoginOf, PacketCiphers.Correct, FreshTokens, OpsOf, Handed, ProcessPacket;
    HandedAfterLogin(c, w, EventOf(c, w, input).value);
    assert w.events[..|w.events|] == w.events;
    StillLoggedIn(c, w.events, [EventOf(c, w, input).value], |w.events|);
  }

  lemma FreshPrefix(events: seq<Event>, more: seq<Event>)
    requires FreshTokens(events + more)
    ensures FreshTokens(events)
  {
    var all := events + more;
    assert forall i | 0 <= i < |events| :: events[i] == all[i];
  }

  /** Events are only added. */
  lemma EventsGrow(c: Setting, w: Served, input: Input) returns (more: seq<Event>)
    requires Proper(c)
    ensures After(c, w, input).events == w.events + more
  {
    hide ServerRuns.Step, ServerRuns.Run, PacketCiphers.Correct, OpsOf, Handed, ProcessPacket;
    var e := EventOf(c, w, input);
    more := if e.None? then [] else [e.value];
    assert w.events + [] == w.events;
  }

  /** And with OAuth there is none before a login of this client, whose token was issued to it and is spent. */
  lemma {:induction false} TunPacketsFollowLogin(c: Setting, before: seq<Event>, inputs: seq<Input>)
    requires Proper(c) && c.cfg.oauth
    requires var w := Run(c, before, inputs); FreshTokens(w.events) && w.tun != []
    ensures exists n :: LoggedInBy(c, Run(c, before, inputs).events, n)
  {
    var n := |inputs| - 1;
    var w := Run(c, before, inputs[..n]);
    hide After, LoggedInBy, PacketCiphers.Correct, FreshTokens;
    var more := EventsGrow(c, w, inputs[n]);
    FreshPrefix(w.events, more);
    if w.tun == [] {
      FirstFollowsLogin(c, w, inputs[n]);
    } else {
      TunPacketsFollowLogin(c, before, inputs[..n]);
      var i: nat :| LoggedInBy(c, w.events, i);
      StillLoggedIn(c, w.events, more, i);
    }
  }

  // ---------------------------------------------------------------- what the client encrypts reaches the TUN device

  lemma HandsOver(cfg: Config, s: Server, now: real, p: Peer, r: Result<Processed, ProtocolError>)
    requires cfg.net.prefix <= 30 && Serving(s, p)
    requires r.Ok? ==> r.value.DataOut? && |r.value.plain| >= 20 && !IsPing(r.value.plain)
    ensures Handed(p, ServerRuns.Step(cfg, s, DataIn(now, p, r, true)).1) == if r.Ok? then [r.value.plain] else []
  {
    var out := ServerRuns.Step(cfg, s, DataIn(now, p, r, true)).1;
    assert |out| <= 1 && out[..0] == [];
    assert Handed(p, out[..0]) == [];
    if r.Ok? {
      ForwardsIff(cfg, s, DataIn(now, p, r, true), p, r.value.plain);
    }
  }

  /** The client encrypts: the server's side does not notice. */
  lemma ClientEncrypts(c: Setting, w: Served, plain: seq<byte>)
    requires Proper(c) && Good(c, w)
    ensures var w' := After(c, w, AtClient(Encrypt(plain)));
            w'.events == w.events && w'.tun == w.tun && Sessions(c, w').y == Sessions(c, w).y
  {
    hide PacketCiphers.Correct, Handed, Sublist;
    OneOp(c, w.ops, AtX(Encrypt(plain)));
    hide DataPath.Run, Acted;
  }

  /** What it encrypted arrives: it is handed over exactly if the replay window admitted it. */
  lemma ServerForwards(c: Setting, w: Served, now: real, data: seq<byte>, admitted: bool, plain: seq<byte>)
    requires Proper(c) && Serving(Now(c, w), c.peer) && |plain| >= 20 && !IsPing(plain)
    requires ProcessPacket(c.env, Sessions(c, w).y, now, data).0
             == if admitted then Ok(DataOut(plain)) else Err(ReplayDetected)
    ensures After(c, w, DataFrom(now, data, true)).tun == w.tun + if admitted then [plain] else []
  {
    hide PacketCiphers.Correct, Handed, DataPath.Run, ServerRuns.Run, ServerRuns.Step, ProcessPacket, IsPing;
    HandsOver(c.cfg, Now(c, w), now, c.peer, Result(c, w, now, data));
  }

  /** In every such run: the next packet the client encrypts, presented to the server while the connection is
      established and the queue has room, is handed to the TUN device exactly if the replay window admits its
      id, unless it is shorter than an IP header or the keep-alive ping. */
  lemma NextPacketIsForwarded(c: Setting, key: Bytes32, iv: PacketCiphers.Nonce, before: seq<Event>, inputs: seq<Input>,
                              plain: seq<byte>, now: real)
    requires Proper(c) && Follows(c.env, c.k, key, iv, c.start) && Undisturbed(c, before, inputs)
    requires var w := Run(c, before, inputs);
             var path := Sessions(c, w);
             && Serving(Now(c, w), c.peer) && |plain| >= 20 && !IsPing(plain)
             && c.k in path.x.channels && path.x.keyId == c.k && path.x.channels[c.k].enc.txCounter + 1 < U32_LIMIT
             && NextNotForged(c.env, c.k, key, iv, path, plain)
    ensures var w := Run(c, before, inputs);
            && c.k in Sessions(c, w).x.channels && c.k in Sessions(c, w).y.channels
            && ForwardedIfAdmitted(c, w, plain, now)
  {
    hide DataPath.Run, Undisturbed, Follows, PacketCiphers.Correct, NextNotForged, ReplayProtection.Admits, IsPing, Run,
         EncryptData, ServerRuns.Run, After, Serving, Sublist, Lasting, ForwardedIfAdmitted;
    RunIsGood(c, before, inputs);
    var w := Run(c, before, inputs);
    RunFollows(c.env, c.k, key, iv, c.start, w.ops);
    NextIsForwarded(c, key, iv, w, plain, now);
  }

  /** The next packet reaches the TUN device exactly if its id is admitted. */
  ghost predicate ForwardedIfAdmitted(c: Setting, w: Served, plain: seq<byte>, now: real)
    requires Proper(c) && c.k in Sessions(c, w).x.channels && c.k in Sessions(c, w).y.channels
  {
    var path := Sessions(c, w);
    var wire := EncryptData(c.env, path.x, plain).0;
    var admitted := ReplayProtection.Admits(128, path.y.channels[c.k].dec.arrivals,
                                            path.x.channels[c.k].enc.txCounter + 1);
    && wire.Ok?
    && After(c, After(c, w, AtClient(Encrypt(plain))), DataFrom(now, wire.value, true)).tun
       == w.tun + if admitted then [plain] else []
  }

  lemma HasChannels(env: Env, k: OpCodes.KeyId, key: Bytes32, iv: PacketCiphers.Nonce, path: Path)
    requires PacketCiphers.Correct(env.aead) && Follows(env, k, key, iv, path)
    ensures k in path.x.channels && k in path.y.channels
  {
    hide PacketCiphers.Correct, CipherRuns.Run;
  }

  lemma NextIsForwarded(c: Setting, key: Bytes32, iv: PacketCiphers.Nonce, w: Served, plain: seq<byte>, now: real)
    requires Proper(c) && Good(c, w) && Follows(c.env, c.k, key, iv, Sessions(c, w))
    requires Serving(Now(c, w), c.peer) && |plain| >= 20 && !IsPing(plain)
    requires var path := Sessions(c, w);
             && c.k in path.x.channels && path.x.keyId == c.k && path.x.channels[c.k].enc.txCounter + 1 < U32_LIMIT
             && NextNotForged(c.env, c.k, key, iv, path, plain)
    ensures c.k in Sessions(c, w).x.channels && c.k in Sessions(c, w).y.channels && ForwardedIfAdmitted(c, w, plain, now)
  {
    hide Follows, DataPath.Run, PacketCiphers.Correct, NextNotForged, ReplayProtection.Admits, IsPing, EncryptData,
         ProcessPacket, ServerRuns.Run, Good, After, Serving;
    var path := Sessions(c, w);
    HasChannels(c.env, c.k, key, iv, path);
    EncryptedIsDelivered(c.env, c.k, key, iv, path, plain, now);
    ClientEncrypts(c, w, plain);
    var admitted := ReplayProtection.Admits(128, path.y.channels[c.k].dec.arrivals,
                                            path.x.channels[c.k].enc.txCounter + 1);
    ServerForwards(c, After(c, w, AtClient(Encrypt(plain))), now, EncryptData(c.env, path.x, plain).0.value, admitted, plain);
  }
}
