/** The VPN server as a state machine: what each handler of its event loop does to the table of
    connections, the table of pending OAuth logins and the address pool. The protocol session and the
    TLS engine of a connection enter through the results they return. */
module ServerSteps {
  import opened Common
  import opened AddressPools
  import opened SessionSteps
  import KeyMethods
  import Packets
  import Reliable
  import Reassembly
  import ReplayProtection
  import DataChannels

  /** The UDP address of a client. */
  type Peer = nat

  /** An OAuth state token: a random 128-bit number. */
  type Token = nat

  datatype Connection = Connection(
    state: ProtocolState,
    tls: bool,
    lastActivity: real,
    connectedAt: real,
    vpnIp: Option<int>,
    username: Option<seq<byte>>,
    keyed: bool,                     // data channel keys are installed
    response: Option<seq<byte>>,     // the cached hard reset response
    pendingReply: Option<int>,       // the PUSH_REPLY kept, by the address it assigns
    oauthState: Option<Token>)

  datatype PendingOAuth = PendingOAuth(peer: Peer, createdAt: real)

  datatype Config = Config(net: Net, oauth: bool, tls: bool, idleTimeout: real)

  /** `doomed` are the addresses the cleanup task has collected and not yet removed. */
  datatype Server = Server(
    connections: map<Peer, Connection>,
    pending: map<Token, PendingOAuth>,
    leased: set<int>,
    doomed: set<Peer>)

  const EMPTY := Server(map[], map[], {}, {})

  /** What a handler produces. A reply or a login notice is reported once it is written to the client's TLS
      stream; if it could not be flushed, it leaves later, as far as it was queued for retransmission. */
  datatype Output =
    | CachedReset(peer: Peer, wire: seq<byte>)
    | NewReset(peer: Peer, wire: seq<byte>)
    | AuthPending(peer: Peer, token: Token)
    | Replied(peer: Peer, ip: int)
    | PingReply(peer: Peer)
    | ToTun(peer: Peer, packet: seq<byte>)

  /** What the TLS engine answers while one control packet is handled, in the order it is asked. */
  datatype TlsAnswers = TlsAnswers(
    processed: bool,             // the records were accepted and their answers sent
    complete: bool,              // the handshake is complete
    plain: Option<seq<byte>>,    // the plaintext read for the key exchange
    keyed: bool,                 // the server's key method was sent and the keys derived
    token: Token,                // the random token drawn for an OAuth login
    written: bool,               // the push reply or the login notice was written
    flushed: bool,               // the push reply or the login notice was sent
    pushRequest: bool)           // a PUSH_REQUEST was read afterwards and its answer written

  const RESET_CACHE_SECS := 30.0
  const MIN_IP_PACKET := 20
  const PING_PAYLOAD: seq<byte> :=
    [0x2a, 0x18, 0x7b, 0xf3, 0x64, 0x1e, 0xb4, 0xcb, 0x07, 0xed, 0x2d, 0x0a, 0x98, 0x1f, 0xc7, 0x48]

  predicate Stale(c: Connection, now: real, timeout: real) { now - c.lastActivity > timeout }

  function Touch(c: Connection, now: real): Connection { c.(lastActivity := now) }

  /** The protocol state after the session returned `r`. */
  function StateAfter(state: ProtocolState, r: Result<Processed, ProtocolError>): ProtocolState {
    match r
    case Err(_) => state
    case Ok(SoftReset) => Rekeying
    case Ok(HardReset(_)) => TlsHandshake
    case Ok(HardResetAck) => TlsHandshake
    case Ok(_) => state
  }

  /** What a session returns from a packet decides its new protocol state, so a connection can be
      modelled by that state and the results alone. */
  lemma OutcomeDecidesState(env: Env, s: Session, now: real, data: seq<byte>)
    ensures var (r, s') := ProcessPacket(env, s, now, data);
            s'.state == StateAfter(s.state, r)
  {
    hide ProcessControl, ProcessData;
    match Decode(env, s, data)
    case Err(_) =>
    case Ok(p) =>
      if p.Control? {
        ControlDecidesState(s, now, p);
      } else {
        DataDecidesState(env, s, p);
      }
  }

  lemma ControlDecidesState(s: Session, now: real, p: Packets.Packet)
    requires p.Control?
    ensures var (r, s') := ProcessControl(s, now, p);
            s'.state == StateAfter(s.state, r)
  {
    hide Dispatch, Reliable.AckStep, ReplayProtection.Admits;
    DispatchDecidesState(TakeAcks(CheckReplay(s, p).1, now, p.acks), p);
  }

  lemma DispatchDecidesState(s: Session, p: Packets.Packet)
    requires p.Control?
    ensures var (r, s') := Dispatch(s, p);
            s'.state == StateAfter(s.state, r)
  {
    hide Reliable.ReceiveStep, Reassembly.FeedOne;
  }

  lemma DataDecidesState(env: Env, s: Session, p: Packets.Packet)
    requires p.Data?
    ensures var (r, s') := ProcessData(env, s, p);
            s'.state == StateAfter(s.state, r)
  {
    hide DataChannels.ChannelDecrypt;
  }

  // ---------------------------------------------------------------- the handlers

  /** A hard reset: a live connection answers from its cache; otherwise a new one takes its place. */
  function HardResetStep(cfg: Config, s: Server, now: real, p: Peer,
                         r: Result<Processed, ProtocolError>, tlsReady: bool, wire: Option<seq<byte>>)
    : (Server, seq<Output>)
  {
    if p in s.connections && !Stale(s.connections[p], now, RESET_CACHE_SECS) && s.connections[p].response.Some? then
      (s, [CachedReset(p, s.connections[p].response.value)])
    else if r.Err? || (cfg.tls && !tlsReady) || wire.None? then (s, [])
    else
      var c := Connection(StateAfter(Initial, r), cfg.tls, now, now, None, None, false, wire, None, None);
      (Put(s, p, c), [NewReset(p, wire.value)])
  }

  predicate AwaitingKeys(c: Connection) { c.state == TlsHandshake || c.state == KeyExchange }

  function Put(s: Server, p: Peer, c: Connection): Server {
    s.(connections := s.connections[p := c])
  }

  /** An address was leased to `p`: the push reply that announces it is sent or, with OAuth, kept until
      the login completes. The flag is false when the handler returned early with an error. */
  function Assign(cfg: Config, s: Server, now: real, p: Peer, ip: int, t: TlsAnswers): (bool, Server, seq<Output>)
    requires p in s.connections
  {
    var c := s.connections[p].(vpnIp := Some(ip), pendingReply := Some(ip));
    if cfg.oauth then
      (t.flushed, Put(s, p, c.(oauthState := Some(t.token))).(pending := s.pending[t.token := PendingOAuth(p, now)]),
       if t.written then [AuthPending(p, t.token)] else [])
    else
      (t.flushed, Put(s, p, if t.flushed then c.(state := Established) else c),
       if t.written then [Replied(p, ip)] else [])
  }

  /** A parsed key method: install the keys and lease an address. */
  function Admit(cfg: Config, s: Server, now: real, p: Peer, user: Option<seq<byte>>, t: TlsAnswers)
    : (bool, Server, seq<Output>)
    requires cfg.net.prefix <= 30 && p in s.connections
  {
    var c := if user.Some? then s.connections[p].(username := user) else s.connections[p];
    if !t.keyed then (false, Put(s, p, c), [])
    else
      var s1 := Put(s, p, c.(keyed := true));
      var (r, leased') := AllocateStep(cfg.net, s.leased);
      if r.Err? then (true, s1, []) else Assign(cfg, s1.(leased := leased'), now, p, r.value, t)
  }

  function ExchangeKeys(cfg: Config, s: Server, now: real, p: Peer, t: TlsAnswers): (bool, Server, seq<Output>)
    requires cfg.net.prefix <= 30 && p in s.connections
  {
    var s1 := Put(s, p, s.connections[p].(state := KeyExchange));
    if t.plain.None? then (true, s1, [])
    else
      match KeyMethods.ParseClient(t.plain.value)
      case Err(_) => (true, s1, [])
      case Ok(km) => Admit(cfg, s1, now, p, km.username, t)
  }

  /** A PUSH_REQUEST on an established connection is answered with the reply kept for it. */
  function AnswerPushRequest(c: Connection, p: Peer, t: TlsAnswers): seq<Output> {
    if t.complete && c.state == Established && t.pushRequest && c.pendingReply.Some? then
      [Replied(p, c.pendingReply.value)]
    else []
  }

  function TlsStep(cfg: Config, s: Server, now: real, p: Peer, t: TlsAnswers): (Server, seq<Output>)
    requires cfg.net.prefix <= 30 && p in s.connections
  {
    if !t.processed then (s, [])
    else
      var (ok, s1, out) := if t.complete && AwaitingKeys(s.connections[p]) then ExchangeKeys(cfg, s, now, p, t)
                           else (true, s, []);
      if ok then (s1, out + AnswerPushRequest(s1.connections[p], p, t)) else (s1, out)
  }

  function ControlStep(cfg: Config, s: Server, now: real, p: Peer,
                       r: Result<Processed, ProtocolError>, t: TlsAnswers): (Server, seq<Output>)
    requires cfg.net.prefix <= 30
  {
    if p !in s.connections then (s, [])
    else
      var c := Touch(s.connections[p], now).(state := StateAfter(s.connections[p].state, r));
      if r.Ok? && r.value.TlsData? && c.tls then TlsStep(cfg, Put(s, p, c), now, p, t) else (Put(s, p, c), [])
  }

  /** Data is handled only once the connection is established. `room` says whether the queue to the
      TUN device has space. */
  function DataStep(s: Server, now: real, p: Peer, r: Result<Processed, ProtocolError>, room: bool)
    : (Server, seq<Output>)
  {
    if p !in s.connections then (s, [])
    else
      var c := Touch(s.connections[p], now);
      if c.state != Established then (Put(s, p, c), [])
      else (Put(s, p, c.(state := StateAfter(c.state, r))), Forward(p, r, room))
  }

  function Forward(p: Peer, r: Result<Processed, ProtocolError>, room: bool): seq<Output> {
    if r.Err? || !r.value.DataOut? then []
    else if r.value.plain == PING_PAYLOAD then [PingReply(p)]
    else if |r.value.plain| >= MIN_IP_PACKET && room then [ToTun(p, r.value.plain)]
    else []
  }

  /** An OAuth login finished: the token is spent, and the connection it names may be established. */
  function CompleteStep(s: Server, token: Token, email: seq<byte>, written: bool, flushed: bool)
    : (Server, seq<Output>)
  {
    if token !in s.pending then (s, [])
    else
      var p := s.pending[token].peer;
      var s1 := s.(pending := s.pending - {token});
      if p !in s.connections || s.connections[p].pendingReply.None? then (s1, [])
      else
        var ip := s.connections[p].pendingReply.value;
        var c := s.connections[p].(pendingReply := None, username := Some(email));
        if !c.tls || !written then (Put(s1, p, c), [])
        else (Put(s1, p, if flushed then c.(state := Established) else c), [Replied(p, ip)])
  }

  function StalePeers(s: Server, now: real, timeout: real): set<Peer> {
    set p | p in s.connections && Stale(s.connections[p], now, timeout)
  }

  /** The cleanup task runs beside the event loop. First it collects the addresses of the connections that
      have been idle for too long; a timeout of zero switches it off. */
  function CollectStep(cfg: Config, s: Server, now: real): Server {
    if cfg.idleTimeout <= 0.0 || s.doomed != {} then s
    else s.(doomed := StalePeers(s, now, cfg.idleTimeout))
  }

  /** Then, when other events may have happened, it removes whatever connections these addresses have by
      now; leased addresses stay leased. */
  function RemoveStep(s: Server): Server {
    s.(connections := s.connections - s.doomed, doomed := {})
  }

  /** `p` is a connection that packets for `dest` are sent to. */
  predicate IsRoute(s: Server, dest: int, p: Peer) {
    p in s.connections && s.connections[p].vpnIp == Some(dest) && s.connections[p].state == Established
  }

  /** What the search for the connection of a packet may find. */
  ghost predicate IsFound(s: Server, packet: seq<byte>, found: Option<Peer>) {
    match found
    case Some(p) => Destination(packet).Some? && IsRoute(s, Destination(packet).value, p)
    case None => Destination(packet).Some? ==> forall p :: !IsRoute(s, Destination(packet).value, p)
  }

  /** The destination of a packet from the TUN device, if it is an IPv4 packet. */
  function Destination(packet: seq<byte>): Option<u32> {
    if |packet| < MIN_IP_PACKET || packet[0] / 16 != 4 then None else Some(GetU32(packet[16..20]))
  }
}
