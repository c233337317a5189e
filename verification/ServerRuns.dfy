/** Every run of the server's event loop: addresses, routing, and who may send data. */
module ServerRuns {
  import opened Common
  import opened AddressPools
  import opened SessionSteps
  import opened ServerSteps
  import KeyMethods

  datatype Event =
    | HardResetIn(now: real, peer: Peer, result: Result<Processed, ProtocolError>, ready: bool, wire: Option<seq<byte>>)
    | ControlIn(now: real, peer: Peer, result: Result<Processed, ProtocolError>, answers: TlsAnswers)
    | DataIn(now: real, peer: Peer, result: Result<Processed, ProtocolError>, room: bool)
    | Completed(now: real, token: Token, email: seq<byte>, written: bool, flushed: bool)
    | Collect(now: real)
    | Remove(now: real)

  function Step(cfg: Config, s: Server, e: Event): (Server, seq<Output>)
    requires cfg.net.prefix <= 30
  {
    match e
    case HardResetIn(now, p, r, ready, wire) => HardResetStep(cfg, s, now, p, r, ready, wire)
    case ControlIn(now, p, r, t) => ControlStep(cfg, s, now, p, r, t)
    case DataIn(now, p, r, room) => DataStep(s, now, p, r, room)
    case Completed(_, token, email, written, flushed) => CompleteStep(s, token, email, written, flushed)
    case Collect(now) => (CollectStep(cfg, s, now), [])
    case Remove(_) => (RemoveStep(s), [])
  }

  /** The state after the events `es`, from a server that has just started. */
  function Run(cfg: Config, es: seq<Event>): Server
    requires cfg.net.prefix <= 30
  {
    if es == [] then EMPTY
    else Step(cfg, Run(cfg, es[..|es| - 1]), es[|es| - 1]).0
  }

  lemma RunPrefix(cfg: Config, es: seq<Event>, k: nat)
    requires cfg.net.prefix <= 30 && k < |es|
    ensures Run(cfg, es[..k + 1]) == Step(cfg, Run(cfg, es[..k]), es[k]).0
  {
    assert es[..k + 1][..k] == es[..k];
  }

  // ---------------------------------------------------------------- addresses

  /** What holds of one connection: its address is leased, a kept push reply announces that address, and
      an established connection has keys and an address. */
  predicate Sound(s: Server, c: Connection) {
    && (c.vpnIp.Some? ==> c.vpnIp.value in s.leased)
    && (c.pendingReply.Some? ==> c.pendingReply == c.vpnIp && c.keyed)
    && (c.state == Established ==> c.keyed && c.vpnIp.Some?)
  }

  ghost predicate AllSound(s: Server) {
    forall p | p in s.connections :: Sound(s, s.connections[p])
  }

  ghost predicate Distinct(s: Server) {
    forall p, q | p in s.connections && q in s.connections && p != q && s.connections[p].vpnIp.Some? ::
      s.connections[p].vpnIp != s.connections[q].vpnIp
  }

  ghost predicate Inv(cfg: Config, s: Server)
    requires cfg.net.prefix <= 30
  {
    PoolInv(cfg.net, s.leased) && AllSound(s) && Distinct(s)
  }

  /** Replacing a connection by a sound one with the same address, or none, keeps the invariant. */
  lemma PutKeeps(cfg: Config, s: Server, p: Peer, c: Connection)
    requires cfg.net.prefix <= 30 && Inv(cfg, s) && Sound(s, c)
    requires c.vpnIp.Some? ==> p in s.connections && s.connections[p].vpnIp == c.vpnIp
    ensures Inv(cfg, Put(s, p, c))
  {
    hide PoolInv;
  }

  /** A newly leased address belongs to no other connection. */
  lemma LeaseKeeps(cfg: Config, s: Server, p: Peer, c: Connection, ip: int)
    requires cfg.net.prefix <= 30 && Inv(cfg, s) && ip !in s.leased && PoolInv(cfg.net, s.leased + {ip})
    requires c.keyed && c.vpnIp == c.pendingReply == Some(ip)
    ensures Inv(cfg, Put(s.(leased := s.leased + {ip}), p, c))
  {
    hide PoolInv;
  }

  lemma AssignKeeps(cfg: Config, s: Server, now: real, p: Peer, t: TlsAnswers)
    requires cfg.net.prefix <= 30 && Inv(cfg, s) && p in s.connections && s.connections[p].keyed
    requires AllocateStep(cfg.net, s.leased).0.Ok?
    ensures var (r, leased') := AllocateStep(cfg.net, s.leased);
            Inv(cfg, Assign(cfg, s.(leased := leased'), now, p, r.value, t).1)
  {
    AllocateExact(cfg.net, s.leased);
    var (r, leased') := AllocateStep(cfg.net, s.leased);
    hide PoolInv, AllocateStep, Capacity;
    var c := s.connections[p].(vpnIp := Some(r.value), pendingReply := Some(r.value));
    LeaseKeeps(cfg, s, p, c, r.value);
    LeaseKeeps(cfg, s, p, c.(oauthState := Some(t.token)), r.value);
    LeaseKeeps(cfg, s, p, c.(state := Established), r.value);
  }

  lemma ControlKeeps(cfg: Config, s: Server, now: real, p: Peer, r: Result<Processed, ProtocolError>, t: TlsAnswers)
    requires cfg.net.prefix <= 30 && Inv(cfg, s)
    ensures Inv(cfg, ControlStep(cfg, s, now, p, r, t).0)
  {
    hide Inv, ExchangeKeys;
    if p in s.connections {
      var c := Touch(s.connections[p], now).(state := StateAfter(s.connections[p].state, r));
      SoundOne(cfg, s, p);
      PutKeeps(cfg, s, p, c);
      ExchangeKeeps(cfg, Put(s, p, c), now, p, t);
    }
  }

  lemma SoundOne(cfg: Config, s: Server, p: Peer)
    requires cfg.net.prefix <= 30 && Inv(cfg, s) && p in s.connections
    ensures Sound(s, s.connections[p])
  {
  }

  lemma ExchangeKeeps(cfg: Config, s: Server, now: real, p: Peer, t: TlsAnswers)
    requires cfg.net.prefix <= 30 && Inv(cfg, s) && p in s.connections
    ensures Inv(cfg, ExchangeKeys(cfg, s, now, p, t).1)
  {
    hide Inv, KeyMethods.ParseClient, AllocateStep, Assign;
    SoundOne(cfg, s, p);
    var s1 := Put(s, p, s.connections[p].(state := KeyExchange));
    PutKeeps(cfg, s, p, s1.connections[p]);
    if t.plain.Some? && KeyMethods.ParseClient(t.plain.value).Ok? {
      AdmitKeeps(cfg, s1, now, p, KeyMethods.ParseClient(t.plain.value).value.username, t);
    }
  }

  lemma AdmitKeeps(cfg: Config, s: Server, now: real, p: Peer, user: Option<seq<byte>>, t: TlsAnswers)
    requires cfg.net.prefix <= 30 && Inv(cfg, s) && p in s.connections
    ensures Inv(cfg, Admit(cfg, s, now, p, user, t).1)
  {
    hide Inv, AllocateStep, Assign;
    SoundOne(cfg, s, p);
    var c := if user.Some? then s.connections[p].(username := user) else s.connections[p];
    PutKeeps(cfg, s, p, c);
    PutKeeps(cfg, s, p, c.(keyed := true));
    var s1 := Put(s, p, c.(keyed := true));
    if AllocateStep(cfg.net, s.leased).0.Ok? {
      AssignKeeps(cfg, s1, now, p, t);
    }
  }

  lemma CompleteKeeps(cfg: Config, s: Server, token: Token, email: seq<byte>, written: bool, flushed: bool)
    requires cfg.net.prefix <= 30 && Inv(cfg, s)
    ensures Inv(cfg, CompleteStep(s, token, email, written, flushed).0)
  {
    hide PoolInv;
    if token in s.pending && s.pending[token].peer in s.connections {
      var p := s.pending[token].peer;
      var c := s.connections[p].(pendingReply := None, username := Some(email));
      var s1 := s.(pending := s.pending - {token});
      assert Inv(cfg, s1);
      if s.connections[p].pendingReply.Some? {
        PutKeeps(cfg, s1, p, c);
        PutKeeps(cfg, s1, p, c.(state := Established));
      }
    }
  }

  lemma StepKeeps(cfg: Config, s: Server, e: Event)
    requires cfg.net.prefix <= 30 && Inv(cfg, s)
    ensures Inv(cfg, Step(cfg, s, e).0)
  {
    hide PoolInv, ControlStep, CompleteStep;
    match e
    case ControlIn(now, p, r, t) => ControlKeeps(cfg, s, now, p, r, t);
    case Completed(_, token, email, written, flushed) => CompleteKeeps(cfg, s, token, email, written, flushed);
    case HardResetIn(now, p, r, ready, wire) =>
    case DataIn(now, p, r, room) =>
    case Collect(now) =>
    case Remove(_) =>
  }

  /** In every reachable state the leased addresses are usable ones of the subnet, every address held by
      a connection is leased, no two connections hold the same one, and an established connection has
      keys and an address. */
  lemma {:induction false} AddressInvariant(cfg: Config, es: seq<Event>)
    requires cfg.net.prefix <= 30
    ensures Inv(cfg, Run(cfg, es))
  {
    hide Step;
    if es == [] {
      assert Run(cfg, es) == EMPTY;
    } else {
      AddressInvariant(cfg, es[..|es| - 1]);
      StepKeeps(cfg, Run(cfg, es[..|es| - 1]), es[|es| - 1]);
    }
  }

  /** A packet from the TUN device is sent to at most one client. */
  lemma RouteIsUnique(cfg: Config, es: seq<Event>, dest: int, p: Peer, q: Peer)
    requires cfg.net.prefix <= 30
    requires IsRoute(Run(cfg, es), dest, p) && IsRoute(Run(cfg, es), dest, q)
    ensures p == q && dest in Usable(cfg.net)
  {
    AddressInvariant(cfg, es);
  }

  /** A push reply announces the address that packets are routed back by: once it is out, that address
      leads to the client it was sent to, and to nobody else, exactly if the connection is established. */
  lemma ReplyRoutesBack(cfg: Config, es: seq<Event>, e: Event, p: Peer, ip: int)
    requires cfg.net.prefix <= 30 && Replied(p, ip) in Step(cfg, Run(cfg, es), e).1
    ensures var s' := Step(cfg, Run(cfg, es), e).0;
            && p in s'.connections && s'.connections[p].vpnIp == Some(ip)
            && forall q :: IsRoute(s', ip, q) <==> q == p && s'.connections[p].state == Established
  {
    var s := Run(cfg, es);
    AddressInvariant(cfg, es);
    StepKeeps(cfg, s, e);
    ReplyHasAddress(cfg, s, e, p, ip);
    hide Step, Run, PoolInv, AllSound;
  }

  /** An IPv4 packet to `d`: a first half of the header, the source address, the destination, the rest. */
  predicate SentTo(packet: seq<byte>, d: u32) {
    |packet| >= 20 && packet[0] / 16 == 4 && packet[16] == d / 0x100 / 0x100 / 0x100 && packet[17] == d / 0x100 / 0x100 % 0x100
    && packet[18] == d / 0x100 % 0x100 && packet[19] == d % 0x100
  }

  /** The server reads the destination of a packet where the IPv4 header has it. */
  lemma DestinationIff(packet: seq<byte>, d: u32)
    ensures Destination(packet) == Some(d) <==> SentTo(packet, d)
    ensures Destination(packet).None? <==> |packet| < 20 || packet[0] / 16 != 4
  {
    if |packet| >= 20 && packet[0] / 16 == 4 {
      var b := packet[16..20];
      GetU32Iff(b, d);
    }
  }

  /** In every reachable state, an IPv4 packet to the address of an established connection is routed to that
      connection, whatever order the connections are searched in. */
  lemma AddressFindsClient(cfg: Config, es: seq<Event>, p: Peer, d: u32, packet: seq<byte>, found: Option<Peer>)
    requires cfg.net.prefix <= 30 && SentTo(packet, d) && IsRoute(Run(cfg, es), d, p)
    ensures IsFound(Run(cfg, es), packet, found) <==> found == Some(p)
  {
    DestinationIff(packet, d);
    hide Destination, SentTo, Run;
    assert forall q | IsRoute(Run(cfg, es), d, q) :: q == p by {
      forall q | IsRoute(Run(cfg, es), d, q)
        ensures q == p
      {
        RouteIsUnique(cfg, es, d, p, q);
      }
    }
  }

  /** So once a push reply has announced `d` to a client and its connection is established, packets to `d`
      find that client. */
  lemma ReplyFindsClient(cfg: Config, es: seq<Event>, e: Event, p: Peer, d: u32, packet: seq<byte>, found: Option<Peer>)
    requires cfg.net.prefix <= 30 && Replied(p, d) in Step(cfg, Run(cfg, es), e).1 && SentTo(packet, d)
    requires var s' := Step(cfg, Run(cfg, es), e).0; p in s'.connections && s'.connections[p].state == Established
    ensures IsFound(Step(cfg, Run(cfg, es), e).0, packet, found) <==> found == Some(p)
  {
    ReplyRoutesBack(cfg, es, e, p, d);
    hide Step, SentTo, Destination;
    assert (es + [e])[..|es|] == es;
    AddressFindsClient(cfg, es + [e], p, d, packet, found);
  }

  lemma ReplyHasAddress(cfg: Config, s: Server, e: Event, p: Peer, ip: int)
    requires cfg.net.prefix <= 30 && Inv(cfg, s) && Replied(p, ip) in Step(cfg, s, e).1
    ensures var s' := Step(cfg, s, e).0;
            p in s'.connections && s'.connections[p].vpnIp == Some(ip)
  {
    hide PoolInv, Distinct, ControlStep;
    match e
    case ControlIn(now, q, r, t) => ControlReply(cfg, s, now, q, r, t, p, ip);
    case _ =>
  }

  lemma ControlReply(cfg: Config, s: Server, now: real, q: Peer, r: Result<Processed, ProtocolError>, t: TlsAnswers,
                     p: Peer, ip: int)
    requires cfg.net.prefix <= 30 && Inv(cfg, s) && Replied(p, ip) in ControlStep(cfg, s, now, q, r, t).1
    ensures var s' := ControlStep(cfg, s, now, q, r, t).0;
            p in s'.connections && s'.connections[p].vpnIp == Some(ip)
  {
    hide ExchangeKeys, Inv;
    ControlKeeps(cfg, s, now, q, r, t);
    var c := Touch(s.connections[q], now).(state := StateAfter(s.connections[q].state, r));
    ExchangeReply(cfg, Put(s, q, c), now, q, t);
    SoundOne(cfg, ControlStep(cfg, s, now, q, r, t).0, q);
  }

  lemma ExchangeReply(cfg: Config, s: Server, now: real, p: Peer, t: TlsAnswers)
    requires cfg.net.prefix <= 30 && p in s.connections
    ensures var (_, s', out) := ExchangeKeys(cfg, s, now, p, t);
            p in s'.connections && forall o | o in out && o.Replied? :: o.peer == p && s'.connections[p].vpnIp == Some(o.ip)
  {
    hide KeyMethods.ParseClient, AllocateStep;
  }

  // ---------------------------------------------------------------- leases

  /** What a control packet of `p` can change: that one connection, one new token, one fresh lease. */
  ghost predicate Change(cfg: Config, s: Server, s': Server, now: real, p: Peer, token: Token) {
    && p in s.connections && p in s'.connections
    && s'.connections == s.connections[p := s'.connections[p]]
    && s'.connections[p].connectedAt == s.connections[p].connectedAt
    && (s'.pending == s.pending || (cfg.oauth && s'.pending == s.pending[token := PendingOAuth(p, now)]))
    && (s'.leased == s.leased || FreshLease(s, s', p))
    && s'.doomed == s.doomed
  }

  predicate FreshLease(s: Server, s': Server, p: Peer)
    requires p in s'.connections
  {
    var ip := s'.connections[p].vpnIp;
    ip.Some? && ip.value !in s.leased && s'.leased == s.leased + {ip.value}
  }

  lemma ChangeAfterPut(cfg: Config, s: Server, c: Connection, s': Server, now: real, p: Peer, token: Token)
    requires p in s.connections && c.connectedAt == s.connections[p].connectedAt
    requires Change(cfg, Put(s, p, c), s', now, p, token)
    ensures Change(cfg, s, s', now, p, token)
  {
  }

  lemma AssignChanges(cfg: Config, s: Server, now: real, p: Peer, ip: int, t: TlsAnswers)
    requires p in s.connections && ip !in s.leased
    ensures var s' := Assign(cfg, s.(leased := s.leased + {ip}), now, p, ip, t).1;
            Change(cfg, s, s', now, p, t.token) && (cfg.oauth ==> s'.connections[p].state == s.connections[p].state)
            && s'.connections[p].lastActivity == s.connections[p].lastActivity
  {
  }

  lemma AdmitChanges(cfg: Config, s: Server, now: real, p: Peer, user: Option<seq<byte>>, t: TlsAnswers)
    requires cfg.net.prefix <= 30 && PoolInv(cfg.net, s.leased) && p in s.connections
    ensures var s' := Admit(cfg, s, now, p, user, t).1;
            Change(cfg, s, s', now, p, t.token) && (cfg.oauth ==> s'.connections[p].state == s.connections[p].state)
            && s'.connections[p].lastActivity == s.connections[p].lastActivity
  {
    AllocateExact(cfg.net, s.leased);
    hide PoolInv, AllocateStep, Capacity, Assign, Change;
    var c := if user.Some? then s.connections[p].(username := user) else s.connections[p];
    PutIsChange(cfg, s, c, now, p, t.token);
    ChangeAfterPut(cfg, s, c, Put(s, p, c), now, p, t.token);
    if t.keyed {
      var c' := c.(keyed := true);
      PutIsChange(cfg, s, c', now, p, t.token);
      ChangeAfterPut(cfg, s, c', Put(s, p, c'), now, p, t.token);
      var (r, leased') := AllocateStep(cfg.net, s.leased);
      if r.Ok? {
        AssignChanges(cfg, Put(s, p, c'), now, p, r.value, t);
        ChangeAfterPut(cfg, s, c', Admit(cfg, s, now, p, user, t).1, now, p, t.token);
      }
    }
  }

  lemma ExchangeChanges(cfg: Config, s: Server, now: real, p: Peer, t: TlsAnswers)
    requires cfg.net.prefix <= 30 && PoolInv(cfg.net, s.leased) && p in s.connections
    ensures Change(cfg, s, ExchangeKeys(cfg, s, now, p, t).1, now, p, t.token)
    ensures cfg.oauth ==> ExchangeKeys(cfg, s, now, p, t).1.connections[p].state == KeyExchange
    ensures ExchangeKeys(cfg, s, now, p, t).1.connections[p].lastActivity == s.connections[p].lastActivity
  {
    hide Admit, KeyMethods.ParseClient, PoolInv, Change;
    var c := s.connections[p].(state := KeyExchange);
    assert Change(cfg, Put(s, p, c), Put(s, p, c), now, p, t.token) by { PutIsChange(cfg, s, c, now, p, t.token); }
    ChangeAfterPut(cfg, s, c, Put(s, p, c), now, p, t.token);
    if t.plain.Some? && KeyMethods.ParseClient(t.plain.value).Ok? {
      var user := KeyMethods.ParseClient(t.plain.value).value.username;
      AdmitChanges(cfg, Put(s, p, c), now, p, user, t);
      ChangeAfterPut(cfg, s, c, Admit(cfg, Put(s, p, c), now, p, user, t).1, now, p, t.token);
    }
  }

  lemma PutIsChange(cfg: Config, s: Server, c: Connection, now: real, p: Peer, token: Token)
    ensures Change(cfg, Put(s, p, c), Put(s, p, c), now, p, token)
  {
  }

  /** A control packet changes what it may, and with OAuth it establishes nothing and leaves an
      established connection's user and replies alone. */
  lemma ControlChanges(cfg: Config, s: Server, now: real, p: Peer, r: Result<Processed, ProtocolError>, t: TlsAnswers)
    requires cfg.net.prefix <= 30 && PoolInv(cfg.net, s.leased) && p in s.connections
    ensures var s' := ControlStep(cfg, s, now, p, r, t).0;
            && Change(cfg, s, s', now, p, t.token) && s'.connections[p].lastActivity == now
            && (cfg.oauth && s'.connections[p].state == Established ==>
                  s'.connections[p] == Touch(s.connections[p], now))
  {
    hide ExchangeKeys, PoolInv, Change;
    var c := Touch(s.connections[p], now).(state := StateAfter(s.connections[p].state, r));
    PutIsChange(cfg, s, c, now, p, t.token);
    ChangeAfterPut(cfg, s, c, Put(s, p, c), now, p, t.token);
    if r.Ok? && r.value.TlsData? && c.tls && t.processed && t.complete && AwaitingKeys(c) {
      ExchangeChanges(cfg, Put(s, p, c), now, p, t);
      ChangeAfterPut(cfg, s, c, ExchangeKeys(cfg, Put(s, p, c), now, p, t).1, now, p, t.token);
    }
  }

  /** A step leases at most one address, a fresh one, and never gives one back. */
  lemma StepLeases(cfg: Config, s: Server, e: Event)
    requires cfg.net.prefix <= 30 && PoolInv(cfg.net, s.leased)
    ensures var s' := Step(cfg, s, e).0;
            s'.leased == s.leased || (e.ControlIn? && e.peer in s'.connections && FreshLease(s, s', e.peer))
  {
    hide ControlStep, PoolInv;
    if e.ControlIn? && e.peer in s.connections {
      ControlChanges(cfg, s, e.now, e.peer, e.result, e.answers);
    } else if e.ControlIn? {
      NoConnection(cfg, s, e.now, e.peer, e.result, e.answers);
    }
  }

  lemma NoConnection(cfg: Config, s: Server, now: real, p: Peer, r: Result<Processed, ProtocolError>, t: TlsAnswers)
    requires cfg.net.prefix <= 30 && p !in s.connections
    ensures ControlStep(cfg, s, now, p, r, t) == (s, [])
  {
  }

  /** How many clients were given an address during the events `es`. */
  function Admissions(cfg: Config, es: seq<Event>): nat
    requires cfg.net.prefix <= 30
  {
    if es == [] then 0
    else
      var before, after := Run(cfg, es[..|es| - 1]), Run(cfg, es);
      Admissions(cfg, es[..|es| - 1]) + if after.leased == before.leased then 0 else 1
  }

  /** Every admission costs an address for good: the leased addresses are as many as the admissions of
      the whole run, whoever has left since, and at most 2^(32-prefix) - 3. */
  lemma {:induction false} AdmissionsAreBounded(cfg: Config, es: seq<Event>)
    requires cfg.net.prefix <= 30
    ensures |Run(cfg, es).leased| == Admissions(cfg, es) <= Capacity(cfg.net)
  {
    AddressInvariant(cfg, es);
    UsableSize(cfg.net);
    SubsetSize(Run(cfg, es).leased, Usable(cfg.net));
    if es != [] {
      var before := es[..|es| - 1];
      AddressInvariant(cfg, before);
      AdmissionsAreBounded(cfg, before);
      StepLeases(cfg, Run(cfg, before), es[|es| - 1]);
      hide Step, Usable, Capacity, Inv;
    } else {
      hide Usable, Capacity;
    }
  }

  /** Leases only grow along a run. */
  lemma {:induction false} LeasesGrow(cfg: Config, es: seq<Event>, j: nat)
    requires cfg.net.prefix <= 30 && j <= |es|
    ensures Run(cfg, es[..j]).leased <= Run(cfg, es).leased
    decreases |es|
  {
    if j == |es| {
      assert es[..j] == es;
    } else {
      var before := es[..|es| - 1];
      assert before[..j] == es[..j];
      LeasesGrow(cfg, before, j);
      AddressInvariant(cfg, before);
      StepLeases(cfg, Run(cfg, before), es[|es| - 1]);
      hide Step, Inv;
    }
  }

  /** An address a client is given was never held by any connection before, in the whole run. */
  lemma AddressIsNew(cfg: Config, es: seq<Event>, e: Event, j: nat, q: Peer)
    requires cfg.net.prefix <= 30 && j <= |es|
    requires Step(cfg, Run(cfg, es), e).0.leased != Run(cfg, es).leased
    requires q in Run(cfg, es[..j]).connections
    ensures var s' := Step(cfg, Run(cfg, es), e).0;
            && e.ControlIn? && e.peer in s'.connections && s'.connections[e.peer].vpnIp.Some?
            && Run(cfg, es[..j]).connections[q].vpnIp != s'.connections[e.peer].vpnIp
  {
    AddressInvariant(cfg, es);
    StepLeases(cfg, Run(cfg, es), e);
    LeasesGrow(cfg, es, j);
    AddressInvariant(cfg, es[..j]);
    SoundOne(cfg, Run(cfg, es[..j]), q);
    hide Step, Run, Inv;
  }

  // ---------------------------------------------------------------- OAuth logins

  /** Event `j` completes a login with a token that was pending for `p`. */
  ghost predicate LoginFor(cfg: Config, es: seq<Event>, j: nat, p: Peer)
    requires cfg.net.prefix <= 30
  {
    && j < |es| && es[j].Completed?
    && var s := Run(cfg, es[..j]);
       es[j].token in s.pending && s.pending[es[j].token].peer == p && p in s.connections
  }

  predicate EstablishedAs(s: Server, p: Peer, email: seq<byte>) {
    p in s.connections && s.connections[p].state == Established && s.connections[p].username == Some(email)
  }

  /** A login at `j` established the connection of `p`, which has been established ever since. */
  ghost predicate LoggedInAt(cfg: Config, es: seq<Event>, p: Peer, j: nat)
    requires cfg.net.prefix <= 30
  {
    && LoginFor(cfg, es, j, p)
    && forall i | j < i <= |es| :: EstablishedAs(Run(cfg, es[..i]), p, es[j].email)
  }

  /** With OAuth an established connection has no push reply left to send. */
  ghost predicate RepliesTaken(s: Server) {
    forall p | p in s.connections && s.connections[p].state == Established :: s.connections[p].pendingReply.None?
  }

  /** With OAuth, only a completed login establishes a connection, and nothing changes the user of an
      established one. */
  lemma EstablishedStep(cfg: Config, s: Server, e: Event, p: Peer)
    requires cfg.net.prefix <= 30 && cfg.oauth && RepliesTaken(s) && PoolInv(cfg.net, s.leased)
    ensures var s' := Step(cfg, s, e).0;
            p in s'.connections && s'.connections[p].state == Established ==>
              && s'.connections[p].pendingReply.None?
              && p in s.connections
              && (|| (s.connections[p].state == Established && s'.connections[p].username == s.connections[p].username)
                  || (&& e.Completed? && e.token in s.pending && s.pending[e.token].peer == p
                      && s'.connections[p].username == Some(e.email)))
  {
    hide ControlStep, PoolInv;
    if e.ControlIn? {
      if e.peer in s.connections {
        ControlChanges(cfg, s, e.now, e.peer, e.result, e.answers);
      } else {
        NoConnection(cfg, s, e.now, e.peer, e.result, e.answers);
      }
    }
  }

  lemma {:induction false} RepliesAlwaysTaken(cfg: Config, es: seq<Event>)
    requires cfg.net.prefix <= 30 && cfg.oauth
    ensures RepliesTaken(Run(cfg, es))
  {
    if es != [] {
      var before := es[..|es| - 1];
      RepliesAlwaysTaken(cfg, before);
      AddressInvariant(cfg, before);
      forall p | p in Run(cfg, es).connections && Run(cfg, es).connections[p].state == Established
        ensures Run(cfg, es).connections[p].pendingReply.None?
      {
        EstablishedStep(cfg, Run(cfg, before), es[|es| - 1], p);
      }
    }
  }

  /** With OAuth, an established connection goes back to a login with a token pending for that client,
      and has been established under the e-mail address of that login ever since. */
  lemma {:induction false} EstablishedByLogin(cfg: Config, es: seq<Event>, p: Peer)
    requires cfg.net.prefix <= 30 && cfg.oauth
    requires p in Run(cfg, es).connections && Run(cfg, es).connections[p].state == Established
    ensures exists j :: LoggedInAt(cfg, es, p, j)
  {
    var n := |es| - 1;
    var before, e := es[..n], es[n];
    RepliesAlwaysTaken(cfg, before);
    AddressInvariant(cfg, before);
    EstablishedStep(cfg, Run(cfg, before), e, p);
    hide Step, Inv, RepliesTaken, LoggedInAt;
    assert es[..n + 1] == es;
    if Run(cfg, before).connections[p].state == Established
       && Run(cfg, es).connections[p].username == Run(cfg, before).connections[p].username {
      EstablishedByLogin(cfg, before, p);
      var j :| LoggedInAt(cfg, before, p, j);
      LoginExtends(cfg, es, p, j);
    } else {
      LoginNow(cfg, es, p);
    }
  }

  lemma LoginNow(cfg: Config, es: seq<Event>, p: Peer)
    requires cfg.net.prefix <= 30 && es != [] && LoginFor(cfg, es, |es| - 1, p)
    requires EstablishedAs(Run(cfg, es), p, es[|es| - 1].email)
    ensures LoggedInAt(cfg, es, p, |es| - 1)
  {
    assert es[..|es|] == es;
    hide Run;
  }

  lemma LoginExtends(cfg: Config, es: seq<Event>, p: Peer, j: nat)
    requires cfg.net.prefix <= 30 && es != [] && LoggedInAt(cfg, es[..|es| - 1], p, j)
    requires p in Run(cfg, es[..|es| - 1]).connections
    requires p in Run(cfg, es).connections && Run(cfg, es).connections[p].state == Established
    requires Run(cfg, es[..|es| - 1]).connections[p].username == Run(cfg, es).connections[p].username
    ensures LoggedInAt(cfg, es, p, j)
  {
    hide Run;
    var before := es[..|es| - 1];
    assert before[..j] == es[..j] && before[..|before|] == before;
    forall i | j < i <= |es|
      ensures EstablishedAs(Run(cfg, es[..i]), p, es[j].email)
    {
      if i < |es| {
        assert before[..i] == es[..i];
      } else {
        assert es[..i] == es;
      }
    }
  }

  /** With OAuth, no packet of a client reaches the TUN device unless that client's login completed
      before, and the connection has stayed established since. */
  lemma DataOnlyAfterLogin(cfg: Config, es: seq<Event>, e: Event, p: Peer, packet: seq<byte>)
    requires cfg.net.prefix <= 30 && cfg.oauth && ToTun(p, packet) in Step(cfg, Run(cfg, es), e).1
    ensures exists j :: LoggedInAt(cfg, es, p, j)
  {
    ForwardsIff(cfg, Run(cfg, es), e, p, packet);
    EstablishedByLogin(cfg, es, p);
  }

  /** A data packet of `p` decrypted to `plain` on its established connection. */
  predicate Decrypted(s: Server, e: Event, p: Peer, plain: seq<byte>) {
    e.DataIn? && e.peer == p && p in s.connections && s.connections[p].state == Established && e.result == Ok(DataOut(plain))
  }

  /** A packet is handed to the TUN device exactly if it came from an established connection, is not the
      keep-alive ping, has at least the 20 bytes of an IPv4 header, and the queue has room; the ping is
      answered instead. */
  lemma ForwardsIff(cfg: Config, s: Server, e: Event, p: Peer, packet: seq<byte>)
    requires cfg.net.prefix <= 30
    ensures ToTun(p, packet) in Step(cfg, s, e).1
            <==> Decrypted(s, e, p, packet) && !IsPing(packet) && |packet| >= 20 && e.room
    ensures PingReply(p) in Step(cfg, s, e).1 <==> exists ping :: Decrypted(s, e, p, ping) && IsPing(ping)
  {
    hide AllocateStep, KeyMethods.ParseClient;
    if e.DataIn? && e.result.Ok? && e.result.value.DataOut? {
      var plain := e.result.value.plain;
      assert Decrypted(s, e, p, plain) ==> Step(cfg, s, e).1 == Forward(p, e.result, e.room);
    }
  }

  /** The 16 bytes of the OpenVPN keep-alive ping. */
  predicate IsPing(packet: seq<byte>) {
    packet == [42, 24, 123, 243, 100, 30, 180, 203, 7, 237, 45, 10, 152, 31, 199, 72]
  }
}
