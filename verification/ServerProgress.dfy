/** What the server's handlers do, in full and in one place each: when a hard reset is answered, when a client is
    admitted, given an address and established, and what it is sent. */
module ServerProgress {
  import opened Common
  import opened AddressPools
  import opened SessionSteps
  import opened ServerSteps
  import opened ServerRuns
  import KeyMethods

  // ---------------------------------------------------------------- control packets

  /** TLS records arrived on a connection that still awaits its keys, and the handshake is complete. */
  predicate Exchanging(s: Server, e: Event) {
    && e.ControlIn? && e.peer in s.connections && s.connections[e.peer].tls
    && e.result.Ok? && e.result.value.TlsData? && e.answers.processed && e.answers.complete
    && s.connections[e.peer].state in {TlsHandshake, KeyExchange}
  }

  /** The client's key method could be read. */
  predicate Identified(s: Server, e: Event) {
    Exchanging(s, e) && e.answers.plain.Some? && KeyMethods.ParseClient(e.answers.plain.value).Ok?
  }

  predicate Keyed(s: Server, e: Event) { Identified(s, e) && e.answers.keyed }

  /** And there is an address for it: `ip` is the least free one. */
  ghost predicate Leases(cfg: Config, s: Server, e: Event, ip: int)
    requires cfg.net.prefix <= 30
  {
    && Keyed(s, e) && ip in Usable(cfg.net) && ip !in s.leased
    && forall a | a in Usable(cfg.net) && a < ip :: a in s.leased
  }

  ghost predicate Admits(cfg: Config, s: Server, e: Event)
    requires cfg.net.prefix <= 30
  {
    exists ip :: Leases(cfg, s, e, ip)
  }

  lemma LeasesOne(cfg: Config, s: Server, e: Event, a: int, b: int)
    requires cfg.net.prefix <= 30 && Leases(cfg, s, e, a) && Leases(cfg, s, e, b)
    ensures a == b
  {
    hide Keyed, Usable;
  }

  /** An address is leased exactly if one is free. */
  lemma LeasesIff(cfg: Config, s: Server, e: Event)
    requires cfg.net.prefix <= 30 && PoolInv(cfg.net, s.leased) && Keyed(s, e)
    ensures var (r, leased') := AllocateStep(cfg.net, s.leased);
            if r.Ok? then Leases(cfg, s, e, r.value) && leased' == s.leased + {r.value}
            else leased' == s.leased && !Admits(cfg, s, e)
  {
    AllocateExact(cfg.net, s.leased);
    UsableSize(cfg.net);
    hide AllocateStep, Capacity, Keyed, Reserved, Net.Size, Net.Network;
    if AllocateStep(cfg.net, s.leased).0.Err? {
      SameSize(s.leased, Usable(cfg.net));
    }
  }

  lemma SameSize(a: set<int>, b: set<int>)
    requires a <= b && |a| == |b|
    ensures a == b
  {
    assert b == a + (b - a);
    assert |b - a| == 0;
  }

  /** Everything a control packet of a client does to its connection, to the leases and to the pending logins. */
  ghost predicate ControlChange(cfg: Config, s: Server, e: Event, s': Server)
    requires cfg.net.prefix <= 30 && e.ControlIn? && e.peer in s.connections
  {
    var p, c := e.peer, s.connections[e.peer];
    && p in s'.connections
    && var c' := s'.connections[p];
       && s' == Server(s.connections[p := c'], s'.pending, s'.leased, s.doomed)
       && c'.lastActivity == e.now && c'.connectedAt == c.connectedAt && c'.tls == c.tls && c'.response == c.response
       && c'.keyed == (c.keyed || Keyed(s, e))
       && c'.username == (if Identified(s, e) && ClientName(e).Some? then ClientName(e) else c.username)
       && c'.state == (if !Exchanging(s, e) then StateAfter(c.state, e.result)
                       else if Admits(cfg, s, e) && !cfg.oauth && e.answers.flushed then Established else KeyExchange)
       && (Admits(cfg, s, e) ==>
             exists ip :: Leases(cfg, s, e, ip) && s'.leased == s.leased + {ip}
                          && c'.vpnIp == Some(ip) && c'.pendingReply == Some(ip))
       && (!Admits(cfg, s, e) ==> s'.leased == s.leased && c'.vpnIp == c.vpnIp && c'.pendingReply == c.pendingReply)
       && (if Admits(cfg, s, e) && cfg.oauth
           then s'.pending == s.pending[e.answers.token := PendingOAuth(p, e.now)] && c'.oauthState == Some(e.answers.token)
           else s'.pending == s.pending && c'.oauthState == c.oauthState)
  }

  function ClientName(e: Event): Option<seq<byte>>
    requires e.ControlIn? && e.answers.plain.Some? && KeyMethods.ParseClient(e.answers.plain.value).Ok?
  {
    KeyMethods.ParseClient(e.answers.plain.value).value.username
  }

  /** The connection while its packet is handled, before an address is leased. */
  function Handled(s: Server, e: Event): Connection
    requires e.ControlIn? && e.peer in s.connections
  {
    var c := s.connections[e.peer].(lastActivity := e.now, state := StateAfter(s.connections[e.peer].state, e.result));
    if !Exchanging(s, e) then c
    else
      var named := if Identified(s, e) && ClientName(e).Some? then c.(username := ClientName(e)) else c;
      named.(state := KeyExchange, keyed := c.keyed || Keyed(s, e))
  }

  lemma NotKeyed(cfg: Config, s: Server, e: Event)
    requires cfg.net.prefix <= 30 && e.ControlIn? && e.peer in s.connections && !Keyed(s, e)
    ensures ServerRuns.Step(cfg, s, e).0 == Put(s, e.peer, Handled(s, e))
  {
    hide AllocateStep, KeyMethods.ParseClient;
  }

  lemma KeyedStep(cfg: Config, s: Server, e: Event)
    requires cfg.net.prefix <= 30 && Keyed(s, e)
    ensures var (r, leased') := AllocateStep(cfg.net, s.leased);
            var s1 := Put(s, e.peer, Handled(s, e)).(leased := leased');
            ServerRuns.Step(cfg, s, e).0
            == if r.Err? then s1.(leased := s.leased) else Assign(cfg, s1, e.now, e.peer, r.value, e.answers).1
  {
    hide AllocateStep, KeyMethods.ParseClient, Assign, AnswerPushRequest;
    var p, t := e.peer, e.answers;
    var c := Touch(s.connections[p], e.now).(state := StateAfter(s.connections[p].state, e.result));
    var s0 := Put(s, p, c);
    assert ServerRuns.Step(cfg, s, e).0 == ExchangeKeys(cfg, s0, e.now, p, t).1;
    hide ServerRuns.Step;
    assert Put(Put(s0, p, c.(state := KeyExchange)), p, Handled(s, e)) == Put(s, p, Handled(s, e));
  }

  /** A control packet does exactly that. */
  lemma ControlExact(cfg: Config, s: Server, e: Event)
    requires cfg.net.prefix <= 30 && PoolInv(cfg.net, s.leased) && e.ControlIn? && e.peer in s.connections
    ensures ControlChange(cfg, s, e, ServerRuns.Step(cfg, s, e).0)
  {
    hide AllocateStep, KeyMethods.ParseClient, PoolInv, Usable, ServerRuns.Step, StateAfter;
    if Keyed(s, e) {
      LeasesIff(cfg, s, e);
      KeyedStep(cfg, s, e);
      var r := AllocateStep(cfg.net, s.leased).0;
      assert r.Ok? ==> Leases(cfg, s, e, r.value);
    } else {
      NotKeyed(cfg, s, e);
    }
  }

  /** The handler carried on to the end: nothing failed after the key method was read. */
  ghost predicate Completes(cfg: Config, s: Server, e: Event)
    requires cfg.net.prefix <= 30 && e.ControlIn?
  {
    Identified(s, e) ==> e.answers.keyed && (Admits(cfg, s, e) ==> e.answers.flushed)
  }

  /** The client asked for its configuration on a connection that is established by then. */
  ghost predicate AnswersPush(cfg: Config, s: Server, e: Event, s': Server)
    requires cfg.net.prefix <= 30
  {
    && e.ControlIn? && e.peer in s.connections && e.peer in s'.connections && s.connections[e.peer].tls
    && e.result.Ok? && e.result.value.TlsData? && e.answers.processed && e.answers.complete && Completes(cfg, s, e)
    && s'.connections[e.peer].state == Established && e.answers.pushRequest && s'.connections[e.peer].pendingReply.Some?
  }

  /** What a control packet is answered with: the push reply or the login notice of an admission, and the kept
      push reply on request. */
  lemma ControlOutputs(cfg: Config, s: Server, e: Event)
    requires cfg.net.prefix <= 30 && PoolInv(cfg.net, s.leased) && e.ControlIn? && e.peer in s.connections
    ensures var (s', out) := ServerRuns.Step(cfg, s, e);
            && e.peer in s'.connections
            && (AnswersPush(cfg, s, e, s') ==> s'.connections[e.peer].pendingReply.Some?)
            && (Admits(cfg, s, e) ==> s'.connections[e.peer].vpnIp.Some?)
            && out == (if Admits(cfg, s, e) && e.answers.written
                       then [if cfg.oauth then AuthPending(e.peer, e.answers.token)
                             else Replied(e.peer, s'.connections[e.peer].vpnIp.value)]
                       else [])
                      + (if AnswersPush(cfg, s, e, s') then [Replied(e.peer, s'.connections[e.peer].pendingReply.value)] else [])
  {
    ControlExact(cfg, s, e);
    hide AllocateStep, KeyMethods.ParseClient, PoolInv, Usable;
    if Keyed(s, e) {
      LeasesIff(cfg, s, e);
      KeyedOutputs(cfg, s, e);
    } else {
      NotKeyedOutputs(cfg, s, e);
    }
  }

  lemma NotKeyedOutputs(cfg: Config, s: Server, e: Event)
    requires cfg.net.prefix <= 30 && e.ControlIn? && e.peer in s.connections && !Keyed(s, e)
    ensures var (s', out) := ServerRuns.Step(cfg, s, e);
            && e.peer in s'.connections
            && out == if AnswersPush(cfg, s, e, s') then [Replied(e.peer, s'.connections[e.peer].pendingReply.value)] else []
  {
    hide AllocateStep, KeyMethods.ParseClient, Usable;
  }

  lemma KeyedOutputs(cfg: Config, s: Server, e: Event)
    requires cfg.net.prefix <= 30 && PoolInv(cfg.net, s.leased) && Keyed(s, e)
    ensures var (s', out) := ServerRuns.Step(cfg, s, e);
            var r := AllocateStep(cfg.net, s.leased).0;
            && e.peer in s'.connections
            && out == (if r.Ok? && e.answers.written
                       then [if cfg.oauth then AuthPending(e.peer, e.answers.token) else Replied(e.peer, r.value)] else [])
                      + (if AnswersPush(cfg, s, e, s') then [Replied(e.peer, s'.connections[e.peer].pendingReply.value)] else [])
  {
    LeasesIff(cfg, s, e);
    hide AllocateStep, KeyMethods.ParseClient, Usable, PoolInv;
  }

  // ---------------------------------------------------------------- hard resets

  /** A hard reset is answered from the cache exactly if the client was heard of in the last 30 seconds and has
      been answered before; this changes nothing. Otherwise a new connection takes the place of the old one,
      exactly if the session accepts the packet, the TLS engine starts, where TLS is on, and the response could
      be made. */
  lemma ResetExact(cfg: Config, s: Server, e: Event)
    requires cfg.net.prefix <= 30 && e.HardResetIn?
    ensures var (s', out) := ServerRuns.Step(cfg, s, e);
            var p := e.peer;
            var cached := p in s.connections && e.now - s.connections[p].lastActivity <= 30.0
                          && s.connections[p].response.Some?;
            if cached then s' == s && out == [CachedReset(p, s.connections[p].response.value)]
            else if e.result.Ok? && (cfg.tls ==> e.ready) && e.wire.Some? then
              && s' == s.(connections := s'.connections) && s'.connections.Keys == s.connections.Keys + {p}
              && (forall q | q in s.connections && q != p :: s'.connections[q] == s.connections[q])
              && s'.connections[p] == Connection(StateAfter(Initial, e.result), cfg.tls, e.now, e.now, None, None, false,
                                                 e.wire, None, None)
              && out == [NewReset(p, e.wire.value)]
            else s' == s && out == []
  {
    hide StateAfter;
  }

  /** A connection keeps the response it was created with. */
  lemma ResponseKept(cfg: Config, s: Server, e: Event, p: Peer)
    requires cfg.net.prefix <= 30 && PoolInv(cfg.net, s.leased) && p in ServerRuns.Step(cfg, s, e).0.connections
    ensures var (s', out) := ServerRuns.Step(cfg, s, e);
            var w := s'.connections[p].response;
            (p in s.connections && s.connections[p].response == w) || (e.HardResetIn? && w.Some? && out == [NewReset(p, w.value)])
  {
    if e.ControlIn? && e.peer in s.connections {
      ControlExact(cfg, s, e);
      hide ServerRuns.Step;
    } else {
      hide ControlStep, PoolInv, StateAfter;
      if e.ControlIn? {
        NoConnection(cfg, s, e.now, e.peer, e.result, e.answers);
      }
    }
  }

  /** Event `i` answered a hard reset of `p` with the response its connection has now. */
  ghost predicate AnsweredAt(cfg: Config, es: seq<Event>, p: Peer, i: nat)
    requires cfg.net.prefix <= 30 && p in ServerRuns.Run(cfg, es).connections
  {
    var w := ServerRuns.Run(cfg, es).connections[p].response;
    i < |es| && w.Some? && ServerRuns.Step(cfg, ServerRuns.Run(cfg, es[..i]), es[i]).1 == [NewReset(p, w.value)]
  }

  lemma {:induction false} ResponseWasSent(cfg: Config, es: seq<Event>, p: Peer)
    requires cfg.net.prefix <= 30 && p in ServerRuns.Run(cfg, es).connections
    ensures exists i :: AnsweredAt(cfg, es, p, i)
  {
    var n := |es| - 1;
    var before := es[..n];
    AddressInvariant(cfg, before);
    ResponseKept(cfg, ServerRuns.Run(cfg, before), es[n], p);
    hide ServerRuns.Step, Inv;
    if p in ServerRuns.Run(cfg, before).connections
       && ServerRuns.Run(cfg, before).connections[p].response == ServerRuns.Run(cfg, es).connections[p].response {
      ResponseWasSent(cfg, before, p);
      var i: nat :| AnsweredAt(cfg, before, p, i);
      assert before[..i] == es[..i] && AnsweredAt(cfg, es, p, i);
    } else {
      assert AnsweredAt(cfg, es, p, n);
    }
  }

  /** In every run: a client that repeats its hard reset within 30 seconds of being heard of gets, byte for byte,
      the response that its first one got, and nothing else changes. */
  lemma RetryGetsSameResponse(cfg: Config, es: seq<Event>, e: Event)
    requires cfg.net.prefix <= 30 && e.HardResetIn? && e.peer in ServerRuns.Run(cfg, es).connections
    requires e.now - ServerRuns.Run(cfg, es).connections[e.peer].lastActivity <= 30.0
    ensures exists i :: AnsweredAt(cfg, es, e.peer, i)
    ensures var s := ServerRuns.Run(cfg, es);
            ServerRuns.Step(cfg, s, e) == (s, [CachedReset(e.peer, s.connections[e.peer].response.value)])
  {
    ResponseWasSent(cfg, es, e.peer);
    ResetExact(cfg, ServerRuns.Run(cfg, es), e);
    hide ServerRuns.Step, ServerRuns.Run;
  }

  // ---------------------------------------------------------------- logins

  /** A completed login takes effect exactly if its token is pending and its client still has a connection with a
      kept push reply: the reply is spent and the user named; the connection is established exactly if the reply
      was sent over its TLS stream. */
  lemma LoginExact(cfg: Config, s: Server, e: Event)
    requires cfg.net.prefix <= 30 && e.Completed?
    ensures var (s', out) := ServerRuns.Step(cfg, s, e);
            && s' == s.(pending := s.pending - {e.token}, connections := s'.connections)
            && (e.token !in s.pending ==> s' == s && out == [])
            && (e.token in s.pending ==>
                  var p := s.pending[e.token].peer;
                  if p !in s.connections || s.connections[p].pendingReply.None?
                  then s'.connections == s.connections && out == []
                  else
                    var c := s.connections[p];
                    var sent := c.tls && e.written;
                    && s'.connections == s.connections[p := c.(pendingReply := None, username := Some(e.email),
                                                               state := if sent && e.flushed then Established else c.state)]
                    && out == if sent then [Replied(p, c.pendingReply.value)] else [])
  {
  }

  /** Everyone but the client of a data packet is left alone, and so is all of its connection but the time. */
  lemma DataExact(cfg: Config, s: Server, e: Event)
    requires cfg.net.prefix <= 30 && e.DataIn?
    ensures var s' := ServerRuns.Step(cfg, s, e).0;
            if e.peer !in s.connections then s' == s
            else
              var c := s.connections[e.peer];
              s' == s.(connections := s.connections[e.peer := c.(lastActivity := e.now,
                         state := if c.state == Established then StateAfter(c.state, e.result) else c.state)])
  {
    hide Forward, StateAfter;
  }

  /** The cleanup: nothing is collected while it is switched off or the last collection is not removed; otherwise
      exactly the connections silent for longer than the timeout. What was collected is removed. */
  lemma CleanupExact(cfg: Config, s: Server, e: Event, p: Peer)
    requires cfg.net.prefix <= 30 && (e.Collect? || e.Remove?)
    ensures var (s', out) := ServerRuns.Step(cfg, s, e);
            && out == [] && s'.pending == s.pending && s'.leased == s.leased
            && (e.Collect? ==>
                  && s'.connections == s.connections
                  && (p in s'.doomed <==>
                        || p in s.doomed
                        || (&& s.doomed == {} && cfg.idleTimeout > 0.0 && p in s.connections
                            && e.now - s.connections[p].lastActivity > cfg.idleTimeout)))
            && (e.Remove? ==>
                  && s'.doomed == {} && (p in s'.connections <==> p in s.connections && p !in s.doomed)
                  && (p in s'.connections ==> s'.connections[p] == s.connections[p]))
  {
  }

  // ---------------------------------------------------------------- a client is served

  /** The connection of `p` is established, holds the address, and packets to it find it. */
  ghost predicate Served(s: Server, p: Peer, ip: int) {
    && p in s.connections && s.connections[p].state == Established && s.connections[p].keyed
    && s.connections[p].vpnIp == Some(ip) && IsRoute(s, ip, p)
  }

  /** From every reachable state: a client that completes the key exchange while an address is free is served at
      the least free address, at once or, with OAuth, when its login completes, and is sent that address. */
  lemma ClientIsServed(cfg: Config, es: seq<Event>, e: Event, ip: int, now: real, email: seq<byte>)
    requires cfg.net.prefix <= 30 && Leases(cfg, ServerRuns.Run(cfg, es), e, ip)
    requires e.answers.written && e.answers.flushed
    ensures var (s', out) := ServerRuns.Step(cfg, ServerRuns.Run(cfg, es), e);
            if !cfg.oauth then Served(s', e.peer, ip) && Replied(e.peer, ip) in out
            else
              && AuthPending(e.peer, e.answers.token) in out
              && var (s'', out') := ServerRuns.Step(cfg, s', Completed(now, e.answers.token, email, true, true));
                 && Served(s'', e.peer, ip) && Replied(e.peer, ip) in out'
                 && s''.connections[e.peer].username == Some(email) && e.answers.token !in s''.pending
  {
    var s := ServerRuns.Run(cfg, es);
    AddressInvariant(cfg, es);
    assert PoolInv(cfg.net, s.leased) && Admits(cfg, s, e);
    ControlExact(cfg, s, e);
    ControlOutputs(cfg, s, e);
    hide ServerRuns.Step, ServerRuns.Run, PoolInv, AllSound, Distinct, Usable, KeyMethods.ParseClient;
    var s' := ServerRuns.Step(cfg, s, e).0;
    var a :| Leases(cfg, s, e, a) && s'.leased == s.leased + {a} && s'.connections[e.peer].vpnIp == Some(a)
             && s'.connections[e.peer].pendingReply == Some(a);
    LeasesOne(cfg, s, e, a, ip);
    LoginExact(cfg, s', Completed(now, e.answers.token, email, true, true));
  }
}
