/** OAuth tokens over every run of the server: where they come from, that each is spent once, and which
    connection a completed login reaches. */
module LoginTokens {
  import opened Common
  import AddressPools
  import opened SessionSteps
  import opened ServerSteps
  import opened ServerRuns
  import KeyMethods
  import Bits

  /** The random numbers drawn while handling control packets never repeat. */
  predicate FreshTokens(es: seq<Event>) {
    forall i, j | 0 <= i < j < |es| && es[i].ControlIn? && es[j].ControlIn? :: es[i].answers.token != es[j].answers.token
  }

  /** The clock advances from one event to the next. */
  predicate Ticking(es: seq<Event>) {
    forall i, j | 0 <= i < j < |es| :: es[i].now < es[j].now
  }

  /** Event `m` registered token `t` for the connection `p` then had. */
  ghost predicate IssuedAt(cfg: Config, es: seq<Event>, t: Token, p: Peer, m: nat)
    requires cfg.net.prefix <= 30
  {
    && m < |es| && es[m].ControlIn? && es[m].answers.token == t && es[m].peer == p
    && p in Run(cfg, es[..m]).connections
    && var pending := Run(cfg, es[..m + 1]).pending;
       t in pending && pending[t] == PendingOAuth(p, es[m].now)
  }

  /** A token becomes pending only while a control packet of its client is handled. */
  lemma PendingStep(cfg: Config, s: Server, e: Event, t: Token)
    requires cfg.net.prefix <= 30 && AddressPools.PoolInv(cfg.net, s.leased) && t in Step(cfg, s, e).0.pending
    ensures var q := Step(cfg, s, e).0.pending[t];
            || (t in s.pending && s.pending[t] == q)
            || (e.ControlIn? && e.answers.token == t && q == PendingOAuth(e.peer, e.now) && e.peer in s.connections)
  {
    hide ControlStep, AddressPools.PoolInv;
    if e.ControlIn? {
      if e.peer in s.connections {
        ControlChanges(cfg, s, e.now, e.peer, e.result, e.answers);
      } else {
        NoConnection(cfg, s, e.now, e.peer, e.result, e.answers);
      }
    }
  }

  /** Every pending token was issued, to the client it is pending for, at the time recorded with it. */
  lemma {:induction false} PendingWasIssued(cfg: Config, es: seq<Event>, t: Token) returns (m: nat)
    requires cfg.net.prefix <= 30 && t in Run(cfg, es).pending
    ensures var q := Run(cfg, es).pending[t];
            IssuedAt(cfg, es, t, q.peer, m) && q.createdAt == es[m].now
  {
    var n := |es| - 1;
    var before := es[..n];
    AddressInvariant(cfg, before);
    PendingStep(cfg, Run(cfg, before), es[n], t);
    hide Step, Inv;
    if t in Run(cfg, before).pending && Run(cfg, before).pending[t] == Run(cfg, es).pending[t] {
      m := PendingWasIssued(cfg, before, t);
      assert before[..m] == es[..m] && before[..m + 1] == es[..m + 1];
    } else {
      m := n;
      assert es[..n + 1] == es;
    }
  }

  lemma Spent(cfg: Config, s: Server, e: Event)
    requires cfg.net.prefix <= 30 && e.Completed?
    ensures e.token !in Step(cfg, s, e).0.pending
  {
  }

  /** A token is spent at most once: after the login that consumed it, it is never pending again. */
  lemma {:induction false} TokenSpentOnce(cfg: Config, es: seq<Event>, i: nat, t: Token)
    requires cfg.net.prefix <= 30 && FreshTokens(es)
    requires i < |es| && es[i].Completed? && es[i].token == t && t in Run(cfg, es[..i]).pending
    ensures t !in Run(cfg, es).pending
    decreases |es|
  {
    var n := |es| - 1;
    var before := es[..n];
    if i == n {
      Spent(cfg, Run(cfg, before), es[n]);
    } else {
      hide Step, Inv;
      assert before[..i] == es[..i];
      TokenSpentOnce(cfg, before, i, t);
      AddressInvariant(cfg, before);
      PoolOf(cfg, Run(cfg, before));
      var m := PendingWasIssued(cfg, es[..i], t);
      if t in Run(cfg, es).pending {
        PendingStep(cfg, Run(cfg, before), es[n], t);
      }
    }
  }

  /** A login of `p`: a token issued to it by event `m` and consumed by event `j`, never pending again, and
      a connection established since then under the e-mail address of the login. */
  ghost predicate LoginOf(cfg: Config, es: seq<Event>, p: Peer, m: nat, j: nat)
    requires cfg.net.prefix <= 30
  {
    && m < j && LoggedInAt(cfg, es, p, j)
    && IssuedAt(cfg, es, es[j].token, p, m)
    && forall i | j < i <= |es| :: es[j].token !in Run(cfg, es[..i]).pending
  }

  /** With OAuth and tokens that do not repeat, in every run: no packet of a client reaches the TUN device
      unless a token was issued to that client, consumed once by a completed login, and the connection has
      been established since. */
  lemma DataOnlyAfterIssuedLogin(cfg: Config, es: seq<Event>, e: Event, p: Peer, packet: seq<byte>)
    requires cfg.net.prefix <= 30 && cfg.oauth && FreshTokens(es)
    requires ToTun(p, packet) in Step(cfg, Run(cfg, es), e).1
    ensures exists m, j :: LoginOf(cfg, es, p, m, j)
  {
    DataOnlyAfterLogin(cfg, es, e, p, packet);
    hide Step, Run, LoggedInAt, LoginOf, FreshTokens;
    var j :| LoggedInAt(cfg, es, p, j);
    var m := LoginWasIssued(cfg, es, p, j);
  }

  lemma LoginWasIssued(cfg: Config, es: seq<Event>, p: Peer, j: nat) returns (m: nat)
    requires cfg.net.prefix <= 30 && FreshTokens(es) && LoggedInAt(cfg, es, p, j)
    ensures LoginOf(cfg, es, p, m, j)
  {
    hide Step, Run, EstablishedAs;
    var t := es[j].token;
    m := PendingWasIssued(cfg, es[..j], t);
    assert es[..j][..m] == es[..m] && es[..j][..m + 1] == es[..m + 1];
    hide LoggedInAt;
    forall i | j < i <= |es|
      ensures t !in Run(cfg, es[..i]).pending
    {
      SpentBy(cfg, es, i, j);
    }
  }

  lemma SpentBy(cfg: Config, es: seq<Event>, i: nat, j: nat)
    requires cfg.net.prefix <= 30 && FreshTokens(es) && j < i <= |es|
    requires es[j].Completed? && es[j].token in Run(cfg, es[..j]).pending
    ensures es[j].token !in Run(cfg, es[..i]).pending
  {
    hide Run;
    assert es[..i][..j] == es[..j] && FreshTokens(es[..i]);
    TokenSpentOnce(cfg, es[..i], j, es[j].token);
  }

  /** Event `b` created the connection of `p`, and it has been there ever since. */
  ghost predicate CreatedAt(cfg: Config, es: seq<Event>, p: Peer, b: nat)
    requires cfg.net.prefix <= 30 && p in Run(cfg, es).connections
  {
    && b < |es| && es[b].HardResetIn? && es[b].peer == p && es[b].now == Run(cfg, es).connections[p].connectedAt
    && forall i | b < i <= |es| :: Same(Run(cfg, es[..i]), p, es[b].now)
  }

  predicate Same(s: Server, p: Peer, time: real) {
    p in s.connections && s.connections[p].connectedAt == time
  }

  lemma ConnectionStep(cfg: Config, s: Server, e: Event, p: Peer)
    requires cfg.net.prefix <= 30 && AddressPools.PoolInv(cfg.net, s.leased) && p in Step(cfg, s, e).0.connections
    ensures var c := Step(cfg, s, e).0.connections[p];
            || (p in s.connections && s.connections[p].connectedAt == c.connectedAt)
            || (e.HardResetIn? && e.peer == p && c.connectedAt == e.now)
  {
    hide ControlStep, AddressPools.PoolInv;
    if e.ControlIn? {
      if e.peer in s.connections {
        ControlChanges(cfg, s, e.now, e.peer, e.result, e.answers);
      } else {
        NoConnection(cfg, s, e.now, e.peer, e.result, e.answers);
      }
    }
  }

  /** Every connection was created by a hard reset of its client and kept since. */
  lemma {:induction false} ConnectionWasCreated(cfg: Config, es: seq<Event>, p: Peer) returns (b: nat)
    requires cfg.net.prefix <= 30 && p in Run(cfg, es).connections
    ensures CreatedAt(cfg, es, p, b)
  {
    var n := |es| - 1;
    var before := es[..n];
    AddressInvariant(cfg, before);
    ConnectionStep(cfg, Run(cfg, before), es[n], p);
    assert es[..n + 1] == es;
    hide Step, Inv;
    var time := Run(cfg, es).connections[p].connectedAt;
    if Same(Run(cfg, before), p, time) {
      b := ConnectionWasCreated(cfg, before, p);
      StillThere(cfg, es, p, b);
    } else {
      b := n;
      hide Run;
    }
  }

  lemma StillThere(cfg: Config, es: seq<Event>, p: Peer, b: nat)
    requires cfg.net.prefix <= 30 && es != [] && p in Run(cfg, es).connections
    requires var before := Run(cfg, es[..|es| - 1]);
             && Same(before, p, Run(cfg, es).connections[p].connectedAt)
             && CreatedAt(cfg, es[..|es| - 1], p, b)
    ensures CreatedAt(cfg, es, p, b)
  {
    hide Run;
    var before := es[..|es| - 1];
    forall i | b < i <= |es|
      ensures Same(Run(cfg, es[..i]), p, es[b].now)
    {
      if i < |es| {
        assert before[..i] == es[..i];
      } else {
        assert es[..i] == es;
      }
    }
  }

  /** A completed login reaches the very connection its token was issued to exactly if the token is
      younger than the connection its client has now. */
  lemma LoginReachesItsConnectionIff(cfg: Config, es: seq<Event>, t: Token, m: nat)
    requires cfg.net.prefix <= 30 && Ticking(es) && t in Run(cfg, es).pending
    requires var q := Run(cfg, es).pending[t];
             && IssuedAt(cfg, es, t, q.peer, m) && q.createdAt == es[m].now
             && q.peer in Run(cfg, es).connections
    ensures var s, q := Run(cfg, es), Run(cfg, es).pending[t];
            Same(Run(cfg, es[..m]), q.peer, s.connections[q.peer].connectedAt)
            <==> q.createdAt > s.connections[q.peer].connectedAt
  {
    var p := Run(cfg, es).pending[t].peer;
    var b := ConnectionWasCreated(cfg, es, p);
    var b' := ConnectionWasCreated(cfg, es[..m], p);
    hide Run;
  }

  const PEER: Peer := 7
  const NO_TLS_BYTES: Option<seq<byte>> := Some([])

  /** A client at PEER: a hard reset at time `now`, and a key exchange one second later. */
  function Login(now: real, key: seq<byte>, token: Token): seq<Event> {
    [HardResetIn(now, PEER, Ok(HardReset([0, 0, 0, 0, 0, 0, 0, 1])), true, NO_TLS_BYTES),
     ControlIn(now + 1.0, PEER, Ok(TlsData([[]])), TlsAnswers(true, true, Some(key), true, token, true, true, false))]
  }

  /** The reconnecting client: two connections from one address, a token issued to each, and then the
      login of the first token. */
  function Reconnected(key: seq<byte>): seq<Event> {
    Login(0.0, key, 1) + Login(60.0, key, 2)
  }

  lemma ResetReplaces(cfg: Config, s: Server, now: real, key: seq<byte>, token: Token)
    requires cfg.net.prefix <= 29 && cfg.tls
    requires PEER in s.connections ==> Stale(s.connections[PEER], now, RESET_CACHE_SECS)
    ensures var c := Connection(TlsHandshake, true, now, now, None, None, false, NO_TLS_BYTES, None, None);
            Step(cfg, s, Login(now, key, token)[0]).0 == Put(s, PEER, c)
  {
  }

  lemma RoomForTwo(cfg: Config, leased: set<int>)
    requires cfg.net.prefix <= 29 && |leased| <= 1 && AddressPools.PoolInv(cfg.net, leased)
    ensures var (r, leased') := AddressPools.AllocateStep(cfg.net, leased);
            r.Ok? && |leased'| == |leased| + 1
  {
    AddressPools.AllocateExact(cfg.net, leased);
    assert Bits.Pow2(3) == 8;
    AddressPools.Pow2Split(3, 32 - cfg.net.prefix - 3);
    hide AddressPools.AllocateStep, AddressPools.Net.Network, AddressPools.PoolInv;
  }

  /** A key exchange with OAuth while addresses last: a token is registered and a reply kept. */
  lemma ExchangeIssues(cfg: Config, s: Server, now: real, key: seq<byte>, token: Token)
    requires cfg.net.prefix <= 29 && cfg.oauth && KeyMethods.ParseClient(key).Ok?
    requires |s.leased| <= 1 && AddressPools.PoolInv(cfg.net, s.leased)
    requires PEER in s.connections && s.connections[PEER].tls && s.connections[PEER].state == TlsHandshake
    ensures var s' := Step(cfg, s, Login(now, key, token)[1]).0;
            && |s'.leased| == |s.leased| + 1
            && PEER in s'.connections && s'.connections[PEER].tls && s'.connections[PEER].pendingReply.Some?
            && s'.connections[PEER].oauthState == Some(token) && s'.connections[PEER].lastActivity == now + 1.0
            && s'.pending == s.pending[token := PendingOAuth(PEER, now + 1.0)]
  {
    hide Admit, ExchangeKeys, KeyMethods.ParseClient, AddressPools.PoolInv;
    var t := Login(now, key, token)[1].answers;
    var s1 := Put(s, PEER, Touch(s.connections[PEER], now + 1.0));
    var s2 := Put(s1, PEER, s1.connections[PEER].(state := KeyExchange));
    ExchangeIsAdmit(cfg, s1, now + 1.0, t);
    AdmitIssues(cfg, s2, now + 1.0, KeyMethods.ParseClient(key).value.username, t);
  }

  lemma ExchangeIsAdmit(cfg: Config, s: Server, now: real, t: TlsAnswers)
    requires cfg.net.prefix <= 30 && PEER in s.connections && t.plain.Some? && KeyMethods.ParseClient(t.plain.value).Ok?
    ensures var user := KeyMethods.ParseClient(t.plain.value).value.username;
            ExchangeKeys(cfg, s, now, PEER, t)
            == Admit(cfg, Put(s, PEER, s.connections[PEER].(state := KeyExchange)), now, PEER, user, t)
  {
    hide Admit, KeyMethods.ParseClient;
  }

  lemma AdmitIssues(cfg: Config, s: Server, now: real, user: Option<seq<byte>>, t: TlsAnswers)
    requires cfg.net.prefix <= 29 && cfg.oauth && t.keyed
    requires |s.leased| <= 1 && AddressPools.PoolInv(cfg.net, s.leased) && PEER in s.connections
    ensures var s' := Admit(cfg, s, now, PEER, user, t).1;
            && |s'.leased| == |s.leased| + 1
            && PEER in s'.connections && s'.pending == s.pending[t.token := PendingOAuth(PEER, now)]
            && var c := s'.connections[PEER];
               && c.tls == s.connections[PEER].tls && c.pendingReply.Some? && c.oauthState == Some(t.token)
               && c.lastActivity == s.connections[PEER].lastActivity
  {
    RoomForTwo(cfg, s.leased);
    hide AddressPools.AllocateStep, AddressPools.PoolInv;
  }

  lemma LoginRun(cfg: Config, es: seq<Event>, now: real, key: seq<byte>, token: Token)
    requires cfg.net.prefix <= 29 && cfg.oauth && cfg.tls && KeyMethods.ParseClient(key).Ok?
    requires var s := Run(cfg, es);
             |s.leased| <= 1 && (PEER in s.connections ==> Stale(s.connections[PEER], now, RESET_CACHE_SECS))
    ensures var s, s' := Run(cfg, es), Run(cfg, es + Login(now, key, token));
            && |s'.leased| == |s.leased| + 1
            && PEER in s'.connections && s'.connections[PEER].tls && s'.connections[PEER].pendingReply.Some?
            && s'.connections[PEER].oauthState == Some(token) && s'.connections[PEER].lastActivity == now + 1.0
            && s'.pending == s.pending[token := PendingOAuth(PEER, now + 1.0)]
  {
    hide Step, KeyMethods.ParseClient, Inv;
    var l := Login(now, key, token);
    assert (es + l)[..|es|] == es && (es + l)[..|es| + 1] == es + [l[0]] && (es + l)[..|es| + 2] == es + l;
    assert (es + [l[0]])[..|es|] == es;
    RunPrefix(cfg, es + l, |es|);
    RunPrefix(cfg, es + l, |es| + 1);
    ResetReplaces(cfg, Run(cfg, es), now, key, token);
    AddressInvariant(cfg, es + [l[0]]);
    PoolOf(cfg, Run(cfg, es + [l[0]]));
    ExchangeIssues(cfg, Run(cfg, es + [l[0]]), now, key, token);
  }

  lemma PoolOf(cfg: Config, s: Server)
    requires cfg.net.prefix <= 30 && Inv(cfg, s)
    ensures AddressPools.PoolInv(cfg.net, s.leased)
  {
  }

  /** A token outlives the connection it was issued to: completing the first token establishes the second
      connection of the client. */
  lemma EarlierTokenEstablishes(cfg: Config, key: seq<byte>, email: seq<byte>)
    requires cfg.net.prefix <= 29 && cfg.oauth && cfg.tls && KeyMethods.ParseClient(key).Ok?
    ensures var s := Run(cfg, Reconnected(key));
            && 1 in s.pending && s.pending[1].peer == PEER && PEER in s.connections
            && s.connections[PEER].oauthState == Some(2)
            && EstablishedAs(Step(cfg, s, Completed(62.0, 1, email, true, true)).0, PEER, email)
  {
    assert [] + Login(0.0, key, 1) == Login(0.0, key, 1);
    LoginRun(cfg, [], 0.0, key, 1);
    hide KeyMethods.ParseClient;
    LoginRun(cfg, Login(0.0, key, 1), 60.0, key, 2);
    hide Run, Login, Step;
    CompleteEstablishes(cfg, Run(cfg, Reconnected(key)), 1, email);
  }

  lemma CompleteEstablishes(cfg: Config, s: Server, token: Token, email: seq<byte>)
    requires cfg.net.prefix <= 30 && token in s.pending && s.pending[token].peer == PEER && PEER in s.connections
    requires s.connections[PEER].tls && s.connections[PEER].pendingReply.Some?
    ensures EstablishedAs(Step(cfg, s, Completed(62.0, token, email, true, true)).0, PEER, email)
  {
  }
}
