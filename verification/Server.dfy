/** The server object: its handlers, proved against the steps of ServerSteps. */
module Servers {
  import opened Common
  import opened AddressPools
  import opened SessionSteps
  import opened ServerSteps
  import KeyMethods

  class VpnServer {
    const config: Config
    const pool: AddressPool
    var connections: map<Peer, Connection>
    var pendingOauths: map<Token, PendingOAuth>
    var doomed: set<Peer>

    ghost predicate Valid()
      reads this, pool
    {
      pool.Valid() && pool.net == config.net
    }

    ghost function State(): Server
      reads this, pool
    {
      Server(connections, pendingOauths, pool.leased, doomed)
    }

    constructor (config: Config)
      requires ValidateNet(config.net).None?
      ensures Valid() && fresh(pool) && this.config == config && State() == EMPTY
    {
      this.config, connections, pendingOauths, doomed := config, map[], map[], {};
      pool := new AddressPool(config.net);
    }

    method HandleHardReset(now: real, p: Peer, r: Result<Processed, ProtocolError>, tlsReady: bool,
                           wire: Option<seq<byte>>)
      returns (out: seq<Output>)
      requires Valid()
      modifies this
      ensures Valid()
      ensures (State(), out) == HardResetStep(config, old(State()), now, p, r, tlsReady, wire)
    {
      if p in connections && !Stale(connections[p], now, RESET_CACHE_SECS) && connections[p].response.Some? {
        return [CachedReset(p, connections[p].response.value)];
      }
      if r.Err? {
        return [];
      }
      var c := Connection(StateAfter(Initial, r), false, now, now, None, None, false, None, None, None);
      if config.tls {
        if !tlsReady {
          return [];
        }
        c := c.(tls := true);
      }
      if wire.None? {
        return [];
      }
      c := c.(response := wire);
      connections := connections[p := c];
      return [NewReset(p, wire.value)];
    }

    method HandleControlPacket(now: real, p: Peer, r: Result<Processed, ProtocolError>, t: TlsAnswers)
      returns (out: seq<Output>)
      requires Valid()
      modifies this, pool
      ensures Valid()
      ensures (State(), out) == ControlStep(config, old(State()), now, p, r, t)
    {
      hide ExchangeKeys;
      if p !in connections {
        return [];
      }
      var c := Touch(connections[p], now).(state := StateAfter(connections[p].state, r));
      connections := connections[p := c];
      out := [];
      if r.Err? || !r.value.TlsData? || !c.tls || !t.processed {
        return;
      }
      if t.complete && AwaitingKeys(c) {
        var ok;
        ok, out := ReadKeyMethod(now, p, t);
        if !ok {
          return;
        }
      }
      out := out + AnswerPushRequest(connections[p], p, t);
    }

    /** After the handshake: the client's key method is read, and the client is admitted. */
    method ReadKeyMethod(now: real, p: Peer, t: TlsAnswers) returns (ok: bool, out: seq<Output>)
      requires Valid() && p in connections
      modifies this, pool
      ensures Valid() && p in connections
      ensures (ok, State(), out) == ExchangeKeys(config, old(State()), now, p, t)
    {
      hide KeyMethods.ParseClient, Admit;
      connections := connections[p := connections[p].(state := KeyExchange)];
      if t.plain.None? {
        return true, [];
      }
      var parsed := KeyMethods.ParseClient(t.plain.value);
      if parsed.Err? {
        return true, [];
      }
      ok, out := AdmitClient(now, p, parsed.value.username, t);
    }

    method AdmitClient(now: real, p: Peer, user: Option<seq<byte>>, t: TlsAnswers) returns (ok: bool, out: seq<Output>)
      requires Valid() && p in connections
      modifies this, pool
      ensures Valid() && p in connections
      ensures (ok, State(), out) == Admit(config, old(State()), now, p, user, t)
    {
      ValidatedPrefix(config.net);
      hide AllocateStep, Assign, PoolInv, ValidateNet, Reserved;
      var c := connections[p];
      if user.Some? {
        c := c.(username := user);
      }
      if !t.keyed {
        connections := connections[p := c];
        return false, [];
      }
      connections := connections[p := c.(keyed := true)];
      var leased := pool.Allocate();
      if leased.Err? {
        return true, [];
      }
      ok, out := AssignAddress(now, p, leased.value, t);
    }

    method AssignAddress(now: real, p: Peer, ip: int, t: TlsAnswers) returns (ok: bool, out: seq<Output>)
      requires Valid() && p in connections
      modifies this
      ensures Valid() && p in connections
      ensures (ok, State(), out) == Assign(config, old(State()), now, p, ip, t)
    {
      var c := connections[p].(vpnIp := Some(ip), pendingReply := Some(ip));
      if config.oauth {
        connections := connections[p := c.(oauthState := Some(t.token))];
        pendingOauths := pendingOauths[t.token := PendingOAuth(p, now)];
        return t.flushed, if t.written then [AuthPending(p, t.token)] else [];
      }
      out := if t.written then [Replied(p, ip)] else [];
      if t.flushed {
        c := c.(state := Established);
      }
      connections := connections[p := c];
      return t.flushed, out;
    }

    method HandleDataPacket(now: real, p: Peer, r: Result<Processed, ProtocolError>, room: bool)
      returns (out: seq<Output>)
      requires Valid()
      modifies this
      ensures Valid()
      ensures (State(), out) == DataStep(old(State()), now, p, r, room)
    {
      if p !in connections {
        return [];
      }
      var c := Touch(connections[p], now);
      if c.state != Established {
        connections := connections[p := c];
        return [];
      }
      connections := connections[p := c.(state := StateAfter(c.state, r))];
      if r.Err? || !r.value.DataOut? {
        return [];
      }
      var packet := r.value.plain;
      if |packet| == |PING_PAYLOAD| && packet == PING_PAYLOAD {
        return [PingReply(p)];
      } else if |packet| >= MIN_IP_PACKET && room {
        return [ToTun(p, packet)];
      }
      return [];
    }

    /** The connection a packet from the TUN device is sent to, searched in no particular order. */
    method FindRoute(packet: seq<byte>) returns (found: Option<Peer>)
      ensures IsFound(State(), packet, found)
    {
      var dest := Destination(packet);
      if dest.None? {
        return None;
      }
      var left := connections.Keys;
      while left != {}
        invariant left <= connections.Keys
        invariant forall p | p in connections.Keys - left :: !IsRoute(State(), dest.value, p)
        decreases left
      {
        var p :| p in left;
        if connections[p].vpnIp == Some(dest.value) && connections[p].state == Established {
          return Some(p);
        }
        left := left - {p};
      }
      return None;
    }

    method HandleAuthCompleted(token: Token, email: seq<byte>, written: bool, flushed: bool) returns (out: seq<Output>)
      requires Valid()
      modifies this
      ensures Valid()
      ensures (State(), out) == CompleteStep(old(State()), token, email, written, flushed)
    {
      if token !in pendingOauths {
        return [];
      }
      var p := pendingOauths[token].peer;
      pendingOauths := pendingOauths - {token};
      if p !in connections || connections[p].pendingReply.None? {
        return [];
      }
      var ip := connections[p].pendingReply.value;
      var c := connections[p].(pendingReply := None, username := Some(email));
      if !c.tls || !written {
        connections := connections[p := c];
        return [];
      }
      if flushed {
        c := c.(state := Established);
      }
      connections := connections[p := c];
      return [Replied(p, ip)];
    }

    /** The first half of the cleanup, under the read lock. */
    method CollectStaleConnections(now: real)
      requires Valid()
      modifies this`doomed
      ensures Valid()
      ensures State() == CollectStep(config, old(State()), now)
    {
      if config.idleTimeout > 0.0 && doomed == {} {
        doomed := set p | p in connections && Stale(connections[p], now, config.idleTimeout);
      }
    }

    /** The second half, under the write lock. */
    method RemoveCollectedConnections()
      requires Valid()
      modifies this`connections, this`doomed
      ensures Valid()
      ensures State() == RemoveStep(old(State()))
    {
      var left := doomed;
      while left != {}
        invariant left <= doomed && doomed == old(doomed)
        invariant connections == old(connections) - (doomed - left)
        decreases left
      {
        var p :| p in left;
        connections := connections - {p};
        left := left - {p};
      }
      assert doomed - left == doomed;
      doomed := {};
    }
  }
}
