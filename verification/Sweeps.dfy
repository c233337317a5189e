/** The cleanup of idle connections over every run: it collects addresses first and removes their
    connections later, so it can remove one that is no longer idle. */
module Sweeps {
  import opened Common
  import AddressPools
  import opened SessionSteps
  import opened ServerSteps
  import opened ServerRuns

  /** The clock does not go back. */
  predicate Forward(es: seq<Event>) {
    forall i, j | 0 <= i < j < |es| :: es[i].now <= es[j].now
  }

  /** Event `i` collected the addresses that are still to be removed. */
  ghost predicate CollectedAt(cfg: Config, es: seq<Event>, i: nat)
    requires cfg.net.prefix <= 30
  {
    && i < |es| && es[i].Collect?
    && Run(cfg, es).doomed == StalePeers(Run(cfg, es[..i]), es[i].now, cfg.idleTimeout)
  }

  lemma DoomedStep(cfg: Config, s: Server, e: Event)
    requires cfg.net.prefix <= 30 && AddressPools.PoolInv(cfg.net, s.leased) && {} < Step(cfg, s, e).0.doomed
    ensures var doomed := Step(cfg, s, e).0.doomed;
            doomed == s.doomed || (e.Collect? && doomed == StalePeers(s, e.now, cfg.idleTimeout))
  {
    hide ControlStep, AddressPools.PoolInv;
    if e.ControlIn? {
      if e.peer in s.connections {
        ControlChanges(cfg, s, e.now, e.peer, e.result, e.answers);
      } else {
        NoConnection(cfg, s, e.now, e.peer, e.result, e.answers);
      }
    }
  }

  /** Whatever is about to be removed was stale when it was collected. */
  lemma {:induction false} DoomedWereStale(cfg: Config, es: seq<Event>) returns (i: nat)
    requires cfg.net.prefix <= 30 && {} < Run(cfg, es).doomed
    ensures CollectedAt(cfg, es, i)
  {
    var n := |es| - 1;
    var before := es[..n];
    AddressInvariant(cfg, before);
    DoomedStep(cfg, Run(cfg, before), es[n]);
    hide Step, Inv, StalePeers;
    if Run(cfg, es).doomed == Run(cfg, before).doomed {
      i := DoomedWereStale(cfg, before);
      assert before[..i] == es[..i];
    } else {
      i := n;
    }
  }

  /** A packet of `p`. */
  predicate PacketOf(e: Event, p: Peer) {
    (e.HardResetIn? || e.ControlIn? || e.DataIn?) && e.peer == p
  }

  predicate LastHeard(s: Server, p: Peer, time: real) {
    p in s.connections && s.connections[p].lastActivity == time
  }

  lemma ActivityStep(cfg: Config, s: Server, e: Event, p: Peer)
    requires cfg.net.prefix <= 30 && AddressPools.PoolInv(cfg.net, s.leased) && p in Step(cfg, s, e).0.connections
    ensures var time := Step(cfg, s, e).0.connections[p].lastActivity;
            LastHeard(s, p, time) || (PacketOf(e, p) && time == e.now)
  {
    hide ControlStep, AddressPools.PoolInv;
    if e.ControlIn? {
      if e.peer in s.connections {
        ControlChanges(cfg, s, e.now, e.peer, e.result, e.answers);
      } else {
        NoConnection(cfg, s, e.now, e.peer, e.result, e.answers);
      }
    }
  }

  /** Packet `m` of `p` is the last that counted as activity of its connection. */
  ghost predicate LastActiveAt(cfg: Config, es: seq<Event>, p: Peer, m: nat)
    requires cfg.net.prefix <= 30
  {
    m < |es| && PacketOf(es[m], p) && forall j | m < j <= |es| :: LastHeard(Run(cfg, es[..j]), p, es[m].now)
  }

  lemma {:induction false} WasActive(cfg: Config, es: seq<Event>, p: Peer) returns (m: nat)
    requires cfg.net.prefix <= 30 && p in Run(cfg, es).connections
    ensures LastActiveAt(cfg, es, p, m)
  {
    var n := |es| - 1;
    var before := es[..n];
    AddressInvariant(cfg, before);
    ActivityStep(cfg, Run(cfg, before), es[n], p);
    hide Step, Inv;
    var time := Run(cfg, es).connections[p].lastActivity;
    if LastHeard(Run(cfg, before), p, time) {
      m := WasActive(cfg, before, p);
      assert before[..n] == before;
      StillActive(cfg, es, p, m);
    } else {
      m := n;
      assert es[..n + 1] == es;
      hide Run;
    }
  }

  lemma StillActive(cfg: Config, es: seq<Event>, p: Peer, m: nat)
    requires cfg.net.prefix <= 30 && es != [] && LastActiveAt(cfg, es[..|es| - 1], p, m)
    requires LastHeard(Run(cfg, es), p, es[m].now)
    ensures LastActiveAt(cfg, es, p, m)
  {
    hide Run;
    var before := es[..|es| - 1];
    forall j | m < j <= |es|
      ensures LastHeard(Run(cfg, es[..j]), p, es[m].now)
    {
      if j < |es| {
        assert before[..j] == es[..j];
      } else {
        assert es[..j] == es;
      }
    }
  }

  /** After the addresses were collected, packet `m` of `p` counted as activity, within the timeout of `now`. */
  ghost predicate HeardSinceCollected(cfg: Config, es: seq<Event>, p: Peer, now: real, m: nat)
    requires cfg.net.prefix <= 30
  {
    && m < |es| && PacketOf(es[m], p) && LastHeard(Run(cfg, es[..m + 1]), p, es[m].now)
    && now - es[m].now <= cfg.idleTimeout
    && exists i: nat :: i < m && CollectedAt(cfg, es, i)
  }

  /** The removal takes away exactly the collected connections, and it takes away one that is not idle if
      and only if a packet of its client, a reconnecting hard reset or any other, counted as activity
      between the two halves of the cleanup and within the timeout. */
  lemma LiveConnectionRemovedIff(cfg: Config, es: seq<Event>, now: real, p: Peer)
    requires cfg.net.prefix <= 30 && Forward(es + [Remove(now)]) && p in Run(cfg, es).connections
    ensures var s, s' := Run(cfg, es), Step(cfg, Run(cfg, es), Remove(now)).0;
            && (p !in s'.connections <==> p in s.doomed)
            && (p !in s'.connections && !Stale(s.connections[p], now, cfg.idleTimeout)
                <==> p in s.doomed && exists m: nat :: HeardSinceCollected(cfg, es, p, now, m))
  {
    var s := Run(cfg, es);
    assert forall k | 0 <= k < |es| :: (es + [Remove(now)])[k] == es[k];
    assert (es + [Remove(now)])[|es|].now == now;
    if p in s.doomed {
      var last := WasActive(cfg, es, p);
      var i := DoomedWereStale(cfg, es);
      assert es[..|es|] == es;
      hide Run;
      if !Stale(s.connections[p], now, cfg.idleTimeout) {
        LiveWasHeard(cfg, es, now, p, i, last);
      }
      if m: nat :| HeardSinceCollected(cfg, es, p, now, m) {
        HeardIsLive(cfg, es, now, p, m, last);
      }
    }
  }

  lemma LiveWasHeard(cfg: Config, es: seq<Event>, now: real, p: Peer, i: nat, last: nat)
    requires cfg.net.prefix <= 30 && (forall k | 0 <= k < |es| :: es[k].now <= now)
    requires CollectedAt(cfg, es, i) && LastActiveAt(cfg, es, p, last) && p in Run(cfg, es).doomed
    requires p in Run(cfg, es).connections && !Stale(Run(cfg, es).connections[p], now, cfg.idleTimeout)
    ensures HeardSinceCollected(cfg, es, p, now, last)
  {
    hide Run;
    assert es[..|es|] == es;
    assert LastHeard(Run(cfg, es[..last + 1]), p, es[last].now);
    assert last < i ==> LastHeard(Run(cfg, es[..i]), p, es[last].now);
  }

  lemma HeardIsLive(cfg: Config, es: seq<Event>, now: real, p: Peer, m: nat, last: nat)
    requires cfg.net.prefix <= 30 && Forward(es) && LastActiveAt(cfg, es, p, last)
    requires HeardSinceCollected(cfg, es, p, now, m) && p in Run(cfg, es).connections
    ensures !Stale(Run(cfg, es).connections[p], now, cfg.idleTimeout)
  {
    hide Run;
    assert es[..|es|] == es;
    if last < m {
      assert LastHeard(Run(cfg, es[..m + 1]), p, es[last].now);
    }
  }

  // ---------------------------------------------------------------- a reconnecting client

  const CLIENT: Peer := 7
  const ANSWER: Option<seq<byte>> := Some([])

  function Reset(now: real): Event {
    HardResetIn(now, CLIENT, Ok(HardReset([0, 0, 0, 0, 0, 0, 0, 1])), true, ANSWER)
  }

  lemma ResetConnects(cfg: Config, s: Server, now: real)
    requires cfg.net.prefix <= 30
    requires CLIENT in s.connections ==> Stale(s.connections[CLIENT], now, RESET_CACHE_SECS)
    ensures LastHeard(Step(cfg, s, Reset(now)).0, CLIENT, now) && Step(cfg, s, Reset(now)).0.doomed == s.doomed
  {
  }

  /** A client that went quiet reconnects between the two halves of the cleanup: its connection, a second
      old, is removed. */
  lemma ReconnectIsRemoved(cfg: Config)
    requires cfg.net.prefix <= 30 && cfg.idleTimeout >= 1.0
    ensures var t := cfg.idleTimeout + 31.0;
            var es := [Reset(0.0), Collect(t), Reset(t + 1.0)];
            var s := Run(cfg, es);
            && CLIENT in s.connections && !Stale(s.connections[CLIENT], t + 2.0, cfg.idleTimeout)
            && CLIENT !in Step(cfg, s, Remove(t + 2.0)).0.connections
  {
    var t := cfg.idleTimeout + 31.0;
    var es := [Reset(0.0), Collect(t), Reset(t + 1.0)];
    assert es[..0] == [] && es[..3] == es;
    RunPrefix(cfg, es, 0);
    RunPrefix(cfg, es, 1);
    RunPrefix(cfg, es, 2);
    ResetConnects(cfg, Run(cfg, []), 0.0);
    var s1, s2 := Run(cfg, es[..1]), Run(cfg, es[..2]);
    assert s1.doomed == {};
    assert s2 == CollectStep(cfg, s1, t);
    assert CLIENT in StalePeers(s1, t, cfg.idleTimeout);
    ResetConnects(cfg, s2, t + 1.0);
  }
}
