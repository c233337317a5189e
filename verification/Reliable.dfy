/** The reliable transport of the control channel: numbering, window, acknowledgement,
    retransmission, and in-order delivery. Times are seconds on the caller's clock. */
module Reliable {
  import opened Common

  const MAX_OUT_OF_ORDER: nat := 100

  datatype Config = Config(
    initialRto: real,
    maxRto: real,
    rtoBackoff: real,
    maxRetransmits: nat,
    windowSize: nat)

  const DEFAULT_CONFIG := Config(2.0, 60.0, 2.0, 10, 8)
  // ---------------------------------------------------------------- the receiving half

  datatype Receiver = Receiver(
    nextRecvId: u32,
    pendingAcks: seq<u32>,
    outOfOrder: map<u32, seq<byte>>)

  const NEW_RECEIVER := Receiver(0, [], map[])

  /** Skip past every consecutive buffered packet. The skipped payloads are dropped. */
  function Drain(next: u32, buffer: map<u32, seq<byte>>): (u32, map<u32, seq<byte>>)
    decreases |buffer|
  {
    if next in buffer then
      assert |buffer - {next}| < |buffer| by { DropShrinks(buffer, next); }
      Drain(Wrapping(next + 1), buffer - {next})
    else (next, buffer)
  }

  lemma DropShrinks<K, V>(m: map<K, V>, k: K)
    requires k in m
    ensures |m - {k}| == |m| - 1
  {
    assert m.Keys == (m - {k}).Keys + {k};
  }

  function ReceiveStep(r: Receiver, id: u32, data: seq<byte>): (Result<Option<seq<byte>>, ProtocolError>, Receiver) {
    var acked := r.(pendingAcks := r.pendingAcks + [id]);
    if id == r.nextRecvId then
      var (next, buffer) := Drain(Wrapping(id + 1), r.outOfOrder);
      (Ok(Some(data)), acked.(nextRecvId := next, outOfOrder := buffer))
    else if id > r.nextRecvId then
      if |r.outOfOrder| >= MAX_OUT_OF_ORDER then (Err(TooManyOutOfOrder), acked)
      else (Ok(None), acked.(outOfOrder := r.outOfOrder[id := data]))
    else (Ok(None), acked)
  }

  // ---------------------------------------------------------------- the sending half

  datatype Pending = Pending(
    data: seq<byte>,
    sentAt: real,
    nextRetransmit: real,
    rto: real,
    retransmits: nat)

  datatype Sender = Sender(
    nextSendId: u32,
    pending: map<u32, Pending>,
    srtt: Option<real>,
    rttvar: real)

  const NEW_SENDER := Sender(0, map[], None, 0.5)

  function RMin(a: real, b: real): real { if a <= b then a else b }

  function RMax(a: real, b: real): real { if a <= b then b else a }

  function CalculateRto(c: Config, s: Sender): real {
    match s.srtt
    case Some(srtt) => RMin(RMax(srtt + s.rttvar * 4.0, c.initialRto), c.maxRto)
    case None => c.initialRto
  }

  function SendStep(c: Config, s: Sender, now: real, data: seq<byte>): (Result<u32, ProtocolError>, Sender) {
    if |s.pending| >= c.windowSize then (Err(SendWindowFull), s)
    else
      var rto := CalculateRto(c, s);
      var entry := Pending(data, now, now + rto, rto, 0);
      (Ok(s.nextSendId),
       s.(nextSendId := Wrapping(s.nextSendId + 1), pending := s.pending[s.nextSendId := entry]))
  }

  function UpdateRtt(s: Sender, rtt: real): Sender {
    match s.srtt
    case Some(srtt) =>
      var diff := if rtt <= srtt then srtt - rtt else rtt - srtt;
      s.(rttvar := 0.75 * s.rttvar + 0.25 * diff, srtt := Some(0.875 * srtt + 0.125 * rtt))
    case None => s.(srtt := Some(rtt), rttvar := rtt / 2.0)
  }

  /** The smoothing of section 2 of RFC 6298: the first sample is taken as it is, later ones move the estimate
      by an eighth and the deviation by a quarter of their distance. */
  lemma RttSmoothing(s: Sender, rtt: real)
    ensures var s' := UpdateRtt(s, rtt);
            && s'.nextSendId == s.nextSendId && s'.pending == s.pending && s'.srtt.Some?
            && match s.srtt
               case None => s'.srtt.value == rtt && 2.0 * s'.rttvar == rtt
               case Some(srtt) =>
                 && 8.0 * (s'.srtt.value - srtt) == rtt - srtt
                 && 4.0 * (s'.rttvar - s.rttvar) == (if rtt >= srtt then rtt - srtt else srtt - rtt) - s.rttvar
  {
  }

  /** The timeout is the estimate and four deviations, kept between the configured bounds. */
  lemma TimeoutClamped(c: Config, s: Sender)
    requires c.initialRto <= c.maxRto
    ensures var rto := CalculateRto(c, s);
            match s.srtt
            case None => rto == c.initialRto
            case Some(srtt) =>
              var wanted := srtt + 4.0 * s.rttvar;
              && c.initialRto <= rto <= c.maxRto
              && (c.initialRto <= wanted <= c.maxRto ==> rto == wanted)
              && (wanted < c.initialRto ==> rto == c.initialRto) && (wanted > c.maxRto ==> rto == c.maxRto)
  {
  }

  function AckOne(s: Sender, now: real, id: u32): Sender {
    if id !in s.pending then s
    else
      var entry := s.pending[id];
      var removed := s.(pending := s.pending - {id});
      if entry.retransmits == 0 then UpdateRtt(removed, now - entry.sentAt) else removed
  }

  function AckStep(s: Sender, now: real, acks: seq<u32>): Sender
    decreases |acks|
  {
    if acks == [] then s else AckStep(AckOne(s, now, acks[0]), now, acks[1..])
  }

  predicate Due(c: Config, p: Pending, now: real) {
    now >= p.nextRetransmit && p.retransmits < c.maxRetransmits
  }

  function Backoff(c: Config, rto: real): real {
    RMin(rto * c.rtoBackoff, c.maxRto)
  }

  function Bump(c: Config, p: Pending, now: real): Pending {
    var rto := Backoff(c, p.rto);
    p.(retransmits := p.retransmits + 1, rto := rto, nextRetransmit := now + rto)
  }

  /** Every due packet is counted and rescheduled, the others left alone. */
  function BumpDue(c: Config, pending: map<u32, Pending>, now: real): map<u32, Pending> {
    map id | id in pending :: if Due(c, pending[id], now) then Bump(c, pending[id], now) else pending[id]
  }

  /** The same, with only the packets of `ids` visited so far. */
  function BumpVisited(c: Config, pending: map<u32, Pending>, now: real, ids: seq<u32>): map<u32, Pending> {
    map id | id in pending ::
      if id in ids && Due(c, pending[id], now) then Bump(c, pending[id], now) else pending[id]
  }

  function RetransmitStep(c: Config, s: Sender, now: real): Sender {
    s.(pending := BumpDue(c, s.pending, now))
  }

  lemma BumpVisitedEnds(c: Config, pending: map<u32, Pending>, now: real, ids: seq<u32>)
    requires forall id | id in pending :: id in ids
    ensures BumpVisited(c, pending, now, []) == pending
    ensures BumpVisited(c, pending, now, ids) == BumpDue(c, pending, now)
  {
  }

  lemma BumpNext(c: Config, pending: map<u32, Pending>, now: real, ids: seq<u32>, id: u32)
    requires id in pending && id !in ids
    ensures id in BumpVisited(c, pending, now, ids) && BumpVisited(c, pending, now, ids)[id] == pending[id]
    ensures BumpVisited(c, pending, now, ids + [id])
            == if Due(c, pending[id], now)
               then BumpVisited(c, pending, now, ids)[id := Bump(c, pending[id], now)]
               else BumpVisited(c, pending, now, ids)
  {
  }

  /** The due packets among `ids`, in the order of `ids`. */
  function DueAmong(c: Config, pending: map<u32, Pending>, now: real, ids: seq<u32>): seq<(u32, seq<byte>)>
    requires forall id | id in ids :: id in pending
  {
    if ids == [] then []
    else
      var last := ids[|ids| - 1];
      DueAmong(c, pending, now, ids[..|ids| - 1])
      + if Due(c, pending[last], now) then [(last, pending[last].data)] else []
  }

  ghost predicate AscendingIds(out: seq<(u32, seq<byte>)>) {
    forall i, j | 0 <= i < j < |out| :: out[i].0 < out[j].0
  }

  /** The retransmissions owed at `now`: exactly the due packets with their own bytes, by
      ascending id. */
  ghost predicate IsRetransmitList(c: Config, pending: map<u32, Pending>, now: real, out: seq<(u32, seq<byte>)>) {
    && AscendingIds(out)
    && (forall e | e in out :: e.0 in pending && Due(c, pending[e.0], now) && e.1 == pending[e.0].data)
    && (forall id | id in pending && Due(c, pending[id], now) :: (id, pending[id].data) in out)
  }

  // ---------------------------------------------------------------- the transport object

  class ReliableTransport {
    const config: Config
    var nextSendId: u32
    var nextRecvId: u32
    var pending: map<u32, Pending>
    var pendingAcks: seq<u32>
    var outOfOrder: map<u32, seq<byte>>
    var srtt: Option<real>
    var rttvar: real

    function SendHalf(): Sender
      reads this
    {
      Sender(nextSendId, pending, srtt, rttvar)
    }

    function RecvHalf(): Receiver
      reads this
    {
      Receiver(nextRecvId, pendingAcks, outOfOrder)
    }

    constructor (config: Config)
      ensures this.config == config && SendHalf() == NEW_SENDER && RecvHalf() == NEW_RECEIVER
    {
      this.config := config;
      nextSendId, nextRecvId, pending, pendingAcks, outOfOrder := 0, 0, map[], [], map[];
      srtt, rttvar := None, 0.5;
    }

    method Send(now: real, data: seq<byte>) returns (r: Result<u32, ProtocolError>)
      modifies this
      ensures (r, SendHalf()) == SendStep(config, old(SendHalf()), now, data)
      ensures RecvHalf() == old(RecvHalf())
    {
      if |pending| >= config.windowSize {
        return Err(SendWindowFull);
      }
      var id := nextSendId;
      var rto := CalculateRto(config, SendHalf());
      nextSendId := Wrapping(nextSendId + 1);
      pending := pending[id := Pending(data, now, now + rto, rto, 0)];
      return Ok(id);
    }

    method Receive(id: u32, data: seq<byte>) returns (r: Result<Option<seq<byte>>, ProtocolError>)
      modifies this
      ensures (r, RecvHalf()) == ReceiveStep(old(RecvHalf()), id, data)
      ensures SendHalf() == old(SendHalf())
    {
      pendingAcks := pendingAcks + [id];
      if id == nextRecvId {
        nextRecvId := Wrapping(nextRecvId + 1);
        while nextRecvId in outOfOrder
          invariant Drain(nextRecvId, outOfOrder) == Drain(Wrapping(id + 1), old(outOfOrder))
          invariant pendingAcks == old(pendingAcks) + [id] && SendHalf() == old(SendHalf())
          decreases |outOfOrder|
        {
          DropShrinks(outOfOrder, nextRecvId);
          outOfOrder := outOfOrder - {nextRecvId};
          nextRecvId := Wrapping(nextRecvId + 1);
        }
        return Ok(Some(data));
      } else if id > nextRecvId {
        if |outOfOrder| >= MAX_OUT_OF_ORDER {
          return Err(TooManyOutOfOrder);
        }
        outOfOrder := outOfOrder[id := data];
        return Ok(None);
      }
      return Ok(None);
    }

    method ProcessAcks(now: real, acks: seq<u32>)
      modifies this
      ensures SendHalf() == AckStep(old(SendHalf()), now, acks)
      ensures RecvHalf() == old(RecvHalf())
    {
      for i := 0 to |acks|
        invariant AckStep(SendHalf(), now, acks[i..]) == AckStep(old(SendHalf()), now, acks)
        invariant RecvHalf() == old(RecvHalf())
      {
        assert acks[i..][1..] == acks[i + 1..];
        if acks[i] in pending {
          var entry := pending[acks[i]];
          pending := pending - {acks[i]};
          if entry.retransmits == 0 {
            var updated := UpdateRtt(SendHalf(), now - entry.sentAt);
            srtt, rttvar := updated.srtt, updated.rttvar;
          }
        }
      }
    }

    method GetAcks() returns (acks: seq<u32>)
      modifies this
      ensures acks == old(pendingAcks)
      ensures RecvHalf() == old(RecvHalf()).(pendingAcks := [])
      ensures SendHalf() == old(SendHalf())
    {
      acks := pendingAcks;
      pendingAcks := [];
    }

    method GetRetransmits(now: real) returns (out: seq<(u32, seq<byte>)>)
      modifies this
      ensures SendHalf() == RetransmitStep(config, old(SendHalf()), now)
      ensures IsRetransmitList(config, old(pending), now, out)
      ensures RecvHalf() == old(RecvHalf())
    {
      out, pending := CollectRetransmits(config, pending, now);
    }
  }

  /** The loop over the pending packets, by ascending id. */
  method CollectRetransmits(c: Config, pending: map<u32, Pending>, now: real)
    returns (out: seq<(u32, seq<byte>)>, updated: map<u32, Pending>)
    ensures updated == BumpDue(c, pending, now)
    ensures IsRetransmitList(c, pending, now, out)
  {
    var ids := SortedKeys(pending.Keys);
    out, updated := [], pending;
    hide Bump, BumpDue, BumpVisited, IsAscending;
    BumpVisitedEnds(c, pending, now, ids);
    for i := 0 to |ids|
      invariant out == DueAmong(c, pending, now, ids[..i])
      invariant updated == BumpVisited(c, pending, now, ids[..i])
    {
      var id := ids[i];
      AscendingFresh(ids, i);
      assert ids[..i + 1] == ids[..i] + [id];
      BumpNext(c, pending, now, ids[..i], id);
      if now >= updated[id].nextRetransmit && updated[id].retransmits < c.maxRetransmits {
        out := out + [(id, updated[id].data)];
        updated := updated[id := Bump(c, updated[id], now)];
      }
    }
    assert ids[..|ids|] == ids;
    DueAmongIsList(c, pending, now, ids);
  }

  predicate IsAscending(ids: seq<u32>) {
    forall i, j | 0 <= i < j < |ids| :: ids[i] < ids[j]
  }

  lemma AscendingFresh(ids: seq<u32>, i: nat)
    requires IsAscending(ids) && i < |ids|
    ensures ids[i] !in ids[..i]
  {
  }

  predicate AllBelow(ids: seq<u32>, s: set<u32>) {
    forall k | k in s :: forall id | id in ids :: id < k
  }

  lemma AscendingAppend(ids: seq<u32>, s: set<u32>, m: u32)
    requires IsAscending(ids) && AllBelow(ids, s) && m in s && forall k | k in s :: m <= k
    ensures IsAscending(ids + [m]) && AllBelow(ids + [m], s - {m})
  {
    assert forall i | 0 <= i < |ids| :: ids[i] in ids;
  }

  /** The keys of an ordered map in iteration order. */
  method SortedKeys(s: set<u32>) returns (ids: seq<u32>)
    ensures IsAscending(ids)
    ensures forall id | id in s :: id in ids
    ensures forall id | id in ids :: id in s
  {
    ids := [];
    var todo := s;
    while todo != {}
      invariant IsAscending(ids) && AllBelow(ids, todo)
      invariant todo <= s
      invariant forall id | id in s :: id in ids || id in todo
      invariant forall id | id in ids :: id in s
      decreases todo
    {
      var m := Smallest(todo);
      AscendingAppend(ids, todo, m);
      ids, todo := ids + [m], todo - {m};
    }
  }

  method Smallest(s: set<u32>) returns (m: u32)
    requires s != {}
    ensures m in s && forall k | k in s :: m <= k
  {
    ghost var least := Least(s);
    m :| m in s && forall k | k in s :: m <= k;
  }

  lemma {:induction false} Least(s: set<u32>) returns (m: u32)
    requires s != {}
    ensures m in s && forall k | k in s :: m <= k
    decreases |s|
  {
    m :| m in s;
    if s != {m} {
      var rest := s - {m};
      assert s == rest + {m};
      var n := Least(rest);
      if n < m {
        m := n;
      }
    }
  }

  lemma {:induction false} DueAmongMembers(c: Config, pending: map<u32, Pending>, now: real, ids: seq<u32>)
    requires forall id | id in ids :: id in pending
    ensures forall e | e in DueAmong(c, pending, now, ids) ::
              e.0 in ids && Due(c, pending[e.0], now) && e.1 == pending[e.0].data
  {
    hide Due;
    if ids != [] {
      DueAmongMembers(c, pending, now, ids[..|ids| - 1]);
    }
  }

  lemma {:induction false} DueAmongComplete(c: Config, pending: map<u32, Pending>, now: real, ids: seq<u32>, id: u32)
    requires forall id | id in ids :: id in pending
    requires id in ids && Due(c, pending[id], now)
    ensures (id, pending[id].data) in DueAmong(c, pending, now, ids)
  {
    hide Due;
    if id != ids[|ids| - 1] {
      DueAmongComplete(c, pending, now, ids[..|ids| - 1], id);
    }
  }

  lemma {:induction false} DueAmongAscends(c: Config, pending: map<u32, Pending>, now: real, ids: seq<u32>)
    requires IsAscending(ids) && forall id | id in ids :: id in pending
    ensures AscendingIds(DueAmong(c, pending, now, ids))
  {
    hide Due;
    if ids != [] {
      var init := ids[..|ids| - 1];
      DueAmongAscends(c, pending, now, init);
      DueAmongMembers(c, pending, now, init);
      var before := DueAmong(c, pending, now, init);
      forall k | 0 <= k < |before| ensures before[k].0 < ids[|ids| - 1] {
        assert before[k] in before;
        var i :| 0 <= i < |init| && init[i] == before[k].0;
        assert ids[i] < ids[|ids| - 1];
      }
    }
  }

  lemma DueAmongIsList(c: Config, pending: map<u32, Pending>, now: real, ids: seq<u32>)
    requires IsAscending(ids)
    requires (forall id | id in ids :: id in pending) && (forall id | id in pending :: id in ids)
    ensures IsRetransmitList(c, pending, now, DueAmong(c, pending, now, ids))
  {
    hide Due, DueAmong, IsAscending;
    DueAmongAscends(c, pending, now, ids);
    DueAmongMembers(c, pending, now, ids);
    forall id | id in pending && Due(c, pending[id], now)
      ensures (id, pending[id].data) in DueAmong(c, pending, now, ids)
    {
      DueAmongComplete(c, pending, now, ids, id);
    }
  }
}
