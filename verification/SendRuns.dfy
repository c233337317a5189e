/** What the sending half of the transport guarantees over every run of sends, acknowledgements
    and retransmissions. */
module SendRuns {
  import opened Common
  import opened Reliable

  datatype Op =
    | Send(now: real, data: seq<byte>)
    | GotAcks(now: real, acks: seq<u32>)
    | Retransmit(now: real)

  /** A sender together with the payload of every id it gave out, the ids acknowledged, and for each
      id how many copies were put on the wire and when the last one was. */
  datatype History = History(
    s: Sender,
    sent: seq<seq<byte>>,
    acked: set<u32>,
    copies: map<u32, nat>,
    lastCopy: map<u32, real>)

  const START := History(NEW_SENDER, [], {}, map[], map[])

  function Step(c: Config, h: History, op: Op): History {
    match op
    case Send(now, data) =>
      var (r, s') := SendStep(c, h.s, now, data);
      if r.Err? then h
      else History(s', h.sent + [data], h.acked, h.copies[r.value := 1], h.lastCopy[r.value := now])
    case GotAcks(now, acks) =>
      var s' := AckStep(h.s, now, acks);
      h.(s := s', acked := h.acked + (h.s.pending.Keys - s'.pending.Keys))
    case Retransmit(now) =>
      h.(s := RetransmitStep(c, h.s, now),
         copies := map id | id in h.copies :: h.copies[id] + if Resent(c, h, now, id) then 1 else 0,
         lastCopy := map id | id in h.lastCopy :: if Resent(c, h, now, id) then now else h.lastCopy[id])
  }

  predicate Resent(c: Config, h: History, now: real, id: u32) {
    id in h.s.pending && Due(c, h.s.pending[id], now)
  }

  function Run(c: Config, ops: seq<Op>): History {
    if ops == [] then START else Step(c, Run(c, ops[..|ops| - 1]), ops[|ops| - 1])
  }

  // ---------------------------------------------------------------- the invariant

  /** Every id given out is either acknowledged or pending with its original bytes; none is reused. */
  ghost predicate Accounted(h: History) {
    && h.s.nextSendId == |h.sent|
    && (forall id | id in h.s.pending :: id < |h.sent| && id !in h.acked && h.s.pending[id].data == h.sent[id])
    && (forall id | id in h.acked :: id < |h.sent|)
    && (forall id: u32 | id < |h.sent| :: id in h.s.pending || id in h.acked)
  }

  /** Each of the `n` ids went out at least once and at most `maxRetransmits` more times. */
  ghost predicate CountedMaps(max: nat, copies: map<u32, nat>, pending: map<u32, Pending>, n: nat) {
    && (forall id: u32 | id < n :: id in copies)
    && (forall id | id in copies :: id < n && 1 <= copies[id] <= 1 + max)
    && (forall id | id in pending && id in copies :: copies[id] == 1 + pending[id].retransmits)
  }

  ghost predicate Counted(c: Config, h: History) {
    CountedMaps(c.maxRetransmits, h.copies, h.s.pending, |h.sent|)
  }

  ghost predicate Inv(c: Config, h: History) {
    Accounted(h) && Counted(c, h) && |h.s.pending| <= c.windowSize
  }

  lemma {:induction false} AckStepPending(s: Sender, now: real, acks: seq<u32>)
    ensures var s' := AckStep(s, now, acks);
            && s'.nextSendId == s.nextSendId
            && s'.pending.Keys <= s.pending.Keys
            && (forall id | id in s'.pending :: id !in acks && s'.pending[id] == s.pending[id])
            && (forall id | id in s.pending && id !in acks :: id in s'.pending)
    decreases |acks|
  {
    if acks != [] {
      AckStepPending(AckOne(s, now, acks[0]), now, acks[1..]);
      assert acks == [acks[0]] + acks[1..];
    }
  }

  lemma SendShape(c: Config, h: History, now: real, data: seq<byte>)
    requires h.s.nextSendId + 1 < U32_LIMIT && |h.s.pending| < c.windowSize
    ensures var id, rto, h' := h.s.nextSendId, CalculateRto(c, h.s), Step(c, h, Send(now, data));
            && h'.s.nextSendId == id + 1
            && h'.s.pending == h.s.pending[id := Pending(data, now, now + rto, rto, 0)]
            && h'.sent == h.sent + [data] && h'.acked == h.acked
            && h'.copies == h.copies[id := 1] && h'.lastCopy == h.lastCopy[id := now]
  {
    hide CalculateRto;
    assert Wrapping(h.s.nextSendId + 1) == h.s.nextSendId + 1;
  }

  lemma SendAccounted(c: Config, h: History, now: real, data: seq<byte>)
    requires Accounted(h) && |h.sent| + 1 < U32_LIMIT && |h.s.pending| < c.windowSize
    ensures Accounted(Step(c, h, Send(now, data)))
  {
    SendShape(c, h, now, data);
    var id, h' := h.s.nextSendId, Step(c, h, Send(now, data));
    hide CalculateRto, Step;
    forall k | k in h'.s.pending
      ensures k < |h'.sent| && k !in h'.acked && h'.s.pending[k].data == h'.sent[k]
    {
      assert k != id ==> k in h.s.pending;
    }
  }

  lemma CountedSend(max: nat, copies: map<u32, nat>, pending: map<u32, Pending>, id: u32, p: Pending)
    requires CountedMaps(max, copies, pending, id) && p.retransmits == 0
    ensures CountedMaps(max, copies[id := 1], pending[id := p], id + 1)
  {
  }

  lemma SendKeeps(c: Config, h: History, now: real, data: seq<byte>)
    requires Inv(c, h) && |h.sent| + 1 < U32_LIMIT
    ensures Inv(c, Step(c, h, Send(now, data)))
  {
    if |h.s.pending| < c.windowSize {
      var id, rto := h.s.nextSendId, CalculateRto(c, h.s);
      SendShape(c, h, now, data);
      SendAccounted(c, h, now, data);
      CountedSend(c.maxRetransmits, h.copies, h.s.pending, id, Pending(data, now, now + rto, rto, 0));
      hide Step, Accounted, CountedMaps, CalculateRto;
      AddKey(h.s.pending, id, Pending(data, now, now + rto, rto, 0));
    }
  }

  lemma AddKey(m: map<u32, Pending>, id: u32, p: Pending)
    ensures |m[id := p]| <= |m| + 1
  {
    assert m[id := p].Keys == m.Keys + {id};
  }

  lemma AcksKeep(c: Config, h: History, now: real, acks: seq<u32>)
    requires Inv(c, h)
    ensures Inv(c, Step(c, h, GotAcks(now, acks)))
  {
    AckStepPending(h.s, now, acks);
    var s' := AckStep(h.s, now, acks);
    hide AckStep;
    SubsetSize(s'.pending.Keys, h.s.pending.Keys);
  }

  lemma RetransmitCounted(c: Config, h: History, now: real)
    requires Counted(c, h)
    ensures Counted(c, Step(c, h, Retransmit(now)))
  {
    hide Backoff;
  }

  lemma RetransmitKeeps(c: Config, h: History, now: real)
    requires Inv(c, h)
    ensures Inv(c, Step(c, h, Retransmit(now)))
  {
    RetransmitCounted(c, h, now);
    hide Backoff, CountedMaps, Due;
    var h' := Step(c, h, Retransmit(now));
    assert h'.s.pending.Keys == h.s.pending.Keys;
  }

  /** Over every run of fewer than 2^32 steps: at most `windowSize` packets are pending; ids are
      0, 1, 2, … and never reused; every id is acknowledged or still pending with its original
      bytes, never both; and no id is put on the wire more than 1 + `maxRetransmits` times. */
  lemma {:induction false} SendInvariant(c: Config, ops: seq<Op>)
    requires |ops| < U32_LIMIT
    ensures Inv(c, Run(c, ops)) && |Run(c, ops).sent| <= |ops|
  {
    if ops != [] {
      var before := Run(c, ops[..|ops| - 1]);
      SendInvariant(c, ops[..|ops| - 1]);
      match ops[|ops| - 1] {
        case Send(now, data) => SendKeeps(c, before, now, data);
        case GotAcks(now, acks) => AcksKeep(c, before, now, acks);
        case Retransmit(now) => RetransmitKeeps(c, before, now);
      }
    }
  }

  lemma AckedStep(c: Config, h: History, op: Op, id: u32)
    requires Inv(c, h) && |h.sent| + 1 < U32_LIMIT && id in h.acked
    ensures var h' := Step(c, h, op); id in h'.acked && h'.copies[id] == h.copies[id]
  {
    hide CalculateRto, AckStep;
  }

  /** Once acknowledged, an id stays acknowledged and is never put on the wire again, whatever follows. */
  lemma {:induction false} AckedStaysAcked(c: Config, ops: seq<Op>, k: nat, id: u32)
    requires k <= |ops| < U32_LIMIT - 1 && id in Run(c, ops[..k]).acked
    ensures var h, h' := Run(c, ops[..k]), Run(c, ops);
            id in h.copies && id in h'.acked && id in h'.copies && h'.copies[id] == h.copies[id]
    decreases |ops|
  {
    hide Step;
    SendInvariant(c, ops);
    if k == |ops| {
      assert ops[..k] == ops;
    } else {
      var before := ops[..|ops| - 1];
      assert before[..k] == ops[..k];
      AckedStaysAcked(c, before, k, id);
      SendInvariant(c, before);
      AckedStep(c, Run(c, before), ops[|ops| - 1], id);
    }
  }

  // ---------------------------------------------------------------- timing

  /** A configuration whose timeouts make sense, as the default one does. */
  predicate SaneTimeouts(c: Config) {
    0.0 < c.initialRto <= c.maxRto && 1.0 <= c.rtoBackoff
  }

  ghost predicate TimingInv(c: Config, h: History) {
    && h.lastCopy.Keys == h.copies.Keys
    && forall id | id in h.s.pending ::
         && id in h.lastCopy
         && c.initialRto <= h.s.pending[id].rto <= c.maxRto
         && h.s.pending[id].nextRetransmit == h.lastCopy[id] + h.s.pending[id].rto
         && (h.s.pending[id].retransmits == 0 ==> h.s.pending[id].sentAt == h.lastCopy[id])
  }

  lemma BackoffClamped(c: Config, rto: real)
    requires SaneTimeouts(c) && c.initialRto <= rto <= c.maxRto
    ensures c.initialRto <= Backoff(c, rto) <= c.maxRto
  {
    ScaleUp(rto, c.rtoBackoff);
  }

  lemma ScaleUp(x: real, k: real)
    requires 0.0 <= x && 1.0 <= k
    ensures x <= x * k
  {
    assert x * (k - 1.0) >= 0.0;
  }

  lemma TimingSend(c: Config, h: History, now: real, data: seq<byte>)
    requires SaneTimeouts(c) && TimingInv(c, h) && Accounted(h) && |h.sent| + 1 < U32_LIMIT
    ensures TimingInv(c, Step(c, h, Send(now, data)))
  {
    if |h.s.pending| < c.windowSize {
      SendShape(c, h, now, data);
      assert c.initialRto <= CalculateRto(c, h.s) <= c.maxRto;
      hide Step, CalculateRto;
    }
  }

  lemma TimingAcks(c: Config, h: History, now: real, acks: seq<u32>)
    requires TimingInv(c, h)
    ensures TimingInv(c, Step(c, h, GotAcks(now, acks)))
  {
    AckStepPending(h.s, now, acks);
    hide AckStep;
  }

  lemma TimingRetransmit(c: Config, h: History, now: real)
    requires SaneTimeouts(c) && TimingInv(c, h)
    ensures TimingInv(c, Step(c, h, Retransmit(now)))
  {
    hide Backoff;
    var h' := Step(c, h, Retransmit(now));
    forall id | id in h'.s.pending
      ensures && id in h'.lastCopy
              && c.initialRto <= h'.s.pending[id].rto <= c.maxRto
              && h'.s.pending[id].nextRetransmit == h'.lastCopy[id] + h'.s.pending[id].rto
              && (h'.s.pending[id].retransmits == 0 ==> h'.s.pending[id].sentAt == h'.lastCopy[id])
    {
      var p, p' := h.s.pending[id], h'.s.pending[id];
      BackoffClamped(c, p.rto);
      assert p' == if Due(c, p, now) then Bump(c, p, now) else p;
    }
  }

  lemma {:induction false} TimingRun(c: Config, ops: seq<Op>)
    requires SaneTimeouts(c) && |ops| < U32_LIMIT
    ensures TimingInv(c, Run(c, ops))
  {
    if ops != [] {
      var before := Run(c, ops[..|ops| - 1]);
      TimingRun(c, ops[..|ops| - 1]);
      SendInvariant(c, ops[..|ops| - 1]);
      hide Step, TimingInv;
      match ops[|ops| - 1] {
        case Send(now, data) => TimingSend(c, before, now, data);
        case GotAcks(now, acks) => TimingAcks(c, before, now, acks);
        case Retransmit(now) => TimingRetransmit(c, before, now);
      }
    }
  }

  /** In every run, a packet is resent only when at least `initialRto` has passed since its last
      copy, and the timeout in force never leaves [initialRto, maxRto]. */
  lemma RetransmitsAreSpaced(c: Config, ops: seq<Op>, now: real, id: u32)
    requires SaneTimeouts(c) && |ops| < U32_LIMIT && Resent(c, Run(c, ops), now, id)
    ensures var h := Run(c, ops);
            id in h.lastCopy && now >= h.lastCopy[id] + c.initialRto && h.s.pending[id].rto <= c.maxRto
  {
    TimingRun(c, ops);
  }

  /** And it is resent exactly when its timeout has passed since its last copy and copies are left. */
  lemma ResentIff(c: Config, ops: seq<Op>, now: real, id: u32)
    requires SaneTimeouts(c) && |ops| < U32_LIMIT && id in Run(c, ops).s.pending
    ensures var h := Run(c, ops);
            && id in h.lastCopy && id in h.copies
            && (Resent(c, h, now, id)
                <==> now >= h.lastCopy[id] + h.s.pending[id].rto && h.copies[id] <= c.maxRetransmits)
  {
    TimingRun(c, ops);
    SendInvariant(c, ops);
    hide Run;
  }

  // ---------------------------------------------------------------- backoff

  function Times(x: real, b: real): real { x * b }

  /** `first`, multiplied `n` times by `b`. */
  function Grown(first: real, b: real, n: nat): real {
    if n == 0 then first else Times(Grown(first, b, n - 1), b)
  }

  /** The timeout after `n` retransmissions. */
  function Timeout(c: Config, first: real, n: nat): real {
    if n == 0 then first else Backoff(c, Timeout(c, first, n - 1))
  }

  /** It is the first one multiplied once for every retransmission, up to the maximum. */
  lemma {:induction false} TimeoutClosed(c: Config, first: real, n: nat)
    requires SaneTimeouts(c) && c.initialRto <= first <= c.maxRto
    ensures 0.0 < Grown(first, c.rtoBackoff, n) && Timeout(c, first, n) == RMin(Grown(first, c.rtoBackoff, n), c.maxRto)
  {
    hide Times, Backoff;
    if n > 0 {
      TimeoutClosed(c, first, n - 1);
      ScaledMinimum(c, Grown(first, c.rtoBackoff, n - 1));
    }
  }

  lemma ScaledMinimum(c: Config, x: real)
    requires SaneTimeouts(c) && x > 0.0
    ensures Backoff(c, RMin(x, c.maxRto)) == RMin(Times(x, c.rtoBackoff), c.maxRto) && Times(x, c.rtoBackoff) > 0.0
  {
    var b := c.rtoBackoff;
    ScaleUp(x, b);
    ScaleUp(c.maxRto, b);
    if x <= c.maxRto {
      assert RMin(x, c.maxRto) == x;
    } else {
      assert RMin(x, c.maxRto) == c.maxRto;
      assert Backoff(c, c.maxRto) == c.maxRto;
    }
  }

  ghost predicate BackedOff(c: Config, p: Pending) {
    exists first :: BackedOffFrom(c, p, first)
  }

  predicate BackedOffFrom(c: Config, p: Pending, first: real) {
    c.initialRto <= first <= c.maxRto && p.rto == Timeout(c, first, p.retransmits)
  }

  lemma BumpBacksOff(c: Config, p: Pending, now: real)
    requires BackedOff(c, p)
    ensures BackedOff(c, Bump(c, p, now))
  {
    hide BackedOffFrom, Bump;
    var first :| BackedOffFrom(c, p, first);
    BumpFrom(c, p, now, first);
  }

  lemma BumpFrom(c: Config, p: Pending, now: real, first: real)
    requires BackedOffFrom(c, p, first)
    ensures BackedOffFrom(c, Bump(c, p, now), first)
  {
    hide Backoff;
  }

  lemma {:induction false} BackoffRun(c: Config, ops: seq<Op>)
    requires SaneTimeouts(c) && |ops| < U32_LIMIT
    ensures forall id | id in Run(c, ops).s.pending :: BackedOff(c, Run(c, ops).s.pending[id])
  {
    if ops != [] {
      var before, op := Run(c, ops[..|ops| - 1]), ops[|ops| - 1];
      BackoffRun(c, ops[..|ops| - 1]);
      SendInvariant(c, ops[..|ops| - 1]);
      BackoffStep(c, before, op);
    }
  }

  lemma BackoffStep(c: Config, h: History, op: Op)
    requires SaneTimeouts(c) && Inv(c, h) && |h.sent| + 1 < U32_LIMIT
    requires forall id | id in h.s.pending :: BackedOff(c, h.s.pending[id])
    ensures var h' := Step(c, h, op); forall id | id in h'.s.pending :: BackedOff(c, h'.s.pending[id])
  {
    hide BackedOff, CountedMaps;
    match op
    case Send(now, data) =>
      if |h.s.pending| < c.windowSize {
        SendShape(c, h, now, data);
        FirstTimeout(c, h.s, now, data);
        hide Step, CalculateRto;
      }
    case GotAcks(now, acks) =>
      AckStepPending(h.s, now, acks);
      hide AckStep;
    case Retransmit(now) =>
      hide Bump, Due;
      forall id | id in Step(c, h, op).s.pending
        ensures BackedOff(c, Step(c, h, op).s.pending[id])
      {
        BumpBacksOff(c, h.s.pending[id], now);
      }
  }

  lemma FirstTimeout(c: Config, s: Sender, now: real, data: seq<byte>)
    requires SaneTimeouts(c)
    ensures var rto := CalculateRto(c, s); BackedOff(c, Pending(data, now, now + rto, rto, 0))
  {
    var rto := CalculateRto(c, s);
    assert BackedOffFrom(c, Pending(data, now, now + rto, rto, 0), rto);
  }

  /** Karn's rule, over every run: an acknowledgement is a round-trip sample, the time since its one copy, only
      if the packet was never resent. */
  lemma SampleIffSentOnce(c: Config, ops: seq<Op>, now: real, id: u32)
    requires SaneTimeouts(c) && |ops| < U32_LIMIT && id in Run(c, ops).s.pending
    ensures var h := Run(c, ops);
            var acked := h.s.(pending := h.s.pending - {id});
            && id in h.copies && id in h.lastCopy
            && AckOne(h.s, now, id) == if h.copies[id] == 1 then UpdateRtt(acked, now - h.lastCopy[id]) else acked
  {
    hide Run, Inv, TimingInv, UpdateRtt, AckOne;
    TimingRun(c, ops);
    SendInvariant(c, ops);
    SampleOf(c, Run(c, ops), now, id);
  }

  lemma SampleOf(c: Config, h: History, now: real, id: u32)
    requires Inv(c, h) && TimingInv(c, h) && id in h.s.pending
    ensures var acked := h.s.(pending := h.s.pending - {id});
            && id in h.copies && id in h.lastCopy
            && AckOne(h.s, now, id) == if h.copies[id] == 1 then UpdateRtt(acked, now - h.lastCopy[id]) else acked
  {
    hide UpdateRtt;
  }

  /** The limits of the default configuration, in every run: a window of 8, eleven copies, timeouts between 2
      and 60 seconds that double with every copy. */
  lemma DefaultLimits(ops: seq<Op>, now: real, data: seq<byte>, id: u32)
    requires |ops| < U32_LIMIT
    ensures var h := Run(DEFAULT_CONFIG, ops);
            && |h.s.pending| <= 8
            && (SendStep(DEFAULT_CONFIG, h.s, now, data).0.Ok? <==> |h.s.pending| < 8)
            && (id in h.copies ==> 1 <= h.copies[id] <= 11)
            && (id in h.s.pending ==>
                  && 2.0 <= h.s.pending[id].rto <= 60.0
                  && BackedOff(Config(2.0, 60.0, 2.0, 10, 8), h.s.pending[id]))
  {
    SendInvariant(DEFAULT_CONFIG, ops);
    TimingRun(DEFAULT_CONFIG, ops);
    BackoffRun(DEFAULT_CONFIG, ops);
    hide Run, CalculateRto, BackedOff;
  }
}
