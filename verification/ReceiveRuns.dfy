/** What the receiving half of the transport guarantees over every run of arrivals. */
module ReceiveRuns {
  import opened Common
  import opened Reliable

  datatype Op = Arrive(id: u32, data: seq<byte>) | TakeAcks

  /** A receiver together with everything that left it so far: the ids and payloads handed up, the
      packets the drain loop dropped, the acknowledgements taken. */
  datatype History = History(
    r: Receiver,
    ids: seq<u32>,
    payloads: seq<seq<byte>>,
    drained: map<u32, seq<byte>>,
    acksTaken: seq<u32>)

  const START := History(NEW_RECEIVER, [], [], map[], [])

  function Step(h: History, op: Op): History {
    match op
    case TakeAcks =>
      h.(r := h.r.(pendingAcks := []), acksTaken := h.acksTaken + h.r.pendingAcks)
    case Arrive(id, data) =>
      var (result, r') := ReceiveStep(h.r, id, data);
      var up := result.Ok? && result.value.Some?;
      History(r',
              if up then h.ids + [id] else h.ids,
              if up then h.payloads + [result.value.value] else h.payloads,
              h.drained + (h.r.outOfOrder - r'.outOfOrder.Keys),
              h.acksTaken)
  }

  function Run(ops: seq<Op>): History {
    if ops == [] then START else Step(Run(ops[..|ops| - 1]), ops[|ops| - 1])
  }

  /** No id is the last one before the 32-bit counter wraps. */
  predicate NoWrap(ops: seq<Op>) {
    forall op | op in ops :: op.Arrive? ==> op.id + 1 < U32_LIMIT
  }

  /** The ids below `next` are split between `ids`, which increase, and `dropped`. */
  ghost predicate Partition(ids: seq<u32>, dropped: set<u32>, next: u32) {
    && IsAscending(ids)
    && (forall id | id in ids :: id < next && id !in dropped)
    && (forall id | id in dropped :: id < next)
    && (forall id: u32 | id < next :: id in ids || id in dropped)
  }

  ghost predicate BufferOk(buffer: map<u32, seq<byte>>, next: u32) {
    && (forall id | id in buffer :: next < id && id + 1 < U32_LIMIT)
    && |buffer| <= 100
  }

  ghost predicate Inv(h: History) {
    Partition(h.ids, h.drained.Keys, h.r.nextRecvId) && BufferOk(h.r.outOfOrder, h.r.nextRecvId)
  }

  // ---------------------------------------------------------------- the drain loop

  ghost predicate IsDrain(next: u32, buffer: map<u32, seq<byte>>, next': u32, buffer': map<u32, seq<byte>>) {
    && next <= next'
    && (forall id: u32 | next <= id < next' :: id in buffer && id !in buffer')
    && (forall id | id in buffer' :: id in buffer && next' < id && buffer'[id] == buffer[id])
    && (forall id | id in buffer && id !in buffer' :: id < next')
  }

  /** Draining removes exactly the run of consecutive ids that starts at `next`. */
  lemma {:induction false} DrainExact(next: u32, buffer: map<u32, seq<byte>>)
    requires forall id | id in buffer :: next <= id && id + 1 < U32_LIMIT
    ensures IsDrain(next, buffer, Drain(next, buffer).0, Drain(next, buffer).1)
    decreases |buffer|
  {
    if next in buffer {
      DropShrinks(buffer, next);
      DrainExact(next + 1, buffer - {next});
      var (next', buffer') := Drain(next + 1, buffer - {next});
      DrainOneMore(next, buffer, next', buffer');
    }
  }

  lemma DrainOneMore(next: u32, buffer: map<u32, seq<byte>>, next': u32, buffer': map<u32, seq<byte>>)
    requires next in buffer && next + 1 < U32_LIMIT
    requires IsDrain(next + 1, buffer - {next}, next', buffer')
    ensures IsDrain(next, buffer, next', buffer')
  {
    assert next !in buffer';
    forall id: u32 | next <= id < next' ensures id in buffer && id !in buffer' {
      if id > next {
        assert id in buffer - {next};
      }
    }
  }

  // ---------------------------------------------------------------- one step keeps the invariant

  lemma AscendingSnoc(ids: seq<u32>, id: u32)
    requires IsAscending(ids) && forall k | k in ids :: k < id
    ensures IsAscending(ids + [id])
  {
    assert forall i | 0 <= i < |ids| :: ids[i] in ids;
  }

  lemma PartitionInOrder(ids: seq<u32>, dropped: set<u32>, id: u32,
                         buffer: map<u32, seq<byte>>, next': u32, buffer': map<u32, seq<byte>>)
    requires Partition(ids, dropped, id) && BufferOk(buffer, id) && id + 1 < U32_LIMIT
    requires IsDrain(id + 1, buffer, next', buffer')
    ensures Partition(ids + [id], dropped + (buffer.Keys - buffer'.Keys), next')
  {
    hide IsAscending;
    AscendingSnoc(ids, id);
    var dropped' := dropped + (buffer.Keys - buffer'.Keys);
    assert forall k | k in ids + [id] :: k !in buffer;
    forall k: u32 | k < next' ensures k in ids + [id] || k in dropped' {
      if k > id {
        assert k in buffer && k !in buffer';
      }
    }
  }

  lemma BufferInOrder(id: u32, buffer: map<u32, seq<byte>>, next': u32, buffer': map<u32, seq<byte>>)
    requires BufferOk(buffer, id) && id + 1 < U32_LIMIT
    requires IsDrain(id + 1, buffer, next', buffer')
    ensures BufferOk(buffer', next')
  {
    SubsetSize(buffer'.Keys, buffer.Keys);
  }

  lemma StepShape(h: History, id: u32, data: seq<byte>)
    requires id == h.r.nextRecvId && id + 1 < U32_LIMIT
    ensures var (next', buffer') := Drain(id + 1, h.r.outOfOrder);
            var h' := Step(h, Arrive(id, data));
            && h'.r == Receiver(next', h.r.pendingAcks + [id], buffer')
            && h'.ids == h.ids + [id] && h'.payloads == h.payloads + [data]
            && h'.drained == h.drained + (h.r.outOfOrder - buffer'.Keys)
            && h'.drained.Keys == h.drained.Keys + (h.r.outOfOrder.Keys - buffer'.Keys)
  {
    hide Drain;
    assert Wrapping(id + 1) == id + 1;
  }

  lemma StepInOrder(h: History, id: u32, data: seq<byte>)
    requires Inv(h) && id == h.r.nextRecvId && id + 1 < U32_LIMIT
    ensures Inv(Step(h, Arrive(id, data)))
  {
    var buffer := h.r.outOfOrder;
    DrainExact(id + 1, buffer);
    StepShape(h, id, data);
    var (next', buffer') := Drain(id + 1, buffer);
    hide Partition, BufferOk, Drain, IsDrain, Step;
    PartitionInOrder(h.ids, h.drained.Keys, id, buffer, next', buffer');
    BufferInOrder(id, buffer, next', buffer');
  }

  lemma StepOther(h: History, op: Op)
    requires Inv(h) && (op.Arrive? ==> op.id != h.r.nextRecvId && op.id + 1 < U32_LIMIT)
    ensures Inv(Step(h, op))
    ensures Step(h, op).drained == h.drained
  {
    hide IsAscending;
    if op.Arrive? {
      var buffer, buffer' := h.r.outOfOrder, Step(h, op).r.outOfOrder;
      assert buffer.Keys <= buffer'.Keys;
      assert buffer - buffer'.Keys == map[];
      if op.id > h.r.nextRecvId && |buffer| < MAX_OUT_OF_ORDER {
        assert buffer'.Keys == buffer.Keys + {op.id};
      }
    }
  }

  /** Over every run: the ids handed up strictly increase; the ids below the next expected one are
      split between those handed up and those drained without delivery, never both; every buffered
      id is above the next expected one; at most 100 are buffered. */
  lemma {:induction false} ReceiveInvariant(ops: seq<Op>)
    requires NoWrap(ops)
    ensures Inv(Run(ops))
  {
    if ops != [] {
      var op := ops[|ops| - 1];
      ReceiveInvariant(ops[..|ops| - 1]);
      var h := Run(ops[..|ops| - 1]);
      hide Inv, Step;
      if op.Arrive? && op.id == h.r.nextRecvId {
        StepInOrder(h, op.id, op.data);
      } else {
        StepOther(h, op);
      }
    }
  }

  /** A packet is refused exactly if it is ahead and 100 packets are buffered already; it is acknowledged all
      the same. */
  lemma RefusedIff(r: Receiver, id: u32, data: seq<byte>)
    ensures var (result, r') := ReceiveStep(r, id, data);
            && (result.Err? <==> id > r.nextRecvId && |r.outOfOrder| >= 100)
            && r'.pendingAcks == r.pendingAcks + [id]
            && (result.Err? ==> r' == r.(pendingAcks := r'.pendingAcks))
  {
    hide Drain;
  }

  // ---------------------------------------------------------------- acknowledgements

  function ArrivedIds(ops: seq<Op>): seq<u32> {
    if ops == [] then []
    else
      var op := ops[|ops| - 1];
      ArrivedIds(ops[..|ops| - 1]) + if op.Arrive? then [op.id] else []
  }

  lemma AckStepShape(h: History, op: Op)
    ensures Step(h, op).acksTaken + Step(h, op).r.pendingAcks
            == h.acksTaken + h.r.pendingAcks + if op.Arrive? then [op.id] else []
  {
    hide Drain;
  }

  /** Every arrival is acknowledged once, in order: duplicates, buffered packets, and packets the
      full buffer turned away as well. */
  lemma {:induction false} EveryArrivalIsAcked(ops: seq<Op>)
    ensures Run(ops).acksTaken + Run(ops).r.pendingAcks == ArrivedIds(ops)
  {
    hide Step;
    if ops != [] {
      EveryArrivalIsAcked(ops[..|ops| - 1]);
      AckStepShape(Run(ops[..|ops| - 1]), ops[|ops| - 1]);
    }
  }

  // ---------------------------------------------------------------- what the delivered bytes are

  /** The payloads of the ids below `n` that are in `ids`, by id. */
  ghost function Kept(sent: seq<seq<byte>>, ids: seq<u32>, n: u32): seq<seq<byte>>
    requires n <= |sent|
  {
    if n == 0 then [] else Kept(sent, ids, n - 1) + if n - 1 in ids then [sent[n - 1]] else []
  }

  lemma {:induction false} KeptSame(sent: seq<seq<byte>>, a: seq<u32>, b: seq<u32>, n: u32)
    requires n <= |sent| && forall id: u32 | id < n :: id in a <==> id in b
    ensures Kept(sent, a, n) == Kept(sent, b, n)
  {
    if n > 0 {
      KeptSame(sent, a, b, n - 1);
    }
  }

  lemma {:induction false} KeptSkip(sent: seq<seq<byte>>, ids: seq<u32>, m: u32, n: u32)
    requires m <= n <= |sent| && forall id: u32 | m <= id < n :: id !in ids
    ensures Kept(sent, ids, n) == Kept(sent, ids, m)
    decreases n
  {
    if m < n {
      KeptSkip(sent, ids, m, n - 1);
    }
  }

  /** Only empty payloads are missing among the ids below `n`. */
  ghost predicate OnlyEmptyMissing(sent: seq<seq<byte>>, ids: seq<u32>, n: u32)
    requires n <= |sent|
  {
    forall id: u32 | id < n && id !in ids :: sent[id] == []
  }

  /** Leaving payloads out loses exactly the non-empty ones. */
  lemma {:induction false} KeptAllIff(sent: seq<seq<byte>>, ids: seq<u32>, n: u32)
    requires n <= |sent|
    ensures |Concat(Kept(sent, ids, n))| <= |Concat(sent[..n])|
    ensures !OnlyEmptyMissing(sent, ids, n) ==> |Concat(Kept(sent, ids, n))| < |Concat(sent[..n])|
    ensures Concat(Kept(sent, ids, n)) == Concat(sent[..n]) <==> OnlyEmptyMissing(sent, ids, n)
  {
    if n > 0 {
      var m: u32 := n - 1;
      KeptAllIff(sent, ids, m);
      assert sent[..n] == sent[..m] + [sent[m]];
      var last := if m in ids then [sent[m]] else [];
      ConcatAppend(sent[..m], [sent[m]]);
      ConcatAppend(Kept(sent, ids, m), last);
      ConcatSingle(sent[m]);
      assert Concat<byte>([]) == [];
      hide Kept, Concat;
      assert OnlyEmptyMissing(sent, ids, n) <==> OnlyEmptyMissing(sent, ids, m) && (m !in ids ==> sent[m] == []);
      SuffixCancel(Concat(Kept(sent, ids, m)), Concat(sent[..m]), sent[m]);
      assert sent[m] == [] ==> Concat(sent[..m]) + sent[m] == Concat(sent[..m]);
    } else {
      assert sent[..0] == [];
    }
  }

  lemma SuffixCancel<T>(a: seq<T>, b: seq<T>, c: seq<T>)
    ensures a + c == b + c <==> a == b
  {
    if a + c == b + c {
      assert a == (a + c)[..|a|];
      assert b == (b + c)[..|b|];
    }
  }

  /** Every arrival carries the payload the sender gave that id. */
  predicate Authentic(ops: seq<Op>, sent: seq<seq<byte>>) {
    forall op | op in ops :: op.Arrive? ==> op.id < |sent| && op.data == sent[op.id]
  }

  ghost predicate AuthenticMap(m: map<u32, seq<byte>>, sent: seq<seq<byte>>) {
    forall id | id in m :: id < |sent| && m[id] == sent[id]
  }

  ghost predicate AuthenticHistory(h: History, sent: seq<seq<byte>>) {
    && h.r.nextRecvId <= |sent|
    && AuthenticMap(h.drained, sent)
    && AuthenticMap(h.r.outOfOrder, sent)
    && h.payloads == Kept(sent, h.ids, h.r.nextRecvId)
  }

  lemma AuthenticInOrder(h: History, id: u32, sent: seq<seq<byte>>)
    requires Inv(h) && AuthenticHistory(h, sent)
    requires id == h.r.nextRecvId < |sent| && id + 1 < U32_LIMIT
    ensures AuthenticHistory(Step(h, Arrive(id, sent[id])), sent)
  {
    DrainExact(id + 1, h.r.outOfOrder);
    StepShape(h, id, sent[id]);
    var (next', buffer') := Drain(id + 1, h.r.outOfOrder);
    hide IsAscending, Drain, Kept, Step;
    AuthenticDrain(h.r.outOfOrder, id + 1, next', buffer', sent);
    KeptExtend(sent, h.ids, id, next');
  }

  lemma AuthenticDrain(buffer: map<u32, seq<byte>>, next: u32, next': u32, buffer': map<u32, seq<byte>>,
                       sent: seq<seq<byte>>)
    requires AuthenticMap(buffer, sent) && next <= |sent| && IsDrain(next, buffer, next', buffer')
    ensures next' <= |sent| && AuthenticMap(buffer', sent) && AuthenticMap(buffer - buffer'.Keys, sent)
  {
    assert next' > next ==> next' - 1 in buffer;
  }

  lemma KeptExtend(sent: seq<seq<byte>>, ids: seq<u32>, id: u32, n: u32)
    requires id < n <= |sent| && forall k | k in ids :: k < id
    ensures Kept(sent, ids + [id], n) == Kept(sent, ids, id) + [sent[id]]
  {
    KeptSame(sent, ids, ids + [id], id);
    KeptSkip(sent, ids + [id], id + 1, n);
  }

  lemma AuthenticOther(h: History, op: Op, sent: seq<seq<byte>>)
    requires Inv(h) && AuthenticHistory(h, sent)
    requires op.Arrive? ==> op.id < |sent| && op.data == sent[op.id] && op.id + 1 < U32_LIMIT
    requires op.Arrive? ==> op.id != h.r.nextRecvId
    ensures AuthenticHistory(Step(h, op), sent)
  {
    hide Kept;
    StepOther(h, op);
  }

  lemma {:induction false} AuthenticRun(ops: seq<Op>, sent: seq<seq<byte>>)
    requires NoWrap(ops) && Authentic(ops, sent)
    ensures AuthenticHistory(Run(ops), sent)
  {
    if ops != [] {
      var before, op := ops[..|ops| - 1], ops[|ops| - 1];
      AuthenticRun(before, sent);
      ReceiveInvariant(before);
      var h := Run(before);
      hide Inv, Step, AuthenticHistory;
      if op.Arrive? && op.id == h.r.nextRecvId {
        AuthenticInOrder(h, op.id, sent);
      } else {
        AuthenticOther(h, op, sent);
      }
    }
  }

  /** Arrival `k` takes the branch that buffers it: it is ahead of the next expected id, and there is room. */
  predicate Buffered(ops: seq<Op>, k: nat)
    requires k < |ops|
  {
    ops[k].Arrive? && GoesToBuffer(Run(ops[..k]), ops[k].id)
  }

  predicate GoesToBuffer(h: History, id: u32) {
    id > h.r.nextRecvId && |h.r.outOfOrder| < MAX_OUT_OF_ORDER
  }

  /** No arrival with an id below `n` was buffered, except empty ones. */
  ghost predicate NothingSetAside(ops: seq<Op>, n: u32) {
    forall k: nat | k < |ops| && Buffered(ops, k) && ops[k].id < n :: ops[k].data == []
  }

  ghost predicate EverBuffered(ops: seq<Op>, id: u32) {
    exists k: nat :: k < |ops| && Buffered(ops, k) && ops[k].id == id
  }

  lemma StepBuffers(h: History, op: Op, id: u32)
    requires Inv(h) && (op.Arrive? ==> op.id + 1 < U32_LIMIT)
    ensures var h' := Step(h, op);
            (id in h'.drained || id in h'.r.outOfOrder)
            <==> (id in h.drained || id in h.r.outOfOrder || (op.Arrive? && op.id == id && GoesToBuffer(h, id)))
  {
    hide IsAscending;
    if op.Arrive? && op.id == h.r.nextRecvId {
      DrainExact(op.id + 1, h.r.outOfOrder);
      StepShape(h, op.id, op.data);
      hide Drain, Step;
    } else {
      StepOther(h, op);
    }
  }

  lemma EverBufferedSnoc(ops: seq<Op>, id: u32)
    requires ops != []
    ensures var before, op := ops[..|ops| - 1], ops[|ops| - 1];
            EverBuffered(ops, id)
            <==> EverBuffered(before, id) || (op.Arrive? && op.id == id && GoesToBuffer(Run(before), id))
  {
    hide Run, GoesToBuffer;
    var n: nat := |ops| - 1;
    var before := ops[..n];
    assert forall k: nat | k < n :: before[..k] == ops[..k] && before[k] == ops[k];
    assert forall k: nat | k < n :: Buffered(before, k) <==> Buffered(ops, k);
    if EverBuffered(before, id) {
      var k: nat :| k < |before| && Buffered(before, k) && before[k].id == id;
      assert Buffered(ops, k);
    }
    if ops[n].Arrive? && ops[n].id == id && GoesToBuffer(Run(before), id) {
      assert Buffered(ops, n);
    }
  }

  /** What was ever buffered is what is still buffered and what the drain loop dropped. */
  lemma {:induction false} BufferedOrDrained(ops: seq<Op>, id: u32)
    requires NoWrap(ops)
    ensures EverBuffered(ops, id) <==> id in Run(ops).drained || id in Run(ops).r.outOfOrder
  {
    if ops != [] {
      var before := ops[..|ops| - 1];
      BufferedOrDrained(before, id);
      ReceiveInvariant(before);
      StepBuffers(Run(before), ops[|ops| - 1], id);
      EverBufferedSnoc(ops, id);
      hide Step, EverBuffered, Inv;
    }
  }

  /** Below the next expected id the missing payloads are those of the buffered arrivals. */
  lemma MissingIsBuffered(ops: seq<Op>, sent: seq<seq<byte>>)
    requires NoWrap(ops) && Authentic(ops, sent)
    ensures var h := Run(ops);
            && h.r.nextRecvId <= |sent|
            && (OnlyEmptyMissing(sent, h.ids, h.r.nextRecvId) <==> NothingSetAside(ops, h.r.nextRecvId))
  {
    var h := Run(ops);
    ReceiveInvariant(ops);
    AuthenticRun(ops, sent);
    hide Run, IsAscending, Kept;
    forall id: u32 | id < h.r.nextRecvId
      ensures id !in h.ids <==> EverBuffered(ops, id)
    {
      BufferedOrDrained(ops, id);
    }
    SetAsideById(ops, sent, h.r.nextRecvId);
  }

  lemma SetAsideById(ops: seq<Op>, sent: seq<seq<byte>>, n: u32)
    requires Authentic(ops, sent) && n <= |sent|
    ensures NothingSetAside(ops, n) <==> forall id: u32 | id < n && EverBuffered(ops, id) :: sent[id] == []
  {
    hide Run, GoesToBuffer;
    if forall id: u32 | id < n && EverBuffered(ops, id) :: sent[id] == [] {
      forall k: nat | k < |ops| && Buffered(ops, k) && ops[k].id < n
        ensures ops[k].data == []
      {
        assert EverBuffered(ops, ops[k].id) && ops[k] in ops;
      }
    }
    if NothingSetAside(ops, n) {
      forall id: u32 | id < n && EverBuffered(ops, id)
        ensures sent[id] == []
      {
        var k: nat :| k < |ops| && Buffered(ops, k) && ops[k].id == id;
        assert ops[k] in ops;
      }
    }
  }

  /** The exact price of the drain loop. For authentic arrivals in any order, with any loss and
      duplication, the bytes handed up are all the bytes sent under the ids below the next expected
      one if and only if every arrival among them that took the buffering branch was empty. */
  lemma DeliveredPrefixIff(ops: seq<Op>, sent: seq<seq<byte>>)
    requires NoWrap(ops) && Authentic(ops, sent)
    ensures var h := Run(ops);
            && h.r.nextRecvId <= |sent|
            && (Concat(h.payloads) == Concat(sent[..h.r.nextRecvId]) <==> NothingSetAside(ops, h.r.nextRecvId))
  {
    var h := Run(ops);
    AuthenticRun(ops, sent);
    MissingIsBuffered(ops, sent);
    hide Run, NothingSetAside, OnlyEmptyMissing, Kept;
    KeptAllIff(sent, h.ids, h.r.nextRecvId);
  }

  // ---------------------------------------------------------------- runs without overtaking

  /** No packet arrives ahead of the next expected one. */
  predicate NoOvertaking(ops: seq<Op>) {
    forall k | 0 <= k < |ops| && ops[k].Arrive? :: ops[k].id <= Run(ops[..k]).r.nextRecvId
  }

  lemma StepNotAhead(h: History, op: Op)
    requires h.r.outOfOrder == map[] && (op.Arrive? ==> op.id <= h.r.nextRecvId)
    ensures Step(h, op).r.outOfOrder == map[] && Step(h, op).drained == h.drained
  {
  }

  lemma {:induction false} NothingDrained(ops: seq<Op>)
    requires NoOvertaking(ops)
    ensures Run(ops).drained == map[] && Run(ops).r.outOfOrder == map[]
  {
    hide Step;
    if ops != [] {
      var before := ops[..|ops| - 1];
      assert forall k | 0 <= k < |before| :: before[..k] == ops[..k] && before[k] == ops[k];
      NothingDrained(before);
      StepNotAhead(Run(before), ops[|ops| - 1]);
    }
  }

  /** Then no arrival takes the buffering branch. */
  lemma NothingBuffered(ops: seq<Op>, n: u32)
    requires NoOvertaking(ops)
    ensures NothingSetAside(ops, n)
  {
    hide Run;
  }

  /** Packet 2 overtakes packet 1: it is acknowledged, then dropped by the drain loop. */
  lemma OvertakenPacketIsLost(first: seq<byte>, second: seq<byte>, third: seq<byte>)
    ensures var h := Run([Arrive(0, first), Arrive(2, third), Arrive(1, second)]);
            && h.r.nextRecvId == 3
            && h.payloads == [first, second]
            && h.r.pendingAcks == [0, 2, 1]
  {
    var a, b, c := Arrive(0, first), Arrive(2, third), Arrive(1, second);
    assert [a, b, c] == ([] + [a]) + [b] + [c];
    RunSnoc([], a);
    RunSnoc([] + [a], b);
    RunSnoc([] + [a] + [b], c);
    hide Run, Drain;
    var h1, h2 := Step(START, a), Step(Step(START, a), b);
    assert h1.r == Receiver(1, [0], map[]) && h1.payloads == [first] by {
      StepShape(START, 0, first);
      DrainNothing(1, map[]);
    }
    assert h2.r == Receiver(1, [0, 2], map[2 := third]) && h2.payloads == [first];
    hide Step;
    StepShape(h2, 1, second);
    DrainSingle(2, third);
  }

  lemma RunSnoc(ops: seq<Op>, op: Op)
    ensures Run(ops + [op]) == Step(Run(ops), op)
  {
    hide Step;
    assert (ops + [op])[..|ops|] == ops;
  }

  lemma DrainNothing(next: u32, buffer: map<u32, seq<byte>>)
    requires next !in buffer
    ensures Drain(next, buffer) == (next, buffer)
  {
  }

  lemma DrainSingle(id: u32, data: seq<byte>)
    requires id + 1 < U32_LIMIT
    ensures Drain(id, map[id := data]) == (id + 1, map[])
  {
    assert map[id := data] - {id} == map[];
    DrainNothing(id + 1, map[]);
  }
}
