/** Splitting TLS data over control packets, against the send window. */
module Chunking {
  import opened Common
  import opened Reliable
  import SendRuns

  const MAX_CONTROL_PAYLOAD: nat := 1100

  /** The payloads `create_control_packets` sends, in order. */
  function Chunks(data: seq<byte>): seq<seq<byte>> {
    if |data| <= MAX_CONTROL_PAYLOAD then [data]
    else [data[..MAX_CONTROL_PAYLOAD]] + Chunks(data[MAX_CONTROL_PAYLOAD..])
  }

  /** The chunks are the data: they concatenate to it, each fits a packet, only empty data gives an
      empty chunk, and no chunk but the last is short. */
  lemma {:induction false} ChunksCover(data: seq<byte>)
    ensures var chunks := Chunks(data);
            && chunks != []
            && Concat(chunks) == data
            && (forall i | 0 <= i < |chunks| :: |chunks[i]| <= 1100)
            && (forall i | 0 <= i < |chunks| - 1 :: |chunks[i]| == 1100)
            && (data != [] ==> forall i | 0 <= i < |chunks| :: chunks[i] != [])
  {
    if |data| <= MAX_CONTROL_PAYLOAD {
      ConcatSingle(data);
    } else {
      ChunksCover(data[MAX_CONTROL_PAYLOAD..]);
      assert Chunks(data)[1..] == Chunks(data[MAX_CONTROL_PAYLOAD..]);
    }
  }

  /** Sending chunk after chunk, stopping at the first that finds the window full. The chunks sent
      before it stay queued even though the caller is given only the error. */
  function SendAll(c: Config, s: Sender, now: real, chunks: seq<seq<byte>>): (Result<seq<u32>, ProtocolError>, Sender)
    decreases |chunks|
  {
    if chunks == [] then (Ok([]), s)
    else
      var (r, s1) := SendStep(c, s, now, chunks[0]);
      if r.Err? then (Err(r.error), s1)
      else
        var (rest, s2) := SendAll(c, s1, now, chunks[1..]);
        (if rest.Err? then Err(rest.error) else Ok([r.value] + rest.value), s2)
  }

  /** The history after one send step per chunk. */
  function Queue(c: Config, h: SendRuns.History, now: real, chunks: seq<seq<byte>>): SendRuns.History
    decreases |chunks|
  {
    if chunks == [] then h else Queue(c, SendRuns.Step(c, h, SendRuns.Send(now, chunks[0])), now, chunks[1..])
  }

  function Room(c: Config, s: Sender): nat {
    if |s.pending| < c.windowSize then c.windowSize - |s.pending| else 0
  }

  predicate Consecutive(ids: seq<u32>, first: nat) {
    forall i | 0 <= i < |ids| :: ids[i] == first + i
  }

  lemma FreshKeySize<K, V>(m: map<K, V>, k: K, v: V)
    requires k !in m
    ensures |m[k := v]| == |m| + 1
  {
    assert m[k := v].Keys == m.Keys + {k};
  }

  lemma OneSend(c: Config, h: SendRuns.History, now: real, data: seq<byte>)
    requires SendRuns.Inv(c, h) && |h.sent| + 1 < U32_LIMIT && Room(c, h.s) > 0
    ensures var h' := SendRuns.Step(c, h, SendRuns.Send(now, data));
            && SendStep(c, h.s, now, data) == (Ok(|h.sent|), h'.s)
            && Room(c, h'.s) == Room(c, h.s) - 1
            && h'.sent == h.sent + [data]
            && SendRuns.Inv(c, h')
  {
    SendRuns.SendShape(c, h, now, data);
    SendRuns.SendKeeps(c, h, now, data);
    var id, rto := h.s.nextSendId, CalculateRto(c, h.s);
    assert id !in h.s.pending && id == |h.sent|;
    hide SendRuns.Inv, CalculateRto;
    FreshKeySize(h.s.pending, id, Pending(data, now, now + rto, rto, 0));
  }

  lemma {:induction false} QueueFull(c: Config, h: SendRuns.History, now: real, chunks: seq<seq<byte>>)
    requires Room(c, h.s) == 0
    ensures Queue(c, h, now, chunks) == h
    decreases |chunks|
  {
    if chunks != [] {
      QueueFull(c, h, now, chunks[1..]);
    }
  }

  /** The whole call fits the window, with consecutive ids; or it fails having queued exactly as many
      leading chunks as there was room for. Either way the run is that of the single sends. */
  ghost predicate QueuedExactly(c: Config, h: SendRuns.History, now: real, chunks: seq<seq<byte>>) {
    var (r, s'), h' := SendAll(c, h.s, now, chunks), Queue(c, h, now, chunks);
    && s' == h'.s
    && SendRuns.Inv(c, h')
    && (r.Ok? <==> |chunks| <= Room(c, h.s))
    && (r.Ok? ==> |r.value| == |chunks| && Consecutive(r.value, |h.sent|))
    && h'.sent == h.sent + chunks[..Min(|chunks|, Room(c, h.s))]
  }

  lemma {:induction false} SendAllExact(c: Config, h: SendRuns.History, now: real, chunks: seq<seq<byte>>)
    requires SendRuns.Inv(c, h) && |h.sent| + |chunks| < U32_LIMIT
    ensures QueuedExactly(c, h, now, chunks)
    decreases |chunks|
  {
    hide SendRuns.Inv;
    if chunks == [] {
      assert h.sent + chunks[..0] == h.sent;
    } else if Room(c, h.s) == 0 {
      QueueFull(c, h, now, chunks);
      assert h.sent + chunks[..0] == h.sent;
    } else {
      var h1 := SendRuns.Step(c, h, SendRuns.Send(now, chunks[0]));
      OneSend(c, h, now, chunks[0]);
      SendAllExact(c, h1, now, chunks[1..]);
      QueuedOneMore(c, h, now, chunks);
    }
  }

  lemma QueuedOneMore(c: Config, h: SendRuns.History, now: real, chunks: seq<seq<byte>>)
    requires chunks != [] && |h.sent| < U32_LIMIT
    requires var h1 := SendRuns.Step(c, h, SendRuns.Send(now, chunks[0]));
             && SendStep(c, h.s, now, chunks[0]) == (Ok(|h.sent|), h1.s)
             && Room(c, h1.s) == Room(c, h.s) - 1
             && h1.sent == h.sent + [chunks[0]]
             && QueuedExactly(c, h1, now, chunks[1..])
    ensures QueuedExactly(c, h, now, chunks)
  {
    hide SendRuns.Inv, SendRuns.Step, SendStep, Room;
    var n := Min(|chunks|, Room(c, h.s));
    assert chunks[..n] == [chunks[0]] + chunks[1..][..n - 1];
    assert h.sent + [chunks[0]] + chunks[1..][..n - 1] == h.sent + chunks[..n];
  }
}
