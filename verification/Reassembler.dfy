/** Cutting the control channel's byte stream back into TLS records (section 5.1 of RFC 8446):
    one byte of type, two of version, two of length, then the body. */
module Reassembly {
  import opened Common

  const MAX_BUFFER: nat := 65536

  function BodyLength(b: seq<byte>): nat
    requires |b| >= 5
  {
    GetU16(b[3..5])
  }

  predicate IsRecord(r: seq<byte>) {
    |r| >= 5 && |r| == 5 + BodyLength(r)
  }

  /** The length of the body stands in the fourth and fifth byte, high byte first. */
  lemma RecordIff(r: seq<byte>)
    ensures IsRecord(r) <==> |r| >= 5 && |r| == 5 + r[3] as int * 256 + r[4]
  {
  }

  /** Too short to hold the record it starts. */
  predicate Incomplete(b: seq<byte>) {
    |b| >= 5 ==> |b| < 5 + BodyLength(b)
  }

  /** The complete records at the front of `b`, and what is left. */
  function Cut(b: seq<byte>): (seq<seq<byte>>, seq<byte>) {
    if Incomplete(b) then ([], b)
    else
      var n := 5 + BodyLength(b);
      var (records, rest) := Cut(b[n..]);
      ([b[..n]] + records, rest)
  }

  predicate AllRecords(records: seq<seq<byte>>) {
    forall i | 0 <= i < |records| :: IsRecord(records[i])
  }

  lemma FrontIsRecord(b: seq<byte>)
    requires !Incomplete(b)
    ensures IsRecord(b[..5 + BodyLength(b)])
  {
    hide GetU16;
    assert b[..5 + BodyLength(b)][3..5] == b[3..5];
  }

  lemma ConcatFirst(first: seq<byte>, records: seq<seq<byte>>)
    ensures Concat([first] + records) == first + Concat(records)
  {
    assert ([first] + records)[1..] == records;
  }

  lemma FirstRecord(first: seq<byte>, records: seq<seq<byte>>)
    requires IsRecord(first) && AllRecords(records)
    ensures AllRecords([first] + records)
  {
    hide IsRecord;
  }

  lemma CutFirst(b: seq<byte>)
    requires !Incomplete(b)
    ensures var n := 5 + BodyLength(b);
            var (records, rest) := Cut(b[n..]);
            Cut(b) == ([b[..n]] + records, rest)
  {
    hide BodyLength;
  }

  predicate IsCut(cut: (seq<seq<byte>>, seq<byte>), b: seq<byte>) {
    AllRecords(cut.0) && Incomplete(cut.1) && Concat(cut.0) + cut.1 == b
  }

  lemma OneMoreRecord(first: seq<byte>, records: seq<seq<byte>>, rest: seq<byte>, b: seq<byte>)
    requires IsRecord(first) && IsCut((records, rest), b)
    ensures IsCut(([first] + records, rest), first + b)
  {
    hide IsRecord, Incomplete, Concat, AllRecords;
    FirstRecord(first, records);
    ConcatFirst(first, records);
    assert first + (Concat(records) + rest) == first + Concat(records) + rest;
  }

  lemma CutNone(b: seq<byte>)
    requires Incomplete(b)
    ensures Cut(b) == ([], b) && IsCut(([], b), b)
  {
    hide BodyLength, IsRecord;
    assert [] + b == b;
  }

  lemma {:induction false} CutSound(b: seq<byte>)
    ensures IsCut(Cut(b), b)
  {
    hide Cut, IsCut, IsRecord, GetU16;
    if Incomplete(b) {
      CutNone(b);
    } else {
      var n := 5 + BodyLength(b);
      CutFirst(b);
      FrontIsRecord(b);
      hide BodyLength;
      CutSound(b[n..]);
      var (records, rest) := Cut(b[n..]);
      assert Cut(b[n..]) == (records, rest);
      OneMoreRecord(b[..n], records, rest, b[n..]);
      assert b[..n] + b[n..] == b;
    }
  }

  /** The cut is the only way to read a stream as records followed by an incomplete remainder. */
  lemma {:induction false} CutUnique(b: seq<byte>, records: seq<seq<byte>>, rest: seq<byte>)
    requires AllRecords(records) && Incomplete(rest) && Concat(records) + rest == b
    ensures Cut(b) == (records, rest)
    decreases |records|
  {
    hide GetU16;
    if records != [] {
      var r, tail := records[0], records[1..];
      assert b == r + (Concat(tail) + rest);
      assert b[..|r|] == r && b[|r|..] == Concat(tail) + rest;
      assert b[3..5] == r[3..5];
      CutUnique(b[|r|..], tail, rest);
      assert [r] + tail == records;
    } else {
      assert Concat(records) + rest == rest;
    }
  }

  /** Cutting what has arrived and later the leftover with more bytes is cutting everything at once. */
  lemma CutAppend(a: seq<byte>, b: seq<byte>)
    ensures var (first, left) := Cut(a);
            var (second, rest) := Cut(left + b);
            Cut(a + b) == (first + second, rest)
  {
    hide Cut, GetU16;
    var (first, left) := Cut(a);
    CutSound(a);
    var (second, rest) := Cut(left + b);
    CutSound(left + b);
    ConcatAppend(first, second);
    assert Concat(first) + Concat(second) + rest == Concat(first) + (Concat(second) + rest);
    assert Concat(first) + (left + b) == a + b;
    CutUnique(a + b, first + second, rest);
  }

  // ---------------------------------------------------------------- the reassembler object

  class TlsRecordReassembler {
    const maxSize: nat
    var buffer: seq<byte>

    constructor (maxSize: nat)
      ensures this.maxSize == maxSize && buffer == []
    {
      this.maxSize := maxSize;
      buffer := [];
    }

    method Add(data: seq<byte>) returns (r: Result<(), ProtocolError>)
      modifies this
      ensures r == if |old(buffer)| + |data| > maxSize then Err(TlsRecordTooLarge) else Ok(())
      ensures buffer == if r.Ok? then old(buffer) + data else old(buffer)
    {
      if |buffer| + |data| > maxSize {
        return Err(TlsRecordTooLarge);
      }
      buffer := buffer + data;
      return Ok(());
    }

    method ExtractRecords() returns (records: seq<seq<byte>>)
      modifies this
      ensures (records, buffer) == Cut(old(buffer))
    {
      hide GetU16;
      records := [];
      assert [] + Cut(buffer).0 == Cut(buffer).0;
      while |buffer| >= 5
        invariant (records + Cut(buffer).0, Cut(buffer).1) == Cut(old(buffer))
        decreases |buffer|
      {
        var length: int := GetU16(buffer[3..5]);
        if |buffer| < 5 + length {
          break;
        }
        assert records + ([buffer[..5 + length]] + Cut(buffer[5 + length..]).0)
            == records + [buffer[..5 + length]] + Cut(buffer[5 + length..]).0;
        records := records + [buffer[..5 + length]];
        buffer := buffer[5 + length..];
      }
      assert records + [] == records;
    }
  }

  // ---------------------------------------------------------------- feeding a stream in chunks

  /** Add a chunk, then extract, as the session does for every delivered payload. */
  function FeedOne(maxSize: nat, buffer: seq<byte>, chunk: seq<byte>): Result<(seq<seq<byte>>, seq<byte>), ProtocolError> {
    if |buffer| + |chunk| > maxSize then Err(TlsRecordTooLarge) else Ok(Cut(buffer + chunk))
  }

  /** All records extracted while feeding the chunks one after the other, and the final leftover. */
  function Feed(maxSize: nat, buffer: seq<byte>, chunks: seq<seq<byte>>): Result<(seq<seq<byte>>, seq<byte>), ProtocolError>
    decreases |chunks|
  {
    if chunks == [] then Ok(([], buffer))
    else
      var (records, left) :- FeedOne(maxSize, buffer, chunks[0]);
      var (more, rest) :- Feed(maxSize, left, chunks[1..]);
      Ok((records + more, rest))
  }

  /** However the stream is split, if every add succeeds the records and the leftover are those of
      the whole stream; so any two splits agree. */
  lemma {:induction false} FeedIsCut(maxSize: nat, buffer: seq<byte>, chunks: seq<seq<byte>>)
    requires Incomplete(buffer) && Feed(maxSize, buffer, chunks).Ok?
    ensures Feed(maxSize, buffer, chunks).value == Cut(buffer + Concat(chunks))
    decreases |chunks|
  {
    hide Cut, Incomplete, AllRecords;
    if chunks == [] {
      assert buffer + Concat(chunks) == buffer;
      CutIncomplete(buffer);
    } else {
      var (records, left) := Cut(buffer + chunks[0]);
      CutSound(buffer + chunks[0]);
      FeedIsCut(maxSize, left, chunks[1..]);
      CutAppend(buffer + chunks[0], Concat(chunks[1..]));
      assert buffer + chunks[0] + Concat(chunks[1..]) == buffer + Concat(chunks);
    }
  }

  lemma CutIncomplete(b: seq<byte>)
    requires Incomplete(b)
    ensures Cut(b) == ([], b)
  {
  }

  lemma SplitsAgree(maxSize: nat, maxSize': nat, chunks: seq<seq<byte>>, chunks': seq<seq<byte>>)
    requires Concat(chunks) == Concat(chunks')
    requires Feed(maxSize, [], chunks).Ok? && Feed(maxSize', [], chunks').Ok?
    ensures Feed(maxSize, [], chunks) == Feed(maxSize', [], chunks')
  {
    FeedIsCut(maxSize, [], chunks);
    FeedIsCut(maxSize', [], chunks');
  }

  // ---------------------------------------------------------------- the buffer bound

  /** Every record the stream announces, complete or not, has a body of at most `max` bytes. */
  predicate Legal(s: seq<byte>, max: nat) {
    |s| >= 5 ==> BodyLength(s) <= max && (Incomplete(s) || Legal(s[5 + BodyLength(s)..], max))
  }

  lemma {:induction false} LegalPrefix(a: seq<byte>, b: seq<byte>, max: nat)
    requires Legal(a + b, max)
    ensures Legal(a, max)
    decreases |a|
  {
    hide GetU16;
    if |a| >= 5 {
      assert (a + b)[3..5] == a[3..5];
      if !Incomplete(a) {
        var n := 5 + BodyLength(a);
        assert (a + b)[n..] == a[n..] + b;
        LegalPrefix(a[n..], b, max);
      }
    }
  }

  lemma {:induction false} LegalRest(a: seq<byte>, b: seq<byte>, max: nat)
    requires Legal(a + b, max)
    ensures Legal(Cut(a).1 + b, max)
    decreases |a|
  {
    hide GetU16;
    if !Incomplete(a) {
      var n := 5 + BodyLength(a);
      assert (a + b)[3..5] == a[3..5];
      assert (a + b)[n..] == a[n..] + b;
      LegalRest(a[n..], b, max);
    }
  }

  /** For a stream of legal records arriving in chunks of at most `chunk` bytes, the reassembler never
      refuses an add, provided one incomplete record and one chunk fit in the buffer. */
  lemma {:induction false} NeverTooLarge(maxSize: nat, max: nat, chunk: nat, buffer: seq<byte>, chunks: seq<seq<byte>>)
    requires 4 + max + chunk <= maxSize
    requires Incomplete(buffer) && Legal(buffer + Concat(chunks), max)
    requires forall i | 0 <= i < |chunks| :: |chunks[i]| <= chunk
    ensures Feed(maxSize, buffer, chunks).Ok?
    decreases |chunks|
  {
    hide GetU16;
    if chunks != [] {
      LegalPrefix(buffer, Concat(chunks), max);
      assert |buffer| <= 4 + max;
      var tail := Concat(chunks[1..]);
      assert buffer + Concat(chunks) == buffer + chunks[0] + tail;
      LegalRest(buffer + chunks[0], tail, max);
      CutSound(buffer + chunks[0]);
      NeverTooLarge(maxSize, max, chunk, Cut(buffer + chunks[0]).1, chunks[1..]);
    }
  }

  /** The largest record body that a full 64 KiB buffer always has room for, with 1100-byte payloads. TLS
      stays far below it: 2^14 + 256 bytes (section 5.2 of RFC 8446), 2^14 + 2048 in TLS 1.2 (section
      6.2.3 of RFC 5246). */
  const MAX_SAFE_BODY: nat := MAX_BUFFER - 1100 - 4

  lemma ControlChannelNeverTooLarge(chunks: seq<seq<byte>>, max: nat)
    requires max <= MAX_SAFE_BODY && Legal(Concat(chunks), max)
    requires forall i | 0 <= i < |chunks| :: |chunks[i]| <= 1100
    ensures Feed(MAX_BUFFER, [], chunks) == Ok(Cut(Concat(chunks)))
  {
    assert [] + Concat(chunks) == Concat(chunks);
    NeverTooLarge(MAX_BUFFER, max, 1100, [], chunks);
    FeedIsCut(MAX_BUFFER, [], chunks);
  }

  // ---------------------------------------------------------------- what becomes of a refused chunk

  /** As the session does: a refused chunk is dropped and the ones after it are fed all the same. */
  function FeedAll(maxSize: nat, chunks: seq<seq<byte>>): (seq<seq<byte>>, seq<byte>) {
    if chunks == [] then ([], [])
    else
      var (records, buffer) := FeedAll(maxSize, chunks[..|chunks| - 1]);
      match FeedOne(maxSize, buffer, chunks[|chunks| - 1])
      case Ok((more, left)) => (records + more, left)
      case Err(_) => (records, buffer)
  }

  lemma {:induction false} FeedAllFits(maxSize: nat, chunks: seq<seq<byte>>)
    ensures Incomplete(FeedAll(maxSize, chunks).1) && |FeedAll(maxSize, chunks).1| <= maxSize
  {
    hide GetU16;
    if chunks != [] {
      var before, chunk := FeedAll(maxSize, chunks[..|chunks| - 1]), chunks[|chunks| - 1];
      FeedAllFits(maxSize, chunks[..|chunks| - 1]);
      CutSound(before.1 + chunk);
      hide Cut, Incomplete;
    }
  }

  lemma FeedAllSnoc(maxSize: nat, chunks: seq<seq<byte>>, chunk: seq<byte>)
    ensures var (records, buffer) := FeedAll(maxSize, chunks);
            FeedAll(maxSize, chunks + [chunk])
            == match FeedOne(maxSize, buffer, chunk)
               case Ok((more, left)) => (records + more, left)
               case Err(_) => (records, buffer)
  {
    hide FeedOne;
    assert (chunks + [chunk])[..|chunks|] == chunks;
  }

  /** An empty chunk is accepted and changes nothing. */
  lemma FeedAllNothing(maxSize: nat, chunks: seq<seq<byte>>)
    ensures FeedAll(maxSize, chunks + [[]]) == FeedAll(maxSize, chunks)
  {
    var (records, buffer) := FeedAll(maxSize, chunks);
    FeedAllSnoc(maxSize, chunks, []);
    FeedAllFits(maxSize, chunks);
    CutIncomplete(buffer);
    hide FeedAll, Cut, Incomplete;
    assert buffer + [] == buffer && records + [] == records;
  }

  lemma {:induction false} FeedSnoc(maxSize: nat, buffer: seq<byte>, chunks: seq<seq<byte>>, chunk: seq<byte>)
    ensures var before := Feed(maxSize, buffer, chunks);
            Feed(maxSize, buffer, chunks + [chunk])
            == if before.Err? then before
               else match FeedOne(maxSize, before.value.1, chunk)
                    case Ok((more, left)) => Ok((before.value.0 + more, left))
                    case Err(e) => Err(e)
    decreases |chunks|
  {
    hide Cut;
    var all := chunks + [chunk];
    if chunks == [] {
      assert all == [chunk] && all[1..] == [];
      var one := FeedOne(maxSize, buffer, chunk);
      if one.Ok? {
        assert one.value.0 + [] == [] + one.value.0 && one.value == (one.value.0, one.value.1);
      }
    } else {
      assert all[0] == chunks[0] && all[1..] == chunks[1..] + [chunk];
      var first := FeedOne(maxSize, buffer, chunks[0]);
      if first.Ok? {
        var (records, left) := first.value;
        FeedSnoc(maxSize, left, chunks[1..], chunk);
        var mid := Feed(maxSize, left, chunks[1..]);
        if mid.Ok? {
          var last := FeedOne(maxSize, mid.value.1, chunk);
          if last.Ok? {
            assert records + (mid.value.0 + last.value.0) == records + mid.value.0 + last.value.0;
          }
        }
      }
    }
  }

  /** As long as nothing is refused the two ways of feeding agree; once something is, bytes are lost. */
  lemma {:induction false} FeedAllCounts(maxSize: nat, chunks: seq<seq<byte>>)
    ensures var (records, buffer) := FeedAll(maxSize, chunks);
            var fed := Feed(maxSize, [], chunks);
            && (fed.Ok? ==> fed.value == (records, buffer))
            && (fed.Err? ==> |Concat(records)| + |buffer| < |Concat(chunks)|)
            && |Concat(records)| + |buffer| <= |Concat(chunks)|
  {
    if chunks != [] {
      var n := |chunks| - 1;
      var before, chunk := chunks[..n], chunks[n];
      var (records, buffer) := FeedAll(maxSize, before);
      assert chunks == before + [chunk];
      FeedAllCounts(maxSize, before);
      FeedAllFits(maxSize, before);
      FeedSnoc(maxSize, [], before, chunk);
      ConcatAppend(before, [chunk]);
      ConcatSingle(chunk);
      CutSound(buffer + chunk);
      ConcatAppend(records, Cut(buffer + chunk).0);
      hide Cut, Incomplete, Feed, Concat;
    }
  }

  /** Feeding a stream in chunks, dropping refused ones, gives the cut of the stream exactly if no chunk
      is refused. */
  lemma FeedAllIsCutIff(maxSize: nat, chunks: seq<seq<byte>>)
    ensures FeedAll(maxSize, chunks) == Cut(Concat(chunks)) <==> Feed(maxSize, [], chunks).Ok?
  {
    FeedAllCounts(maxSize, chunks);
    CutSound(Concat(chunks));
    assert [] + Concat(chunks) == Concat(chunks);
    if Feed(maxSize, [], chunks).Ok? {
      FeedIsCut(maxSize, [], chunks);
    }
    hide Cut, Feed, FeedAll, Concat;
  }

  /** Every chunk fits in the buffer beside what the chunks before it leave over. */
  predicate FitsThroughout(maxSize: nat, chunks: seq<seq<byte>>) {
    forall i | 0 <= i < |chunks| :: |Cut(Concat(chunks[..i])).1| + |chunks[i]| <= maxSize
  }

  /** No chunk is refused exactly if each fits beside the incomplete record before it. */
  lemma {:induction false} FeedFitsIff(maxSize: nat, chunks: seq<seq<byte>>)
    ensures Feed(maxSize, [], chunks).Ok? <==> FitsThroughout(maxSize, chunks)
  {
    if chunks != [] {
      var n := |chunks| - 1;
      var before, chunk := chunks[..n], chunks[n];
      assert chunks == before + [chunk];
      FeedFitsIff(maxSize, before);
      FeedSnoc(maxSize, [], before, chunk);
      hide Cut, Feed, Concat;
      assert forall i | 0 <= i < n :: before[..i] == chunks[..i] && before[i] == chunks[i];
      assert FitsThroughout(maxSize, chunks)
        <==> FitsThroughout(maxSize, before) && |Cut(Concat(before)).1| + |chunk| <= maxSize;
      if Feed(maxSize, [], before).Ok? {
        FeedIsCut(maxSize, [], before);
        assert [] + Concat(before) == Concat(before);
        var last := FeedOne(maxSize, Cut(Concat(before)).1, chunk);
        assert last.Ok? ==> last.value == (last.value.0, last.value.1);
      }
    }
  }

  lemma {:induction false} FirstRecordFits(maxSize: nat, buffer: seq<byte>, chunks: seq<seq<byte>>)
    requires Incomplete(buffer) && Feed(maxSize, buffer, chunks).Ok?
    requires var all := buffer + Concat(chunks); |all| >= 5 && |all| >= 5 + BodyLength(all)
    ensures 5 + BodyLength(buffer + Concat(chunks)) <= maxSize
    decreases |chunks|
  {
    hide GetU16;
    var all := buffer + Concat(chunks);
    assert buffer + Concat<byte>([]) == buffer;
    var b := buffer + chunks[0];
    assert all == b + Concat(chunks[1..]);
    if Incomplete(b) {
      FirstRecordFits(maxSize, b, chunks[1..]);
    } else {
      assert all[3..5] == b[3..5];
    }
  }

  lemma {:induction false} FitsWhileSmall(maxSize: nat, buffer: seq<byte>, chunks: seq<seq<byte>>)
    requires |buffer + Concat(chunks)| <= maxSize
    ensures Feed(maxSize, buffer, chunks).Ok?
    decreases |chunks|
  {
    if chunks != [] {
      assert buffer + Concat(chunks) == buffer + chunks[0] + Concat(chunks[1..]);
      CutSound(buffer + chunks[0]);
      hide Cut, Incomplete;
      FitsWhileSmall(maxSize, Cut(buffer + chunks[0]).1, chunks[1..]);
    }
  }

  /** However it is split, one record gets through exactly if it is no longer than the buffer. A record
      that announces 65535 bytes is 65540 bytes long and never does. */
  lemma RecordFitsIff(record: seq<byte>, chunks: seq<seq<byte>>)
    requires IsRecord(record) && Concat(chunks) == record
    ensures Feed(MAX_BUFFER, [], chunks).Ok? <==> |record| <= MAX_BUFFER
  {
    hide GetU16, Feed;
    assert [] + Concat(chunks) == record;
    if Feed(MAX_BUFFER, [], chunks).Ok? {
      FirstRecordFits(MAX_BUFFER, [], chunks);
    }
    if |record| <= MAX_BUFFER {
      FitsWhileSmall(MAX_BUFFER, [], chunks);
    }
  }
}
