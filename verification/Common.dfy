/** Bytes, machine integers, big-endian fields and the failure types shared by every module. */
module Common {

  type byte = x: int | 0 <= x < 256
  type u16 = x: int | 0 <= x < 0x1_0000
  type u24 = x: int | 0 <= x < 0x100_0000
  type u32 = x: int | 0 <= x < U32_LIMIT
  const U32_LIMIT: int := 0x1_0000_0000

  /** The fixed-size arrays of the source. */
  type SessionId = s: seq<byte> | |s| == 8 witness [0, 0, 0, 0, 0, 0, 0, 0]
  type Bytes32 = s: seq<byte> | |s| == 32 witness seq(32, _ => 0)

  datatype Option<+T> = None | Some(value: T)

  datatype Result<+T, +E> = Ok(value: T) | Err(error: E) {
    predicate IsFailure() { Err? }

    function PropagateFailure<U>(): Result<U, E>
      requires Err?
    {
      Err(error)
    }

    function Extract(): T
      requires Ok?
    {
      value
    }
  }

  /** The errors of the protocol crate, with the fields callers can tell apart. */
  datatype ProtocolError =
    | PacketTooShort(expected: nat, got: nat)
    | UnknownOpcode(code: byte)
    | TooManyAcks(count: nat)
    | SendWindowFull
    | TooManyOutOfOrder
    | TlsRecordTooLarge
    | InvalidSessionId
    | ReplayDetected
    | HmacVerificationFailed
    | InvalidKeyDirection
    | KeyNotAvailable(keyId: byte)
    | UnsupportedKeyMethod(keyMethod: byte)
    | InvalidUtf8
    | CounterOverflow
    | DecryptionFailed

  function Min(a: int, b: int): int {
    if a <= b then a else b
  }

  // ---------------------------------------------------------------- big-endian fields

  function PutU16(n: u16): (b: seq<byte>)
    ensures |b| == 2
  {
    [n / 0x100, n % 0x100]
  }

  function GetU16(b: seq<byte>): (n: u16)
    requires |b| == 2
  {
    b[0] as int * 0x100 + b[1]
  }

  function PutU24(n: u24): (b: seq<byte>)
    ensures |b| == 3
  {
    [n / 0x100 / 0x100, n / 0x100 % 0x100, n % 0x100]
  }

  function GetU24(b: seq<byte>): (n: u24)
    requires |b| == 3
  {
    (b[0] as int * 0x100 + b[1]) * 0x100 + b[2]
  }

  function PutU32(n: u32): (b: seq<byte>)
    ensures |b| == 4
  {
    [n / 0x100 / 0x100 / 0x100, n / 0x100 / 0x100 % 0x100, n / 0x100 % 0x100, n % 0x100]
  }

  function GetU32(b: seq<byte>): (n: u32)
    requires |b| == 4
  {
    ((b[0] as int * 0x100 + b[1]) * 0x100 + b[2]) * 0x100 + b[3]
  }

  lemma U16RoundTrip(n: u16)
    ensures GetU16(PutU16(n)) == n
  {
  }

  lemma U24RoundTrip(n: u24)
    ensures GetU24(PutU24(n)) == n
  {
  }

  lemma U24Bytes(b: seq<byte>)
    requires |b| == 3
    ensures PutU24(GetU24(b)) == b
  {
  }

  lemma GetU16Iff(b: seq<byte>, n: u16)
    requires |b| == 2
    ensures GetU16(b) == n <==> b[0] == n / 0x100 && b[1] == n % 0x100
  {
  }

  lemma GetU24Iff(b: seq<byte>, n: u24)
    requires |b| == 3
    ensures GetU24(b) == n <==> b[0] == n / 0x1_0000 && b[1] == n / 0x100 % 0x100 && b[2] == n % 0x100
  {
  }

  /** The number with these big-endian digits. */
  lemma GetU32Iff(b: seq<byte>, n: u32)
    requires |b| == 4
    ensures GetU32(b) == n <==> b[0] == n / 0x100 / 0x100 / 0x100 && b[1] == n / 0x100 / 0x100 % 0x100
                                && b[2] == n / 0x100 % 0x100 && b[3] == n % 0x100
  {
    U32RoundTrip(n);
    U32Bytes(b);
    hide GetU32;
    assert b == PutU32(n) <==> b[0] == PutU32(n)[0] && b[1] == PutU32(n)[1] && b[2] == PutU32(n)[2] && b[3] == PutU32(n)[3];
  }

  lemma U32RoundTrip(n: u32)
    ensures GetU32(PutU32(n)) == n
  {
    var n1, n2 := n / 0x100, n / 0x100 / 0x100;
    assert n2 == n2 / 0x100 * 0x100 + n2 % 0x100;
    assert n1 == n2 * 0x100 + n1 % 0x100;
    assert n == n1 * 0x100 + n % 0x100;
  }

  lemma U32Bytes(b: seq<byte>)
    requires |b| == 4
    ensures PutU32(GetU32(b)) == b
  {
    var n0: int := b[0];
    var n1 := n0 * 0x100 + b[1];
    var n2 := n1 * 0x100 + b[2];
    AppendByte(n0, b[1]);
    AppendByte(n1, b[2]);
    AppendByte(n2, b[3]);
  }

  lemma AppendByte(n: nat, b: byte)
    ensures (n * 0x100 + b) / 0x100 == n && (n * 0x100 + b) % 0x100 == b
  {
  }

  lemma U32Injective(m: u32, n: u32)
    requires PutU32(m) == PutU32(n)
    ensures m == n
  {
    U32RoundTrip(m);
    U32RoundTrip(n);
  }

  // ---------------------------------------------------------------- sequences of sequences

  /** The concatenation of the chunks, in order. */
  function Concat<T>(chunks: seq<seq<T>>): seq<T> {
    if chunks == [] then [] else chunks[0] + Concat(chunks[1..])
  }

  lemma {:induction false} ConcatAppend<T>(xs: seq<seq<T>>, ys: seq<seq<T>>)
    ensures Concat(xs + ys) == Concat(xs) + Concat(ys)
  {
    if xs == [] {
      assert xs + ys == ys;
    } else {
      assert (xs + ys)[1..] == xs[1..] + ys;
      ConcatAppend(xs[1..], ys);
    }
  }

  lemma ConcatSingle<T>(x: seq<T>)
    ensures Concat([x]) == x
  {
    assert Concat([x]) == x + Concat([x][1..]);
  }

  /** Unsigned 32-bit arithmetic wraps around. */
  function Wrapping(n: int): u32 {
    n % U32_LIMIT
  }

  lemma {:induction false} SubsetSize<T>(a: set<T>, b: set<T>)
    requires a <= b
    ensures |a| <= |b| && (|a| == |b| ==> a == b)
    decreases |a|
  {
    if a != {} {
      var x :| x in a;
      SubsetSize(a - {x}, b - {x});
      assert a == a - {x} + {x} && b == b - {x} + {x};
    } else {
      assert |b| == 0 ==> b == {};
    }
  }
}
