/** Packet encryption for the data channel: counter nonces, replay window, and a decryptor that
    accepts the tag before or after the ciphertext. The AEAD itself is a parameter. */
module PacketCiphers {
  import opened Common
  import opened Bits
  import opened ReplayProtection

  const TAG_SIZE: nat := 16
  const PACKET_ID_SIZE: nat := 4

  type Nonce = s: seq<byte> | |s| == 12 witness seq(12, _ => 0)

  /** An AEAD cipher: `seal` returns ciphertext followed by tag, `open` a plaintext or nothing. */
  datatype Aead = Aead(
    seal: (Bytes32, Nonce, seq<byte>, seq<byte>) -> seq<byte>,
    open: (Bytes32, Nonce, seq<byte>, seq<byte>) -> Option<seq<byte>>)

  /** Sealing adds a 16-byte tag, and what was sealed opens to the plaintext. */
  ghost predicate Correct(aead: Aead) {
    forall key, nonce, plain, aad ::
      && |aead.seal(key, nonce, plain, aad)| == |plain| + TAG_SIZE
      && aead.open(key, nonce, aead.seal(key, nonce, plain, aad), aad) == Some(plain)
  }

  // ---------------------------------------------------------------- nonces

  function XorByte(a: byte, b: byte): byte {
    assert Pow2(8) == 256;
    XorBound(a, b, 8);
    Xor(a, b)
  }

  /** The implicit IV with the packet id mixed into its first four bytes. */
  function BuildNonce(iv: Nonce, id: u32): Nonce {
    var pid := PutU32(id);
    [XorByte(iv[0], pid[0]), XorByte(iv[1], pid[1]), XorByte(iv[2], pid[2]), XorByte(iv[3], pid[3])] + iv[4..]
  }

  lemma XorByteInjective(a: byte, b: byte, c: byte)
    requires XorByte(a, b) == XorByte(a, c)
    ensures b == c
  {
    XorCommutes(a, b);
    XorCommutes(a, c);
    XorSelfInverse(b, a);
    XorSelfInverse(c, a);
  }

  lemma {:induction false} XorCommutes(x: nat, y: nat)
    ensures Xor(x, y) == Xor(y, x)
  {
    if x != 0 && y != 0 {
      XorCommutes(x / 2, y / 2);
    }
  }

  /** Under one implicit IV, different packet ids have different nonces. */
  lemma NonceInjective(iv: Nonce, m: u32, n: u32)
    requires BuildNonce(iv, m) == BuildNonce(iv, n)
    ensures m == n
  {
    var a, b := BuildNonce(iv, m), BuildNonce(iv, n);
    var p, q := PutU32(m), PutU32(n);
    assert a[0] == b[0] && a[1] == b[1] && a[2] == b[2] && a[3] == b[3];
    hide XorByte, PutU32;
    XorByteInjective(iv[0], p[0], q[0]);
    XorByteInjective(iv[1], p[1], q[1]);
    XorByteInjective(iv[2], p[2], q[2]);
    XorByteInjective(iv[3], p[3], q[3]);
    assert p == q;
    U32Injective(m, n);
  }

  // ---------------------------------------------------------------- encrypting and decrypting

  /** A packet cipher; `arrivals` are the ids its replay window has checked. */
  datatype Cipher = Cipher(key: Bytes32, iv: Nonce, txCounter: u32, arrivals: seq<nat>)

  function Aad(adPrefix: seq<byte>, id: u32): seq<byte> {
    adPrefix + PutU32(id)
  }

  /** The wire form: packet id, tag, ciphertext. */
  function TagFirst(id: u32, sealed: seq<byte>): seq<byte>
    requires |sealed| >= TAG_SIZE
  {
    var n := |sealed| - TAG_SIZE;
    PutU32(id) + sealed[n..] + sealed[..n]
  }

  ghost function EncryptStep(aead: Aead, c: Cipher, plain: seq<byte>, adPrefix: seq<byte>)
    : (Result<seq<byte>, ProtocolError>, Cipher)
    requires Correct(aead)
  {
    if c.txCounter + 1 >= U32_LIMIT then (Err(CounterOverflow), c)
    else
      var id := c.txCounter + 1;
      var sealed := aead.seal(c.key, BuildNonce(c.iv, id), plain, Aad(adPrefix, id));
      (Ok(TagFirst(id, sealed)), c.(txCounter := id))
  }

  function PacketId(packet: seq<byte>): u32
    requires |packet| >= PACKET_ID_SIZE
  {
    GetU32(packet[..PACKET_ID_SIZE])
  }

  /** The two readings of a packet as ciphertext followed by tag. */
  function TagAtEnd(packet: seq<byte>): seq<byte>
    requires |packet| >= PACKET_ID_SIZE + TAG_SIZE
  {
    packet[PACKET_ID_SIZE..]
  }

  function TagBefore(packet: seq<byte>): seq<byte>
    requires |packet| >= PACKET_ID_SIZE + TAG_SIZE
  {
    packet[PACKET_ID_SIZE + TAG_SIZE..] + packet[PACKET_ID_SIZE..PACKET_ID_SIZE + TAG_SIZE]
  }

  /** The plaintext under either reading, tag at the end first. */
  function OpenEither(aead: Aead, c: Cipher, packet: seq<byte>, adPrefix: seq<byte>): Option<seq<byte>>
    requires |packet| >= PACKET_ID_SIZE + TAG_SIZE
  {
    var id := PacketId(packet);
    var nonce, aad := BuildNonce(c.iv, id), Aad(adPrefix, id);
    var first := aead.open(c.key, nonce, TagAtEnd(packet), aad);
    if first.Some? then first else aead.open(c.key, nonce, TagBefore(packet), aad)
  }

  ghost function DecryptStep(aead: Aead, c: Cipher, packet: seq<byte>, adPrefix: seq<byte>)
    : (Result<seq<byte>, ProtocolError>, Cipher)
  {
    if |packet| < PACKET_ID_SIZE + TAG_SIZE then (Err(DecryptionFailed), c)
    else
      var id := PacketId(packet);
      var c' := c.(arrivals := c.arrivals + [id]);
      if !Admits(DATA_WINDOW, c.arrivals, id) then (Err(ReplayDetected), c')
      else
        match OpenEither(aead, c, packet, adPrefix)
        case Some(plain) => (Ok(plain), c')
        case None => (Err(DecryptionFailed), c')
  }

  /** The wire form reads back as the id and, under the tag-before reading, the sealed bytes. */
  lemma TagFirstReadsBack(id: u32, sealed: seq<byte>)
    requires |sealed| >= TAG_SIZE
    ensures var w := TagFirst(id, sealed);
            |w| == |sealed| + PACKET_ID_SIZE && PacketId(w) == id && TagBefore(w) == sealed
  {
    hide PutU32, GetU32;
    var w, n := TagFirst(id, sealed), |sealed| - TAG_SIZE;
    assert w[..4] == PutU32(id);
    U32RoundTrip(id);
    assert w[4..20] == sealed[n..] && w[20..] == sealed[..n];
  }

  /** An encrypted payload: the packet id, the 16-byte tag that ended the sealed bytes, the ciphertext. The AAD
      is the packet's header, if it is authenticated, and the packet id. */
  lemma EncryptedLayout(aead: Aead, c: Cipher, plain: seq<byte>, adPrefix: seq<byte>)
    requires Correct(aead) && c.txCounter + 1 < U32_LIMIT
    ensures var (r, c') := EncryptStep(aead, c, plain, adPrefix);
            var id, n := c.txCounter + 1, |plain|;
            var sealed := aead.seal(c.key, BuildNonce(c.iv, id), plain, adPrefix + PutU32(id));
            && |sealed| == n + 16 && r.Ok? && |r.value| == n + 20 && c' == c.(txCounter := id)
            && GetU32(r.value[..4]) == id && r.value[4..20] == sealed[n..] && r.value[20..] == sealed[..n]
  {
    hide PutU32, GetU32, BuildNonce;
    var id, n := c.txCounter + 1, |plain|;
    var sealed := aead.seal(c.key, BuildNonce(c.iv, id), plain, adPrefix + PutU32(id));
    SealedLength(aead, c.key, BuildNonce(c.iv, id), plain, adPrefix + PutU32(id));
    hide Correct;
    U32RoundTrip(id);
    var w := TagFirst(id, sealed);
    assert w[..4] == PutU32(id) && w[4..20] == sealed[n..] && w[20..] == sealed[..n];
  }

  /** A packet decrypts exactly if it is long enough, its id is admitted by a 128-wide window and one of the two
      readings opens; the one with the tag at the end has precedence. */
  lemma DecryptsIff(aead: Aead, c: Cipher, packet: seq<byte>, adPrefix: seq<byte>, plain: seq<byte>)
    ensures DecryptStep(aead, c, packet, adPrefix).0 == Ok(plain)
            <==> && |packet| >= 20
                 && var id := GetU32(packet[..4]);
                    var nonce, aad := BuildNonce(c.iv, id), adPrefix + PutU32(id);
                    var end, front := aead.open(c.key, nonce, packet[4..], aad),
                                      aead.open(c.key, nonce, packet[20..] + packet[4..20], aad);
                    Admits(128, c.arrivals, id) && (end == Some(plain) || (end.None? && front == Some(plain)))
  {
    hide GetU32, PutU32, BuildNonce, Admits;
  }

  class PacketCipher {
    const aead: Aead
    const key: Bytes32
    const implicitIv: Nonce
    var txCounter: u32
    const rxWindow: ReplayWindow

    ghost predicate Valid()
      reads this, rxWindow
    {
      rxWindow.Valid() && rxWindow.width == DATA_WINDOW
    }

    ghost function State(): Cipher
      reads this, rxWindow
    {
      Cipher(key, implicitIv, txCounter, rxWindow.arrivals)
    }

    constructor (aead: Aead, key: Bytes32, iv: Nonce)
      ensures Valid() && fresh(rxWindow) && this.aead == aead && State() == Cipher(key, iv, 0, [])
    {
      this.aead, this.key, this.implicitIv := aead, key, iv;
      txCounter := 0;
      rxWindow := new ReplayWindow(DATA_WINDOW);
    }

    method Encrypt(plain: seq<byte>, adPrefix: seq<byte>) returns (r: Result<seq<byte>, ProtocolError>)
      requires Valid() && Correct(aead)
      modifies this
      ensures Valid()
      ensures (r, State()) == EncryptStep(aead, old(State()), plain, adPrefix)
    {
      var appended := EncryptInto(plain, adPrefix, []);
      if appended.Err? {
        return Err(appended.error);
      }
      ghost var packet := EncryptStep(aead, old(State()), plain, adPrefix).0.value;
      assert [] + packet == packet;
      return Ok(appended.value);
    }

    /** Appends the encrypted packet to `output`. */
    method EncryptInto(plain: seq<byte>, adPrefix: seq<byte>, output: seq<byte>)
      returns (r: Result<seq<byte>, ProtocolError>)
      requires Valid() && Correct(aead)
      modifies this
      ensures Valid()
      ensures State() == EncryptStep(aead, old(State()), plain, adPrefix).1
      ensures r == match EncryptStep(aead, old(State()), plain, adPrefix).0
                   case Ok(packet) => Ok(output + packet)
                   case Err(e) => Err(e)
    {
      hide PutU32, BuildNonce, Correct;
      if txCounter + 1 >= U32_LIMIT {
        return Err(CounterOverflow);
      }
      txCounter := txCounter + 1;
      var pid := PutU32(txCounter);
      var nonce := BuildNonce(implicitIv, txCounter);
      var aad := adPrefix + pid;
      var sealed := aead.seal(key, nonce, plain, aad);
      SealedLength(aead, key, nonce, plain, aad);
      var n := |sealed| - TAG_SIZE;
      var packet := output;
      packet := packet + pid;
      packet := packet + sealed[n..];
      packet := packet + sealed[..n];
      assert packet == output + TagFirst(txCounter, sealed);
      return Ok(packet);
    }

    method Decrypt(packet: seq<byte>, adPrefix: seq<byte>) returns (r: Result<seq<byte>, ProtocolError>)
      requires Valid()
      modifies rxWindow
      ensures Valid()
      ensures (r, State()) == DecryptStep(aead, old(State()), packet, adPrefix)
    {
      hide GetU32, PutU32, BuildNonce, Admits;
      if |packet| < PACKET_ID_SIZE + TAG_SIZE {
        return Err(DecryptionFailed);
      }
      var id := GetU32(packet[..4]);
      var fresh' := rxWindow.CheckAndUpdate(id);
      if !fresh' {
        return Err(ReplayDetected);
      }
      var nonce, aad := BuildNonce(implicitIv, id), adPrefix + PutU32(id);
      var tag, ct := packet[4..20], packet[20..];
      var plain := aead.open(key, nonce, packet[4..], aad);
      if plain.Some? {
        return Ok(plain.value);
      }
      plain := aead.open(key, nonce, ct + tag, aad);
      if plain.Some? {
        return Ok(plain.value);
      }
      return Err(DecryptionFailed);
    }
  }

  lemma SealedLength(aead: Aead, key: Bytes32, nonce: Nonce, plain: seq<byte>, aad: seq<byte>)
    requires Correct(aead)
    ensures |aead.seal(key, nonce, plain, aad)| == |plain| + TAG_SIZE
    ensures aead.open(key, nonce, aead.seal(key, nonce, plain, aad), aad) == Some(plain)
  {
  }
}
