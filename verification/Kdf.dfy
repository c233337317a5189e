/** The TLS 1.0 PRF (section 5 of RFC 2246) as used for OpenVPN key expansion, and the key material
    cut from its output. The MACs are parameters. */
module KeyDerivation {
  import opened Common
  import opened PacketCiphers

  type Hmac = (seq<byte>, seq<byte>) -> seq<byte>

  /** A MAC with outputs of one fixed, non-zero length. */
  ghost predicate FixedLength(mac: Hmac, n: nat) {
    n > 0 && forall key, data :: |mac(key, data)| == n
  }

  // ---------------------------------------------------------------- P_hash

  /** A(0) is the seed, A(i) is the MAC of A(i-1). */
  function A(mac: Hmac, secret: seq<byte>, seed: seq<byte>, i: nat): seq<byte> {
    if i == 0 then seed else mac(secret, A(mac, secret, seed, i - 1))
  }

  /** The first `k` blocks of P_hash: the MACs of A(1) + seed, …, A(k) + seed. */
  function Blocks(mac: Hmac, secret: seq<byte>, seed: seq<byte>, k: nat): seq<byte> {
    if k == 0 then []
    else Blocks(mac, secret, seed, k - 1) + mac(secret, A(mac, secret, seed, k) + seed)
  }

  lemma {:induction false} BlocksLength(mac: Hmac, n: nat, secret: seq<byte>, seed: seq<byte>, k: nat)
    requires FixedLength(mac, n)
    ensures |Blocks(mac, secret, seed, k)| == k * n
  {
    if k > 0 {
      BlocksLength(mac, n, secret, seed, k - 1);
    }
  }

  lemma {:induction false} BlocksGrow(mac: Hmac, secret: seq<byte>, seed: seq<byte>, j: nat, k: nat)
    requires j <= k
    ensures Blocks(mac, secret, seed, j) <= Blocks(mac, secret, seed, k)
    decreases k
  {
    if j < k {
      BlocksGrow(mac, secret, seed, j, k - 1);
    }
  }

  /** `out` is the first `n` bytes of the P_hash stream. */
  ghost predicate IsPHash(mac: Hmac, secret: seq<byte>, seed: seq<byte>, n: nat, out: seq<byte>) {
    |out| == n && exists k :: out <= Blocks(mac, secret, seed, k)
  }

  /** The P_hash output of a given length is unique, and a shorter one is a prefix of a longer one. */
  lemma PHashPrefix(mac: Hmac, secret: seq<byte>, seed: seq<byte>, m: nat, n: nat, out: seq<byte>, out': seq<byte>)
    requires m <= n && IsPHash(mac, secret, seed, m, out) && IsPHash(mac, secret, seed, n, out')
    ensures out == out'[..m]
  {
    var j :| out <= Blocks(mac, secret, seed, j);
    var k :| out' <= Blocks(mac, secret, seed, k);
    hide Blocks;
    var l := if j <= k then k else j;
    BlocksGrow(mac, secret, seed, j, l);
    BlocksGrow(mac, secret, seed, k, l);
    var all := Blocks(mac, secret, seed, l);
    assert out == all[..m] && out' == all[..n];
  }

  /** Byte `r` of block `j`, counted from zero, is that byte of the MAC of A(j + 1) and the seed. */
  lemma PHashByte(mac: Hmac, macLen: nat, secret: seq<byte>, seed: seq<byte>, n: nat, out: seq<byte>, j: nat, r: nat)
    requires FixedLength(mac, macLen) && IsPHash(mac, secret, seed, n, out) && r < macLen && j * macLen + r < n
    ensures out[j * macLen + r] == mac(secret, A(mac, secret, seed, j + 1) + seed)[r]
  {
    var k: nat :| out <= Blocks(mac, secret, seed, k);
    var l := if k <= j + 1 then j + 1 else k;
    BlocksLength(mac, macLen, secret, seed, j);
    var block, before := mac(secret, A(mac, secret, seed, j + 1) + seed), Blocks(mac, secret, seed, j);
    assert Blocks(mac, secret, seed, j + 1) == before + block && |block| == macLen;
    BlocksGrow(mac, secret, seed, k, l);
    BlocksGrow(mac, secret, seed, j + 1, l);
    hide Blocks, A, FixedLength;
    assert out[j * macLen + r] == Blocks(mac, secret, seed, l)[j * macLen + r] == (before + block)[|before| + r];
  }

  /** The first block: the MAC of the MAC of the seed, followed by the seed. */
  lemma PHashFirst(mac: Hmac, macLen: nat, secret: seq<byte>, seed: seq<byte>, n: nat, out: seq<byte>)
    requires FixedLength(mac, macLen) && IsPHash(mac, secret, seed, n, out) && n <= macLen
    ensures out == mac(secret, mac(secret, seed) + seed)[..n]
  {
    assert A(mac, secret, seed, 1) == mac(secret, seed);
    hide A, IsPHash;
    assert |out| == n by { PHashLength(mac, secret, seed, n, out); }
    forall r: nat | r < n
      ensures out[r] == mac(secret, mac(secret, seed) + seed)[r]
    {
      PHashByte(mac, macLen, secret, seed, n, out, 0, r);
    }
  }

  lemma PHashLength(mac: Hmac, secret: seq<byte>, seed: seq<byte>, n: nat, out: seq<byte>)
    requires IsPHash(mac, secret, seed, n, out)
    ensures |out| == n
  {
  }

  method PHash(mac: Hmac, ghost macLen: nat, secret: seq<byte>, seed: seq<byte>, outputLen: nat)
    returns (output: seq<byte>)
    requires FixedLength(mac, macLen)
    ensures IsPHash(mac, secret, seed, outputLen, output)
  {
    output := [];
    var a := seed;
    ghost var k: nat := 0;
    while |output| < outputLen
      invariant a == A(mac, secret, seed, k)
      invariant output == Blocks(mac, secret, seed, k)
      decreases outputLen - |output|
    {
      a := mac(secret, a);
      output := output + mac(secret, a + seed);
      k := k + 1;
    }
    output := output[..outputLen];
    assert output <= Blocks(mac, secret, seed, k);
  }

  // ---------------------------------------------------------------- the PRF

  function FirstHalf(secret: seq<byte>): seq<byte> {
    secret[..(|secret| + 1) / 2]
  }

  function SecondHalf(secret: seq<byte>): seq<byte> {
    secret[|secret| / 2..]
  }

  /** The halves have equal length ceil(n/2), cover the secret, and share one byte exactly when its
      length is odd. */
  lemma HalvesCover(secret: seq<byte>)
    ensures |FirstHalf(secret)| == |SecondHalf(secret)| == (|secret| + 1) / 2
    ensures FirstHalf(secret) + SecondHalf(secret)[|secret| % 2..] == secret
  {
    assert (|secret| + 1) / 2 == |secret| / 2 + |secret| % 2;
    assert SecondHalf(secret)[|secret| % 2..] == secret[(|secret| + 1) / 2..];
  }

  function XorSeq(a: seq<byte>, b: seq<byte>): seq<byte>
    requires |a| == |b|
  {
    seq(|a|, i requires 0 <= i < |a| => XorByte(a[i], b[i]))
  }

  /** PRF(secret, purpose, seed): the two P_hash streams of the halves, combined by XOR. */
  ghost predicate IsPrf(md5: Hmac, sha1: Hmac, secret: seq<byte>, purpose: seq<byte>, seed: seq<byte>, n: nat,
                        out: seq<byte>)
  {
    exists x, y ::
      && IsPHash(md5, FirstHalf(secret), purpose + seed, n, x)
      && IsPHash(sha1, SecondHalf(secret), purpose + seed, n, y)
      && out == XorSeq(x, y)
  }

  method OpenVpnPrf(md5: Hmac, ghost m: nat, sha1: Hmac, ghost s: nat,
                    secret: seq<byte>, purpose: seq<byte>, seed: seq<byte>, outputLen: nat)
    returns (output: seq<byte>)
    requires FixedLength(md5, m) && FixedLength(sha1, s)
    ensures |output| == outputLen && IsPrf(md5, sha1, secret, purpose, seed, outputLen, output)
  {
    var combined := purpose + seed;
    var half := (|secret| + 1) / 2;
    var pMd5 := PHash(md5, m, secret[..half], combined, outputLen);
    var pSha1 := PHash(sha1, s, secret[|secret| / 2..], combined, outputLen);
    hide XorByte;
    output := [];
    for i := 0 to outputLen
      invariant |output| == i
      invariant forall j | 0 <= j < i :: output[j] == XorByte(pMd5[j], pSha1[j])
    {
      output := output + [XorByte(pMd5[i], pSha1[i])];
    }
    assert output == XorSeq(pMd5, pSha1);
  }

  /** The PRF is a function: two outputs for the same inputs agree on their common length. */
  lemma PrfPrefix(md5: Hmac, sha1: Hmac, secret: seq<byte>, purpose: seq<byte>, seed: seq<byte>, m: nat, n: nat,
                  out: seq<byte>, out': seq<byte>)
    requires m <= n
    requires IsPrf(md5, sha1, secret, purpose, seed, m, out) && IsPrf(md5, sha1, secret, purpose, seed, n, out')
    ensures out == out'[..m]
  {
    hide XorByte, FirstHalf, SecondHalf;
    var s1, s2, seeds := FirstHalf(secret), SecondHalf(secret), purpose + seed;
    var x, y :| IsPHash(md5, s1, seeds, m, x) && IsPHash(sha1, s2, seeds, m, y) && out == XorSeq(x, y);
    var x', y' :| IsPHash(md5, s1, seeds, n, x') && IsPHash(sha1, s2, seeds, n, y') && out' == XorSeq(x', y');
    PHashPrefix(md5, s1, seeds, m, n, x, x');
    PHashPrefix(sha1, s2, seeds, m, n, y, y');
    assert forall i | 0 <= i < m :: out[i] == out'[i];
  }

  /** For a secret of two equal halves, each output byte is the XOR of the byte of the MD5 stream of the first
      half and that of the SHA-1 stream of the second, both over the purpose followed by the seed. */
  lemma PrfExact(md5: Hmac, sha1: Hmac, first: seq<byte>, second: seq<byte>, purpose: seq<byte>, seed: seq<byte>, n: nat,
                 out: seq<byte>, x: seq<byte>, y: seq<byte>)
    requires |first| == |second| && IsPrf(md5, sha1, first + second, purpose, seed, n, out)
    requires IsPHash(md5, first, purpose + seed, n, x) && IsPHash(sha1, second, purpose + seed, n, y)
    ensures |out| == n && forall i | 0 <= i < n :: out[i] == XorByte(x[i], y[i])
  {
    hide XorByte;
    assert FirstHalf(first + second) == first && SecondHalf(first + second) == second;
    hide FirstHalf, SecondHalf;
    var x', y' :| IsPHash(md5, first, purpose + seed, n, x') && IsPHash(sha1, second, purpose + seed, n, y')
                  && out == XorSeq(x', y');
    PHashPrefix(md5, first, purpose + seed, n, n, x, x');
    PHashPrefix(sha1, second, purpose + seed, n, n, y, y');
    assert x'[..n] == x' && y'[..n] == y';
  }

  // ---------------------------------------------------------------- key material

  datatype KeyMaterial = KeyMaterial(
    clientWriteKey: Bytes32,
    serverWriteKey: Bytes32,
    clientIv: Nonce,
    serverIv: Nonce)

  datatype DataKey = DataKey(key: Bytes32, iv: Nonce)

  /** The key2 layout: per direction 64 bytes of cipher key and 64 of HMAC key, of which the first 32
      and the first 8 are used; the latter form the tail of the implicit IV. */
  function FromKey2Block(block: seq<byte>): KeyMaterial
    requires |block| >= 256
  {
    KeyMaterial(block[0..32], block[128..160], [0, 0, 0, 0] + block[64..72], [0, 0, 0, 0] + block[192..200])
  }

  function ClientDataKey(km: KeyMaterial): DataKey {
    DataKey(km.clientWriteKey, km.clientIv)
  }

  function ServerDataKey(km: KeyMaterial): DataKey {
    DataKey(km.serverWriteKey, km.serverIv)
  }

  /** The four 64-byte parts of a block: cipher and HMAC key of the client, then of the server. */
  lemma Key2Parts(c0: seq<byte>, h0: seq<byte>, c1: seq<byte>, h1: seq<byte>)
    requires |c0| == |h0| == |c1| == |h1| == 64
    ensures FromKey2Block(c0 + h0 + c1 + h1)
            == KeyMaterial(c0[..32], c1[..32], [0, 0, 0, 0] + h0[..8], [0, 0, 0, 0] + h1[..8])
  {
    var block := c0 + h0 + c1 + h1;
    assert block[0..32] == c0[..32] && block[64..72] == h0[..8] && block[128..160] == c1[..32] && block[192..200] == h1[..8];
  }

  /** With this key material the nonce is the packet id followed by the eight IV bytes. */
  lemma Key2Nonce(block: seq<byte>, id: u32)
    requires |block| >= 256
    ensures BuildNonce(FromKey2Block(block).clientIv, id) == PutU32(id) + block[64..72]
    ensures BuildNonce(FromKey2Block(block).serverIv, id) == PutU32(id) + block[192..200]
  {
    hide PutU32;
    var pid := PutU32(id);
    assert forall b: byte :: XorByte(0, b) == b;
    hide XorByte;
    assert BuildNonce([0, 0, 0, 0] + block[64..72], id) == pid + block[64..72];
    assert BuildNonce([0, 0, 0, 0] + block[192..200], id) == pid + block[192..200];
  }
}
