/** The data channel in one direction over whole runs: one encryptor, one decryptor with the same key
    and IV, and a network that may present any bytes to the decryptor, in any order, any number of
    times. The AEAD is ideal in the runs considered: no ciphertext opens that was not issued. */
module CipherRuns {
  import opened Common
  import opened ReplayProtection
  import opened PacketCiphers

  datatype Op =
    | Encrypt(plain: seq<byte>, adPrefix: seq<byte>)
    | Decrypt(packet: seq<byte>, adPrefix: seq<byte>)

  /** One encryption: the id it used, what was sealed and the sealed bytes. */
  datatype Issue = Issue(id: u32, adPrefix: seq<byte>, plain: seq<byte>, sealed: seq<byte>)

  /** One successful decryption. */
  datatype Receipt = Receipt(id: u32, adPrefix: seq<byte>, plain: seq<byte>)

  datatype World = World(enc: Cipher, dec: Cipher, issued: seq<Issue>, received: seq<Receipt>)

  ghost function Start(key: Bytes32, iv: Nonce): World {
    World(Cipher(key, iv, 0, []), Cipher(key, iv, 0, []), [], [])
  }

  ghost function Step(aead: Aead, w: World, op: Op): World
    requires Correct(aead)
  {
    match op
    case Encrypt(plain, ad) =>
      var (r, enc') := EncryptStep(aead, w.enc, plain, ad);
      if r.Err? then w
      else
        var id := enc'.txCounter;
        var sealed := aead.seal(w.enc.key, BuildNonce(w.enc.iv, id), plain, Aad(ad, id));
        w.(enc := enc', issued := w.issued + [Issue(id, ad, plain, sealed)])
    case Decrypt(packet, ad) =>
      var (r, dec') := DecryptStep(aead, w.dec, packet, ad);
      w.(dec := dec',
         received := if r.Ok? then w.received + [Receipt(PacketId(packet), ad, r.value)] else w.received)
  }

  ghost function Run(aead: Aead, key: Bytes32, iv: Nonce, ops: seq<Op>): World
    requires Correct(aead)
  {
    if ops == [] then Start(key, iv) else Step(aead, Run(aead, key, iv, ops[..|ops| - 1]), ops[|ops| - 1])
  }

  // ---------------------------------------------------------------- what the encryptor issues

  /** The k-th issue uses id k + 1 and seals its plaintext under that id's nonce and AAD. */
  ghost predicate IssuedInOrder(aead: Aead, key: Bytes32, iv: Nonce, w: World) {
    && w.enc.key == key && w.enc.iv == iv && w.enc.txCounter == |w.issued|
    && forall k | 0 <= k < |w.issued| ::
         var i := w.issued[k];
         i.id == k + 1 && i.sealed == aead.seal(key, BuildNonce(iv, i.id), i.plain, Aad(i.adPrefix, i.id))
  }

  lemma {:induction false} IssuesAreNumbered(aead: Aead, key: Bytes32, iv: Nonce, ops: seq<Op>)
    requires Correct(aead)
    ensures IssuedInOrder(aead, key, iv, Run(aead, key, iv, ops))
  {
    hide BuildNonce, Aad, DecryptStep, Correct;
    if ops != [] {
      IssuesAreNumbered(aead, key, iv, ops[..|ops| - 1]);
    }
  }

  /** No nonce is ever used for two encryptions under one key (section 3.1 of RFC 5116). */
  lemma NoncesNeverRepeat(aead: Aead, key: Bytes32, iv: Nonce, ops: seq<Op>, j: nat, k: nat)
    requires Correct(aead)
    requires var issued := Run(aead, key, iv, ops).issued; j < k < |issued|
    ensures var issued := Run(aead, key, iv, ops).issued;
            BuildNonce(iv, issued[j].id) != BuildNonce(iv, issued[k].id)
  {
    IssuesAreNumbered(aead, key, iv, ops);
    var issued := Run(aead, key, iv, ops).issued;
    hide Run, BuildNonce;
    if BuildNonce(iv, issued[j].id) == BuildNonce(iv, issued[k].id) {
      NonceInjective(iv, issued[j].id, issued[k].id);
    }
  }

  // ---------------------------------------------------------------- ideal runs

  /** The sealed bytes `sealed` were issued under this nonce and AAD. */
  ghost predicate WasIssued(iv: Nonce, issued: seq<Issue>, nonce: Nonce, aad: seq<byte>, sealed: seq<byte>) {
    exists k | 0 <= k < |issued| ::
      BuildNonce(iv, issued[k].id) == nonce && Aad(issued[k].adPrefix, issued[k].id) == aad && issued[k].sealed == sealed
  }

  ghost predicate OpensOnlyIssued(aead: Aead, c: Cipher, issued: seq<Issue>, packet: seq<byte>, ad: seq<byte>,
                                  sealed: seq<byte>)
    requires |packet| >= PACKET_ID_SIZE
  {
    var id := PacketId(packet);
    aead.open(c.key, BuildNonce(c.iv, id), sealed, Aad(ad, id)).Some?
    ==> WasIssued(c.iv, issued, BuildNonce(c.iv, id), Aad(ad, id), sealed)
  }

  /** Neither reading of the packet is a forgery. */
  ghost predicate NotForged(aead: Aead, w: World, packet: seq<byte>, ad: seq<byte>) {
    |packet| >= PACKET_ID_SIZE + TAG_SIZE ==>
      && OpensOnlyIssued(aead, w.dec, w.issued, packet, ad, TagAtEnd(packet))
      && OpensOnlyIssued(aead, w.dec, w.issued, packet, ad, TagBefore(packet))
  }

  ghost predicate IdealRun(aead: Aead, key: Bytes32, iv: Nonce, ops: seq<Op>)
    requires Correct(aead)
  {
    forall k | 0 <= k < |ops| && ops[k].Decrypt? ::
      NotForged(aead, Run(aead, key, iv, ops[..k]), ops[k].packet, ops[k].adPrefix)
  }

  /** Whatever reading of the packet opens, it opens to the plaintext issued under the packet's id,
      with the AAD prefix it was issued with. */
  lemma OpenedIsIssued(aead: Aead, key: Bytes32, iv: Nonce, w: World, packet: seq<byte>, ad: seq<byte>,
                       sealed: seq<byte>)
    requires Correct(aead) && IssuedInOrder(aead, key, iv, w) && |packet| >= PACKET_ID_SIZE
    requires w.dec.key == key && w.dec.iv == iv
    requires OpensOnlyIssued(aead, w.dec, w.issued, packet, ad, sealed)
    requires var id := PacketId(packet); aead.open(key, BuildNonce(iv, id), sealed, Aad(ad, id)).Some?
    ensures var id := PacketId(packet);
            && 1 <= id <= |w.issued|
            && aead.open(key, BuildNonce(iv, id), sealed, Aad(ad, id)) == Some(w.issued[id - 1].plain)
            && ad == w.issued[id - 1].adPrefix && sealed == w.issued[id - 1].sealed
  {
    var id := PacketId(packet);
    hide PacketId, BuildNonce, Aad;
    var k :| 0 <= k < |w.issued| && BuildNonce(iv, w.issued[k].id) == BuildNonce(iv, id)
             && Aad(w.issued[k].adPrefix, w.issued[k].id) == Aad(ad, id) && w.issued[k].sealed == sealed;
    NonceInjective(iv, w.issued[k].id, id);
    AadPrefix(w.issued[k].adPrefix, ad, id);
    SealedLength(aead, key, BuildNonce(iv, id), w.issued[k].plain, Aad(ad, id));
  }

  lemma AadPrefix(a: seq<byte>, b: seq<byte>, id: u32)
    requires Aad(a, id) == Aad(b, id)
    ensures a == b
  {
    assert a == Aad(a, id)[..|a|];
    assert |a| + 4 == |b| + 4;
    assert b == Aad(b, id)[..|b|];
  }

  // ---------------------------------------------------------------- the main theorem

  ghost predicate Matches(issued: seq<Issue>, r: Receipt) {
    1 <= r.id <= |issued| && r.plain == issued[r.id - 1].plain && r.adPrefix == issued[r.id - 1].adPrefix
  }

  ghost predicate ReceivedOnce(w: World) {
    && (forall k | 0 <= k < |w.received| :: Matches(w.issued, w.received[k]))
    && (forall k | 0 <= k < |w.received| :: w.received[k].id in w.dec.arrivals)
    && (forall j, k | 0 <= j < k < |w.received| :: w.received[j].id != w.received[k].id)
  }

  lemma EncryptKeeps(aead: Aead, w: World, plain: seq<byte>, ad: seq<byte>)
    requires Correct(aead) && ReceivedOnce(w)
    ensures ReceivedOnce(Step(aead, w, Encrypt(plain, ad)))
  {
    hide BuildNonce, Aad, Correct;
    var w' := Step(aead, w, Encrypt(plain, ad));
    assert forall k | 0 <= k < |w'.received| :: Matches(w.issued, w'.received[k]);
  }

  lemma DecryptKeeps(aead: Aead, key: Bytes32, iv: Nonce, w: World, packet: seq<byte>, ad: seq<byte>)
    requires Correct(aead) && IssuedInOrder(aead, key, iv, w) && w.dec.key == key && w.dec.iv == iv
    requires NotForged(aead, w, packet, ad)
    requires ReceivedOnce(w)
    ensures ReceivedOnce(Step(aead, w, Decrypt(packet, ad)))
  {
    var (r, dec') := DecryptStep(aead, w.dec, packet, ad);
    if r.Ok? {
      var id := PacketId(packet);
      assert Matches(w.issued, Receipt(id, ad, r.value)) by {
        if aead.open(key, BuildNonce(iv, id), TagAtEnd(packet), Aad(ad, id)).Some? {
          OpenedIsIssued(aead, key, iv, w, packet, ad, TagAtEnd(packet));
        } else {
          OpenedIsIssued(aead, key, iv, w, packet, ad, TagBefore(packet));
        }
      }
      hide PacketId, OpenEither, Matches, Correct, IssuedInOrder, NotForged;
      assert id !in w.dec.arrivals;
    } else {
      hide OpenEither, Matches, Correct, IssuedInOrder, NotForged;
    }
  }

  lemma {:induction false} KeysFixed(aead: Aead, key: Bytes32, iv: Nonce, ops: seq<Op>)
    requires Correct(aead)
    ensures Run(aead, key, iv, ops).dec.key == key && Run(aead, key, iv, ops).dec.iv == iv
  {
    hide BuildNonce, Aad, OpenEither, Correct;
    if ops != [] {
      KeysFixed(aead, key, iv, ops[..|ops| - 1]);
    }
  }

  /** Over every ideal run: whenever the decryptor returns a plaintext for packet id n, it is exactly
      the plaintext (and AAD prefix) the encryptor used for id n, under whichever tag layout it was
      read; and it does so at most once for each id. */
  lemma {:induction false} DecryptsExactlyTheIssued(aead: Aead, key: Bytes32, iv: Nonce, ops: seq<Op>)
    requires Correct(aead) && IdealRun(aead, key, iv, ops)
    ensures ReceivedOnce(Run(aead, key, iv, ops))
  {
    hide Step, Correct, NotForged;
    if ops != [] {
      var before, op := ops[..|ops| - 1], ops[|ops| - 1];
      assert forall k | 0 <= k < |before| :: before[..k] == ops[..k] && before[k] == ops[k];
      DecryptsExactlyTheIssued(aead, key, iv, before);
      IssuesAreNumbered(aead, key, iv, before);
      KeysFixed(aead, key, iv, before);
      var w := Run(aead, key, iv, before);
      match op {
        case Encrypt(plain, ad) => EncryptKeeps(aead, w, plain, ad);
        case Decrypt(packet, ad) => DecryptKeeps(aead, key, iv, w, packet, ad);
      }
    }
  }

  /** A genuine packet is decrypted to its plaintext exactly when the replay window admits its id, and
      is otherwise reported as a replay: trying the wrong tag layout first never misleads. */
  lemma GenuineDecryptsIff(aead: Aead, key: Bytes32, iv: Nonce, w: World, k: nat)
    requires Correct(aead) && IssuedInOrder(aead, key, iv, w) && w.dec.key == key && w.dec.iv == iv
    requires k < |w.issued| && |w.issued[k].sealed| >= TAG_SIZE
    requires NotForged(aead, w, TagFirst(w.issued[k].id, w.issued[k].sealed), w.issued[k].adPrefix)
    ensures var i := w.issued[k];
            DecryptStep(aead, w.dec, TagFirst(i.id, i.sealed), i.adPrefix).0
            == if Admits(DATA_WINDOW, w.dec.arrivals, i.id) then Ok(i.plain) else Err(ReplayDetected)
  {
    var i := w.issued[k];
    var packet := TagFirst(i.id, i.sealed);
    TagFirstReadsBack(i.id, i.sealed);
    SealedLength(aead, key, BuildNonce(iv, i.id), i.plain, Aad(i.adPrefix, i.id));
    if aead.open(key, BuildNonce(iv, i.id), TagAtEnd(packet), Aad(i.adPrefix, i.id)).Some? {
      OpenedIsIssued(aead, key, iv, w, packet, i.adPrefix, TagAtEnd(packet));
    }
    hide TagFirst, PacketId, BuildNonce, Aad, TagBefore, TagAtEnd, Correct, NotForged, Admits;
  }

  /** The id of a packet is spent by the attempt, whether or not it decrypts. */
  lemma AttemptSpendsId(aead: Aead, c: Cipher, packet: seq<byte>, ad: seq<byte>, packet': seq<byte>, ad': seq<byte>)
    requires |packet| >= PACKET_ID_SIZE + TAG_SIZE && |packet'| >= PACKET_ID_SIZE + TAG_SIZE
    requires PacketId(packet) == PacketId(packet')
    ensures DecryptStep(aead, DecryptStep(aead, c, packet, ad).1, packet', ad').0 == Err(ReplayDetected)
  {
    hide PacketId, OpenEither;
  }
}
