/** The data channel between two sessions under one installed key: what one end encrypts is what the
    other end delivers, whatever else both ends do and whatever is presented to them. */
module DataPath {
  import opened Common
  import opened OpCodes
  import opened Packets
  import opened TlsAuth
  import opened ReplayProtection
  import opened PacketCiphers
  import opened KeyDerivation
  import opened DataChannels
  import opened Reliable
  import opened Reassembly
  import opened SessionSteps
  import CipherRuns

  /** `x` and `y` hold channels for key id `k` that encrypt, respectively decrypt, with the same key. */
  predicate Matched(x: Session, y: Session, k: KeyId, key: Bytes32, iv: Nonce) {
    && k in x.channels && k in y.channels
    && x.channels[k].keyId == k && y.channels[k].keyId == k && Installed(x.channels[k])
    && x.channels[k].enc.key == key && x.channels[k].enc.iv == iv
    && y.channels[k].dec.key == key && y.channels[k].dec.iv == iv
  }

  /** Installing the same key material with opposite roles gives matched fresh channels both ways. */
  lemma InstalledChannelsMatch(c: Session, s: Session, km: KeyMaterial)
    requires c.keyId == s.keyId
    ensures var c', s', k := InstallKeys(c, km, false), InstallKeys(s, km, true), c.keyId;
            && Matched(c', s', k, km.clientWriteKey, km.clientIv)
            && Matched(s', c', k, km.serverWriteKey, km.serverIv)
            && c'.channels[k].enc == s'.channels[k].dec == Cipher(km.clientWriteKey, km.clientIv, 0, [])
            && s'.channels[k].enc == c'.channels[k].dec == Cipher(km.serverWriteKey, km.serverIv, 0, [])
  {
    hide V2Prefix;
  }

  // ---------------------------------------------------------------- runs

  /** What a session may do: data, control packets, and changes of keys. */
  datatype Act =
    | Encrypt(plain: seq<byte>)
    | Present(now: real, data: seq<byte>)
    | Send(now: real, timestamp: u32, opcode: OpCode, payload: seq<byte>)
    | Reset(now: real, timestamp: u32)
    | Acknowledge(timestamp: u32)
    | Resend(now: real, timestamp: u32, list: seq<(u32, seq<byte>)>)
    | Rotate
    | Install(km: KeyMaterial, isServer: bool)

  datatype Op = AtX(act: Act) | AtY(act: Act)

  ghost function Acted(env: Env, s: Session, act: Act): Session
    requires Correct(env.aead)
  {
    match act
    case Encrypt(plain) => EncryptData(env, s, plain).1
    case Present(now, data) => ProcessPacket(env, s, now, data).1
    case Send(now, timestamp, opcode, payload) => SendControl(env, s, now, timestamp, opcode, payload).1
    case Reset(now, timestamp) => SendClientReset(env, s, now, timestamp).1
    case Acknowledge(timestamp) => SendAcks(env, s, timestamp).1
    case Resend(now, timestamp, list) =>
      EmitResends(env, s.(sender := RetransmitStep(DEFAULT_CONFIG, s.sender, now)), timestamp, list).1
    case Rotate => RotateKey(s)
    case Install(km, isServer) => InstallKeys(s, km, isServer)
  }

  /** The two sessions, what `y` delivered under key id `k`, and the cipher operations in this direction. */
  datatype Path = Path(x: Session, y: Session, delivered: seq<seq<byte>>, ciphered: seq<CipherRuns.Op>)

  /** The data packet for key id `k` that a datagram holds, if any. */
  function DataFor(env: Env, y: Session, k: KeyId, data: seq<byte>): Option<DataPacket> {
    match Decode(env, y, data)
    case Err(_) => None
    case Ok(p) => if p.Data? && p.header.keyId == k then Some(DataPacket(k, p.peerId, p.payload)) else None
  }

  predicate Encrypts(x: Session, k: KeyId, act: Act) { act.Encrypt? && x.keyId == k && k in x.channels }

  predicate Decrypts(env: Env, y: Session, k: KeyId, act: Act) {
    act.Present? && k in y.channels && DataFor(env, y, k, act.data).Some?
  }

  predicate Reinstalls(s: Session, k: KeyId, act: Act) { act.Install? && s.keyId == k }

  ghost function Step(env: Env, k: KeyId, path: Path, op: Op): Path
    requires Correct(env.aead)
  {
    match op
    case AtX(act) =>
      Path(Acted(env, path.x, act), path.y, path.delivered,
           if Encrypts(path.x, k, act)
           then path.ciphered + [CipherRuns.Encrypt(act.plain, path.x.channels[k].encryptPrefix)] else path.ciphered)
    case AtY(act) =>
      var y' := Acted(env, path.y, act);
      if !Decrypts(env, path.y, k, act) then path.(y := y')
      else
        var p, r := DataFor(env, path.y, k, act.data).value, ProcessPacket(env, path.y, act.now, act.data).0;
        Path(path.x, y',
             if r.Ok? && r.value.DataOut? then path.delivered + [r.value.plain] else path.delivered,
             path.ciphered + [CipherRuns.Decrypt(p.payload, DecryptPrefix(p))])
  }

  ghost function Run(env: Env, k: KeyId, start: Path, ops: seq<Op>): Path
    requires Correct(env.aead)
  {
    if ops == [] then start else Step(env, k, Run(env, k, start, ops[..|ops| - 1]), ops[|ops| - 1])
  }

  /** Neither end installs keys for `k` again. */
  ghost predicate Lasting(env: Env, k: KeyId, start: Path, ops: seq<Op>)
    requires Correct(env.aead)
  {
    ops == [] ||
    var n := |ops| - 1;
    var before := Run(env, k, start, ops[..n]);
    && Lasting(env, k, start, ops[..n])
    && !Reinstalls(if ops[n].AtX? then before.x else before.y, k, ops[n].act)
  }

  function Plains(received: seq<CipherRuns.Receipt>): seq<seq<byte>> {
    if received == [] then [] else Plains(received[..|received| - 1]) + [received[|received| - 1].plain]
  }

  /** The channels and the deliveries are those of the cipher run. */
  ghost predicate Follows(env: Env, k: KeyId, key: Bytes32, iv: Nonce, path: Path)
    requires Correct(env.aead)
  {
    var w := CipherRuns.Run(env.aead, key, iv, path.ciphered);
    && Matched(path.x, path.y, k, key, iv)
    && path.x.channels[k].enc == w.enc && path.y.channels[k].dec == w.dec
    && path.delivered == Plains(w.received)
  }

  lemma CipherSnoc(aead: Aead, key: Bytes32, iv: Nonce, ops: seq<CipherRuns.Op>, op: CipherRuns.Op)
    requires Correct(aead)
    ensures CipherRuns.Run(aead, key, iv, ops + [op]) == CipherRuns.Step(aead, CipherRuns.Run(aead, key, iv, ops), op)
  {
    hide CipherRuns.Step, Correct;
    assert (ops + [op])[..|ops|] == ops;
  }

  // ---------------------------------------------------------------- what one act does to a channel

  lemma ControlKeepsChannels(s: Session, now: real, p: Packet)
    requires p.Control?
    ensures ProcessControl(s, now, p).1.channels == s.channels
  {
    hide Admits, AckStep, ReceiveStep, FeedOne;
  }

  lemma OtherPacketsKeepChannel(env: Env, y: Session, k: KeyId, now: real, data: seq<byte>)
    requires k in y.channels && DataFor(env, y, k, data).None?
    ensures var y' := ProcessPacket(env, y, now, data).1; k in y'.channels && y'.channels[k] == y.channels[k]
  {
    hide Decode, CheckReplay, ChannelDecrypt, ProcessControl;
    var d := Decode(env, y, data);
    if d.Ok? && d.value.Control? {
      ControlKeepsChannels(y, now, d.value);
    }
  }

  /** A data packet for key id `k` changes nothing but the decrypting cipher of that channel. */
  lemma PresentShape(env: Env, y: Session, k: KeyId, now: real, data: seq<byte>)
    requires k in y.channels && y.channels[k].keyId == k && DataFor(env, y, k, data).Some?
    ensures var p := DataFor(env, y, k, data).value;
            var (q, dec') := DecryptStep(env.aead, y.channels[k].dec, p.payload, DecryptPrefix(p));
            var (r, y') := ProcessPacket(env, y, now, data);
            && y'.channels == y.channels[k := y.channels[k].(dec := dec')]
            && (q.Ok? ==> r == Ok(DataOut(q.value))) && (q.Err? ==> r == Err(q.error))
  {
    hide Decode, DecryptStep, DecryptPrefix;
  }

  lemma {:induction false} ResendsKeepChannels(env: Env, s: Session, timestamp: u32, list: seq<(u32, seq<byte>)>)
    ensures EmitResends(env, s, timestamp, list).1.channels == s.channels
    decreases |list|
  {
    hide PacketBytes, Wrap, ControlPacket;
    if list != [] {
      var p := ControlPacket(s, ControlV1, [], Some(list[0].0), list[0].1);
      ResendsKeepChannels(env, Emit(env, s, timestamp, p).1, timestamp, list[1..]);
    }
  }

  /** Sending control packets and changing the current key id leave all channels as they are. */
  lemma ControlActsKeepChannels(env: Env, s: Session, act: Act)
    requires Correct(env.aead) && !act.Encrypt? && !act.Present? && !act.Install?
    ensures Acted(env, s, act).channels == s.channels
  {
    hide PacketBytes, Wrap, ControlPacket, SendStep, RetransmitStep, Correct;
    if act.Resend? {
      var bumped := s.(sender := RetransmitStep(DEFAULT_CONFIG, s.sender, act.now));
      ResendsKeepChannels(env, bumped, act.timestamp, act.list);
    }
  }

  /** Only a data packet for `k` changes the decrypting half of the channel for `k`, only an encryption
      under `k` the encrypting half. */
  lemma OtherActsKeepHalves(env: Env, s: Session, k: KeyId, act: Act)
    requires Correct(env.aead) && k in s.channels && s.channels[k].keyId == k && !Reinstalls(s, k, act)
    ensures var s' := Acted(env, s, act);
            && k in s'.channels
            && (!Encrypts(s, k, act) ==> s'.channels[k] == s.channels[k].(dec := s'.channels[k].dec))
            && (!Decrypts(env, s, k, act) ==> s'.channels[k] == s.channels[k].(enc := s'.channels[k].enc))
  {
    hide Correct, ProcessPacket, EncryptStep, DecryptStep, DecryptPrefix, NewChannel, DataFor;
    if act.Present? {
      if DataFor(env, s, k, act.data).Some? {
        PresentShape(env, s, k, act.now, act.data);
      } else {
        OtherPacketsKeepChannel(env, s, k, act.now, act.data);
      }
    } else if !act.Encrypt? && !act.Install? {
      hide Acted;
      ControlActsKeepChannels(env, s, act);
    }
  }

  /** Data without keys: a session encrypts exactly if it has a channel for its current key id and packet ids
      are left, and rejects data packets for key ids without a channel. */
  lemma WithoutKeys(env: Env, s: Session, plain: seq<byte>, now: real, data: seq<byte>)
    requires Correct(env.aead)
    ensures EncryptData(env, s, plain).0.Ok?
            <==> s.keyId in s.channels && s.channels[s.keyId].enc.txCounter < 0xFFFF_FFFF
    ensures s.keyId !in s.channels ==> EncryptData(env, s, plain) == (Err(KeyNotAvailable(s.keyId)), s)
    ensures var d := Decode(env, s, data);
            d.Ok? && d.value.Data? && d.value.header.keyId !in s.channels ==>
              ProcessPacket(env, s, now, data) == (Err(KeyNotAvailable(d.value.header.keyId)), s)
  {
    hide Decode, Correct, DataBytes, TagFirst, BuildNonce, Aad;
  }

  // ---------------------------------------------------------------- runs follow the cipher run

  lemma EncryptFollows(env: Env, k: KeyId, key: Bytes32, iv: Nonce, path: Path, act: Act)
    requires Correct(env.aead) && Follows(env, k, key, iv, path) && Encrypts(path.x, k, act)
    ensures Follows(env, k, key, iv, Step(env, k, path, AtX(act)))
  {
    CipherSnoc(env.aead, key, iv, path.ciphered, CipherRuns.Encrypt(act.plain, path.x.channels[k].encryptPrefix));
    hide CipherRuns.Run, Correct, BuildNonce, TagFirst, V2Prefix, DataBytes, Aad, Plains;
  }

  lemma PlainsSnoc(received: seq<CipherRuns.Receipt>, r: CipherRuns.Receipt)
    ensures Plains(received + [r]) == Plains(received) + [r.plain]
  {
    assert (received + [r])[..|received|] == received;
  }

  lemma DecryptKeepsKey(aead: Aead, c: Cipher, packet: seq<byte>, ad: seq<byte>)
    ensures var (r, c') := DecryptStep(aead, c, packet, ad);
            c'.key == c.key && c'.iv == c.iv && (r.Ok? ==> |packet| >= PACKET_ID_SIZE)
  {
    hide OpenEither, Admits, PacketId;
  }

  lemma DecryptFollows(env: Env, k: KeyId, key: Bytes32, iv: Nonce, path: Path, act: Act)
    requires Correct(env.aead) && Follows(env, k, key, iv, path) && Decrypts(env, path.y, k, act)
    ensures Follows(env, k, key, iv, Step(env, k, path, AtY(act)))
  {
    hide CipherRuns.Run, Correct, ProcessPacket, DataFor, DecryptStep, DecryptPrefix, Installed, Plains, PacketId;
    var p := DataFor(env, path.y, k, act.data).value;
    var ad := DecryptPrefix(p);
    CipherSnoc(env.aead, key, iv, path.ciphered, CipherRuns.Decrypt(p.payload, ad));
    PresentShape(env, path.y, k, act.now, act.data);
    DecryptKeepsKey(env.aead, path.y.channels[k].dec, p.payload, ad);
    var w := CipherRuns.Run(env.aead, key, iv, path.ciphered);
    var q := DecryptStep(env.aead, w.dec, p.payload, ad).0;
    if q.Ok? {
      PlainsSnoc(w.received, CipherRuns.Receipt(PacketId(p.payload), ad, q.value));
    }
  }

  lemma StepFollows(env: Env, k: KeyId, key: Bytes32, iv: Nonce, path: Path, op: Op)
    requires Correct(env.aead) && Follows(env, k, key, iv, path)
    requires !Reinstalls(if op.AtX? then path.x else path.y, k, op.act)
    ensures Follows(env, k, key, iv, Step(env, k, path, op))
  {
    hide CipherRuns.Run, Correct, Acted, Plains, Encrypts, Decrypts, Reinstalls;
    OtherActsKeepHalves(env, if op.AtX? then path.x else path.y, k, op.act);
    if op.AtX? && Encrypts(path.x, k, op.act) {
      EncryptFollows(env, k, key, iv, path, op.act);
    } else if op.AtY? && Decrypts(env, path.y, k, op.act) {
      DecryptFollows(env, k, key, iv, path, op.act);
    }
  }

  lemma {:induction false} RunFollows(env: Env, k: KeyId, key: Bytes32, iv: Nonce, start: Path, ops: seq<Op>)
    requires Correct(env.aead) && Follows(env, k, key, iv, start) && Lasting(env, k, start, ops)
    ensures Follows(env, k, key, iv, Run(env, k, start, ops))
  {
    hide Follows, Step, Correct, Reinstalls;
    if ops != [] {
      var n := |ops| - 1;
      RunFollows(env, k, key, iv, start, ops[..n]);
      StepFollows(env, k, key, iv, Run(env, k, start, ops[..n]), ops[n]);
    }
  }

  /** Every plaintext `y` delivers under the key is one `x` encrypted: the i-th delivery is the plaintext
      of the encryption numbered `ids[i]`, and no encryption is delivered twice. */
  ghost predicate DeliversIssued(delivered: seq<seq<byte>>, issued: seq<CipherRuns.Issue>, ids: seq<u32>) {
    && |ids| == |delivered|
    && (forall i | 0 <= i < |ids| :: 1 <= ids[i] <= |issued| && delivered[i] == issued[ids[i] - 1].plain)
    && (forall i, j | 0 <= i < j < |ids| :: ids[i] != ids[j])
  }

  lemma {:induction false} PlainsAt(received: seq<CipherRuns.Receipt>)
    ensures |Plains(received)| == |received|
    ensures forall i | 0 <= i < |received| :: Plains(received)[i] == received[i].plain
  {
    if received != [] {
      PlainsAt(received[..|received| - 1]);
    }
  }

  /** Over every run of the two sessions in which the AEAD is not forged, while the key is installed, with
      both ends encrypting, receiving any datagrams at all, sending control packets and rotating keys: what
      `y` delivers is what `x` encrypted, each at most once. */
  lemma DeliversOnlyEncrypted(env: Env, k: KeyId, key: Bytes32, iv: Nonce, start: Path, ops: seq<Op>)
    requires Correct(env.aead) && Follows(env, k, key, iv, start) && Lasting(env, k, start, ops)
    requires CipherRuns.IdealRun(env.aead, key, iv, Run(env, k, start, ops).ciphered)
    ensures var path := Run(env, k, start, ops);
            exists ids :: DeliversIssued(path.delivered, CipherRuns.Run(env.aead, key, iv, path.ciphered).issued, ids)
  {
    var path := Run(env, k, start, ops);
    RunFollows(env, k, key, iv, start, ops);
    var w := CipherRuns.Run(env.aead, key, iv, path.ciphered);
    CipherRuns.DecryptsExactlyTheIssued(env.aead, key, iv, path.ciphered);
    hide Run, Lasting, Correct, CipherRuns.Run, CipherRuns.IdealRun;
    ReceiptsDeliver(w);
  }

  lemma ReceiptsDeliver(w: CipherRuns.World)
    requires CipherRuns.ReceivedOnce(w)
    ensures exists ids :: DeliversIssued(Plains(w.received), w.issued, ids)
  {
    hide Plains;
    PlainsAt(w.received);
    var ids: seq<u32> := seq(|w.received|, i requires 0 <= i < |w.received| => w.received[i].id);
    assert DeliversIssued(Plains(w.received), w.issued, ids);
  }

  lemma DecodeData(env: Env, y: Session, p: DataPacket)
    ensures var d := Decode(env, y, DataBytes(p));
            && d.Ok? && d.value.Data? && d.value.header.keyId == p.keyId
            && DataPacket(p.keyId, d.value.peerId, d.value.payload) == AsReceived(p)
  {
    DataBytesParse(p, y.auth.Some?);
    var op := if p.peerId.Some? then DataV2 else DataV1;
    OpCodeByteIff(DataBytes(p)[0], op, p.keyId);
    hide DataBytes, ParsePacket;
  }

  /** The packet of the next encryption opens only as what it is. */
  ghost predicate NextNotForged(env: Env, k: KeyId, key: Bytes32, iv: Nonce, path: Path, plain: seq<byte>)
    requires Correct(env.aead) && k in path.x.channels && path.x.channels[k].enc.txCounter + 1 < U32_LIMIT
  {
    var ch := path.x.channels[k];
    var w := CipherRuns.Step(env.aead, CipherRuns.Run(env.aead, key, iv, path.ciphered),
                             CipherRuns.Encrypt(plain, ch.encryptPrefix));
    CipherRuns.NotForged(env.aead, w, EncryptStep(env.aead, ch.enc, plain, ch.encryptPrefix).0.value, ch.encryptPrefix)
  }

  /** The bytes of the next encryption. */
  lemma EncryptedBytes(env: Env, x: Session, k: KeyId, plain: seq<byte>)
    requires Correct(env.aead) && x.keyId == k && k in x.channels && x.channels[k].enc.txCounter + 1 < U32_LIMIT
    ensures var ch := x.channels[k];
            var sealed := EncryptStep(env.aead, ch.enc, plain, ch.encryptPrefix).0;
            && sealed.Ok?
            && EncryptData(env, x, plain).0
               == Ok(DataBytes(DataPacket(ch.keyId, if ch.useV2 then ch.peerId else None, sealed.value)))
  {
    hide Correct, TagFirst, BuildNonce, Aad, DataBytes;
  }

  /** The next encryption decrypts to its plaintext exactly if the replay window admits its id. */
  lemma NextDecrypts(aead: Aead, key: Bytes32, iv: Nonce, ciphered: seq<CipherRuns.Op>, plain: seq<byte>, ad: seq<byte>)
    requires Correct(aead)
    requires var w := CipherRuns.Run(aead, key, iv, ciphered);
             && w.enc.txCounter + 1 < U32_LIMIT && w.dec.key == key && w.dec.iv == iv
             && CipherRuns.NotForged(aead, CipherRuns.Step(aead, w, CipherRuns.Encrypt(plain, ad)),
                                     EncryptStep(aead, w.enc, plain, ad).0.value, ad)
    ensures var w := CipherRuns.Run(aead, key, iv, ciphered);
            DecryptStep(aead, w.dec, EncryptStep(aead, w.enc, plain, ad).0.value, ad).0
            == if Admits(DATA_WINDOW, w.dec.arrivals, w.enc.txCounter + 1) then Ok(plain) else Err(ReplayDetected)
  {
    hide CipherRuns.NotForged, Correct, TagFirst, BuildNonce, Aad, DecryptStep, Admits;
    var op := CipherRuns.Encrypt(plain, ad);
    CipherSnoc(aead, key, iv, ciphered, op);
    CipherRuns.IssuesAreNumbered(aead, key, iv, ciphered + [op]);
    hide CipherRuns.Run, CipherRuns.Step, EncryptStep;
    var before := CipherRuns.Run(aead, key, iv, ciphered);
    EncryptIssues(aead, before, plain, ad);
    var w := CipherRuns.Step(aead, before, op);
    CipherRuns.GenuineDecryptsIff(aead, key, iv, w, |before.issued|);
  }

  /** An encryption issues one packet, which is the one it returns. */
  lemma EncryptIssues(aead: Aead, w: CipherRuns.World, plain: seq<byte>, ad: seq<byte>)
    requires Correct(aead) && w.enc.txCounter + 1 < U32_LIMIT
    ensures var r, w' := EncryptStep(aead, w.enc, plain, ad).0, CipherRuns.Step(aead, w, CipherRuns.Encrypt(plain, ad));
            && r.Ok? && w'.dec == w.dec && |w'.issued| == |w.issued| + 1
            && var i := w'.issued[|w.issued|];
               && i.id == w.enc.txCounter + 1 && i.plain == plain && i.adPrefix == ad && |i.sealed| >= TAG_SIZE
               && r.value == TagFirst(i.id, i.sealed)
  {
    var id := w.enc.txCounter + 1;
    SealedLength(aead, w.enc.key, BuildNonce(w.enc.iv, id), plain, Aad(ad, id));
    hide Correct, TagFirst, BuildNonce, Aad;
  }

  /** And what `x` encrypts gets through: presented to `y`, the bytes `encrypt_data` returned give the
      plaintext exactly when the replay window admits the packet's id, in either packet version. */
  lemma EncryptedIsDelivered(env: Env, k: KeyId, key: Bytes32, iv: Nonce, path: Path, plain: seq<byte>, now: real)
    requires Correct(env.aead) && Follows(env, k, key, iv, path) && path.x.keyId == k
    requires path.x.channels[k].enc.txCounter + 1 < U32_LIMIT
    requires NextNotForged(env, k, key, iv, path, plain)
    ensures var sent := EncryptData(env, path.x, plain).0;
            && sent.Ok?
            && ProcessPacket(env, path.y, now, sent.value).0
               == if Admits(128, path.y.channels[k].dec.arrivals, path.x.channels[k].enc.txCounter + 1)
                  then Ok(DataOut(plain)) else Err(ReplayDetected)
  {
    hide CipherRuns.Run, CipherRuns.Step, Correct, DataBytes, Plains, ProcessPacket, EncryptData, EncryptStep, DecryptStep,
         CipherRuns.NotForged, Admits, Installed, Decode;
    var ch := path.x.channels[k];
    EncryptedBytes(env, path.x, k, plain);
    var p := DataPacket(k, if ch.useV2 then ch.peerId else None,
                        EncryptStep(env.aead, ch.enc, plain, ch.encryptPrefix).0.value);
    NextDecrypts(env.aead, key, iv, path.ciphered, plain, ch.encryptPrefix);
    PrefixesMatch(ch, p.payload);
    DecodeData(env, path.y, p);
    PresentShape(env, path.y, k, now, DataBytes(p));
  }

  // ---------------------------------------------------------------- both directions

  function Back(path: Path): Path { Path(path.y, path.x, [], []) }

  function Mirrored(ops: seq<Op>): seq<Op> {
    seq(|ops|, i requires 0 <= i < |ops| => if ops[i].AtX? then AtY(ops[i].act) else AtX(ops[i].act))
  }

  /** One run seen from the two directions: the same sessions, with the roles exchanged. */
  lemma {:induction false} MirroredRun(env: Env, k: KeyId, start: Path, ops: seq<Op>)
    requires Correct(env.aead)
    ensures var forth, back := Run(env, k, start, ops), Run(env, k, Back(start), Mirrored(ops));
            back.x == forth.y && back.y == forth.x
    ensures Lasting(env, k, start, ops) ==> Lasting(env, k, Back(start), Mirrored(ops))
  {
    hide Correct, Acted, Encrypts, Decrypts, Reinstalls;
    if ops != [] {
      var n := |ops| - 1;
      MirroredRun(env, k, start, ops[..n]);
      assert Mirrored(ops)[..n] == Mirrored(ops[..n]);
    }
  }

  /** So in one and the same run each end delivers only what the other encrypted, each at most once. */
  lemma DeliversBothWays(env: Env, k: KeyId, key: Bytes32, iv: Nonce, backKey: Bytes32, backIv: Nonce,
                         start: Path, ops: seq<Op>)
    requires Correct(env.aead) && Lasting(env, k, start, ops)
    requires Follows(env, k, key, iv, start) && Follows(env, k, backKey, backIv, Back(start))
    requires CipherRuns.IdealRun(env.aead, key, iv, Run(env, k, start, ops).ciphered)
    requires CipherRuns.IdealRun(env.aead, backKey, backIv, Run(env, k, Back(start), Mirrored(ops)).ciphered)
    ensures var forth, back := Run(env, k, start, ops), Run(env, k, Back(start), Mirrored(ops));
            && back.x == forth.y && back.y == forth.x
            && (exists ids ::
                  DeliversIssued(forth.delivered, CipherRuns.Run(env.aead, key, iv, forth.ciphered).issued, ids))
            && (exists ids ::
                  DeliversIssued(back.delivered, CipherRuns.Run(env.aead, backKey, backIv, back.ciphered).issued, ids))
  {
    hide Run, Lasting, Follows, Correct, CipherRuns.Run, CipherRuns.IdealRun, DeliversIssued, Mirrored, Back;
    MirroredRun(env, k, start, ops);
    DeliversOnlyEncrypted(env, k, key, iv, start, ops);
    DeliversOnlyEncrypted(env, k, backKey, backIv, Back(start), Mirrored(ops));
  }

  /** Installing key material on both sides starts a path in each direction. */
  lemma InstalledPathsFollow(env: Env, c: Session, s: Session, km: KeyMaterial)
    requires Correct(env.aead) && c.keyId == s.keyId
    ensures var c', s', k := InstallKeys(c, km, false), InstallKeys(s, km, true), c.keyId;
            && Follows(env, k, km.clientWriteKey, km.clientIv, Path(c', s', [], []))
            && Follows(env, k, km.serverWriteKey, km.serverIv, Path(s', c', [], []))
  {
    InstalledChannelsMatch(c, s, km);
    hide InstallKeys, Correct, Matched;
  }
}
