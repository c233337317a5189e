/** Key derivation on the two sides of a connection, from the key-method messages they exchange. */
module KeyAgreement {
  import opened Common
  import opened OpCodes
  import opened PacketCiphers
  import opened KeyDerivation
  import opened KeyMethods
  import opened SessionSteps
  import opened DataPath
  import opened ReplayProtection
  import CipherRuns
  import ControlChannel
  import Handshakes

  function Ascii(s: string): seq<byte> {
    seq(|s|, i requires 0 <= i < |s| => s[i] as int % 256)
  }

  /** The two MACs under the PRF, with their output lengths. */
  datatype Macs = Macs(md5: Hmac, md5Length: nat, sha1: Hmac, sha1Length: nat)

  ghost predicate ValidMacs(m: Macs) {
    FixedLength(m.md5, m.md5Length) && FixedLength(m.sha1, m.sha1Length)
  }

  /** Everything the key expansion depends on. */
  datatype Inputs = Inputs(
    preMaster: PreMaster,
    clientRandom1: Bytes32,
    serverRandom1: Bytes32,
    clientRandom2: Bytes32,
    serverRandom2: Bytes32,
    clientId: SessionId,
    serverId: SessionId)

  ghost predicate IsMaster(m: Macs, x: Inputs, master: seq<byte>) {
    IsPrf(m.md5, m.sha1, x.preMaster, Ascii("OpenVPN master secret"), x.clientRandom1 + x.serverRandom1, 48, master)
  }

  ghost predicate IsKeyBlock(m: Macs, x: Inputs, master: seq<byte>, block: seq<byte>) {
    IsPrf(m.md5, m.sha1, master, Ascii("OpenVPN key expansion"),
          x.clientRandom2 + x.serverRandom2 + x.clientId + x.serverId, 256, block)
  }

  /** The key material the two-step PRF gives for these inputs. */
  ghost predicate Derives(m: Macs, x: Inputs, km: KeyMaterial) {
    exists master, block ::
      IsMaster(m, x, master) && IsKeyBlock(m, x, master, block) && |block| == 256 && km == FromKey2Block(block)
  }

  /** The derivation is a function of its inputs. */
  lemma DerivesUnique(m: Macs, x: Inputs, km: KeyMaterial, km': KeyMaterial)
    requires Derives(m, x, km) && Derives(m, x, km')
    ensures km == km'
  {
    hide IsPrf, Ascii, FromKey2Block;
    var master, block :| IsMaster(m, x, master) && IsKeyBlock(m, x, master, block) && |block| == 256 && km == FromKey2Block(block);
    var master', block' :| IsMaster(m, x, master') && IsKeyBlock(m, x, master', block') && |block'| == 256 && km' == FromKey2Block(block');
    PrfPrefix(m.md5, m.sha1, x.preMaster, Ascii("OpenVPN master secret"), x.clientRandom1 + x.serverRandom1, 48, 48, master, master');
    PrfLength(m, x, master');
    assert master'[..48] == master';
    PrfPrefix(m.md5, m.sha1, master, Ascii("OpenVPN key expansion"),
              x.clientRandom2 + x.serverRandom2 + x.clientId + x.serverId, 256, 256, block, block');
    assert block'[..256] == block';
  }

  lemma PrfLength(m: Macs, x: Inputs, master: seq<byte>)
    requires IsMaster(m, x, master)
    ensures |master| == 48
  {
  }

  method Derive(m: Macs, x: Inputs) returns (km: KeyMaterial)
    requires ValidMacs(m)
    ensures Derives(m, x, km)
  {
    var master := OpenVpnPrf(m.md5, m.md5Length, m.sha1, m.sha1Length,
                             x.preMaster, Ascii("OpenVPN master secret"), x.clientRandom1 + x.serverRandom1, 48);
    var block := OpenVpnPrf(m.md5, m.md5Length, m.sha1, m.sha1Length,
                            master, Ascii("OpenVPN key expansion"),
                            x.clientRandom2 + x.serverRandom2 + x.clientId + x.serverId, 256);
    assert IsMaster(m, x, master) && IsKeyBlock(m, x, master, block);
    km := FromKey2Block(block);
  }

  /** What the client feeds in: its own secrets, the server's randoms, its own id as the client's. */
  function ClientInputs(s: Session, own: KeyMethod, fromServer: KeyMethod): Option<Inputs> {
    if s.remoteId.None? then None
    else Some(Inputs(own.preMaster, own.random1, fromServer.random1, own.random2, fromServer.random2,
                     s.localId, s.remoteId.value))
  }

  /** What the server feeds in: the client's secrets, its own randoms, its own id as the server's. A
      missing remote id is taken as zeros. */
  function ServerInputs(s: Session, fromClient: KeyMethod, own: KeyMethod): Inputs {
    Inputs(fromClient.preMaster, fromClient.random1, own.random1, fromClient.random2, own.random2,
           if s.remoteId.Some? then s.remoteId.value else ZERO_ID, s.localId)
  }

  method ClientDerive(m: Macs, s: Session, own: KeyMethod, fromServer: KeyMethod) returns (r: Option<KeyMaterial>)
    requires ValidMacs(m)
    ensures r.Some? <==> s.remoteId.Some?
    ensures r.Some? ==> Derives(m, ClientInputs(s, own, fromServer).value, r.value)
  {
    if s.remoteId.None? {
      return None;
    }
    var km := Derive(m, Inputs(own.preMaster, own.random1, fromServer.random1, own.random2, fromServer.random2,
                               s.localId, s.remoteId.value));
    return Some(km);
  }

  method ServerDerive(m: Macs, s: Session, fromClient: KeyMethod, own: KeyMethod) returns (km: KeyMaterial)
    requires ValidMacs(m)
    ensures Derives(m, ServerInputs(s, fromClient, own), km)
  {
    km := Derive(m, ServerInputs(s, fromClient, own));
  }

  /** Each side knows the other's session id; what each read begins with the fixed part of the other's
      message, and was accepted; and each derived keys from its own message and what it read. The strings
      of the messages may come through changed or cut short. */
  ghost predicate Exchanged(m: Macs, c: Session, s: Session, clientKm: KeyMethod, serverKm: KeyMethod,
                            atServer: seq<byte>, atClient: seq<byte>, serverKeys: KeyMaterial, clientKeys: KeyMaterial)
  {
    && c.remoteId == Some(s.localId) && s.remoteId == Some(c.localId) && c.keyId == s.keyId
    && Received(clientKm, serverKm, atServer, atClient)
    && Derives(m, ClientInputs(c, clientKm, ParseServer(atClient).value).value, clientKeys)
    && Derives(m, ServerInputs(s, ParseClient(atServer).value, serverKm), serverKeys)
  }

  ghost predicate Received(clientKm: KeyMethod, serverKm: KeyMethod, atServer: seq<byte>, atClient: seq<byte>) {
    && KeySource(clientKm, false) <= atServer && ParseClient(atServer).Ok?
    && KeySource(serverKm, true) <= atClient && ParseServer(atClient).Ok?
  }

  /** Then both derive the same key material, and installing it starts a data path in each direction. */
  lemma BothSidesAgree(m: Macs, env: Env, c: Session, s: Session, clientKm: KeyMethod, serverKm: KeyMethod,
                       atServer: seq<byte>, atClient: seq<byte>, serverKeys: KeyMaterial, clientKeys: KeyMaterial)
    requires Correct(env.aead) && Exchanged(m, c, s, clientKm, serverKm, atServer, atClient, serverKeys, clientKeys)
    ensures clientKeys == serverKeys
    ensures var c', s', k := InstallKeys(c, clientKeys, false), InstallKeys(s, serverKeys, true), c.keyId;
            && Follows(env, k, clientKeys.clientWriteKey, clientKeys.clientIv, Path(c', s', [], []))
            && Follows(env, k, clientKeys.serverWriteKey, clientKeys.serverIv, Path(s', c', [], []))
  {
    ClientSecretsSurvive(clientKm, atServer);
    ServerRandomsSurvive(serverKm, atClient);
    hide KeySource, ParseClient, ParseServer, Derives, InstallKeys, Follows, Correct;
    DerivesUnique(m, ServerInputs(s, ParseClient(atServer).value, serverKm), clientKeys, serverKeys);
    InstalledPathsFollow(env, c, s, clientKeys);
  }

  // ---------------------------------------------------------------- the keys, from the wire

  const MASTER_LABEL: seq<byte> :=
    [79, 112, 101, 110, 86, 80, 78, 32, 109, 97, 115, 116, 101, 114, 32, 115, 101, 99, 114, 101, 116]
  const EXPANSION_LABEL: seq<byte> :=
    [79, 112, 101, 110, 86, 80, 78, 32, 107, 101, 121, 32, 101, 120, 112, 97, 110, 115, 105, 111, 110]

  lemma Labels()
    ensures Ascii("OpenVPN master secret") == MASTER_LABEL
    ensures Ascii("OpenVPN key expansion") == EXPANSION_LABEL
  {
  }

  /** The key block, from the plaintexts that crossed and the two session ids: the client's secret, then both
      first randoms, then both second randoms and both ids, the client's before the server's each time. */
  ghost predicate BlockFromWire(m: Macs, atServer: seq<byte>, atClient: seq<byte>, clientId: SessionId, serverId: SessionId,
                                block: seq<byte>)
    requires |atServer| >= 117 && |atClient| >= 69
  {
    exists master ::
      && IsPrf(m.md5, m.sha1, atServer[5..53], MASTER_LABEL, atServer[53..85] + atClient[5..37], 48, master)
      && IsPrf(m.md5, m.sha1, master, EXPANSION_LABEL,
               atServer[85..117] + atClient[37..69] + clientId + serverId, 256, block)
  }

  lemma DerivedFromWire(m: Macs, s: Session, serverKm: KeyMethod, atServer: seq<byte>, atClient: seq<byte>, km: KeyMaterial)
    returns (block: seq<byte>)
    requires ParseClient(atServer).Ok? && ParseServer(atClient).Ok? && s.remoteId.Some?
    requires ParseServer(atClient).value.random1 == serverKm.random1 && ParseServer(atClient).value.random2 == serverKm.random2
    requires Derives(m, ServerInputs(s, ParseClient(atServer).value, serverKm), km)
    ensures |atServer| >= 117 && |atClient| >= 69 && |block| == 256 && km == FromKey2Block(block)
    ensures BlockFromWire(m, atServer, atClient, s.remoteId.value, s.localId, block)
  {
    Labels();
    hide IsPrf, Ascii, FromKey2Block, ReadStrings, ReadString;
    var x := ServerInputs(s, ParseClient(atServer).value, serverKm);
    var master, b :| IsMaster(m, x, master) && IsKeyBlock(m, x, master, b) && |b| == 256 && km == FromKey2Block(b);
    block := b;
  }

  /** `x` encrypts for `y`, from a fresh counter and an empty window, with the first 32 bytes of a half of the
      block, and the IV is four zeros and the 8 bytes in the middle of that half. */
  predicate KeyedBy(x: Session, y: Session, k: KeyId, half: seq<byte>)
    requires |half| == 128
  {
    && k in x.channels && k in y.channels
    && x.channels[k].enc == y.channels[k].dec == Cipher(half[..32], [0, 0, 0, 0] + half[64..72], 0, [])
  }

  /** The channels the two sides install are those of the key block derived from what crossed the wire: the
      client-to-server direction uses its first half, the other direction its second. */
  lemma InstalledFromWire(m: Macs, env: Env, c: Session, s: Session, clientKm: KeyMethod, serverKm: KeyMethod,
                          atServer: seq<byte>, atClient: seq<byte>, serverKeys: KeyMaterial, clientKeys: KeyMaterial)
    returns (block: seq<byte>)
    requires Correct(env.aead) && Exchanged(m, c, s, clientKm, serverKm, atServer, atClient, serverKeys, clientKeys)
    ensures |atServer| >= 117 && |atClient| >= 69 && |block| == 256
    ensures BlockFromWire(m, atServer, atClient, c.localId, s.localId, block)
    ensures var c', s', k := InstallKeys(c, clientKeys, false), InstallKeys(s, serverKeys, true), c.keyId;
            KeyedBy(c', s', k, block[..128]) && KeyedBy(s', c', k, block[128..])
  {
    hide KeySource, ParseClient, ParseServer, Derives, InstallKeys, Follows, Correct, BlockFromWire, FromKey2Block,
         ClientInputs, ServerInputs;
    BothSidesAgree(m, env, c, s, clientKm, serverKm, atServer, atClient, serverKeys, clientKeys);
    ServerRandomsSurvive(serverKm, atClient);
    block := DerivedFromWire(m, s, serverKm, atServer, atClient, serverKeys);
    MaterialOf(block);
    InstalledChannelsMatch(c, s, serverKeys);
    assert block[..128][..32] == block[..32] && block[..128][64..72] == block[64..72];
    assert block[128..][..32] == block[128..160] && block[128..][64..72] == block[192..200];
  }

  lemma MaterialOf(block: seq<byte>)
    requires |block| == 256
    ensures FromKey2Block(block)
            == KeyMaterial(block[..32], block[128..160], [0, 0, 0, 0] + block[64..72], [0, 0, 0, 0] + block[192..200])
  {
    hide FromKey2Block;
    assert block == block[..64] + block[64..128] + block[128..192] + block[192..];
    Key2Parts(block[..64], block[64..128], block[128..192], block[192..]);
    assert block[..64][..32] == block[..32] && block[64..128][..8] == block[64..72];
    assert block[128..192][..32] == block[128..160] && block[192..][..8] == block[192..200];
  }

  // ---------------------------------------------------------------- ids from the control channel

  /** Two fresh ends that each let a hard reset of the other through know each other's session ids, so from
      there the key exchange needs nothing but the messages: both derive the same keys, and installing them
      starts a data path in each direction. */
  lemma IntroducedEndsAgree(m: Macs, env: Env, w: ControlChannel.World, evs: seq<ControlChannel.Event>,
                            clientKm: KeyMethod, serverKm: KeyMethod, atServer: seq<byte>, atClient: seq<byte>,
                            serverKeys: KeyMaterial, clientKeys: KeyMaterial)
    requires Correct(env.aead)
    requires ControlChannel.Fresh(w) && ControlChannel.PossibleRun(env, w, evs) && |evs| + 1 < U32_LIMIT
    requires Handshakes.Introduced(env, w, evs, true) && Handshakes.Introduced(env, w, evs, false)
    requires Received(clientKm, serverKm, atServer, atClient)
    requires var c, s := ControlChannel.Run(env, w, evs).a.s, ControlChannel.Run(env, w, evs).b.s;
             && c.keyId == s.keyId
             && (c.remoteId.Some? ==> Derives(m, ClientInputs(c, clientKm, ParseServer(atClient).value).value, clientKeys))
             && Derives(m, ServerInputs(s, ParseClient(atServer).value, serverKm), serverKeys)
    ensures var c, s := ControlChannel.Run(env, w, evs).a.s, ControlChannel.Run(env, w, evs).b.s;
            && c.localId == w.a.s.localId && s.localId == w.b.s.localId
            && Exchanged(m, c, s, clientKm, serverKm, atServer, atClient, serverKeys, clientKeys)
    ensures clientKeys == serverKeys
  {
    hide ControlChannel.Run, ControlChannel.Fresh, ControlChannel.PossibleRun, Handshakes.Introduced, Received, Derives,
         ClientInputs, ServerInputs, Correct, ParseClient, ParseServer;
    Handshakes.PeerIdExact(env, w, evs, true);
    Handshakes.PeerIdExact(env, w, evs, false);
    var c, s := ControlChannel.Run(env, w, evs).a.s, ControlChannel.Run(env, w, evs).b.s;
    BothSidesAgree(m, env, c, s, clientKm, serverKm, atServer, atClient, serverKeys, clientKeys);
  }

  /** The path from the client to the server, or back, right after both installed their keys. */
  function StartPath(c: Session, s: Session, clientKeys: KeyMaterial, serverKeys: KeyMaterial, fromClient: bool): Path {
    var c', s' := InstallKeys(c, clientKeys, false), InstallKeys(s, serverKeys, true);
    if fromClient then Path(c', s', [], []) else Path(s', c', [], [])
  }

  function PathKey(km: KeyMaterial, fromClient: bool): Bytes32 {
    if fromClient then km.clientWriteKey else km.serverWriteKey
  }

  function PathIv(km: KeyMaterial, fromClient: bool): Nonce {
    if fromClient then km.clientIv else km.serverIv
  }

  /** From the exchanged messages to delivered data, in either direction and over every run of both
      sessions until keys are installed again, with an AEAD that is not forged: what one side delivers is
      what the other encrypted, each at most once; and what it encrypts next under this key is delivered
      exactly if the replay window admits its id, as it does when all ids presented before are lower. */
  lemma AgreedKeysCarryData(m: Macs, env: Env, c: Session, s: Session, clientKm: KeyMethod, serverKm: KeyMethod,
                            atServer: seq<byte>, atClient: seq<byte>, serverKeys: KeyMaterial, clientKeys: KeyMaterial,
                            fromClient: bool, ops: seq<Op>, plain: seq<byte>, now: real)
    requires Correct(env.aead) && Exchanged(m, c, s, clientKm, serverKm, atServer, atClient, serverKeys, clientKeys)
    requires Lasting(env, c.keyId, StartPath(c, s, clientKeys, serverKeys, fromClient), ops)
    ensures var k, key, iv := c.keyId, PathKey(clientKeys, fromClient), PathIv(clientKeys, fromClient);
            var start := StartPath(c, s, clientKeys, serverKeys, fromClient);
            && var path := DataPath.Run(env, k, start, ops);
               && Follows(env, k, key, iv, path)
               && (CipherRuns.IdealRun(env.aead, key, iv, path.ciphered) ==>
                     exists ids ::
                       DeliversIssued(path.delivered, CipherRuns.Run(env.aead, key, iv, path.ciphered).issued, ids))
               && (path.x.keyId == k && path.x.channels[k].enc.txCounter + 1 < U32_LIMIT && NextNotForged(env, k, key, iv, path, plain) ==>
                     NextArrives(env, k, path, plain, now))
  {
    hide Follows, InstallKeys, Correct, DataPath.Run, Lasting, NextNotForged, NextArrives, CipherRuns.IdealRun, DeliversIssued, Exchanged;
    BothSidesAgree(m, env, c, s, clientKm, serverKm, atServer, atClient, serverKeys, clientKeys);
    var k, key, iv := c.keyId, PathKey(clientKeys, fromClient), PathIv(clientKeys, fromClient);
    var start := StartPath(c, s, clientKeys, serverKeys, fromClient);
    var path := DataPath.Run(env, k, start, ops);
    RunFollows(env, k, key, iv, start, ops);
    if CipherRuns.IdealRun(env.aead, key, iv, path.ciphered) {
      DeliversOnlyEncrypted(env, k, key, iv, start, ops);
    }
    NextArrivesNow(env, k, key, iv, path, plain, now);
  }

  /** Presented at once, the next packet gives its plaintext exactly if the window admits it. */
  ghost predicate NextArrives(env: Env, k: KeyId, path: Path, plain: seq<byte>, now: real)
    requires Correct(env.aead) && k in path.x.channels && k in path.y.channels
  {
    var sent, arrivals, id := EncryptData(env, path.x, plain).0, path.y.channels[k].dec.arrivals, path.x.channels[k].enc.txCounter + 1;
    && sent.Ok?
    && ProcessPacket(env, path.y, now, sent.value).0
       == (if Admits(128, arrivals, id) then Ok(DataOut(plain)) else Err(ReplayDetected))
    && ((forall a | a in arrivals :: a < id) ==> ProcessPacket(env, path.y, now, sent.value).0 == Ok(DataOut(plain)))
  }

  lemma HighestIsAdmitted(arrivals: seq<nat>, id: nat)
    ensures id > 0 && (forall a | a in arrivals :: a < id) ==> Admits(128, arrivals, id)
  {
  }

  lemma NextArrivesNow(env: Env, k: KeyId, key: Bytes32, iv: Nonce, path: Path, plain: seq<byte>, now: real)
    requires Correct(env.aead) && Follows(env, k, key, iv, path)
    ensures path.x.keyId == k && path.x.channels[k].enc.txCounter + 1 < U32_LIMIT && NextNotForged(env, k, key, iv, path, plain) ==>
              NextArrives(env, k, path, plain, now)
  {
    hide Correct, NextNotForged, EncryptData, ProcessPacket, Admits, CipherRuns.Run, Plains;
    var arrivals, id := path.y.channels[k].dec.arrivals, path.x.channels[k].enc.txCounter + 1;
    hide Follows, Matched;
    HighestIsAdmitted(arrivals, id);
    if path.x.keyId == k && id < U32_LIMIT && NextNotForged(env, k, key, iv, path, plain) {
      EncryptedIsDelivered(env, k, key, iv, path, plain, now);
    }
  }
}
