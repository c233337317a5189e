/** Data channel packets: the header that precedes the encrypted payload and enters its AAD. */
module DataChannels {
  import opened Common
  import opened OpCodes
  import opened Packets
  import opened ReplayProtection
  import opened PacketCiphers
  import opened KeyDerivation

  datatype DataPacket = DataPacket(keyId: KeyId, peerId: Option<u32>, payload: seq<byte>)

  function DataBytes(p: DataPacket): seq<byte> {
    match p.peerId
    case Some(pid) => [DataV2.ToByte(p.keyId)] + PutU24(pid % 0x100_0000) + p.payload
    case None => [DataV1.ToByte(p.keyId)] + p.payload
  }

  function ParseData(data: seq<byte>): Result<DataPacket, ProtocolError> {
    if data == [] then Err(PacketTooShort(1, 0))
    else
      var opcode :- OpCodeFromByte(data[0]);
      var keyId := KeyIdFromByte(data[0]);
      if opcode != DataV2 then Ok(DataPacket(keyId, None, data[1..]))
      else if |data| < 4 then Err(PacketTooShort(4, |data|))
      else Ok(DataPacket(keyId, Some(GetU24(data[1..4])), data[4..]))
  }

  /** The packet as the receiver sees it: peer ids keep their low 24 bits. */
  function AsReceived(p: DataPacket): DataPacket {
    p.(peerId := if p.peerId.Some? then Some(p.peerId.value % 0x100_0000) else None)
  }

  function AsPacket(p: DataPacket): Packet {
    Data(Header(if p.peerId.Some? then DataV2 else DataV1, p.keyId, None, None, None, None),
         AsReceived(p).peerId, p.payload)
  }

  lemma DataBytesReadBack(p: DataPacket)
    ensures ParseData(DataBytes(p)) == Ok(AsReceived(p))
  {
    var op := if p.peerId.Some? then DataV2 else DataV1;
    var d := DataBytes(p);
    OpCodeByteIff(d[0], op, p.keyId);
    hide PutU24, GetU24, OpCodeFromByte, KeyIdFromByte;
    if p.peerId.Some? {
      var pid := p.peerId.value % 0x100_0000;
      U24RoundTrip(pid);
      assert d[1..4] == PutU24(pid) && d[4..] == p.payload;
    } else {
      assert d[1..] == p.payload;
    }
  }

  /** A data packet on the wire: opcode and key id, the 24-bit peer id in version 2, the payload. */
  lemma DataLayout(p: DataPacket)
    ensures var d := DataBytes(p);
            match p.peerId
            case Some(pid) => |d| >= 4 && d[0] == 72 + p.keyId && GetU24(d[1..4]) == pid % 0x100_0000 && d[4..] == p.payload
            case None => |d| >= 1 && d[0] == 48 + p.keyId && d[1..] == p.payload
  {
    hide PutU24, GetU24;
    OpCodeTable(p.keyId, 0);
    if p.peerId.Some? {
      U24RoundTrip(p.peerId.value % 0x100_0000);
      assert DataBytes(p)[1..4] == PutU24(p.peerId.value % 0x100_0000);
    }
  }

  lemma DataBytesArePacketBytes(p: DataPacket)
    ensures PacketBytes(AsPacket(p)) == DataBytes(p)
  {
    hide PutU24;
  }

  /** Both parsers of data packets, the stand-alone one and the session's, recover every packet from
      its bytes, whether or not the session uses tls-auth. */
  lemma DataBytesParse(p: DataPacket, tlsAuth: bool)
    ensures ParseData(DataBytes(p)) == Ok(AsReceived(p))
    ensures ParsePacket(DataBytes(p), tlsAuth) == Ok(AsPacket(p))
  {
    hide DataBytes, PacketBytes, ParseData, ParsePacket;
    DataBytesReadBack(p);
    DataBytesArePacketBytes(p);
    ParseIff(DataBytes(p), AsPacket(p), tlsAuth);
  }

  // ---------------------------------------------------------------- the channel

  datatype Channel = Channel(
    keyId: KeyId,
    peerId: Option<u32>,
    useV2: bool,
    encryptPrefix: seq<byte>,
    enc: Cipher,
    dec: Cipher)

  /** The header bytes that P_DATA_V2 authenticates. */
  function V2Prefix(keyId: KeyId, peerId: u32): seq<byte> {
    [DataV2.ToByte(keyId)] + PutU24(peerId % 0x100_0000)
  }

  function NewChannel(keyId: KeyId, encKey: DataKey, decKey: DataKey, useV2: bool, peerId: Option<u32>): Channel {
    Channel(keyId, peerId, useV2,
            if useV2 then V2Prefix(keyId, if peerId.Some? then peerId.value else 0) else [],
            Cipher(encKey.key, encKey.iv, 0, []), Cipher(decKey.key, decKey.iv, 0, []))
  }

  /** The prefix the receiver rebuilds from the packet's header. */
  function DecryptPrefix(p: DataPacket): seq<byte> {
    match p.peerId
    case Some(pid) => V2Prefix(p.keyId, pid)
    case None => []
  }

  ghost function ChannelEncrypt(aead: Aead, ch: Channel, plain: seq<byte>): (Result<DataPacket, ProtocolError>, Channel)
    requires Correct(aead)
  {
    var (r, enc') := EncryptStep(aead, ch.enc, plain, ch.encryptPrefix);
    (match r
     case Ok(payload) => Ok(DataPacket(ch.keyId, if ch.useV2 then ch.peerId else None, payload))
     case Err(e) => Err(e),
     ch.(enc := enc'))
  }

  ghost function ChannelDecrypt(aead: Aead, ch: Channel, p: DataPacket): (Result<seq<byte>, ProtocolError>, Channel) {
    if p.keyId != ch.keyId then (Err(KeyNotAvailable(p.keyId)), ch)
    else
      var (r, dec') := DecryptStep(aead, ch.dec, p.payload, DecryptPrefix(p));
      (r, ch.(dec := dec'))
  }

  /** A channel as `install_keys` makes it: version 2 exactly when there is a peer id. */
  predicate Installed(ch: Channel) {
    && (ch.useV2 <==> ch.peerId.Some?)
    && ch.encryptPrefix == if ch.useV2 then V2Prefix(ch.keyId, ch.peerId.value) else []
  }

  /** The AAD prefix the receiver rebuilds from the wire is the one the sender authenticated, in both
      packet versions and for every peer id. */
  lemma PrefixesMatch(ch: Channel, payload: seq<byte>)
    requires Installed(ch)
    ensures DecryptPrefix(AsReceived(DataPacket(ch.keyId, if ch.useV2 then ch.peerId else None, payload)))
            == ch.encryptPrefix
  {
    hide PutU24;
  }

  /** What is authenticated is the packet's own header, in version 2, and nothing in version 1. */
  lemma PrefixIsHeader(p: DataPacket)
    ensures match p.peerId
            case Some(_) => |DataBytes(p)| >= 4 && DecryptPrefix(p) == DataBytes(p)[..4]
            case None => DecryptPrefix(p) == []
  {
    hide PutU24;
  }

  /** A channel decrypts nothing under another key id, and such a packet leaves it as it is. */
  lemma OtherKeyRejected(aead: Aead, ch: Channel, p: DataPacket)
    requires p.keyId != ch.keyId
    ensures ChannelDecrypt(aead, ch, p) == (Err(KeyNotAvailable(p.keyId)), ch)
  {
  }

  class DataChannel {
    const aead: Aead
    const keyId: KeyId
    const peerId: Option<u32>
    const useV2: bool
    const encryptPrefix: seq<byte>
    const encryptCipher: PacketCipher
    const decryptCipher: PacketCipher

    /** The channel and the objects it consists of. */
    ghost function Parts(): set<object> {
      {this, encryptCipher, encryptCipher.rxWindow, decryptCipher, decryptCipher.rxWindow}
    }

    ghost predicate Valid()
      reads Parts()
    {
      && encryptCipher != decryptCipher && encryptCipher.rxWindow != decryptCipher.rxWindow
      && encryptCipher.Valid() && decryptCipher.Valid()
      && encryptCipher.aead == decryptCipher.aead == aead
    }

    ghost function State(): Channel
      reads Parts()
    {
      Channel(keyId, peerId, useV2, encryptPrefix, encryptCipher.State(), decryptCipher.State())
    }

    constructor (aead: Aead, keyId: KeyId, encKey: DataKey, decKey: DataKey, useV2: bool, peerId: Option<u32>)
      ensures Valid() && this.aead == aead && fresh(Parts())
      ensures State() == NewChannel(keyId, encKey, decKey, useV2, peerId)
    {
      this.aead, this.keyId, this.peerId, this.useV2 := aead, keyId, peerId, useV2;
      encryptPrefix := if useV2 then V2Prefix(keyId, if peerId.Some? then peerId.value else 0) else [];
      var e := new PacketCipher(aead, encKey.key, encKey.iv);
      var d := new PacketCipher(aead, decKey.key, decKey.iv);
      encryptCipher, decryptCipher := e, d;
    }

    method Encrypt(plain: seq<byte>) returns (r: Result<DataPacket, ProtocolError>)
      requires Valid() && Correct(aead)
      modifies Parts()
      ensures Valid()
      ensures (r, State()) == ChannelEncrypt(aead, old(State()), plain)
    {
      hide EncryptStep, Correct;
      var encrypted := encryptCipher.Encrypt(plain, encryptPrefix);
      if encrypted.Err? {
        return Err(encrypted.error);
      }
      return Ok(DataPacket(keyId, if useV2 then peerId else None, encrypted.value));
    }

    method Decrypt(p: DataPacket) returns (r: Result<seq<byte>, ProtocolError>)
      requires Valid()
      modifies Parts()
      ensures Valid()
      ensures (r, State()) == ChannelDecrypt(aead, old(State()), p)
    {
      hide DecryptStep;
      if p.keyId != keyId {
        return Err(KeyNotAvailable(p.keyId));
      }
      r := decryptCipher.Decrypt(p.payload, DecryptPrefix(p));
    }
  }

  /** The channels of a session by key id. */
  class ChannelTable {
    const aead: Aead
    var channels: map<KeyId, DataChannel>
    ghost var Repr: set<object>

    ghost predicate Valid()
      reads this, Repr
    {
      && this !in Repr
      && (forall k | k in channels :: channels[k].aead == aead && channels[k].Parts() <= Repr && channels[k].Valid())
      && Separate(channels)
    }

    ghost function Contents(): map<KeyId, Channel>
      requires Valid()
      reads this, Repr
    {
      map k | k in channels :: channels[k].State()
    }

    constructor (aead: Aead)
      ensures Valid() && this.aead == aead && Contents() == map[] && Repr == {}
    {
      this.aead, channels, Repr := aead, map[], {};
    }

    method Install(k: KeyId, encKey: DataKey, decKey: DataKey, useV2: bool, peerId: Option<u32>)
      requires Valid()
      modifies this
      ensures Valid() && fresh(Repr - old(Repr))
      ensures Contents() == old(Contents())[k := NewChannel(k, encKey, decKey, useV2, peerId)]
    {
      hide NewChannel, DataChannel.Valid, DataChannel.State, DataChannel.Parts;
      var ch := new DataChannel(aead, k, encKey, decKey, useV2, peerId);
      Repr := Repr + ch.Parts();
      channels := channels[k := ch];
    }

    method Decrypt(k: KeyId, p: DataPacket) returns (r: Result<seq<byte>, ProtocolError>)
      requires Valid() && k in channels
      modifies Repr
      ensures Valid() && channels == old(channels) && Repr == old(Repr)
      ensures var (q, ch) := ChannelDecrypt(aead, old(Contents())[k], p);
              r == q && Contents() == old(Contents())[k := ch]
    {
      hide ChannelDecrypt, DataChannel.Valid, DataChannel.State, DataChannel.Parts;
      r := channels[k].Decrypt(p);
    }

    method Encrypt(k: KeyId, plain: seq<byte>) returns (r: Result<DataPacket, ProtocolError>)
      requires Valid() && k in channels && Correct(aead)
      modifies Repr
      ensures Valid() && channels == old(channels) && Repr == old(Repr)
      ensures var (q, ch) := ChannelEncrypt(aead, old(Contents())[k], plain);
              r == q && Contents() == old(Contents())[k := ch]
    {
      hide ChannelEncrypt, Correct, DataChannel.Valid, DataChannel.State, DataChannel.Parts;
      r := channels[k].Encrypt(plain);
    }
  }

  /** No two channels share an object. */
  ghost predicate Separate(channels: map<KeyId, DataChannel>) {
    forall j, k | j in channels && k in channels && j != k :: channels[j].Parts() !! channels[k].Parts()
  }
}
