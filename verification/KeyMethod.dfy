/** The key-method-2 message exchanged inside TLS, and the client's split of the server's plaintext.
    Strings are their UTF-8 bytes. */
module KeyMethods {
  import opened Common

  type PreMaster = s: seq<byte> | |s| == 48 witness seq(48, _ => 0)

  datatype KeyMethod = KeyMethod(
    preMaster: PreMaster,
    random1: Bytes32,
    random2: Bytes32,
    options: seq<byte>,
    username: Option<seq<byte>>,
    password: Option<seq<byte>>,
    peerInfo: Option<seq<byte>>)

  const ZEROS4: seq<byte> := [0, 0, 0, 0]

  /** The server sends no pre-master secret; its place is filled with zeros. */
  function NoPreMaster(): PreMaster {
    seq(48, _ => 0)
  }

  // ---------------------------------------------------------------- UTF-8

  predicate Continuation(b: byte, lo: byte, hi: byte) { lo <= b <= hi }

  /** The length of the well-formed character at the front, zero if there is none. */
  function Utf8Length(s: seq<byte>): nat {
    if s == [] then 0
    else if s[0] < 0x80 then 1
    else if 0xC2 <= s[0] <= 0xDF then
      if |s| >= 2 && Continuation(s[1], 0x80, 0xBF) then 2 else 0
    else if 0xE0 <= s[0] <= 0xEF then
      if |s| >= 3
         && Continuation(s[1], if s[0] == 0xE0 then 0xA0 else 0x80, if s[0] == 0xED then 0x9F else 0xBF)
         && Continuation(s[2], 0x80, 0xBF) then 3 else 0
    else if 0xF0 <= s[0] <= 0xF4 then
      if |s| >= 4
         && Continuation(s[1], if s[0] == 0xF0 then 0x90 else 0x80, if s[0] == 0xF4 then 0x8F else 0xBF)
         && Continuation(s[2], 0x80, 0xBF) && Continuation(s[3], 0x80, 0xBF) then 4 else 0
    else 0
  }

  predicate ValidUtf8(s: seq<byte>) {
    s == [] || (0 < Utf8Length(s) <= |s| && ValidUtf8(s[Utf8Length(s)..]))
  }

  lemma {:induction false} ValidUtf8Append(s: seq<byte>, t: seq<byte>)
    requires ValidUtf8(s) && ValidUtf8(t)
    ensures ValidUtf8(s + t)
    decreases |s|
  {
    if s == [] {
      assert s + t == t;
    } else {
      var n := Utf8Length(s);
      Utf8LengthAppend(s, t);
      hide Utf8Length;
      assert (s + t)[n..] == s[n..] + t;
      ValidUtf8Append(s[n..], t);
    }
  }

  lemma Utf8LengthAppend(s: seq<byte>, t: seq<byte>)
    requires Utf8Length(s) > 0
    ensures Utf8Length(s + t) == Utf8Length(s)
  {
  }

  /** The strings of the message, as Rust's `String` has them. */
  predicate Text(s: Option<seq<byte>>) {
    s.Some? ==> ValidUtf8(s.value)
  }

  // ---------------------------------------------------------------- length-prefixed strings

  /** Length including the terminator, truncated to 16 bits; the bytes; the terminator. */
  function WriteString(s: seq<byte>): seq<byte> {
    PutU16((|s| + 1) % 0x1_0000) + (s + [0])
  }

  function TrimNul(s: seq<byte>): seq<byte> {
    if s != [] && s[|s| - 1] == 0 then TrimNul(s[..|s| - 1]) else s
  }

  function ReadString(data: seq<byte>, offset: nat): Result<(seq<byte>, nat), ProtocolError> {
    if offset + 2 > |data| then Err(PacketTooShort(offset + 2, |data|))
    else
      var n: nat := GetU16(data[offset..offset + 2]);
      if offset + 2 + n > |data| then Err(PacketTooShort(offset + 2 + n, |data|))
      else
        var s := data[offset + 2..offset + 2 + n];
        if !ValidUtf8(s) then Err(InvalidUtf8) else Ok((TrimNul(s), offset + 2 + n))
  }

  predicate Fits(s: seq<byte>) {
    |s| + 1 < 0x1_0000
  }

  /** A string short enough for the length field, and without trailing NULs to lose. */
  predicate Clean(s: seq<byte>) {
    Fits(s) && TrimNul(s) == s
  }

  lemma {:induction false} TrimNulShrinks(s: seq<byte>)
    ensures |TrimNul(s)| <= |s|
    ensures TrimNul(s + [0]) == TrimNul(s)
  {
    assert (s + [0])[..|s|] == s;
    if s != [] {
      TrimNulShrinks(s[..|s| - 1]);
    }
  }

  lemma StringReads(pre: seq<byte>, s: seq<byte>, post: seq<byte>)
    requires ValidUtf8(s) && Fits(s)
    ensures ReadString(pre + WriteString(s) + post, |pre|) == Ok((TrimNul(s), |pre| + |WriteString(s)|))
  {
    hide PutU16, GetU16, ValidUtf8, TrimNul;
    var data, n: u16 := pre + WriteString(s) + post, |s| + 1;
    assert (|s| + 1) % 0x1_0000 == n;
    StringLayout(pre, n, s + [0], post);
    U16RoundTrip(n);
    ValidNul();
    ValidUtf8Append(s, [0]);
    TrimNulShrinks(s);
  }

  lemma StringLayout(pre: seq<byte>, n: u16, body: seq<byte>, post: seq<byte>)
    requires |body| == n
    ensures var data := pre + (PutU16(n) + body) + post;
            data[|pre|..|pre| + 2] == PutU16(n) && data[|pre| + 2..|pre| + 2 + n] == body
  {
    hide PutU16;
  }

  lemma ValidNul()
    ensures ValidUtf8([0])
  {
    assert Utf8Length([0]) == 1;
    assert [0][1..] == [];
  }

  /** A string too long for its length field never reads back whole. */
  lemma LongStringLost(pre: seq<byte>, s: seq<byte>, post: seq<byte>)
    requires !Fits(s)
    ensures var r := ReadString(pre + WriteString(s) + post, |pre|);
            r.Ok? ==> |r.value.0| < |s|
  {
    hide PutU16, GetU16, ValidUtf8;
    var data, n := pre + WriteString(s) + post, (|s| + 1) % 0x1_0000;
    assert data[|pre|..|pre| + 2] == PutU16(n);
    U16RoundTrip(n);
    var r := ReadString(data, |pre|);
    if r.Ok? {
      TrimNulShrinks(data[|pre| + 2..|pre| + 2 + n]);
    }
  }

  /** What reading back a written string gives, for every string: itself exactly when it is clean. */
  lemma StringReadsIff(pre: seq<byte>, s: seq<byte>, post: seq<byte>)
    requires ValidUtf8(s)
    ensures var r := ReadString(pre + WriteString(s) + post, |pre|);
            && ((r.Ok? && r.value.0 == s) <==> Clean(s))
            && (Clean(s) ==> r == Ok((s, |pre| + |WriteString(s)|)))
  {
    hide WriteString, ReadString, TrimNul, ValidUtf8;
    if Fits(s) {
      StringReads(pre, s, post);
    } else {
      LongStringLost(pre, s, post);
    }
  }

  // ---------------------------------------------------------------- the message

  function OrEmpty(s: Option<seq<byte>>): seq<byte> {
    match s case Some(v) => v case None => []
  }

  function NonEmpty(s: seq<byte>): Option<seq<byte>> {
    if s == [] then None else Some(s)
  }

  /** Everything before the strings. */
  function KeySource(km: KeyMethod, isServer: bool): seq<byte> {
    ZEROS4 + [2] + (if isServer then [] else km.preMaster) + km.random1 + km.random2
  }

  function Strings(km: KeyMethod): seq<byte> {
    WriteString(km.options) + (WriteString(OrEmpty(km.username)) + (WriteString(OrEmpty(km.password))
    + (if km.peerInfo.Some? then WriteString(km.peerInfo.value) else [])))
  }

  function Encode(km: KeyMethod, isServer: bool): seq<byte> {
    KeySource(km, isServer) + Strings(km)
  }

  /** An optional trailing string: absent when fewer than two bytes are left, or when empty. */
  function ReadOptional(data: seq<byte>, offset: nat): Result<(Option<seq<byte>>, nat), ProtocolError> {
    if offset + 2 > |data| then Ok((None, offset))
    else
      var (s, end) :- ReadString(data, offset);
      Ok((NonEmpty(s), end))
  }

  /** The last two strings of a client message. */
  function ReadSecrets(data: seq<byte>, offset: nat): Result<(Option<seq<byte>>, Option<seq<byte>>), ProtocolError> {
    var (password, end) :- ReadOptional(data, offset);
    var (peerInfo, _) :- ReadOptional(data, end);
    Ok((password, peerInfo))
  }

  /** The four strings of a client message. */
  function ReadStrings(data: seq<byte>, offset: nat)
    : Result<(seq<byte>, Option<seq<byte>>, Option<seq<byte>>, Option<seq<byte>>), ProtocolError>
  {
    var (options, o1) :- ReadString(data, offset);
    var (username, o2) :- ReadOptional(data, o1);
    var (password, peerInfo) :- ReadSecrets(data, o2);
    Ok((options, username, password, peerInfo))
  }

  function ParseClient(data: seq<byte>): Result<KeyMethod, ProtocolError> {
    if |data| < 119 then Err(PacketTooShort(119, |data|))
    else if data[4] != 2 then Err(UnsupportedKeyMethod(data[4]))
    else
      var (options, username, password, peerInfo) :- ReadStrings(data, 117);
      Ok(KeyMethod(data[5..53], data[53..85], data[85..117], options, username, password, peerInfo))
  }

  function ParseServer(data: seq<byte>): Result<KeyMethod, ProtocolError> {
    if |data| < 71 then Err(PacketTooShort(71, |data|))
    else if data[4] != 2 then Err(UnsupportedKeyMethod(data[4]))
    else
      var (options, _) :- ReadString(data, 69);
      Ok(KeyMethod(NoPreMaster(), data[5..37], data[37..69], options, None, None, None))
  }

  predicate IsMessage(km: KeyMethod) {
    ValidUtf8(km.options) && Text(km.username) && Text(km.password) && Text(km.peerInfo)
  }

  predicate CleanOptional(s: Option<seq<byte>>) {
    s.Some? ==> s.value != [] && Clean(s.value)
  }

  /** Reading back an optional string that was written, present or not. */
  lemma OptionalReadsIff(pre: seq<byte>, s: Option<seq<byte>>, post: seq<byte>)
    requires Text(s)
    ensures var r := ReadOptional(pre + (WriteString(OrEmpty(s)) + post), |pre|);
            && ((r.Ok? && r.value.0 == s) <==> CleanOptional(s))
            && (CleanOptional(s) ==> r == Ok((s, |pre| + |WriteString(OrEmpty(s))|)))
  {
    hide ReadString, ValidUtf8, TrimNul;
    assert ValidUtf8([]) && TrimNul([]) == [] by { EmptyIsClean(); }
    assert pre + (WriteString(OrEmpty(s)) + post) == pre + WriteString(OrEmpty(s)) + post;
    StringReadsIff(pre, OrEmpty(s), post);
  }

  lemma EmptyIsClean()
    ensures ValidUtf8([]) && TrimNul([]) == []
  {
  }

  lemma KeySourceFields(km: KeyMethod, isServer: bool, rest: seq<byte>)
    ensures var data := KeySource(km, isServer) + rest;
            var n := if isServer then 69 else 117;
            && |KeySource(km, isServer)| == n && data[4] == 2
            && (!isServer ==> data[5..53] == km.preMaster)
            && data[n - 64..n - 32] == km.random1 && data[n - 32..n] == km.random2
  {
  }

  /** A string is its length with the terminator, its bytes, and the terminator. */
  lemma WrittenString(s: seq<byte>)
    requires Fits(s)
    ensures var w := WriteString(s);
            |w| == |s| + 3 && GetU16(w[..2]) == |s| + 1 && w[2..|s| + 2] == s && w[|s| + 2] == 0
  {
    hide PutU16, GetU16;
    U16RoundTrip(|s| + 1);
    assert WriteString(s)[..2] == PutU16(|s| + 1);
  }

  /** The message: four zeros, the method number 2, the secrets, then options, user name, password and, if
      there is one, peer info. */
  lemma MessageLayout(km: KeyMethod, isServer: bool)
    ensures var m, n := Encode(km, isServer), if isServer then 69 else 117;
            && |m| >= n && m[..5] == [0, 0, 0, 0, 2]
            && (!isServer ==> m[5..53] == km.preMaster) && m[n - 64..n - 32] == km.random1 && m[n - 32..n] == km.random2
            && m[n..] == WriteString(km.options) + (WriteString(OrEmpty(km.username)) + (WriteString(OrEmpty(km.password))
                         + (if km.peerInfo.Some? then WriteString(km.peerInfo.value) else [])))
  {
    KeySourceFields(km, isServer, Strings(km));
    hide WriteString;
    assert KeySource(km, isServer)[..5] == [0, 0, 0, 0, 2];
  }

  /** The secrets of a client's message sit at fixed offsets: whatever text begins with them and is
      accepted yields them, whether or not the strings after them survive. */
  lemma ClientSecretsSurvive(km: KeyMethod, data: seq<byte>)
    requires KeySource(km, false) <= data && ParseClient(data).Ok?
    ensures var seen := ParseClient(data).value;
            seen.preMaster == km.preMaster && seen.random1 == km.random1 && seen.random2 == km.random2
  {
    KeySourceFields(km, false, data[|KeySource(km, false)|..]);
    assert data == KeySource(km, false) + data[|KeySource(km, false)|..];
    hide KeySource, ReadStrings;
  }

  /** And so do the randoms of a server's message. */
  lemma ServerRandomsSurvive(km: KeyMethod, data: seq<byte>)
    requires KeySource(km, true) <= data && ParseServer(data).Ok?
    ensures var seen := ParseServer(data).value;
            seen.random1 == km.random1 && seen.random2 == km.random2
  {
    KeySourceFields(km, true, data[|KeySource(km, true)|..]);
    assert data == KeySource(km, true) + data[|KeySource(km, true)|..];
    hide KeySource, ReadString;
  }

  /** All strings shorter than 65535 bytes and without trailing NUL, the optional ones non-empty. */
  predicate AllClean(km: KeyMethod) {
    Clean(km.options) && CleanOptional(km.username) && CleanOptional(km.password) && CleanOptional(km.peerInfo)
  }

  lemma Reassociate(p: seq<byte>, a: seq<byte>, b: seq<byte>, c: seq<byte>, d: seq<byte>)
    ensures p + (a + (b + (c + d))) == p + a + (b + (c + d))
    ensures p + (a + (b + (c + d))) == (p + a + b) + (c + d)
    ensures p + (a + (b + (c + d))) == (p + a + b + c) + d
  {
  }

  lemma SecretsReadIff(pre: seq<byte>, password: Option<seq<byte>>, peerInfo: Option<seq<byte>>)
    requires Text(password) && Text(peerInfo)
    ensures var w3 := if peerInfo.Some? then WriteString(peerInfo.value) else [];
            ReadSecrets(pre + (WriteString(OrEmpty(password)) + w3), |pre|) == Ok((password, peerInfo))
            <==> CleanOptional(password) && CleanOptional(peerInfo)
  {
    hide WriteString, ReadOptional, CleanOptional, Text;
    var w2 := WriteString(OrEmpty(password));
    var w3 := if peerInfo.Some? then WriteString(peerInfo.value) else [];
    OptionalReadsIff(pre, password, w3);
    assert pre + (w2 + w3) == pre + w2 + w3;
    PeerInfoReadsIff(pre + w2, peerInfo);
  }

  lemma ReadInTurn(data: seq<byte>, offset: nat, o1: nat, o2: nat, km: KeyMethod)
    requires var r := ReadString(data, offset);
             && ((r.Ok? && r.value.0 == km.options) <==> Clean(km.options))
             && (Clean(km.options) ==> r == Ok((km.options, o1)))
    requires var r := ReadOptional(data, o1);
             && ((r.Ok? && r.value.0 == km.username) <==> CleanOptional(km.username))
             && (CleanOptional(km.username) ==> r == Ok((km.username, o2)))
    requires ReadSecrets(data, o2) == Ok((km.password, km.peerInfo))
             <==> CleanOptional(km.password) && CleanOptional(km.peerInfo)
    ensures ReadStrings(data, offset) == Ok((km.options, km.username, km.password, km.peerInfo)) <==> AllClean(km)
  {
    hide ReadString, ReadOptional, ReadSecrets, Clean, CleanOptional;
    var r := ReadSecrets(data, o2);
    assert r.Ok? ==> r == Ok((r.value.0, r.value.1));
  }

  lemma StringsReadIff(pre: seq<byte>, km: KeyMethod)
    requires IsMessage(km)
    ensures ReadStrings(pre + Strings(km), |pre|) == Ok((km.options, km.username, km.password, km.peerInfo))
            <==> AllClean(km)
  {
    hide WriteString, ReadString, ReadOptional, ReadSecrets, ReadStrings, Clean, CleanOptional, ValidUtf8, Text, AllClean;
    var w0, w1, w2 := WriteString(km.options), WriteString(OrEmpty(km.username)), WriteString(OrEmpty(km.password));
    var w3 := if km.peerInfo.Some? then WriteString(km.peerInfo.value) else [];
    Reassociate(pre, w0, w1, w2, w3);
    StringReadsIff(pre, km.options, w1 + (w2 + w3));
    OptionalReadsIff(pre + w0, km.username, w2 + w3);
    SecretsReadIff(pre + w0 + w1, km.password, km.peerInfo);
    ReadInTurn(pre + Strings(km), |pre|, |pre + w0|, |pre + w0 + w1|, km);
  }

  /** The client's message is recovered in every field exactly when its strings are clean. */
  lemma ClientRoundTripIff(km: KeyMethod)
    requires IsMessage(km)
    ensures ParseClient(Encode(km, false)) == Ok(km) <==> AllClean(km)
  {
    KeySourceFields(km, false, Strings(km));
    assert |WriteString(km.options)| >= 3;
    StringsReadIff(KeySource(km, false), km);
    hide KeySource, ReadStrings, AllClean, WriteString, IsMessage;
  }

  lemma PeerInfoReadsIff(pre: seq<byte>, s: Option<seq<byte>>)
    requires Text(s)
    ensures var w := if s.Some? then WriteString(s.value) else [];
            var r := ReadOptional(pre + w, |pre|);
            (r.Ok? && r.value.0 == s) <==> CleanOptional(s)
  {
    if s.Some? {
      assert pre + WriteString(s.value) == pre + (WriteString(OrEmpty(s)) + []);
      OptionalReadsIff(pre, s, []);
    }
  }

  /** What the server's message carries to the client. */
  function ServerView(km: KeyMethod): KeyMethod {
    KeyMethod(NoPreMaster(), km.random1, km.random2, km.options, None, None, None)
  }

  lemma AfterOptions(p: seq<byte>, a: seq<byte>, b: seq<byte>, r: seq<byte>)
    ensures (p + (a + b)) + r == p + ((a + b) + r) == p + a + (b + r)
  {
  }

  /** The server's message, followed by anything, yields its randoms and options exactly when the
      options string is clean. */
  lemma ServerRoundTripIff(km: KeyMethod, rest: seq<byte>)
    requires IsMessage(km)
    ensures ParseServer(Encode(km, true) + rest) == Ok(ServerView(km)) <==> Clean(km.options)
  {
    var w0, p0 := WriteString(km.options), KeySource(km, true);
    assert |w0| >= 3;
    hide WriteString, KeySource, ReadString, Clean, ValidUtf8, Text;
    var tail := WriteString(OrEmpty(km.username)) + (WriteString(OrEmpty(km.password))
                + (if km.peerInfo.Some? then WriteString(km.peerInfo.value) else []));
    assert Strings(km) == w0 + tail;
    hide Strings;
    KeySourceFields(km, true, Strings(km) + rest);
    AfterOptions(p0, w0, tail, rest);
    StringReadsIff(p0, km.options, tail + rest);
  }

  // ---------------------------------------------------------------- the client's split

  /** The offset after skipping up to `count` length-prefixed strings. */
  function SkipStrings(data: seq<byte>, offset: nat, count: nat): nat
    decreases count
  {
    if count == 0 || offset + 2 > |data| then offset
    else
      var n: nat := GetU16(data[offset..offset + 2]);
      if offset + 2 + n > |data| then offset else SkipStrings(data, offset + 2 + n, count - 1)
  }

  /** The size `calculate_km_size` finds, for data it does not reject as too short. */
  method CalculateKmSize(data: seq<byte>) returns (r: Option<nat>)
    ensures r == if |data| < 71 then None else Some(SkipStrings(data, 69, 3))
  {
    if |data| < 71 {
      return None;
    }
    hide GetU16;
    var offset: nat := 69;
    var i := 0;
    while i < 3
      invariant 0 <= i <= 3
      invariant SkipStrings(data, offset, 3 - i) == SkipStrings(data, 69, 3)
    {
      if offset + 2 > |data| {
        break;
      }
      var n: nat := GetU16(data[offset..offset + 2]);
      if offset + 2 + n > |data| {
        break;
      }
      offset := offset + 2 + n;
      i := i + 1;
    }
    return Some(offset);
  }

  lemma SkipOne(pre: seq<byte>, s: seq<byte>, post: seq<byte>, count: nat)
    requires Fits(s) && count > 0
    ensures SkipStrings(pre + WriteString(s) + post, |pre|, count)
            == SkipStrings(pre + WriteString(s) + post, |pre| + |WriteString(s)|, count - 1)
  {
    hide PutU16, GetU16;
    var data, n := pre + WriteString(s) + post, |s| + 1;
    assert data[|pre|..|pre| + 2] == PutU16(n);
    U16RoundTrip(n);
  }

  lemma MessageThenRest(p: seq<byte>, a: seq<byte>, b: seq<byte>, c: seq<byte>, rest: seq<byte>)
    ensures var m := p + (a + (b + (c + [])));
            && m + rest == p + a + (b + (c + rest)) == p + a + b + (c + rest) == p + a + b + c + rest
            && |m| == |p + a + b| + |c| && (m + rest)[|m|..] == rest
  {
  }

  lemma ThreeStrings(km: KeyMethod)
    requires km.peerInfo.None?
    ensures Encode(km, true) == KeySource(km, true) + (WriteString(km.options)
            + (WriteString(OrEmpty(km.username)) + (WriteString(OrEmpty(km.password)) + [])))
    ensures |KeySource(km, true)| == 69 && |WriteString(km.options)| >= 3
  {
    assert |WriteString(km.options)| >= 3;
    hide WriteString, KeySource;
    KeySourceFields(km, true, []);
  }

  /** For a complete server message without peer info, followed by any bytes, the size found is
      exactly the message's length, so the remaining plaintext is exactly what followed it. */
  lemma KmSizeExact(km: KeyMethod, rest: seq<byte>)
    requires km.peerInfo.None?
    requires Fits(km.options) && Fits(OrEmpty(km.username)) && Fits(OrEmpty(km.password))
    ensures var m := Encode(km, true);
            |m + rest| >= 71 && SkipStrings(m + rest, 69, 3) == |m| && (m + rest)[|m|..] == rest
  {
    var w0, w1, w2 := WriteString(km.options), WriteString(OrEmpty(km.username)), WriteString(OrEmpty(km.password));
    var p0, m := KeySource(km, true), Encode(km, true);
    hide WriteString, KeySource, SkipStrings, Encode;
    ThreeStrings(km);
    MessageThenRest(p0, w0, w1, w2, rest);
    SkipOne(p0, km.options, w1 + (w2 + rest), 3);
    SkipOne(p0 + w0, OrEmpty(km.username), w2 + rest, 2);
    SkipOne(p0 + w0 + w1, OrEmpty(km.password), rest, 1);
    SkipNone(m + rest, |m|);
  }

  lemma SkipNone(data: seq<byte>, offset: nat)
    ensures SkipStrings(data, offset, 0) == offset
  {
  }

  lemma {:induction false} SkipWithin(data: seq<byte>, offset: nat, count: nat)
    requires offset <= |data|
    ensures SkipStrings(data, offset, count) <= |data|
    decreases count
  {
    hide GetU16;
    if count > 0 && offset + 2 <= |data| {
      var n: nat := GetU16(data[offset..offset + 2]);
      if offset + 2 + n <= |data| {
        SkipWithin(data, offset + 2 + n, count - 1);
      }
    }
  }

  /** The first thing the client does with the plaintext it has so far: once the key method parses, it is
      taken off the front. */
  function TakeKeyMethod(data: seq<byte>): Option<(KeyMethod, seq<byte>)> {
    if |data| < 71 || ParseServer(data).Err? then None
    else
      SkipWithin(data, 69, 3);
      Some((ParseServer(data).value, data[SkipStrings(data, 69, 3)..]))
  }

  lemma CutStringFails(pre: seq<byte>, s: seq<byte>, cut: nat)
    requires Fits(s) && |pre| <= cut < |pre| + |WriteString(s)|
    ensures ReadString((pre + WriteString(s))[..cut], |pre|).Err?
  {
    hide PutU16, GetU16, ValidUtf8, TrimNul;
    var data, n := pre + WriteString(s), |s| + 1;
    if cut >= |pre| + 2 {
      assert data[..cut][|pre|..|pre| + 2] == PutU16(n);
      U16RoundTrip(n);
    }
  }

  /** The client takes a key method off exactly from the moment its options string is complete. */
  lemma TakenIff(km: KeyMethod, cut: nat)
    requires ValidUtf8(km.options) && Fits(km.options) && cut <= |Encode(km, true)|
    ensures TakeKeyMethod(Encode(km, true)[..cut]).Some? <==> cut >= 69 + |WriteString(km.options)|
  {
    var m, p0, w0 := Encode(km, true), KeySource(km, true), WriteString(km.options);
    var tail := WriteString(OrEmpty(km.username)) + (WriteString(OrEmpty(km.password))
                + (if km.peerInfo.Some? then WriteString(km.peerInfo.value) else []));
    assert |p0| == 69 && |w0| >= 3;
    assert m == p0 + w0 + tail;
    hide WriteString, KeySource, ReadString, ValidUtf8, Encode, SkipStrings;
    if cut >= 69 + |w0| {
      var post := tail[..cut - 69 - |w0|];
      assert m[..cut] == p0 + w0 + post && m[..cut] == p0 + (w0 + post);
      StringReads(p0, km.options, post);
      KeySourceFields(km, true, w0 + post);
    } else if cut >= 71 {
      assert m[..cut] == (p0 + w0)[..cut];
      CutStringFails(p0, km.options, cut);
      KeySourceFields(km, true, w0 + tail);
      assert m == p0 + (w0 + tail) && m[..cut][4] == m[4];
    }
  }

  /** On a truncated message the client splits too early, leaving the rest of the key method in front of
      what follows, exactly if the options string is complete and something after it is missing. */
  lemma SplitsTooEarlyIff(km: KeyMethod, cut: nat)
    requires km.peerInfo.None? && ValidUtf8(km.options)
    requires Fits(km.options) && Fits(OrEmpty(km.username)) && Fits(OrEmpty(km.password))
    requires cut <= |Encode(km, true)|
    ensures var m := Encode(km, true);
            (TakeKeyMethod(m[..cut]).Some? && TakeKeyMethod(m[..cut]).value.1 + m[cut..] != [])
            <==> 69 + |WriteString(km.options)| <= cut < |m|
  {
    var m := Encode(km, true);
    TakenIff(km, cut);
    hide Encode, WriteString, ParseServer;
    if cut == |m| {
      KmSizeExact(km, []);
      assert m[..cut] == m == m + [];
    }
  }
}
