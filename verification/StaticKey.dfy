/** The tls-auth key file: how it is written, and how the server and the client each read it. Texts are
    taken to be ASCII, so that a character is one byte. */
module StaticKeys {
  import opened Common
  import opened Text

  const KEY_LENGTH := 256
  const PER_LINE := 16
  const BEGIN := "-----BEGIN OpenVPN Static key V1-----"
  const END := "-----END OpenVPN Static key V1-----"
  const MARK := "OpenVPN Static key"
  const TITLE := "# 2048 bit OpenVPN static key"

  datatype KeyError = InvalidHex | OddLength | WrongLength(got: nat)

  // ---------------------------------------------------------------- hexadecimal

  function HexDigit(n: nat): (c: char)
    requires n < 16
    ensures !IsSpace(c) && c != '#' && c != '-' && c != '\n' && c != 'O' && c != '+'
  {
    if n < 10 then ('0' as int + n) as char else ('a' as int + (n - 10)) as char
  }

  function DigitValue(c: char): Option<nat> {
    if '0' <= c <= '9' then Some(c as int - '0' as int)
    else if 'a' <= c <= 'f' then Some(c as int - 'a' as int + 10)
    else if 'A' <= c <= 'F' then Some(c as int - 'A' as int + 10)
    else None
  }

  /** Two characters as a number in base 16; the first may be a plus sign. */
  function ParseHex(s: string): Option<byte>
    requires |s| == 2
  {
    var hi, lo := if s[0] == '+' then Some(0) else DigitValue(s[0]), DigitValue(s[1]);
    if hi.None? || lo.None? || hi.value >= 16 || lo.value >= 16 then None else Some(16 * hi.value + lo.value)
  }

  function HexByte(b: byte): string { [HexDigit(b / 16), HexDigit(b % 16)] }

  const DIGITS := "0123456789abcdef"

  /** A byte is two lower-case digits, the high one first. */
  lemma HexByteDigits(b: byte)
    ensures HexByte(b) == [DIGITS[b / 16], DIGITS[b % 16]]
  {
    DigitIsListed(b / 16);
    DigitIsListed(b % 16);
    hide HexDigit;
  }

  lemma DigitIsListed(n: nat)
    requires n < 16
    ensures HexDigit(n) == DIGITS[n]
  {
  }

  /** Digits are read in both cases. */
  lemma DigitsAreRead(n: nat)
    requires n < 16
    ensures DigitValue("0123456789abcdef"[n]) == Some(n) && DigitValue("0123456789ABCDEF"[n]) == Some(n)
  {
  }

  function HexLine(bytes: seq<byte>): string {
    if bytes == [] then "" else HexByte(bytes[0]) + HexLine(bytes[1..])
  }

  lemma HexRoundTrip(b: byte)
    ensures ParseHex(HexByte(b)) == Some(b)
  {
    DigitRoundTrip(b / 16);
    DigitRoundTrip(b % 16);
  }

  lemma DigitRoundTrip(n: nat)
    requires n < 16
    ensures DigitValue(HexDigit(n)) == Some(n)
  {
  }

  /** The bytes that pairs of characters denote. */
  function DecodePairs(s: string): Option<seq<byte>>
  {
    if |s| < 2 then Some([])
    else
      var b, rest := ParseHex(s[..2]), DecodePairs(s[2..]);
      if b.None? || rest.None? then None else Some([b.value] + rest.value)
  }

  lemma {:induction false} DecodeHexLine(bytes: seq<byte>, rest: string)
    requires DecodePairs(rest).Some?
    ensures DecodePairs(HexLine(bytes) + rest) == Some(bytes + DecodePairs(rest).value)
    ensures |HexLine(bytes)| == 2 * |bytes|
  {
    var s := HexLine(bytes) + rest;
    if bytes == [] {
      assert s == rest && bytes + DecodePairs(rest).value == DecodePairs(rest).value;
    } else {
      assert s[..2] == HexByte(bytes[0]) && s[2..] == HexLine(bytes[1..]) + rest;
      HexRoundTrip(bytes[0]);
      DecodeHexLine(bytes[1..], rest);
      var tail := DecodePairs(rest).value;
      assert [bytes[0]] + (bytes[1..] + tail) == bytes + tail;
    }
  }

  // ---------------------------------------------------------------- writing

  function KeyLines(key: seq<byte>): seq<string>
    requires |key| == KEY_LENGTH
  {
    seq(16, i requires 0 <= i < 16 => HexLine(key[16 * i..16 * i + 16]))
  }

  function HeadLines(): seq<string> { ["#", TITLE, "#", BEGIN] }

  function FileLines(key: seq<byte>): seq<string>
    requires |key| == KEY_LENGTH
  {
    HeadLines() + KeyLines(key) + [END]
  }

  /** Lines, each ended by a line feed. */
  function Ended(lines: seq<string>): string {
    if lines == [] then "" else lines[0] + ['\n'] + Ended(lines[1..])
  }

  function Formatted(key: seq<byte>): string
    requires |key| == KEY_LENGTH
  {
    Ended(FileLines(key))
  }

  // ---------------------------------------------------------------- reading

  /** Lines that are neither blank nor comments nor markers. Lines end at line feeds; trimming them also
      removes a carriage return. */
  predicate Kept(line: string) {
    line != "" && line[0] != '#' && line[0] != '-'
  }

  predicate Contains(s: string, sub: string) {
    sub <= s || (s != "" && Contains(s[1..], sub))
  }

  /** The server: pairs of one line after another, until the key is full. */
  function ServerLine(key: seq<byte>, line: string): Option<seq<byte>>
    decreases |line|
  {
    if |key| >= KEY_LENGTH || |line| < 2 then Some(key)
    else
      var b := ParseHex(line[..2]);
      if b.None? then None else ServerLine(key + [b.value], line[2..])
  }

  function ServerLines(lines: seq<string>): Option<seq<byte>> {
    if lines == [] then Some([])
    else
      var n := |lines| - 1;
      var key, line := ServerLines(lines[..n]), Trim(lines[n]);
      if key.None? || !Kept(line) then key else ServerLine(key.value, line)
  }

  function ServerParsed(s: string): Result<seq<byte>, KeyError> {
    match ServerLines(Split(s, '\n'))
    case None => Err(InvalidHex)
    case Some(key) => if |key| != KEY_LENGTH then Err(WrongLength(|key|)) else Ok(key)
  }

  /** The client: all hexadecimal text first, then its pairs. */
  function ClientText(lines: seq<string>): string {
    if lines == [] then ""
    else
      var n := |lines| - 1;
      var line := Trim(lines[n]);
      ClientText(lines[..n]) + if Kept(line) && !Contains(line, MARK) then line else ""
  }

  function ClientParsed(s: string): Result<seq<byte>, KeyError> {
    var hex := ClientText(Split(s, '\n'));
    if |hex| % 2 != 0 then Err(OddLength)
    else
      match DecodePairs(hex)
      case None => Err(InvalidHex)
      case Some(key) => if |key| != KEY_LENGTH then Err(WrongLength(|key|)) else Ok(key)
  }

  // ---------------------------------------------------------------- the code

  lemma {:induction false} EndedAppend(lines: seq<string>, line: string)
    ensures Ended(lines + [line]) == Ended(lines) + (line + "\n")
  {
    if lines == [] {
      assert [line][1..] == [];
    } else {
      assert (lines + [line])[1..] == lines[1..] + [line];
      EndedAppend(lines[1..], line);
    }
  }

  method FormatStaticKey(key: seq<byte>) returns (output: string)
    requires |key| == KEY_LENGTH
    ensures output == Formatted(key)
  {
    hide HeadLines, HexLine, Ended;
    output := FormatHead();
    assert HeadLines() + KeyLines(key)[..0] == HeadLines();
    for i := 0 to 16
      invariant output == Ended(HeadLines() + KeyLines(key)[..i])
    {
      var line := FormatLine(key[PER_LINE * i..PER_LINE * i + PER_LINE]);
      output := Push(HeadLines() + KeyLines(key)[..i], output, line);
      assert HeadLines() + KeyLines(key)[..i + 1] == HeadLines() + KeyLines(key)[..i] + [line];
    }
    assert KeyLines(key)[..16] == KeyLines(key);
    output := Push(HeadLines() + KeyLines(key), output, END);
  }

  method FormatHead() returns (output: string)
    ensures output == Ended(HeadLines())
  {
    hide Ended;
    EndedNothing();
    output := "";
    output := Push([], output, "#");
    assert [] + ["#"] == ["#"] && ["#"] + [TITLE] == ["#", TITLE] && ["#", TITLE] + ["#"] == ["#", TITLE, "#"];
    assert ["#", TITLE, "#"] + [BEGIN] == HeadLines();
    output := Push(["#"], output, TITLE);
    output := Push(["#", TITLE], output, "#");
    output := Push(["#", TITLE, "#"], output, BEGIN);
  }

  method Push(ghost lines: seq<string>, output: string, line: string) returns (output': string)
    requires output == Ended(lines)
    ensures output' == Ended(lines + [line])
  {
    EndedAppend(lines, line);
    output' := output + (line + "\n");
  }

  lemma EndedNothing()
    ensures Ended([]) == ""
  {
  }

  method FormatLine(chunk: seq<byte>) returns (line: string)
    ensures line == HexLine(chunk)
  {
    line := "";
    for i := 0 to |chunk|
      invariant HexLine(chunk) == line + HexLine(chunk[i..])
    {
      line := line + HexByte(chunk[i]);
    }
  }

  /** The server's parser writes into a fixed array. */
  method ParseStaticKey(pem: string) returns (r: Result<seq<byte>, KeyError>)
    ensures r == ServerParsed(pem)
  {
    hide Trim, Split, ServerLine;
    var key := new byte[KEY_LENGTH](_ => 0);
    var offset := 0;
    var lines := Split(pem, '\n');
    for i := 0 to |lines|
      invariant 0 <= offset <= KEY_LENGTH && key.Length == KEY_LENGTH
      invariant ServerLines(lines[..i]) == Some(key[..offset])
    {
      assert lines[..i + 1][..i] == lines[..i];
      var line := Trim(lines[i]);
      if line == "" || line[0] == '#' || line[0] == '-' {
        continue;
      }
      var ok;
      ok, offset := FillFromLine(key, offset, line);
      if !ok {
        ServerErrorStays(lines, i + 1);
        return Err(InvalidHex);
      }
    }
    assert lines[..|lines|] == lines;
    if offset != KEY_LENGTH {
      return Err(WrongLength(offset));
    }
    assert key[..offset] == key[..];
    return Ok(key[..]);
  }

  method FillFromLine(key: array<byte>, start: nat, line: string) returns (ok: bool, offset: nat)
    requires key.Length == KEY_LENGTH && start <= KEY_LENGTH
    modifies key
    ensures ok ==> offset <= KEY_LENGTH && ServerLine(old(key[..start]), line) == Some(key[..offset])
    ensures !ok ==> ServerLine(old(key[..start]), line).None?
  {
    offset := start;
    var i := 0;
    while i < |line|
      invariant 0 <= i && start <= offset <= KEY_LENGTH
      invariant i <= |line| && ServerLine(key[..offset], line[i..]) == ServerLine(old(key[..start]), line)
      decreases |line| - i
    {
      if offset >= KEY_LENGTH || i + 2 > |line| {
        break;
      }
      var b := ParseHex(line[i..i + 2]);
      assert line[i..][..2] == line[i..i + 2] && line[i..][2..] == line[i + 2..];
      if b.None? {
        return false, offset;
      }
      ghost var before := key[..offset];
      key[offset] := b.value;
      assert key[..offset + 1] == before + [b.value];
      offset := offset + 1;
      i := i + 2;
    }
    return true, offset;
  }

  lemma {:induction false} ServerErrorStays(lines: seq<string>, i: nat)
    requires i <= |lines| && ServerLines(lines[..i]).None?
    ensures ServerLines(lines).None?
  {
    hide Trim, ServerLine;
    if i == |lines| {
      assert lines[..i] == lines;
    } else {
      assert lines[..|lines| - 1][..i] == lines[..i];
      ServerErrorStays(lines[..|lines| - 1], i);
    }
  }

  /** The client's parser collects the text first. */
  method ParseInlineKey(pem: string) returns (r: Result<seq<byte>, KeyError>)
    ensures r == ClientParsed(pem)
  {
    hide Trim, Split, Contains, DecodePairs;
    var hex := "";
    var lines := Split(pem, '\n');
    for i := 0 to |lines|
      invariant hex == ClientText(lines[..i])
    {
      assert lines[..i + 1][..i] == lines[..i];
      var line := Trim(lines[i]);
      if line == "" || line[0] == '#' || line[0] == '-' || Contains(line, MARK) {
        continue;
      }
      hex := hex + line;
    }
    assert lines[..|lines|] == lines;
    r := DecodeHex(hex);
    if r.Ok? && |r.value| != KEY_LENGTH {
      return Err(WrongLength(|r.value|));
    }
  }

  method DecodeHex(hex: string) returns (r: Result<seq<byte>, KeyError>)
    ensures r == if |hex| % 2 != 0 then Err(OddLength)
                 else if DecodePairs(hex).None? then Err(InvalidHex) else Ok(DecodePairs(hex).value)
  {
    hide ParseHex;
    if |hex| % 2 != 0 {
      return Err(OddLength);
    }
    var bytes: seq<byte> := [];
    var i := 0;
    assert hex[0..] == hex && (DecodePairs(hex).Some? ==> [] + DecodePairs(hex).value == DecodePairs(hex).value);
    while i < |hex|
      invariant 0 <= i <= |hex| && i % 2 == 0
      invariant DecodePairs(hex) == Prefixed(bytes, DecodePairs(hex[i..]))
    {
      var b := ParseHex(hex[i..i + 2]);
      assert hex[i..][..2] == hex[i..i + 2] && hex[i..][2..] == hex[i + 2..];
      if b.None? {
        return Err(InvalidHex);
      }
      PrefixedOneMore(bytes, b.value, DecodePairs(hex[i + 2..]));
      bytes := bytes + [b.value];
      i := i + 2;
    }
    assert bytes + [] == bytes;
    return Ok(bytes);
  }

  function Prefixed(bytes: seq<byte>, rest: Option<seq<byte>>): Option<seq<byte>> {
    if rest.None? then None else Some(bytes + rest.value)
  }

  lemma PrefixedOneMore(bytes: seq<byte>, b: byte, rest: Option<seq<byte>>)
    ensures Prefixed(bytes + [b], rest) == Prefixed(bytes, Prefixed([b], rest))
  {
    if rest.Some? {
      assert bytes + [b] + rest.value == bytes + ([b] + rest.value);
    }
  }

  // ---------------------------------------------------------------- both parsers read what is written

  lemma {:induction false} SplitEnded(lines: seq<string>)
    requires forall i | 0 <= i < |lines| :: Free(lines[i], '\n')
    ensures Split(Ended(lines), '\n') == lines + [""]
  {
    if lines != [] {
      SplitEnded(lines[1..]);
      SplitAtSeparator(lines[0], Ended(lines[1..]), '\n');
    }
  }

  predicate Plain(s: string) {
    forall x | x in s :: !IsSpace(x) && x != '#' && x != '-' && x != '\n' && x != 'O' && x != '+'
  }

  lemma {:induction false} HexLineIsPlain(bytes: seq<byte>)
    ensures Plain(HexLine(bytes)) && |HexLine(bytes)| == 2 * |bytes|
  {
    if bytes != [] {
      HexLineIsPlain(bytes[1..]);
    }
  }

  lemma PlainIsKept(line: string)
    requires Plain(line) && line != ""
    ensures Trim(line) == line && Kept(line) && !Contains(line, MARK) && Free(line, '\n')
  {
    assert line[0] in line && line[|line| - 1] in line;
    TrimOfTrimmed(line);
    NoMark(line);
  }

  lemma KeyLineIsKept(bytes: seq<byte>)
    requires bytes != []
    ensures var line := HexLine(bytes);
            Trim(line) == line && Kept(line) && !Contains(line, MARK) && Free(line, '\n')
  {
    HexLineIsPlain(bytes);
    hide HexLine;
    PlainIsKept(HexLine(bytes));
  }

  lemma {:induction false} NoMark(s: string)
    requires Plain(s)
    ensures !Contains(s, MARK)
  {
    if s != "" {
      assert s[0] in s && MARK[0] == 'O' && forall x | x in s[1..] :: x in s;
      NoMark(s[1..]);
    }
  }

  /** Comments and markers are skipped by both parsers and contain no line feed. */
  predicate Skipped(line: string) {
    !Kept(Trim(line)) && Free(line, '\n')
  }

  lemma MarkIsSkipped(line: string)
    requires line != "" && (line[0] == '#' || line[0] == '-') && Free(line, '\n')
    ensures Skipped(line)
  {
    assert TrimStart(line) == line;
    TrimEndKeepsFirst(line);
  }

  lemma {:induction false} TrimEndKeepsFirst(s: string)
    requires s != "" && !IsSpace(s[0])
    ensures TrimEnd(s) != "" && TrimEnd(s)[0] == s[0]
  {
    if IsSpace(s[|s| - 1]) {
      TrimEndKeepsFirst(s[..|s| - 1]);
    }
  }

  lemma TitleIsSkipped()
    ensures Skipped("#") && Skipped(TITLE)
  {
    hide Skipped;
    MarkIsSkipped("#");
    MarkIsSkipped(TITLE);
  }

  lemma BeginIsSkipped()
    ensures Skipped(BEGIN)
  {
    hide Skipped;
    MarkIsSkipped(BEGIN);
  }

  lemma EndIsSkipped()
    ensures Skipped(END) && Skipped("")
  {
    assert Skipped("");
    hide Skipped;
    MarkIsSkipped(END);
  }

  lemma HeadIsSkipped()
    ensures forall i | 0 <= i < |HeadLines()| :: Skipped(HeadLines()[i])
  {
    hide Skipped;
    TitleIsSkipped();
    BeginIsSkipped();
  }

  lemma {:induction false} SkippingChangesNothing(lines: seq<string>, extra: seq<string>)
    requires forall i | 0 <= i < |extra| :: Skipped(extra[i])
    ensures ServerLines(lines + extra) == ServerLines(lines) && ClientText(lines + extra) == ClientText(lines)
  {
    hide Trim, ServerLine, Contains;
    if extra == [] {
      assert lines + extra == lines;
    } else {
      var n := |extra| - 1;
      assert (lines + extra)[..|lines + extra| - 1] == lines + extra[..n];
      SkippingChangesNothing(lines, extra[..n]);
    }
  }

  lemma {:induction false} ServerHexLine(key: seq<byte>, bytes: seq<byte>)
    requires |key| + |bytes| <= KEY_LENGTH
    ensures ServerLine(key, HexLine(bytes)) == Some(key + bytes)
    decreases |bytes|
  {
    if bytes == [] {
      assert key + bytes == key;
    } else {
      var line := HexLine(bytes);
      assert line[..2] == HexByte(bytes[0]) && line[2..] == HexLine(bytes[1..]);
      HexRoundTrip(bytes[0]);
      ServerHexLine(key + [bytes[0]], bytes[1..]);
      assert key + [bytes[0]] + bytes[1..] == key + bytes;
    }
  }

  lemma {:induction false} HexLineAppend(a: seq<byte>, b: seq<byte>)
    ensures HexLine(a + b) == HexLine(a) + HexLine(b)
  {
    if a == [] {
      assert a + b == b;
    } else {
      assert (a + b)[1..] == a[1..] + b;
      HexLineAppend(a[1..], b);
    }
  }

  lemma {:induction false} KeyLinesReadBack(key: seq<byte>, i: nat)
    requires |key| == KEY_LENGTH && i <= 16
    ensures ServerLines(HeadLines() + KeyLines(key)[..i]) == Some(key[..16 * i])
    ensures ClientText(HeadLines() + KeyLines(key)[..i]) == HexLine(key[..16 * i])
  {
    hide Trim, ServerLine, Contains, HeadLines, HexLine, Kept;
    if i == 0 {
      HeadIsSkipped();
      SkippingChangesNothing([], HeadLines());
      assert [] + HeadLines() == HeadLines() + KeyLines(key)[..0];
      assert key[..0] == [] && HexLine([]) == "" by { HexLineAppend([], []); }
    } else {
      var lines, chunk := HeadLines() + KeyLines(key)[..i], key[16 * (i - 1)..16 * i];
      KeyLinesReadBack(key, i - 1);
      assert lines[..|lines| - 1] == HeadLines() + KeyLines(key)[..i - 1] && lines[|lines| - 1] == HexLine(chunk);
      KeyLineIsKept(chunk);
      ServerHexLine(key[..16 * (i - 1)], chunk);
      HexLineAppend(key[..16 * (i - 1)], chunk);
      assert key[..16 * (i - 1)] + chunk == key[..16 * i];
    }
  }

  lemma FileLinesAreFree(key: seq<byte>)
    requires |key| == KEY_LENGTH
    ensures forall i | 0 <= i < |FileLines(key)| :: Free(FileLines(key)[i], '\n')
  {
    HeadIsSkipped();
    EndIsSkipped();
    hide HeadLines, HexLine, Free, Trim, Kept, Contains;
    forall i | 0 <= i < 16
      ensures Free(KeyLines(key)[i], '\n')
    {
      KeyLineIsKept(key[16 * i..16 * i + 16]);
    }
  }

  lemma FileReadsBack(key: seq<byte>)
    requires |key| == KEY_LENGTH
    ensures var lines := Split(Formatted(key), '\n');
            ServerLines(lines) == Some(key) && ClientText(lines) == HexLine(key)
  {
    hide HeadLines, KeyLines, Skipped, ServerLines, ClientText, Split, Ended, Free, HexLine;
    var lines := HeadLines() + KeyLines(key);
    FileLinesAreFree(key);
    SplitEnded(FileLines(key));
    KeyLinesReadBack(key, 16);
    assert |KeyLines(key)| == 16 by { SixteenLines(key); }
    assert KeyLines(key)[..16] == KeyLines(key) && key[..256] == key;
    EndIsSkipped();
    assert FileLines(key) + [""] == lines + [END, ""];
    SkippingChangesNothing(lines, [END, ""]);
  }

  lemma SixteenLines(key: seq<byte>)
    requires |key| == KEY_LENGTH
    ensures |KeyLines(key)| == 16
  {
  }

  /** The file: a title, the begin marker, sixteen lines of sixteen bytes in order, the end marker. */
  lemma FileLayout(key: seq<byte>)
    requires |key| == KEY_LENGTH
    ensures var lines := FileLines(key);
            && |lines| == 21
            && lines[..4] == ["#", "# 2048 bit OpenVPN static key", "#", "-----BEGIN OpenVPN Static key V1-----"]
            && (forall i | 0 <= i < 16 :: lines[4 + i] == HexLine(key[16 * i..16 * i + 16]))
            && lines[20] == "-----END OpenVPN Static key V1-----"
  {
    hide HexLine;
  }

  /** Every key is recovered from its file, by the server and by the client. */
  lemma BothParsersRoundTrip(key: seq<byte>)
    requires |key| == KEY_LENGTH
    ensures ServerParsed(Formatted(key)) == Ok(key)
    ensures ClientParsed(Formatted(key)) == Ok(key)
  {
    hide ServerLines, ClientText, Split, Formatted, HexLine;
    FileReadsBack(key);
    DecodeHexLine(key, "");
    assert DecodePairs("") == Some([]);
    hide DecodePairs;
    assert HexLine(key) + "" == HexLine(key) && key + [] == key;
  }

  // ---------------------------------------------------------------- where the two parsers agree

  function Evened(line: string): string { line[..|line| - |line| % 2] }

  /** What the server reads: the kept lines, each without its last digit if their number is odd. */
  function ServerText(lines: seq<string>): string {
    if lines == [] then ""
    else
      var n := |lines| - 1;
      var line := Trim(lines[n]);
      ServerText(lines[..n]) + if Kept(line) then Evened(line) else ""
  }

  /** The part of a text that fits in a key of which `used` bytes are filled. */
  function Fitting(used: nat, text: string): string
    requires used <= KEY_LENGTH
  {
    text[..Min(|text|, 2 * (KEY_LENGTH - used))]
  }

  lemma {:induction false} DecodeAppend(a: string, b: string)
    requires |a| % 2 == 0
    ensures var x, y := DecodePairs(a), DecodePairs(b);
            DecodePairs(a + b) == if x.None? then None else Prefixed(x.value, y)
  {
    if a == "" {
      assert a + b == b;
      assert DecodePairs(b).Some? ==> [] + DecodePairs(b).value == DecodePairs(b).value;
    } else {
      assert (a + b)[..2] == a[..2] && (a + b)[2..] == a[2..] + b;
      DecodeAppend(a[2..], b);
      hide ParseHex;
      var h, x, y := ParseHex(a[..2]), DecodePairs(a[2..]), DecodePairs(b);
      assert h.Some? && x.Some? && y.Some? ==> [h.value] + (x.value + y.value) == [h.value] + x.value + y.value;
    }
  }

  lemma FittingStep(used: nat, line: string)
    requires used < KEY_LENGTH && |line| >= 2
    ensures var part := Fitting(used, Evened(line));
            |part| >= 2 && part[..2] == line[..2] && part[2..] == Fitting(used + 1, Evened(line[2..]))
  {
    var k := Min(|Evened(line)|, 2 * (KEY_LENGTH - used));
    var part, rest := Fitting(used, Evened(line)), line[2..];
    assert 2 <= k <= |line| && part == line[..k];
    assert line[..k][..2] == line[..2] && line[..k][2..] == rest[..k - 2];
    assert |Evened(rest)| == |Evened(line)| - 2;
    assert Fitting(used + 1, Evened(rest)) == Evened(rest)[..k - 2] == rest[..k - 2];
  }

  lemma {:induction false} ServerLineExact(key: seq<byte>, line: string)
    requires |key| <= KEY_LENGTH
    ensures ServerLine(key, line) == Prefixed(key, DecodePairs(Fitting(|key|, Evened(line))))
    decreases |line|
  {
    hide ParseHex;
    var part := Fitting(|key|, Evened(line));
    if |key| == KEY_LENGTH || |line| < 2 {
      assert part == "" && key + [] == key;
    } else {
      hide Fitting, Evened;
      var b := ParseHex(line[..2]);
      FittingStep(|key|, line);
      if b.Some? {
        ServerLineExact(key + [b.value], line[2..]);
        PrefixedOneMore(key, b.value, DecodePairs(part[2..]));
      }
    }
  }

  lemma {:induction false} DecodedLength(s: string)
    requires DecodePairs(s).Some?
    ensures |DecodePairs(s).value| == |s| / 2
  {
    if |s| >= 2 {
      hide ParseHex;
      DecodedLength(s[2..]);
    }
  }

  lemma {:induction false} ServerTextEven(lines: seq<string>)
    ensures |ServerText(lines)| % 2 == 0
  {
    hide Trim;
    if lines != [] {
      ServerTextEven(lines[..|lines| - 1]);
    }
  }

  /** What fits of a longer text is what fits of its beginning and then what still fits of the rest. */
  lemma FittingAppend(a: string, b: string)
    requires |a| % 2 == 0
    ensures var first := Fitting(0, a);
            |first| % 2 == 0 && |first| / 2 <= KEY_LENGTH && Fitting(0, a + b) == first + Fitting(|first| / 2, b)
  {
  }

  /** The server's parser decodes the beginning of its text that fits in a key. */
  lemma {:induction false} ServerLinesExact(lines: seq<string>)
    ensures ServerLines(lines) == DecodePairs(Fitting(0, ServerText(lines)))
  {
    hide Trim, ServerLine, Kept;
    if lines != [] {
      var n := |lines| - 1;
      var text, line := ServerText(lines[..n]), Trim(lines[n]);
      ServerLinesExact(lines[..n]);
      ServerTextEven(lines[..n]);
      var first := Fitting(0, text);
      if Kept(line) {
        FittingAppend(text, Evened(line));
        DecodeAppend(first, Fitting(|first| / 2, Evened(line)));
        var key := DecodePairs(first);
        hide DecodePairs, Fitting, Evened;
        if key.Some? {
          DecodedLength(first);
          ServerLineExact(key.value, line);
        }
      } else {
        assert text + "" == text;
      }
    }
  }

  /** Given that the client accepts, the server reads the same key exactly if its text is long enough and
      begins with the same bytes. */
  lemma SameKeyIff(s: string)
    requires ClientParsed(s).Ok?
    ensures var lines := Split(s, '\n');
            var text := ServerText(lines);
            ServerParsed(s) == ClientParsed(s)
            <==> |text| >= 2 * KEY_LENGTH && DecodePairs(text[..2 * KEY_LENGTH]) == DecodePairs(ClientText(lines))
  {
    hide ServerLines, ClientText, Split, ServerText, DecodePairs;
    var lines := Split(s, '\n');
    var text := ServerText(lines);
    ServerLinesExact(lines);
    ServerTextEven(lines);
    var part := Fitting(0, text);
    if DecodePairs(part).Some? {
      DecodedLength(part);
    }
  }

  /** No marker hides among the lines that both parsers keep. */
  predicate Unmarked(lines: seq<string>) {
    forall i | 0 <= i < |lines| && Kept(Trim(lines[i])) :: !Contains(Trim(lines[i]), MARK)
  }

  /** No pair of digits is split between lines. */
  predicate PairsUnsplit(lines: seq<string>) {
    forall i | 0 <= i < |lines| && Kept(Trim(lines[i])) :: |Trim(lines[i])| % 2 == 0
  }

  lemma {:induction false} TextsAgreeIff(lines: seq<string>)
    requires Unmarked(lines)
    ensures |ServerText(lines)| <= |ClientText(lines)|
    ensures PairsUnsplit(lines) ==> ServerText(lines) == ClientText(lines)
    ensures !PairsUnsplit(lines) ==> |ServerText(lines)| < |ClientText(lines)|
  {
    hide Trim, Contains, Kept;
    if lines != [] {
      var n := |lines| - 1;
      var line := Trim(lines[n]);
      TextsAgreeIff(lines[..n]);
      assert PairsUnsplit(lines) <==> PairsUnsplit(lines[..n]) && (Kept(line) ==> |line| % 2 == 0);
    }
  }

  /** Without such markers, a key the client accepts is the key the server reads if and only if every line
      of digits has an even number of them. */
  lemma ClientKeyIsServerKeyIff(s: string)
    requires Unmarked(Split(s, '\n')) && ClientParsed(s).Ok?
    ensures ServerParsed(s) == ClientParsed(s) <==> PairsUnsplit(Split(s, '\n'))
  {
    hide ServerParsed, ClientText, Split, ServerText, DecodePairs, Unmarked, PairsUnsplit;
    var lines := Split(s, '\n');
    SameKeyIff(s);
    TextsAgreeIff(lines);
    DecodedLength(ClientText(lines));
    var hex := ClientText(lines);
    assert hex[..2 * KEY_LENGTH] == hex;
  }

  lemma TwoLines(a: string, b: string)
    requires Plain(a) && Plain(b) && a != "" && b != ""
    ensures var lines := Split(a + ['\n'] + b, '\n');
            lines == [a, b] && ServerText(lines) == Evened(a) + Evened(b) && ClientText(lines) == a + b
  {
    PlainIsKept(a);
    PlainIsKept(b);
    hide Plain, Trim, Kept, Contains, Evened;
    SplitAtSeparator(a, b, '\n');
    SplitPlain(b, '\n');
    assert [a] + [b] == [a, b] && [a, b][..1] == [a] && [a][..0] == [];
    hide Split;
    assert ClientText([a]) == "" + a && "" + a == a;
    assert ServerText([a]) == "" + Evened(a) && "" + Evened(a) == Evened(a);
  }

  lemma PlainParts(s: string, n: nat)
    requires Plain(s) && n <= |s|
    ensures Plain(s[..n]) && Plain(s[n..]) && s[..n] + s[n..] == s
  {
    assert forall x | x in s[..n] :: x in s;
    assert forall x | x in s[n..] :: x in s;
    hide IsSpace;
  }

  lemma TwoLinesParsed(a: string, b: string, key: seq<byte>)
    requires Plain(a) && Plain(b) && |a| == 511 && |b| == 1
    requires |key| == KEY_LENGTH && DecodePairs(a + b) == Some(key)
    ensures var s := a + ['\n'] + b;
            ClientParsed(s) == Ok(key) && ServerParsed(s) != Ok(key)
  {
    hide Split, ServerText, ClientText, DecodePairs, ServerParsed, Plain;
    TwoLines(a, b);
    assert |Evened(a)| == 510 && |Evened(b)| == 0;
    hide Evened;
    SameKeyIff(a + ['\n'] + b);
  }

  /** The parsers differ on every key whose digits stand on two lines, the last digit alone on the second:
      the client reads the key, the server does not. */
  lemma WrappedKeyIsRejected(key: seq<byte>)
    requires |key| == KEY_LENGTH
    ensures var hex := HexLine(key);
            && |hex| == 512
            && ClientParsed(hex[..511] + ['\n'] + hex[511..]) == Ok(key)
            && ServerParsed(hex[..511] + ['\n'] + hex[511..]) != Ok(key)
  {
    var hex := HexLine(key);
    HexLineIsPlain(key);
    DecodeHexLine(key, "");
    assert DecodePairs("") == Some([]) && key + [] == key;
    hide HexLine, DecodePairs, ServerParsed, ClientParsed;
    assert hex + "" == hex;
    PlainParts(hex, 511);
    hide Plain;
    TwoLinesParsed(hex[..511], hex[511..], key);
  }
}
