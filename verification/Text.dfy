/** The string operations the text codecs use. */
module Text {
  import opened Common

  /** The Unicode White_Space property. */
  predicate IsSpace(c: char) {
    var n := c as int;
    9 <= n <= 13 || n == 0x20 || n == 0x85 || n == 0xA0 || n == 0x1680 || 0x2000 <= n <= 0x200A
    || n == 0x2028 || n == 0x2029 || n == 0x202F || n == 0x205F || n == 0x3000
  }

  predicate Free(s: string, c: char) { forall x | x in s :: x != c }

  predicate SpaceFree(s: string) { forall x | x in s :: !IsSpace(x) }

  // ---------------------------------------------------------------- splitting at a separator

  function Split(s: string, sep: char): (r: seq<string>)
    ensures r != []
  {
    if s == "" then [""]
    else
      var rest := Split(s[1..], sep);
      if s[0] == sep then [""] + rest else [[s[0]] + rest[0]] + rest[1..]
  }

  function Join(parts: seq<string>, sep: char): string {
    if |parts| == 0 then "" else if |parts| == 1 then parts[0] else parts[0] + [sep] + Join(parts[1..], sep)
  }

  lemma {:induction false} SplitPlain(s: string, sep: char)
    requires Free(s, sep)
    ensures Split(s, sep) == [s]
  {
    if s != "" {
      assert s[0] in s && forall x | x in s[1..] :: x in s;
      SplitPlain(s[1..], sep);
      assert [s[0]] + s[1..] == s;
    }
  }

  lemma {:induction false} SplitAtSeparator(a: string, b: string, sep: char)
    requires Free(a, sep)
    ensures Split(a + [sep] + b, sep) == [a] + Split(b, sep)
  {
    var s := a + [sep] + b;
    if a == "" {
      assert s[1..] == b;
    } else {
      assert s[1..] == a[1..] + [sep] + b && s[0] == a[0] && a[0] in a && forall x | x in a[1..] :: x in a;
      SplitAtSeparator(a[1..], b, sep);
      assert [a[0]] + a[1..] == a;
    }
  }

  /** Splitting undoes joining. */
  lemma {:induction false} SplitJoin(parts: seq<string>, sep: char)
    requires parts != [] && forall p | p in parts :: Free(p, sep)
    ensures Split(Join(parts, sep), sep) == parts
  {
    if |parts| == 1 {
      SplitPlain(parts[0], sep);
    } else {
      SplitJoin(parts[1..], sep);
      SplitAtSeparator(parts[0], Join(parts[1..], sep), sep);
    }
  }

  lemma {:induction false} SplitIsFree(s: string, sep: char)
    ensures forall p | p in Split(s, sep) :: Free(p, sep)
  {
    if s != "" {
      var rest := Split(s[1..], sep);
      SplitIsFree(s[1..], sep);
      assert rest[0] in rest && forall p | p in rest[1..] :: p in rest;
    }
  }

  // ---------------------------------------------------------------- white space

  function TrimStart(s: string): (r: string)
    ensures r == "" || !IsSpace(r[0])
    ensures forall x | x in r :: x in s
  {
    if s != "" && IsSpace(s[0]) then TrimStart(s[1..]) else s
  }

  function TrimEnd(s: string): (r: string)
    ensures r == "" || !IsSpace(r[|r| - 1])
    ensures r <= s
  {
    if s != "" && IsSpace(s[|s| - 1]) then TrimEnd(s[..|s| - 1]) else s
  }

  function Trim(s: string): string { TrimEnd(TrimStart(s)) }

  predicate Trimmed(s: string) { s == "" || (!IsSpace(s[0]) && !IsSpace(s[|s| - 1])) }

  lemma TrimIsTrimmed(s: string)
    ensures Trimmed(Trim(s)) && forall x | x in Trim(s) :: x in s
  {
    assert forall x | x in Trim(s) :: x in TrimStart(s);
  }

  lemma TrimOfTrimmed(s: string)
    requires Trimmed(s)
    ensures Trim(s) == s
  {
  }

  /** The maximal runs of characters that are not white space. */
  function Words(s: string): seq<string>
    decreases |s|
  {
    if s == "" then []
    else if IsSpace(s[0]) then Words(s[1..])
    else var k := RunLength(s); [s[..k]] + Words(s[k..])
  }

  function RunLength(s: string): (k: nat)
    ensures k <= |s| && SpaceFree(s[..k]) && (k < |s| ==> IsSpace(s[k]))
    ensures s != "" && !IsSpace(s[0]) ==> k > 0
  {
    if s == "" || IsSpace(s[0]) then 0
    else
      var k := RunLength(s[1..]);
      assert s[..k + 1] == [s[0]] + s[1..][..k];
      k + 1
  }

  lemma {:induction false} WordsAreWords(s: string)
    ensures forall w | w in Words(s) :: w != "" && SpaceFree(w) && forall x | x in w :: x in s
    decreases |s|
  {
    if s != "" {
      var k := if IsSpace(s[0]) then 1 else RunLength(s);
      WordsAreWords(s[k..]);
      assert forall x | x in s[k..] :: x in s;
      assert forall x | x in s[..k] :: x in s;
    }
  }

  lemma {:induction false} WordsOfWord(w: string)
    requires SpaceFree(w)
    ensures Words(w) == if w == "" then [] else [w]
  {
    if w != "" {
      assert !IsSpace(w[0]);
      var k := RunLength(w);
      assert k == |w| && w[..k] == w && w[k..] == "";
    }
  }

  lemma {:induction false} RunLengthAppend(a: string, c: char, b: string)
    requires IsSpace(c)
    ensures RunLength(a + [c] + b) == RunLength(a)
  {
    var s := a + [c] + b;
    if a != "" && !IsSpace(a[0]) {
      assert s[1..] == a[1..] + [c] + b;
      RunLengthAppend(a[1..], c, b);
    }
  }

  lemma WordFirst(s: string, k: nat)
    requires s != "" && !IsSpace(s[0]) && k == RunLength(s)
    ensures 0 < k <= |s| && Words(s) == [s[..k]] + Words(s[k..])
  {
    hide IsSpace;
  }

  lemma WordsAfterFirst(a: string, c: char, b: string, k: nat)
    requires a != "" && !IsSpace(a[0]) && k == RunLength(a) == RunLength(a + [c] + b)
    requires Words(a[k..] + [c] + b) == Words(a[k..]) + Words(b)
    ensures Words(a + [c] + b) == Words(a) + Words(b)
  {
    hide RunLength, IsSpace, Words;
    var s := a + [c] + b;
    assert s[0] == a[0];
    WordFirst(a, k);
    WordFirst(s, k);
    assert s[..k] == a[..k] && s[k..] == a[k..] + [c] + b;
    assert [a[..k]] + (Words(a[k..]) + Words(b)) == [a[..k]] + Words(a[k..]) + Words(b);
  }

  /** A white space character separates the words before it from those after it. */
  lemma {:induction false} WordsAppend(a: string, c: char, b: string)
    requires IsSpace(c)
    ensures Words(a + [c] + b) == Words(a) + Words(b)
    decreases |a|
  {
    var s := a + [c] + b;
    if a == "" {
      assert s[1..] == b;
    } else if IsSpace(a[0]) {
      assert s[1..] == a[1..] + [c] + b;
      WordsAppend(a[1..], c, b);
    } else {
      var k := RunLength(a);
      RunLengthAppend(a, c, b);
      WordsAppend(a[k..], c, b);
      WordsAfterFirst(a, c, b, k);
    }
  }

  lemma {:induction false} WordsOfTrimStart(s: string)
    ensures Words(TrimStart(s)) == Words(s)
  {
    if s != "" && IsSpace(s[0]) {
      WordsOfTrimStart(s[1..]);
    }
  }

  lemma {:induction false} WordsOfTrimEnd(s: string)
    ensures Words(TrimEnd(s)) == Words(s)
  {
    if s != "" && IsSpace(s[|s| - 1]) {
      var n := |s| - 1;
      WordsOfTrimEnd(s[..n]);
      assert s == s[..n] + [s[n]] + "";
      WordsAppend(s[..n], s[n], "");
    }
  }

  lemma WordsOfTrim(s: string)
    ensures Words(Trim(s)) == Words(s)
  {
    WordsOfTrimStart(s);
    WordsOfTrimEnd(TrimStart(s));
  }

  /** Splitting at white space undoes joining with spaces. */
  lemma {:induction false} WordsJoin(ws: seq<string>)
    requires forall w | w in ws :: w != "" && SpaceFree(w)
    ensures Words(Join(ws, ' ')) == ws
  {
    if |ws| == 1 {
      WordsOfWord(ws[0]);
    } else if |ws| > 1 {
      WordsJoin(ws[1..]);
      WordsAppend(ws[0], ' ', Join(ws[1..], ' '));
      WordsOfWord(ws[0]);
    }
  }

  // ---------------------------------------------------------------- decimal numbers

  predicate IsDigit(c: char) { '0' <= c <= '9' }

  function Print(n: nat): (s: string)
    ensures s != "" && forall x | x in s :: IsDigit(x)
  {
    var digit := ('0' as int + n % 10) as char;
    if n < 10 then [digit] else Print(n / 10) + [digit]
  }

  /** The number a string of digits denotes. */
  function Number(s: string): (n: nat)
    requires forall x | x in s :: IsDigit(x)
  {
    if s == "" then 0
    else
      assert s[|s| - 1] in s && IsDigit(s[|s| - 1]);
      Number(s[..|s| - 1]) * 10 + (s[|s| - 1] as int - '0' as int)
  }

  /** Parsing an unsigned 32-bit number: digits after an optional plus sign, without overflow. */
  function ParseU32(s: string): Option<u32> {
    var digits := if s != "" && s[0] == '+' then s[1..] else s;
    if digits == "" || exists x | x in digits :: !IsDigit(x) then None
    else if Number(digits) >= U32_LIMIT then None
    else Some(Number(digits))
  }

  lemma {:induction false} NumberPrint(n: nat)
    ensures Number(Print(n)) == n
  {
    var digit := ('0' as int + n % 10) as char;
    if n < 10 {
      assert [digit][..0] == "";
    } else {
      NumberPrint(n / 10);
      assert Print(n)[..|Print(n)| - 1] == Print(n / 10);
    }
  }

  /** Parsing undoes printing. */
  lemma ParsePrint(n: u32)
    ensures ParseU32(Print(n)) == Some(n)
  {
    assert Print(n)[0] in Print(n);
    NumberPrint(n);
  }
}
