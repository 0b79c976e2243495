/** The lexer of `scripts/ci-trace.py`: C string literals and a syscall's arguments. */
module StraceLexer {
  import opened Basics
  import opened Whitespace
  import opened Encodings

  /** Unterminated is the script's own TraceError; Malformed an escape for which `int`, an index or the byte array
      raises an exception the script does not catch. */
  datatype LexError = Unterminated | Malformed

  /** A literal's bytes, the index after it, and whether strace cut it short. */
  datatype Literal = Literal(bytes: seq<Byte>, end: nat, truncated: bool)

  const DOTS: string := "..."

  predicate StartsAt(s: string, i: nat, prefix: string) {
    i + |prefix| <= |s| && s[i..i + |prefix|] == prefix
  }

  // ---- escapes ---------------------------------------------------------------------

  function SimpleEscape(c: char): Option<Byte> {
    if c == 'n' then Some(10)
    else if c == 't' then Some(9)
    else if c == 'r' then Some(13)
    else if c == 'v' then Some(11)
    else if c == 'f' then Some(12)
    else if c == '\\' then Some(92)
    else if c == '"' then Some(34)
    else if c == '\'' then Some(39)
    else None
  }

  predicate IsOctal(c: char) { '0' <= c <= '7' }

  function HexValue(c: char): Option<Byte> {
    if '0' <= c <= '9' then Some(c as int - '0' as int)
    else if 'a' <= c <= 'f' then Some(c as int - 'a' as int + 10)
    else if 'A' <= c <= 'F' then Some(c as int - 'A' as int + 10)
    else None
  }

  /** `int(pair, 16)` of at most two characters, as a byte: spaces around the digits and one sign are accepted; a
      negative value is no byte. */
  function HexByte(pair: string): Option<Byte> {
    hide Strip, IsSpace;
    var t := Strip(pair);
    if |t| == 1 then HexValue(t[0])
    else if |t| != 2 then None
    else if t[0] == '+' then HexValue(t[1])
    else if t[0] == '-' then if HexValue(t[1]) == Some(0) then Some(0) else None
    else
      match (HexValue(t[0]), HexValue(t[1]))
      case (Some(high), Some(low)) => Some(16 * high + low)
      case _ => None
  }

  /** The octal digits at `i`, at most `n` of them. */
  function OctalRun(text: string, i: nat, n: nat): (k: nat)
    ensures k <= n && (k > 0 ==> i + k <= |text|)
    ensures forall j :: i <= j < i + k ==> IsOctal(text[j])
    ensures k < n && i + k < |text| ==> !IsOctal(text[i + k])
    decreases n
  {
    if n == 0 || i >= |text| || !IsOctal(text[i]) then 0
    else
      var k := 1 + OctalRun(text, i + 1, n - 1);
      k
  }

  function OctalValue(digits: string): (v: int)
    requires forall i :: 0 <= i < |digits| ==> IsOctal(digits[i])
    ensures v >= 0
  {
    if digits == "" then 0
    else
      assert IsOctal(digits[|digits| - 1]);
      8 * OctalValue(digits[..|digits| - 1]) + (digits[|digits| - 1] as int - '0' as int)
  }

  /** The bytes an escape at the backslash `i` stands for, and the index after it, or the end of the text when a hex
      pair is cut there: the literal is unterminated either way. */
  function Escape(text: string, i: nat): (r: Option<(seq<Byte>, nat)>)
    requires i < |text|
    ensures r.Some? ==> i < r.value.1 <= |text|
  {
    if i + 1 >= |text| then None
    else
      var c := text[i + 1];
      if SimpleEscape(c).Some? then Some(([SimpleEscape(c).value], i + 2))
      else if c == 'x' then
        (match HexByte(text[i + 2..Min(i + 4, |text|)])
         case Some(b) => Some(([b], Min(i + 4, |text|)))
         case None => None)
      else if '0' <= c <= '9' then
        (var k := OctalRun(text, i + 1, 3);
         if k > 0 && OctalValue(text[i + 1..i + 1 + k]) < 256
         then Some(([OctalValue(text[i + 1..i + 1 + k])], i + 1 + k))
         else None)
      else Some((Utf8Char(c), i + 2))
  }

  // ---- literals ----------------------------------------------------------------------

  /** The rest of a literal whose opening quote is before `i`. */
  function LexFrom(text: string, i: nat): (r: Result<Literal, LexError>)
    ensures r.Ok? ==> i < r.value.end <= |text|
    decreases |text| - i
  {
    if i >= |text| then Err(Unterminated)
    else if text[i] == '"' then
      var truncated := StartsAt(text, i + 1, DOTS);
      Ok(Literal([], i + 1 + (if truncated then 3 else 0), truncated))
    else
      var step := if text[i] == '\\' then Escape(text, i) else Some((Utf8Char(text[i]), i + 1));
      match step
      case None => Err(Malformed)
      case Some((bytes, next)) =>
        PrependBytes(bytes, LexFrom(text, next))
  }

  /** `out` read before the rest of the literal. */
  function PrependBytes(out: seq<Byte>, rest: Result<Literal, LexError>): Result<Literal, LexError> {
    match rest
    case Err(e) => Err(e)
    case Ok(literal) => Ok(literal.(bytes := out + literal.bytes))
  }

  lemma AfterMore(out: seq<Byte>, bytes: seq<Byte>, rest: Result<Literal, LexError>)
    ensures PrependBytes(out, PrependBytes(bytes, rest)) == PrependBytes(out + bytes, rest)
    ensures PrependBytes([], rest) == rest
  {
    if rest.Ok? {
      assert out + (bytes + rest.value.bytes) == (out + bytes) + rest.value.bytes;
      assert [] + rest.value.bytes == rest.value.bytes;
    }
  }

  /** `c_string`: one pass with a moving index. */
  method CString(text: string, at: nat) returns (r: Result<Literal, LexError>)
    requires at < |text| && text[at] == '"'
    ensures r == LexFrom(text, at + 1)
  {
    var out: seq<Byte>, i := [], at + 1;
    AfterMore([], [], LexFrom(text, i));
    while i < |text|
      invariant at < i <= |text|
      invariant LexFrom(text, at + 1) == PrependBytes(out, LexFrom(text, i))
      decreases |text| - i
    {
      var c := text[i];
      if c == '"' {
        var truncated := StartsAt(text, i + 1, DOTS);
        r := Ok(Literal(out, i + 1 + (if truncated then 3 else 0), truncated));
        assert out + [] == out;
        return;
      }
      if c == '\\' {
        var escape := Escape(text, i);
        if escape.None? {
          return Err(Malformed);
        }
        AfterMore(out, escape.value.0, LexFrom(text, escape.value.1));
        out, i := out + escape.value.0, escape.value.1;
      } else {
        AfterMore(out, Utf8Char(c), LexFrom(text, i + 1));
        out, i := out + Utf8Char(c), i + 1;
      }
    }
    r := Err(Unterminated);
  }

  // ---- strace's printer ---------------------------------------------------------------

  /** How a byte is written: itself, `\n` and its like, `\xhh`, or one to three octal digits. */
  datatype Spelling = Plain | Simple | Hex | Octal(width: nat)

  function HexDigit(n: int): (c: char)
    requires 0 <= n < 16
    ensures HexValue(c) == Some(n)
  {
    if n < 10 then ('0' as int + n) as char else ('a' as int + (n - 10)) as char
  }

  function OctalDigit(n: int): (c: char)
    requires 0 <= n < 8
    ensures IsOctal(c) && c as int - '0' as int == n
  {
    ('0' as int + n) as char
  }

  function OctalDigits(n: nat, width: nat): (s: string)
    ensures |s| == width && forall i :: 0 <= i < width ==> IsOctal(s[i])
  {
    if width == 0 then "" else OctalDigits(n / 8, width - 1) + [OctalDigit(n % 8)]
  }

  /** The letter of a simple escape. */
  function SimpleLetter(b: Byte): (c: char)
    requires b in {9, 10, 11, 12, 13, 34, 39, 92}
    ensures SimpleEscape(c) == Some(b)
  {
    if b == 10 then 'n' else if b == 9 then 't' else if b == 13 then 'r' else if b == 11 then 'v'
    else if b == 12 then 'f' else if b == 92 then '\\' else if b == 34 then '"' else '\''
  }

  predicate CanSpell(b: Byte, spelling: Spelling) {
    match spelling
    case Plain => 32 <= b <= 126 && b != 34 && b != 92
    case Simple => b in {9, 10, 11, 12, 13, 34, 39, 92}
    case Hex => true
    case Octal(width) => 1 <= width <= 3 && (width == 1 ==> b < 8) && (width == 2 ==> b < 64)
  }

  function PrintByte(b: Byte, spelling: Spelling): (s: string)
    requires CanSpell(b, spelling)
    ensures s != ""
  {
    match spelling
    case Plain => [b as char]
    case Simple => ['\\', SimpleLetter(b)]
    case Hex => ['\\', 'x', HexDigit(b / 16), HexDigit(b % 16)]
    case Octal(width) => ['\\'] + OctalDigits(b, width)
  }

  /** A byte string with the spelling of each byte. */
  type Spelled = seq<(Byte, Spelling)>

  predicate CanPrint(s: Spelled) { forall i :: 0 <= i < |s| ==> CanSpell(s[i].0, s[i].1) }

  function Print(s: Spelled): string
    requires CanPrint(s)
  {
    if s == [] then "" else PrintByte(s[0].0, s[0].1) + Print(s[1..])
  }

  /** No octal escape shorter than three digits is written before another octal digit. */
  predicate Unambiguous(s: Spelled)
    requires CanPrint(s)
  {
    forall i :: 0 <= i < |s| - 1 && s[i].1.Octal? && s[i].1.width < 3 ==>
      !IsOctal(PrintByte(s[i + 1].0, s[i + 1].1)[0])
  }

  function BytesOf(s: Spelled): (bytes: seq<Byte>)
    ensures |bytes| == |s| && forall i :: 0 <= i < |s| ==> bytes[i] == s[i].0
  {
    seq(|s|, i requires 0 <= i < |s| => s[i].0)
  }

  lemma OctalBack(n: nat, width: nat)
    requires width == 1 ==> n < 8
    requires width == 2 ==> n < 64
    requires width == 3 ==> n < 512
    requires 1 <= width <= 3
    ensures OctalValue(OctalDigits(n, width)) == n
  {
    var s := OctalDigits(n, width);
    assert s[..width - 1] == OctalDigits(n / 8, width - 1);
    if width > 1 { OctalBack(n / 8, width - 1); }
  }

  /** One character or escape at `i`: its bytes and the index after it. */
  function Step(text: string, i: nat): (r: Option<(seq<Byte>, nat)>)
    requires i < |text|
    ensures r.Some? ==> i < r.value.1 <= |text|
  {
    if text[i] == '\\' then Escape(text, i) else Some((Utf8Char(text[i]), i + 1))
  }

  lemma OctalEscape(text: string, i: nat, width: nat)
    requires 1 <= width <= 3 && i + 1 + width <= |text| && text[i] == '\\'
    requires OctalRun(text, i + 1, 3) == width && OctalValue(text[i + 1..i + 1 + width]) < 256
    ensures Step(text, i) == Some(([OctalValue(text[i + 1..i + 1 + width])], i + 1 + width))
  {
    hide OctalValue, OctalRun, HexByte, Utf8Char;
    var c := text[i + 1];
    assert IsOctal(c) && '0' <= c <= '7';
    assert SimpleEscape(c).None? && c != 'x';
  }

  lemma OctalReadsBack(text: string, i: nat, b: Byte, width: nat)
    requires CanSpell(b, Octal(width)) && i + 1 + width <= |text|
    requires text[i] == '\\' && text[i + 1..i + 1 + width] == OctalDigits(b, width)
    requires width < 3 && i + 1 + width < |text| ==> !IsOctal(text[i + 1 + width])
    ensures Step(text, i) == Some(([b], i + 1 + width))
  {
    hide Step, OctalRun, OctalValue, OctalDigits;
    OctalBack(b, width);
    forall j | i + 1 <= j < i + 1 + width ensures IsOctal(text[j]) {
      assert text[j] == text[i + 1..i + 1 + width][j - i - 1];
    }
    OctalRunIs(text, i + 1, width);
    OctalEscape(text, i, width);
  }

  lemma HexReadsBack(text: string, i: nat, b: Byte)
    requires i + 4 <= |text| && text[i] == '\\' && text[i + 1] == 'x'
    requires text[i + 2] == HexDigit(b / 16) && text[i + 3] == HexDigit(b % 16)
    ensures Step(text, i) == Some(([b], i + 4))
  {
    var pair := text[i + 2..i + 4];
    assert |pair| == 2 && pair[0] == HexDigit(b / 16) && pair[1] == HexDigit(b % 16);
    HexPairIsTight(pair, b);
    HexByteOfDigits(pair, b);
    HexStep(text, i, b);
  }

  lemma HexPairIsTight(pair: string, b: Byte)
    requires |pair| == 2 && pair[0] == HexDigit(b / 16) && pair[1] == HexDigit(b % 16)
    ensures Strip(pair) == pair
  {
    assert !IsSpace(pair[0]) && !IsSpace(pair[1]);
    StripAround("", pair, "");
    assert "" + pair + "" == pair;
  }

  lemma HexByteOfDigits(pair: string, b: Byte)
    requires |pair| == 2 && pair[0] == HexDigit(b / 16) && pair[1] == HexDigit(b % 16) && Strip(pair) == pair
    ensures HexByte(pair) == Some(b)
  {
    hide Strip;
    assert pair[0] != '+' && pair[0] != '-';
    assert HexValue(pair[0]) == Some(b / 16) && HexValue(pair[1]) == Some(b % 16);
  }

  lemma HexStep(text: string, i: nat, b: Byte)
    requires i + 4 <= |text| && text[i] == '\\' && text[i + 1] == 'x' && HexByte(text[i + 2..i + 4]) == Some(b)
    ensures Step(text, i) == Some(([b], i + 4))
  {
    hide HexByte, OctalRun, OctalValue, Utf8Char;
    assert SimpleEscape('x').None?;
  }

  lemma SimpleReadsBack(text: string, i: nat, b: Byte)
    requires CanSpell(b, Simple) && i + 2 <= |text| && text[i] == '\\' && text[i + 1] == SimpleLetter(b)
    ensures Step(text, i) == Some(([b], i + 2))
  {
    hide SimpleLetter;
  }

  lemma PlainReadsBack(text: string, i: nat, b: Byte)
    requires CanSpell(b, Plain) && i < |text| && text[i] == b as char
    ensures text[i] != '"' && Step(text, i) == Some(([b], i + 1))
  {
  }

  lemma Prefix(text: string, i: nat, shown: string, rest: string)
    requires i <= |text| && text[i..] == shown + rest
    ensures i + |shown| <= |text| && text[i + |shown|..] == rest && text[i..i + |shown|] == shown
    ensures forall k :: 0 <= k < |shown| ==> text[i + k] == shown[k]
    ensures rest != "" ==> i + |shown| < |text| && text[i + |shown|] == rest[0]
    ensures rest == "" ==> i + |shown| == |text|
  {
    assert text[i..][|shown|..] == rest;
    assert text[i..][..|shown|] == shown;
    assert forall k :: 0 <= k < |shown| ==> text[i + k] == text[i..][k];
  }

  /** A printed byte is read as that byte. */
  lemma ByteReadsBack(text: string, i: nat, b: Byte, spelling: Spelling, rest: string)
    requires CanSpell(b, spelling) && i <= |text| && text[i..] == PrintByte(b, spelling) + rest
    requires spelling.Octal? && spelling.width < 3 && rest != "" ==> !IsOctal(rest[0])
    ensures var next := i + |PrintByte(b, spelling)|;
            i < |text| && text[i] != '"' && next <= |text| && text[next..] == rest && Step(text, i) == Some(([b], next))
  {
    hide Step, IsOctal, SimpleLetter, HexDigit, OctalDigits;
    var shown := PrintByte(b, spelling);
    Prefix(text, i, shown, rest);
    match spelling
    case Octal(width) =>
      assert text[i + 1..i + 1 + width] == shown[1..];
      assert shown[0] == '\\' && shown[1..] == OctalDigits(b, width);
      OctalReadsBack(text, i, b, width);
    case Hex => HexReadsBack(text, i, b);
    case Simple => SimpleReadsBack(text, i, b);
    case Plain => PlainReadsBack(text, i, b);
  }

  lemma OctalRunIs(text: string, i: nat, width: nat)
    requires 1 <= width <= 3 && i + width <= |text|
    requires forall j :: i <= j < i + width ==> IsOctal(text[j])
    requires width < 3 && i + width < |text| ==> !IsOctal(text[i + width])
    ensures OctalRun(text, i, 3) == width
  {
    var k := OctalRun(text, i, 3);
    assert k < 3 && i + k < |text| ==> !IsOctal(text[i + k]);
  }

  lemma ClosingQuote(text: string, i: nat, rest: string)
    requires i <= |text| && text[i..] == ['"'] + rest
    ensures var truncated := StartsAt(rest, 0, DOTS);
            LexFrom(text, i) == Ok(Literal([], i + 1 + (if truncated then 3 else 0), truncated))
  {
    Prefix(text, i, ['"'], rest);
    assert |rest| >= 3 ==> text[i + 1..i + 4] == rest[..3];
  }

  /** The lexer undoes the printer: it returns the bytes, the index after the literal and whether
      the literal was cut short. */
  lemma {:induction false} PrintedLiteralReadsBack(text: string, i: nat, s: Spelled, rest: string)
    requires CanPrint(s) && Unambiguous(s) && i <= |text|
    requires text[i..] == Print(s) + (['"'] + rest)
    ensures var truncated := StartsAt(rest, 0, DOTS);
            LexFrom(text, i) == Ok(Literal(BytesOf(s), i + |Print(s)| + 1 + (if truncated then 3 else 0), truncated))
    decreases |s|
  {
    hide PrintByte, Escape, StartsAt;
    if s == [] {
      assert Print(s) + (['"'] + rest) == ['"'] + rest;
      ClosingQuote(text, i, rest);
    } else {
      var shown := PrintByte(s[0].0, s[0].1);
      var more := Print(s[1..]) + (['"'] + rest);
      assert text[i..] == shown + more;
      assert |s| > 1 ==> more[0] == PrintByte(s[1].0, s[1].1)[0];
      assert |s| == 1 ==> more == ['"'] + rest;
      ByteReadsBack(text, i, s[0].0, s[0].1, more);
      PrintedLiteralReadsBack(text, i + |shown|, s[1..], rest);
      assert BytesOf(s) == [s[0].0] + BytesOf(s[1..]);
    }
  }
}
