/** The verifier's hand-written encodings: UTF-8 text, the DSSE v1 Pre-Authentication Encoding
    and Rust-debug quoting. */
module Encodings {
  import opened Basics
  import opened Decimal

  type Byte = b: int | 0 <= b < 256

  // ---- UTF-8 --------------------------------------------------------------------

  function Utf8Char(c: char): (bytes: seq<Byte>)
    ensures |bytes| >= 1
  {
    var n := c as int;
    if n < 0x80 then [n]
    else if n < 0x800 then [0xC0 + n / 0x40, 0x80 + n % 0x40]
    else if n < 0x10000 then [0xE0 + n / 0x1000, 0x80 + n / 0x40 % 0x40, 0x80 + n % 0x40]
    else [0xF0 + n / 0x40000, 0x80 + n / 0x1000 % 0x40, 0x80 + n / 0x40 % 0x40, 0x80 + n % 0x40]
  }

  function Utf8(s: string): seq<Byte> {
    if s == "" then [] else Utf8Char(s[0]) + Utf8(s[1..])
  }

  /** The length of a character's encoding, told by its first byte. */
  function Utf8Length(first: Byte): nat {
    if first < 0x80 then 1 else if first < 0xE0 then 2 else if first < 0xF0 then 3 else 4
  }

  lemma FirstByteTellsLength(c: char)
    ensures |Utf8Char(c)| == Utf8Length(Utf8Char(c)[0])
  {
  }

  /** The code point an encoded character carries. */
  function CodePoint(b: seq<int>): int
    requires 1 <= |b| <= 4
  {
    if |b| == 1 then b[0]
    else if |b| == 2 then (b[0] - 0xC0) * 0x40 + (b[1] - 0x80)
    else if |b| == 3 then (b[0] - 0xE0) * 0x1000 + (b[1] - 0x80) * 0x40 + (b[2] - 0x80)
    else (b[0] - 0xF0) * 0x40000 + (b[1] - 0x80) * 0x1000 + (b[2] - 0x80) * 0x40 + (b[3] - 0x80)
  }

  lemma CodePointBack(c: char)
    ensures |Utf8Char(c)| <= 4 && CodePoint(Utf8Char(c)) == c as int
  {
    var n := c as int;
    assert n / 0x40 == 0x40 * (n / 0x1000) + n / 0x40 % 0x40;
    assert n / 0x1000 == 0x40 * (n / 0x40000) + n / 0x1000 % 0x40;
  }

  lemma Utf8CharIsPrefixCode(x: char, y: char, p: seq<Byte>, q: seq<Byte>)
    requires Utf8Char(x) + p == Utf8Char(y) + q
    ensures x == y && p == q
  {
    hide Utf8Char, CodePoint, Utf8Length;
    var a, b := Utf8Char(x), Utf8Char(y);
    FirstByteTellsLength(x);
    FirstByteTellsLength(y);
    assert (a + p)[0] == a[0] && (b + q)[0] == b[0];
    assert (a + p)[..|a|] == a && (b + q)[..|a|] == b;
    assert (a + p)[|a|..] == p && (b + q)[|a|..] == q;
    CodePointBack(x);
    CodePointBack(y);
    assert x as int == y as int;
  }

  lemma {:induction false} Utf8IsInjective(s: string, t: string)
    requires Utf8(s) == Utf8(t)
    ensures s == t
  {
    hide Utf8Char;
    if s != "" && t != "" {
      Utf8CharIsPrefixCode(s[0], t[0], Utf8(s[1..]), Utf8(t[1..]));
      Utf8IsInjective(s[1..], t[1..]);
      assert s == [s[0]] + s[1..] && t == [t[0]] + t[1..];
    }
  }

  // ---- the Pre-Authentication Encoding (DSSE v1 protocol) --------------------------

  const SPACE: Byte := 32

  function Ascii(digits: string): (bytes: seq<Byte>)
    requires AllDigits(digits)
    ensures |bytes| == |digits| && forall i :: 0 <= i < |bytes| ==> bytes[i] == digits[i] as int
  {
    seq(|digits|, i requires 0 <= i < |digits| => digits[i] as int)
  }

  /** A length, a space, the bytes. */
  function Sized(body: seq<Byte>): seq<Byte> {
    Ascii(Shown(|body|)) + [SPACE] + body
  }

  function Pae(payloadType: string, payload: seq<Byte>): seq<Byte> {
    [68, 83, 83, 69, 118, 49, 32] + (Sized(Utf8(payloadType)) + ([SPACE] + Sized(payload)))
  }

  lemma SizedIsPrefixCode(a: seq<Byte>, b: seq<Byte>, x: seq<Byte>, y: seq<Byte>)
    requires Sized(a) + x == Sized(b) + y
    ensures a == b && x == y
  {
    var m, n := Shown(|a|), Shown(|b|);
    var s, t := Sized(a) + x, Sized(b) + y;
    assert s[|m|] == SPACE && t[|n|] == SPACE;
    assert forall i :: 0 <= i < |m| ==> s[i] == m[i] as int;
    assert forall i :: 0 <= i < |n| ==> t[i] == n[i] as int;
    assert |m| == |n|;
    assert m == n by {
      forall i | 0 <= i < |m| ensures m[i] == n[i] { assert m[i] as int == n[i] as int; }
    }
    assert |a| == |b|;
    var k := |m| + 1;
    assert s[k..k + |a|] == a && t[k..k + |b|] == b;
    assert s[k + |a|..] == x && t[k + |b|..] == y;
  }

  /** One encoding, one payload type and one payload. */
  lemma PaeIsInjective(typeA: string, payloadA: seq<Byte>, typeB: string, payloadB: seq<Byte>)
    ensures Pae(typeA, payloadA) == Pae(typeB, payloadB) <==> typeA == typeB && payloadA == payloadB
  {
    hide Sized, Utf8;
    if Pae(typeA, payloadA) == Pae(typeB, payloadB) {
      var restA := Sized(Utf8(typeA)) + ([SPACE] + Sized(payloadA));
      var restB := Sized(Utf8(typeB)) + ([SPACE] + Sized(payloadB));
      assert restA == Pae(typeA, payloadA)[7..] && restB == Pae(typeB, payloadB)[7..];
      SizedIsPrefixCode(Utf8(typeA), Utf8(typeB), [SPACE] + Sized(payloadA), [SPACE] + Sized(payloadB));
      Utf8IsInjective(typeA, typeB);
      assert Sized(payloadA) + [] == ([SPACE] + Sized(payloadA))[1..];
      assert Sized(payloadB) + [] == ([SPACE] + Sized(payloadB))[1..];
      SizedIsPrefixCode(payloadA, payloadB, [], []);
    }
  }

  // ---- Rust-debug quoting ------------------------------------------------------------

  /** `s.replace(c, put)` of one character. */
  function Replace(s: string, c: char, put: string): string {
    if s == "" then "" else (if s[0] == c then put else [s[0]]) + Replace(s[1..], c, put)
  }

  function RustDebug(value: string): string {
    ['"'] + (Replace(Replace(value, '\\', ['\\', '\\']), '"', ['\\', '"']) + ['"'])
  }

  function Escaped(s: string): string {
    if s == "" then ""
    else (if s[0] == '\\' || s[0] == '"' then ['\\', s[0]] else [s[0]]) + Escaped(s[1..])
  }

  lemma {:induction false} ReplaceOfConcat(a: string, b: string, c: char, put: string)
    ensures Replace(a + b, c, put) == Replace(a, c, put) + Replace(b, c, put)
  {
    if a == "" {
      assert a + b == b;
    } else {
      assert (a + b)[1..] == a[1..] + b;
      ReplaceOfConcat(a[1..], b, c, put);
    }
  }

  /** The two passes escape each character once: backslashes first, so no pass escapes another's. */
  lemma {:induction false} TwoPassesAreOne(s: string)
    ensures Replace(Replace(s, '\\', ['\\', '\\']), '"', ['\\', '"']) == Escaped(s)
  {
    if s != "" {
      var head := if s[0] == '\\' then ['\\', '\\'] else [s[0]];
      ReplaceOfConcat(head, Replace(s[1..], '\\', ['\\', '\\']), '"', ['\\', '"']);
      TwoPassesAreOne(s[1..]);
      if s[0] == '\\' {
        assert Replace(head, '"', ['\\', '"']) == head by {
          assert head[1..] == ['\\'];
          assert ['\\'][1..] == "";
        }
      } else {
        assert [s[0]][1..] == "";
      }
    }
  }

  /** The text up to the closing quote, unescaped, and what follows the quote. */
  function ReadQuoted(s: string): Option<(string, string)> {
    if s == "" then None
    else if s[0] == '"' then Some(("", s[1..]))
    else
      var n := if s[0] == '\\' then 2 else 1;
      if n > |s| then None
      else
        match ReadQuoted(s[n..])
        case Some((text, rest)) => Some(([s[n - 1]] + text, rest))
        case None => None
  }

  lemma {:induction false} QuotedReadsBack(text: string, rest: string)
    ensures ReadQuoted(Escaped(text) + (['"'] + rest)) == Some((text, rest))
  {
    var s := Escaped(text) + (['"'] + rest);
    if text == "" {
      assert s == ['"'] + rest;
    } else {
      var head := if text[0] == '\\' || text[0] == '"' then ['\\', text[0]] else [text[0]];
      assert s == head + (Escaped(text[1..]) + (['"'] + rest));
      assert s[|head|..] == Escaped(text[1..]) + (['"'] + rest);
      QuotedReadsBack(text[1..], rest);
      assert text == [text[0]] + text[1..];
    }
  }

  /** A quoted text ends where its quote ends, so what follows can be read on. */
  lemma RustDebugIsPrefixCode(a: string, b: string, x: string, y: string)
    requires RustDebug(a) + x == RustDebug(b) + y
    ensures a == b && x == y
  {
    hide Escaped, Replace, ReadQuoted;
    TwoPassesAreOne(a);
    TwoPassesAreOne(b);
    QuotedReadsBack(a, x);
    QuotedReadsBack(b, y);
    assert (RustDebug(a) + x)[1..] == Escaped(a) + (['"'] + x);
    assert (RustDebug(b) + y)[1..] == Escaped(b) + (['"'] + y);
  }

  // ---- topic sets ------------------------------------------------------------------------

  function SetOf(names: seq<string>): set<string> { set name | name in names }

  function QuoteAll(names: seq<string>): (quoted: seq<string>)
    ensures |quoted| == |names|
  {
    seq(|names|, i requires 0 <= i < |names| => RustDebug(names[i]))
  }

  function RenderTopicSet(names: seq<string>): string {
    "{" + (Join(", ", QuoteAll(Sorted(SetOf(names)))) + "}")
  }

  /** The separators and the closing brace that follow the first quoted name. */
  function AfterFirst(names: seq<string>): string
    requires names != []
  {
    if |names| == 1 then "}" else ", " + (Join(", ", QuoteAll(names[1..])) + "}")
  }

  lemma FirstName(names: seq<string>)
    requires names != []
    ensures Join(", ", QuoteAll(names)) + "}" == RustDebug(names[0]) + AfterFirst(names)
  {
    hide RustDebug;
    assert QuoteAll(names)[1..] == QuoteAll(names[1..]);
  }

  lemma {:induction false} ListsReadBack(a: seq<string>, b: seq<string>)
    requires Join(", ", QuoteAll(a)) + "}" == Join(", ", QuoteAll(b)) + "}"
    ensures a == b
  {
    hide RustDebug;
    if a == [] || b == [] {
      if a != [] { FirstName(a); StartsWithQuote(a[0]); }
      if b != [] { FirstName(b); StartsWithQuote(b[0]); }
    } else {
      FirstName(a);
      FirstName(b);
      RustDebugIsPrefixCode(a[0], b[0], AfterFirst(a), AfterFirst(b));
      assert AfterFirst(a)[0] == AfterFirst(b)[0];
      if |a| > 1 {
        assert AfterFirst(a)[2..] == Join(", ", QuoteAll(a[1..])) + "}";
        assert AfterFirst(b)[2..] == Join(", ", QuoteAll(b[1..])) + "}";
        ListsReadBack(a[1..], b[1..]);
      }
      assert a == [a[0]] + a[1..] && b == [b[0]] + b[1..];
    }
  }

  lemma StartsWithQuote(name: string)
    ensures RustDebug(name) != "" && RustDebug(name)[0] == '"'
  {
  }

  /** Two rendered topic sets are the same text exactly when the sets are the same. */
  lemma RenderedSetsAreSets(a: seq<string>, b: seq<string>)
    ensures RenderTopicSet(a) == RenderTopicSet(b) <==> SetOf(a) == SetOf(b)
  {
    hide RustDebug, Join;
    if RenderTopicSet(a) == RenderTopicSet(b) {
      assert RenderTopicSet(a)[1..] == Join(", ", QuoteAll(Sorted(SetOf(a)))) + "}";
      assert RenderTopicSet(b)[1..] == Join(", ", QuoteAll(Sorted(SetOf(b)))) + "}";
      ListsReadBack(Sorted(SetOf(a)), Sorted(SetOf(b)));
      assert forall x :: x in SetOf(a) <==> x in SetOf(b);
    }
  }
}
