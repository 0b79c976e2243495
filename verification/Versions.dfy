/** Version strings and the gates they open: `_major`, `_minor`, `_receipt_parse_semver` and the
    `_defines_*` functions of `docs/verify_scorecard.py`. */
module Versions {
  import opened Basics
  import opened Decimal

  const U64_END: int := 0x1_0000_0000_0000_0000

  type U64 = n: int | 0 <= n < U64_END
  type U32 = n: int | 0 <= n < 0x1_0000_0000

  /** `s.split(".")`. */
  function Fields(s: string): (fields: seq<string>)
    ensures |fields| >= 1
  {
    if s == "" then [""]
    else
      var rest := Fields(s[1..]);
      if s[0] == '.' then [""] + rest else [[s[0]] + rest[0]] + rest[1..]
  }

  lemma FieldsOfThreeDigits(a: char, b: char, c: char)
    requires IsDigit(a) && IsDigit(b) && IsDigit(c)
    ensures Fields([a, '.', b, '.', c]) == [[a], [b], [c]]
  {
    FieldsAfter(c, "");
    FieldsAfter(b, ['.', c]);
    FieldsAfter(a, ['.', b, '.', c]);
    assert [c] == [c] + "" && [b, '.', c] == [b] + ['.', c] && [a, '.', b, '.', c] == [a] + ['.', b, '.', c];
    assert ['.', c][1..] == [c] && ['.', b, '.', c][1..] == [b, '.', c];
    assert [a] + "" == [a] && [b] + "" == [b] && [c] + "" == [c];
  }

  lemma FieldsAfter(c: char, rest: string)
    requires c != '.'
    ensures Fields([c] + rest) == [[c] + Fields(rest)[0]] + Fields(rest)[1..]
  {
    assert ([c] + rest)[1..] == rest;
  }

  /** Rust's `str::parse::<u64>`: an optional `+`, then digits, below 2 to the 64. */
  function ParseU64(s: string): Option<nat> {
    var digits := if s != "" && s[0] == '+' then s[1..] else s;
    if digits != "" && AllDigits(digits) && Number(digits) < U64_END then Some(Number(digits)) else None
  }

  function Major(version: string): Option<nat> { ParseU64(Fields(version)[0]) }

  function Minor(version: string): Option<nat> {
    if |Fields(version)| < 2 then None else ParseU64(Fields(version)[1])
  }

  /** The whole string is three integers. */
  function Semver(version: string): Option<(nat, nat, nat)> {
    var f := Fields(version);
    if |f| != 3 || ParseU64(f[0]).None? || ParseU64(f[1]).None? || ParseU64(f[2]).None? then None
    else Some((ParseU64(f[0]).value, ParseU64(f[1]).value, ParseU64(f[2]).value))
  }

  // ---- the gates -----------------------------------------------------------------

  predicate AtLeast(minor: Option<nat>, since: nat) { minor.Some? && minor.value >= since }

  /** A field format 1 added at `since`: format 2 has every one of them. */
  predicate DefinesFormat1Minor(version: string, since: nat) {
    if Major(version) == Some(1) then AtLeast(Minor(version), since) else Major(version) == Some(2)
  }

  /** A field of both formats, each from its own minor. */
  predicate DefinesFrom(version: string, since1: nat, since2: nat) {
    (Major(version) == Some(1) && AtLeast(Minor(version), since1))
    || (Major(version) == Some(2) && AtLeast(Minor(version), since2))
  }

  predicate DefinesOriginalName(version: string) { Major(version) == Some(1) && AtLeast(Minor(version), 8) }

  predicate DefinesConsoleApproval(version: string) { DefinesFrom(version, 9, 1) }

  predicate DefinesTargetCreation(version: string) { DefinesFrom(version, 10, 2) }

  predicate DefinesTopicConfiguration(version: string) { DefinesFrom(version, 11, 3) }

  predicate DefinesPositionsMapping(version: string) { DefinesFrom(version, 12, 4) }

  predicate DefinesSchemas(version: string) { DefinesFrom(version, 13, 5) }

  /** The same major and a minor as high; a version without a readable minor is below every other. */
  predicate NotOlder(version: string, later: string) {
    Major(version) == Major(later)
    && (Minor(version).Some? ==> Minor(later).Some? && Minor(version).value <= Minor(later).value)
  }

  /** The authentication modes of the first format, and those PROD-01.3 added to both documents. */
  predicate IsOriginalMode(mode: string) { mode == "plaintext" || mode == "scramSha512" }

  predicate IsAddedMode(mode: string) { mode == "scramSha256" || mode == "plain" || mode == "mtls" }

  /** Text whitespace as Rust's `char::is_whitespace` has it. */
  predicate IsRustSpace(c: char) {
    var n := c as int;
    9 <= n <= 13 || n == 32 || n == 0x85 || n == 0xA0 || n == 0x1680 || 0x2000 <= n <= 0x200A
    || n == 0x2028 || n == 0x2029 || n == 0x202F || n == 0x205F || n == 0x3000
  }

  predicate RustBlank(s: string) { forall i :: 0 <= i < |s| ==> IsRustSpace(s[i]) }

  /** An absent text is a blank one. */
  predicate Named(s: Option<string>) { s.Some? && !RustBlank(s.value) }

  /** `sha256:` and 64 lower-case hexadecimal digits. */
  predicate IsSha256Prefixed(s: string) {
    |s| == 71 && s[..7] == "sha256:"
    && forall i :: 7 <= i < 71 ==> '0' <= s[i] <= '9' || 'a' <= s[i] <= 'f'
  }

  predicate DistinctStrings(s: seq<string>) { forall i, j :: 0 <= i < j < |s| ==> s[i] != s[j] }

  predicate Ascending(s: seq<int>) { forall i :: 0 <= i < |s| - 1 ==> s[i] < s[i + 1] }
}
