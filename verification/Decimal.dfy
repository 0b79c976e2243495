/** ASCII decimal text: Python's `int` of a digit run and its `0Nd` format. */
module Decimal {

  predicate IsDigit(c: char) { '0' <= c <= '9' }

  predicate AllDigits(s: string) { forall i :: 0 <= i < |s| ==> IsDigit(s[i]) }

  function DigitChar(d: int): (c: char)
    requires 0 <= d < 10
    ensures IsDigit(c) && DigitValue(c) == d
  {
    ('0' as int + d) as char
  }

  function DigitValue(c: char): int { c as int - '0' as int }

  function Pow10(n: nat): (p: int)
    ensures p >= 1
  {
    if n == 0 then 1 else 10 * Pow10(n - 1)
  }

  function Number(s: string): (n: int)
    requires AllDigits(s)
    ensures 0 <= n < Pow10(|s|)
  {
    if s == "" then 0 else 10 * Number(s[..|s| - 1]) + DigitValue(s[|s| - 1])
  }

  /** `f"{n:0wd}"` of a number that is not negative. */
  function Padded(n: nat, w: nat): (s: string)
    ensures s != "" && |s| >= w && AllDigits(s) && Number(s) == n
  {
    if n < 10 && w <= 1 then [DigitChar(n)]
    else Padded(n / 10, if w == 0 then 0 else w - 1) + [DigitChar(n % 10)]
  }

  /** `str(n)`. */
  function Shown(n: nat): string { Padded(n, 0) }

  /** `f"{n:0wd}"`: the sign takes one column of the width. */
  function PaddedInt(n: int, w: nat): string {
    if n >= 0 then Padded(n, w) else "-" + Padded(-n, if w == 0 then 0 else w - 1)
  }

  lemma {:induction false} PaddedWidth(n: nat, w: nat)
    requires w >= 1
    ensures |Padded(n, w)| == w <==> n < Pow10(w)
    decreases w, n
  {
    if n < 10 && w <= 1 {
      assert Pow10(1) == 10;
    } else if w == 1 {
      assert Pow10(1) == 10;
    } else {
      PaddedWidth(n / 10, w - 1);
    }
  }

  lemma Scale(n: int, p: int)
    ensures 10 * (n * p) == n * (10 * p)
  {
  }

  lemma {:induction false} NumberOfConcat(a: string, b: string)
    requires AllDigits(a) && AllDigits(b)
    ensures AllDigits(a + b) && Number(a + b) == Number(a) * Pow10(|b|) + Number(b)
  {
    if b == "" {
      assert a + b == a;
    } else {
      var b' := b[..|b| - 1];
      assert (a + b)[..|a + b| - 1] == a + b';
      NumberOfConcat(a, b');
      Scale(Number(a), Pow10(|b'|));
    }
  }

  function Zeros(n: nat): (s: string)
    ensures |s| == n && AllDigits(s) && Number(s) == 0
  {
    if n == 0 then "" else Zeros(n - 1) + "0"
  }

  /** The digits at the front of `s`. */
  function DigitRun(s: string): (n: nat)
    ensures n <= |s| && AllDigits(s[..n]) && (n < |s| ==> !IsDigit(s[n]))
  {
    if s == "" || !IsDigit(s[0]) then 0
    else
      var n := 1 + DigitRun(s[1..]);
      assert s[1..][..n - 1] == s[1..n];
      n
  }

  lemma {:induction false} DigitRunIs(a: string, rest: string)
    requires AllDigits(a) && (rest == "" || !IsDigit(rest[0]))
    ensures DigitRun(a + rest) == |a|
  {
    if a == "" {
      assert a + rest == rest;
    } else {
      assert (a + rest)[1..] == a[1..] + rest;
      DigitRunIs(a[1..], rest);
    }
  }
}
