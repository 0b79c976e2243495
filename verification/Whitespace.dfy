/** Python's `str.strip`, by the characters `str.isspace` counts. */
module Whitespace {

  predicate IsSpace(c: char) {
    var n := c as int;
    9 <= n <= 13 || 28 <= n <= 32 || n == 0x85 || n == 0xA0 || n == 0x1680 || 0x2000 <= n <= 0x200A
    || n == 0x2028 || n == 0x2029 || n == 0x202F || n == 0x205F || n == 0x3000
  }

  predicate Blank(s: string) { forall i :: 0 <= i < |s| ==> IsSpace(s[i]) }

  predicate StartsTight(s: string) { s == "" || !IsSpace(s[0]) }

  predicate EndsTight(s: string) { s == "" || !IsSpace(s[|s| - 1]) }

  function LeftStrip(s: string): (r: string)
    ensures StartsTight(r) && |r| <= |s| && s[|s| - |r|..] == r && Blank(s[..|s| - |r|])
  {
    if s == "" || !IsSpace(s[0]) then s
    else
      var r := LeftStrip(s[1..]);
      assert s[..|s| - |r|] == [s[0]] + s[1..][..|s| - 1 - |r|];
      r
  }

  function RightStrip(s: string): (r: string)
    ensures EndsTight(r) && |r| <= |s| && s[..|r|] == r && Blank(s[|r|..])
  {
    if s == "" || !IsSpace(s[|s| - 1]) then s
    else
      var r := RightStrip(s[..|s| - 1]);
      assert s[|r|..] == s[..|s| - 1][|r|..] + [s[|s| - 1]];
      r
  }

  function Strip(s: string): string { RightStrip(LeftStrip(s)) }

  /** Whitespace around a text that has none at its ends is exactly what stripping removes. */
  lemma StripAround(left: string, core: string, right: string)
    requires Blank(left) && Blank(right) && StartsTight(core) && EndsTight(core)
    ensures Strip(left + core + right) == core
  {
    if core == "" {
      assert Blank(left + core + right);
      StripOfBlank(left + core + right);
    } else {
      LeftStripAround(left, core + right);
      assert left + (core + right) == left + core + right;
      RightStripAround(core, right);
    }
  }

  lemma {:induction false} LeftStripAround(left: string, core: string)
    requires Blank(left) && core != "" && !IsSpace(core[0])
    ensures LeftStrip(left + core) == core
  {
    if left == "" {
      assert left + core == core;
    } else {
      assert (left + core)[1..] == left[1..] + core;
      LeftStripAround(left[1..], core);
    }
  }

  lemma {:induction false} RightStripAround(core: string, right: string)
    requires Blank(right) && EndsTight(core)
    ensures RightStrip(core + right) == core
  {
    if right == "" {
      assert core + right == core;
    } else {
      var s := core + right;
      assert s[|s| - 1] == right[|right| - 1];
      assert s[..|s| - 1] == core + right[..|right| - 1];
      RightStripAround(core, right[..|right| - 1]);
    }
  }

  lemma {:induction false} StripOfBlank(s: string)
    requires Blank(s)
    ensures LeftStrip(s) == "" && Strip(s) == ""
  {
    if s != "" { StripOfBlank(s[1..]); }
  }

  /** The parts of a text: blank ends around its stripped core. */
  lemma StripParts(s: string) returns (left: string, right: string)
    ensures s == left + Strip(s) + right && Blank(left) && Blank(right)
    ensures StartsTight(Strip(s)) && EndsTight(Strip(s))
  {
    hide IsSpace, LeftStrip, RightStrip;
    var l := LeftStrip(s);
    left, right := s[..|s| - |l|], l[|Strip(s)|..];
    assert l == Strip(s) + right;
    assert s == left + l;
    if Strip(s) != "" { assert Strip(s)[0] == l[0]; }
  }
}
