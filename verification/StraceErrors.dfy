/** Which texts and traces `scripts/ci-trace.py` cannot read: where a malformed escape raises an exception that the
    script does not catch, and which call's error ends the replay. */
module StraceErrors {
  import opened Basics
  import opened Whitespace
  import opened Encodings
  import opened PosixPath
  import opened StraceLexer
  import opened StraceArgs
  import opened StraceEvents
  import opened StraceReplay
  import opened TraceCheck
  import opened Decimal

  // ---- escapes -------------------------------------------------------------------------------

  /** A backslash at `p` that is the last character, or before `8` or `9`, or before `x` and a pair `int` refuses, or
      before three octal digits that come to more than a byte. */
  predicate BadEscape(text: string, p: nat) {
    p < |text| && text[p] == '\\'
    && (p + 1 == |text|
        || text[p + 1] == '8' || text[p + 1] == '9'
        || (text[p + 1] == 'x' && HexByte(text[p + 2..Min(p + 4, |text|)]).None?)
        || (p + 3 < |text| && '4' <= text[p + 1] <= '7' && IsOctal(text[p + 2]) && IsOctal(text[p + 3])))
  }

  lemma OctalRuns(text: string, i: nat)
    requires i < |text| && IsOctal(text[i])
    ensures OctalRun(text, i, 3) >= 1
    ensures OctalRun(text, i, 3) == 3 <==> i + 2 < |text| && IsOctal(text[i + 1]) && IsOctal(text[i + 2])
  {
    assert OctalRun(text, i + 1, 2) <= 2;
    if i + 1 < |text| && IsOctal(text[i + 1]) {
      assert OctalRun(text, i + 2, 1) <= 1;
      assert i + 2 < |text| && IsOctal(text[i + 2]) ==> OctalRun(text, i + 2, 1) == 1 + OctalRun(text, i + 3, 0);
    }
  }

  lemma OctalOfRun(digits: string)
    requires 1 <= |digits| <= 3 && forall i :: 0 <= i < |digits| ==> IsOctal(digits[i])
    ensures OctalValue(digits) >= 256 <==> |digits| == 3 && digits[0] >= '4'
  {
    var d := digits[..|digits| - 1];
    assert forall i :: 0 <= i < |d| ==> IsOctal(d[i]);
    assert d != "" ==> OctalValue(d) == 8 * OctalValue(d[..|d| - 1]) + (d[|d| - 1] as int - '0' as int);
    if |d| == 2 {
      assert d[..1][..0] == "";
      assert OctalValue(d[..1]) == digits[0] as int - '0' as int;
    }
    if |d| == 1 { assert d[..0] == ""; }
  }

  lemma OctalEscapes(text: string, p: nat)
    requires p + 1 < |text| && IsOctal(text[p + 1])
    ensures var k := OctalRun(text, p + 1, 3);
            OctalValue(text[p + 1..p + 1 + k]) >= 256 <==>
            p + 3 < |text| && text[p + 1] >= '4' && IsOctal(text[p + 2]) && IsOctal(text[p + 3])
  {
    hide OctalValue, OctalRun;
    OctalRuns(text, p + 1);
    OctalOfRun(text[p + 1..p + 1 + OctalRun(text, p + 1, 3)]);
  }

  /** A character is read unless it begins a bad escape. */
  lemma StepFails(text: string, p: nat)
    requires p < |text|
    ensures Step(text, p).None? <==> BadEscape(text, p)
  {
    hide OctalValue, OctalRun, HexByte, Utf8Char;
    if text[p] == '\\' && p + 1 < |text| && IsOctal(text[p + 1]) {
      OctalRuns(text, p + 1);
      OctalEscapes(text, p);
    }
    if text[p] == '\\' && p + 1 < |text| && (text[p + 1] == '8' || text[p + 1] == '9') {
      NoOctalRun(text, p + 1);
    }
  }

  lemma NoOctalRun(text: string, i: nat)
    requires i < |text| && !IsOctal(text[i])
    ensures OctalRun(text, i, 3) == 0
  {
  }

  // ---- literals -------------------------------------------------------------------------------

  /** The characters and escapes of a literal read one after another, none of them its closing quote. */
  predicate IsWalk(text: string, path: seq<nat>) {
    path != []
    && forall k :: 0 <= k < |path| - 1 ==>
         path[k] < |text| && text[path[k]] != '"' && Step(text, path[k]).Some?
         && path[k + 1] == Step(text, path[k]).value.1
  }

  /** Reading from `i` comes to a bad escape before any closing quote. */
  ghost predicate ComesToABadEscape(text: string, i: nat) {
    exists path :: IsWalk(text, path) && path[0] == i && BadEscape(text, path[|path| - 1])
  }

  lemma {:induction false} MalformedWalk(text: string, i: nat) returns (path: seq<nat>)
    requires LexFrom(text, i) == Err(Malformed)
    ensures IsWalk(text, path) && path[0] == i && BadEscape(text, path[|path| - 1])
    decreases |text| - i
  {
    hide BadEscape, Escape, Utf8Char;
    StepFails(text, i);
    if Step(text, i).None? {
      path := [i];
    } else {
      var next := Step(text, i).value.1;
      var rest := MalformedWalk(text, next);
      path := [i] + rest;
      forall k | 0 <= k < |path| - 1
        ensures path[k] < |text| && text[path[k]] != '"' && Step(text, path[k]).Some?
                && path[k + 1] == Step(text, path[k]).value.1
      {
        if k > 0 { assert rest[k - 1] == path[k] && rest[k] == path[k + 1]; }
      }
    }
  }

  lemma {:induction false} WalkIsMalformed(text: string, path: seq<nat>)
    requires IsWalk(text, path) && BadEscape(text, path[|path| - 1])
    ensures LexFrom(text, path[0]) == Err(Malformed)
    decreases |path|
  {
    hide Escape, Utf8Char;
    var i := path[0];
    if |path| == 1 {
      StepFails(text, i);
    } else {
      var rest := path[1..];
      forall k | 0 <= k < |rest| - 1
        ensures rest[k] < |text| && text[rest[k]] != '"' && Step(text, rest[k]).Some?
                && rest[k + 1] == Step(text, rest[k]).value.1
      {
        assert rest[k] == path[k + 1] && rest[k + 1] == path[k + 2];
      }
      WalkIsMalformed(text, rest);
    }
  }

  /** A literal is malformed exactly when reading it comes to a bad escape before its closing quote. */
  lemma MalformedIsABadEscape(text: string, i: nat)
    ensures LexFrom(text, i) == Err(Malformed) <==> ComesToABadEscape(text, i)
  {
    hide LexFrom, BadEscape, Step;
    if LexFrom(text, i) == Err(Malformed) {
      var path := MalformedWalk(text, i);
    }
    if ComesToABadEscape(text, i) {
      var path :| IsWalk(text, path) && path[0] == i && BadEscape(text, path[|path| - 1]);
      WalkIsMalformed(text, path);
    }
  }

  // ---- argument texts ---------------------------------------------------------------------------

  /** The next place the splitter stands at, and how deep in brackets; None where it stops. */
  function Advance(body: string, i: nat, depth: nat): Option<(nat, nat)> {
    if i >= |body| then None
    else if body[i] == '"' then
      (if LexFrom(body, i + 1).Ok? then Some((LexFrom(body, i + 1).value.end, depth)) else None)
    else if Opens(body[i]) then Some((i + 1, depth + 1))
    else if Closes(body[i]) then (if depth == 0 then None else Some((i + 1, depth - 1)))
    else Some((i + 1, depth))
  }

  predicate IsScan(body: string, path: seq<(nat, nat)>) {
    path != []
    && forall k :: 0 <= k < |path| - 1 ==> Advance(body, path[k].0, path[k].1) == Some(path[k + 1])
  }

  /** The splitter comes to the quote at `q` from index `i`, `depth` brackets deep. */
  ghost predicate ScansTo(body: string, i: nat, depth: nat, q: nat) {
    q < |body| && body[q] == '"'
    && exists path: seq<(nat, nat)> :: IsScan(body, path) && path[0] == (i, depth) && path[|path| - 1].0 == q
  }

  lemma {:induction false} FailedScan(body: string, i: nat, depth: nat, cur: string) returns (path: seq<(nat, nat)>)
    requires ArgsFrom(body, i, depth, cur).Err?
    ensures IsScan(body, path) && path[0] == (i, depth)
    ensures var q := path[|path| - 1].0;
            q < |body| && body[q] == '"' && LexFrom(body, q + 1) == Err(ArgsFrom(body, i, depth, cur).error)
    decreases |body| - i
  {
    hide LexFrom, Strip;
    var next := Advance(body, i, depth);
    if next.None? {
      path := [(i, depth)];
    } else {
      var c := body[i];
      var rest;
      if c == '"' {
        rest := FailedScan(body, next.value.0, depth, cur + body[i..next.value.0]);
      } else if c == ',' && depth == 0 {
        rest := FailedScan(body, i + 1, 0, "");
      } else {
        rest := FailedScan(body, i + 1, next.value.1, cur + [c]);
      }
      path := [(i, depth)] + rest;
      ScanGrows(body, i, depth, rest);
    }
  }

  lemma ScanGrows(body: string, i: nat, depth: nat, rest: seq<(nat, nat)>)
    requires IsScan(body, rest) && Advance(body, i, depth) == Some(rest[0])
    ensures IsScan(body, [(i, depth)] + rest)
  {
    hide Advance;
    var path := [(i, depth)] + rest;
    forall k | 0 <= k < |path| - 1 ensures Advance(body, path[k].0, path[k].1) == Some(path[k + 1]) {
      if k > 0 { assert rest[k - 1] == path[k] && rest[k] == path[k + 1]; }
    }
  }

  lemma {:induction false} ScanFails(body: string, path: seq<(nat, nat)>, cur: string, e: LexError)
    requires IsScan(body, path)
    requires var q := path[|path| - 1].0; q < |body| && body[q] == '"' && LexFrom(body, q + 1) == Err(e)
    ensures ArgsFrom(body, path[0].0, path[0].1, cur) == Err(e)
    decreases |path|
  {
    hide LexFrom, Strip;
    if |path| > 1 {
      var (i, depth) := path[0];
      var rest := path[1..];
      forall k | 0 <= k < |rest| - 1 ensures Advance(body, rest[k].0, rest[k].1) == Some(rest[k + 1]) {
        assert rest[k] == path[k + 1] && rest[k + 1] == path[k + 2];
      }
      assert Advance(body, i, depth) == Some(rest[0]);
      var c := body[i];
      if c == '"' {
        ScanFails(body, rest, cur + body[i..rest[0].0], e);
      } else if c == ',' && depth == 0 {
        ScanFails(body, rest, "", e);
      } else {
        ScanFails(body, rest, cur + [c], e);
      }
    }
  }

  /** The splitter comes to a literal it cannot read, at `q`. */
  ghost predicate StopsAt(body: string, i: nat, depth: nat, q: nat, e: LexError) {
    ScansTo(body, i, depth, q) && LexFrom(body, q + 1) == Err(e)
  }

  /** The text of a call cannot be split exactly when the splitter comes to a literal that cannot be read, and then with
      that literal's error. */
  lemma SplitFails(body: string, i: nat, depth: nat, cur: string, e: LexError)
    ensures ArgsFrom(body, i, depth, cur) == Err(e) <==> exists q: nat :: StopsAt(body, i, depth, q, e)
  {
    hide LexFrom, ArgsFrom;
    if ArgsFrom(body, i, depth, cur) == Err(e) {
      var path := FailedScan(body, i, depth, cur);
      assert StopsAt(body, i, depth, path[|path| - 1].0, e);
    }
    if exists q: nat :: StopsAt(body, i, depth, q, e) {
      var q: nat :| StopsAt(body, i, depth, q, e);
      var path: seq<(nat, nat)> :| IsScan(body, path) && path[0] == (i, depth) && path[|path| - 1].0 == q;
      ScanFails(body, path, cur, e);
    }
  }

  /** A bad escape in the literal at `q`, which the splitter comes to. */
  ghost predicate HoldsABadEscapeAt(body: string, q: nat) { ScansTo(body, 0, 0, q) && ComesToABadEscape(body, q + 1) }

  ghost predicate HoldsABadEscape(body: string) { exists q: nat :: HoldsABadEscapeAt(body, q) }

  /** Splitting a call's text raises the uncaught exception exactly when it holds a bad escape. */
  lemma SplitRaises(body: string)
    ensures ArgsFrom(body, 0, 0, "") == Err(Malformed) <==> HoldsABadEscape(body)
  {
    hide LexFrom, ArgsFrom, ScansTo, ComesToABadEscape;
    SplitFails(body, 0, 0, "", Malformed);
    forall q: nat ensures StopsAt(body, 0, 0, q, Malformed) <==> HoldsABadEscapeAt(body, q) {
      MalformedIsABadEscape(body, q + 1);
    }
  }

  // ---- an argument that was split off is read again without error ------------------------------

  /** The text does not begin a literal, or begins one that reads to its end. */
  predicate Rereads(arg: string) { arg == "" || arg[0] != '"' || LexFrom(arg, 1).Ok? }

  // The lexer reads on from where it stands: what is before does not matter.

  lemma {:induction false} OctalRunInRest(s: string, d: nat, i: nat, n: nat)
    requires d <= i
    ensures d <= |s| ==> OctalRun(s[d..], i - d, n) == OctalRun(s, i, n)
    decreases n
  {
    if d <= |s| && n > 0 && i < |s| {
      assert s[d..][i - d] == s[i];
      OctalRunInRest(s, d, i + 1, n - 1);
    }
  }

  lemma SameSlice(s: string, d: nat, i: nat, j: nat)
    requires d <= i <= j <= |s|
    ensures s[d..][i - d..j - d] == s[i..j]
  {
  }

  lemma NoRunIsEmpty(s: string, i: nat)
    requires i < |s|
    ensures i + OctalRun(s, i, 3) <= |s|
  {
  }

  lemma EscapeInRest(s: string, d: nat, i: nat)
    requires d <= i && i + 1 < |s| && s[i] == '\\'
    ensures Escape(s[d..], i - d)
            == if Escape(s, i).None? then None else Some((Escape(s, i).value.0, Escape(s, i).value.1 - d))
  {
    hide OctalValue, HexByte, Utf8Char, OctalRun, SimpleEscape, Min;
    assert s[d..][i + 1 - d] == s[i + 1];
    HexPairInRest(s, d, i);
    OctalRunInRest(s, d, i + 1, 3);
    NoRunIsEmpty(s, i + 1);
    SameSlice(s, d, i + 1, i + 1 + OctalRun(s, i + 1, 3));
  }

  lemma HexPairInRest(s: string, d: nat, i: nat)
    requires d <= i && i + 1 < |s|
    ensures Min(i - d + 4, |s[d..]|) == Min(i + 4, |s|) - d
    ensures s[d..][i - d + 2..Min(i - d + 4, |s[d..]|)] == s[i + 2..Min(i + 4, |s|)]
  {
    SameSlice(s, d, i + 2, Min(i + 4, |s|));
  }

  lemma StepInRest(s: string, d: nat, i: nat)
    requires d <= i < |s|
    ensures Step(s[d..], i - d)
            == if Step(s, i).None? then None else Some((Step(s, i).value.0, Step(s, i).value.1 - d))
  {
    hide Escape, Utf8Char;
    assert s[d..][i - d] == s[i];
    if s[i] == '\\' {
      if i + 1 < |s| { EscapeInRest(s, d, i); } else { NothingEscaped(s, i); NothingEscaped(s[d..], i - d); }
    }
  }

  lemma NothingEscaped(s: string, i: nat)
    requires i + 1 == |s|
    ensures Escape(s, i) == None
  {
  }

  lemma {:induction false} LiteralInRest(s: string, d: nat, i: nat)
    requires d <= i && LexFrom(s, i).Ok?
    ensures d <= |s| && LexFrom(s[d..], i - d).Ok? && LexFrom(s[d..], i - d).value.end <= LexFrom(s, i).value.end - d
    decreases |s| - i
  {
    hide Escape, Utf8Char;
    var t, j := s[d..], i - d;
    assert t[j] == s[i];
    if s[i] == '"' {
      assert t[j + 1..] == s[i + 1..];
      assert StartsAt(t, j + 1, DOTS) ==> t[j + 1..j + 4] == s[i + 1..i + 4];
    } else {
      StepInRest(s, d, i);
      LiteralInRest(s, d, Step(s, i).value.1);
    }
  }

  // And only up to its end: what is after does not matter.

  lemma {:induction false} OctalRunOfPrefix(s: string, t: string, p: string, i: nat, n: nat)
    requires p <= s && p <= t && i + OctalRun(s, i, n) < |p|
    ensures OctalRun(t, i, n) == OctalRun(s, i, n)
    decreases n
  {
    assert s[i] == p[i] == t[i];
    if n > 0 && IsOctal(s[i]) { OctalRunOfPrefix(s, t, p, i + 1, n - 1); }
  }

  lemma SliceOfPrefix(s: string, p: string, i: nat, j: nat)
    requires p <= s && i <= j <= |p|
    ensures s[i..j] == p[i..j]
  {
  }

  lemma StepOfPrefix(s: string, t: string, p: string, i: nat)
    requires p <= s && p <= t && i < |s| && Step(s, i).Some? && Step(s, i).value.1 < |p|
    ensures Step(t, i) == Step(s, i)
  {
    hide OctalValue, HexByte, Utf8Char, OctalRun;
    assert s[i] == p[i] == t[i];
    if s[i] == '\\' {
      assert s[i + 1] == p[i + 1] == t[i + 1];
      if s[i + 1] == 'x' {
        SliceOfPrefix(s, p, i + 2, i + 4);
        SliceOfPrefix(t, p, i + 2, i + 4);
      } else if '0' <= s[i + 1] <= '9' {
        var k := OctalRun(s, i + 1, 3);
        OctalRunOfPrefix(s, t, p, i + 1, 3);
        SliceOfPrefix(s, p, i + 1, i + 1 + k);
        SliceOfPrefix(t, p, i + 1, i + 1 + k);
      }
    }
  }

  lemma {:induction false} LiteralOfPrefix(s: string, t: string, p: string, i: nat)
    requires p <= s && p <= t && LexFrom(s, i).Ok? && LexFrom(s, i).value.end <= |p|
    ensures LexFrom(t, i).Ok?
    decreases |s| - i
  {
    hide Escape, Utf8Char;
    assert s[i] == p[i] == t[i];
    if s[i] != '"' {
      StepOfPrefix(s, t, p, i);
      LiteralOfPrefix(s, t, p, Step(s, i).value.1);
    }
  }

  // So the current argument, whatever is added to it and stripped from it, begins no literal or one that reads.

  /** An argument as far as it was read: what is left of it, once stripped on the left, reads again. */
  predicate ReadsSoFar(cur: string) { Rereads(LeftStrip(cur)) }

  lemma LongerRereads(arg: string, more: string)
    requires Rereads(arg) && arg != ""
    ensures Rereads(arg + more)
  {
    hide LexFrom;
    if arg[0] == '"' { LiteralOfPrefix(arg, arg + more, arg, 1); }
  }

  lemma LeftStripOfConcat(a: string, b: string)
    ensures LeftStrip(a + b) == if LeftStrip(a) == "" then LeftStrip(b) else LeftStrip(a) + b
    decreases |a|
  {
    if a == "" {
      assert a + b == b;
    } else if IsSpace(a[0]) {
      assert (a + b)[1..] == a[1..] + b;
      LeftStripOfConcat(a[1..], b);
    }
  }

  lemma AddedReads(cur: string, more: string)
    requires ReadsSoFar(cur) && Rereads(LeftStrip(more))
    ensures ReadsSoFar(cur + more)
  {
    hide Rereads, LeftStrip;
    LeftStripOfConcat(cur, more);
    if LeftStrip(cur) != "" { LongerRereads(LeftStrip(cur), more); }
  }

  /** A literal that was split off whole reads again. */
  lemma LiteralRereads(body: string, i: nat)
    requires i < |body| && body[i] == '"' && LexFrom(body, i + 1).Ok?
    ensures Rereads(LeftStrip(body[i..LexFrom(body, i + 1).value.end]))
  {
    hide LexFrom;
    var rest := body[i..];
    var text := body[i..LexFrom(body, i + 1).value.end];
    LiteralInRest(body, i, i + 1);
    assert text <= rest && text[0] == '"';
    LiteralOfPrefix(rest, text, text, 1);
    assert LeftStrip(text) == text;
  }

  lemma CharRereads(c: char)
    requires c != '"'
    ensures Rereads(LeftStrip([c]))
  {
    assert IsSpace(c) ==> [c][1..] == "";
  }

  /** A literal's last character is no space. */
  lemma {:induction false} LiteralEndsTight(s: string, i: nat)
    requires LexFrom(s, i).Ok?
    ensures !IsSpace(s[LexFrom(s, i).value.end - 1])
    decreases |s| - i
  {
    hide Escape, Utf8Char;
    if s[i] == '"' {
      assert StartsAt(s, i + 1, DOTS) ==> s[i + 1..i + 4][2] == '.';
    } else {
      LiteralEndsTight(s, (if s[i] == '\\' then Escape(s, i).value.1 else i + 1));
    }
  }

  lemma LaterIsBlank(s: string, n: nat, k: nat)
    requires n <= |s| && k < |s| && Blank(s[n..])
    ensures n <= k ==> IsSpace(s[k])
  {
    assert n <= k ==> s[n..][k - n] == s[k];
  }

  lemma StrippedRereads(cur: string)
    requires ReadsSoFar(cur)
    ensures Rereads(Strip(cur))
  {
    hide LexFrom, LeftStrip, RightStrip;
    var l := LeftStrip(cur);
    var r := RightStrip(l);
    if l != "" && r != "" && l[0] == '"' {
      LiteralEndsTight(l, 1);
      var end := LexFrom(l, 1).value.end;
      LaterIsBlank(l, |r|, end - 1);
      assert r <= l;
      LiteralOfPrefix(l, r, r, 1);
    } else if r != "" {
      assert r[0] == l[0];
    }
  }

  /** Every argument that was split off can be read again, when it begins a literal. */
  lemma {:induction false} ArgumentsReread(body: string, i: nat, depth: nat, cur: string)
    requires ReadsSoFar(cur) && ArgsFrom(body, i, depth, cur).Ok?
    ensures var args := ArgsFrom(body, i, depth, cur).value;
            forall k :: 0 <= k < |args| ==> Rereads(args[k])
    decreases |body| - i
  {
    hide LexFrom, Strip, Rereads, ReadsSoFar, LeftStrip;
    StrippedRereads(cur);
    if i < |body| {
      var c := body[i];
      if c == '"' {
        var end := LexFrom(body, i + 1).value.end;
        LiteralRereads(body, i);
        AddedReads(cur, body[i..end]);
        ArgumentsReread(body, end, depth, cur + body[i..end]);
      } else if Closes(c) && depth == 0 {
      } else if c == ',' && depth == 0 {
        NothingReadsSoFar();
        ArgumentsReread(body, i + 1, 0, "");
      } else {
        CharRereads(c);
        AddedReads(cur, [c]);
        ArgumentsReread(body, i + 1, if Opens(c) then depth + 1 else if Closes(c) then depth - 1 else depth, cur + [c]);
      }
    }
  }

  lemma NothingReadsSoFar()
    ensures ReadsSoFar("")
  {
  }

  // ---- calls and traces ---------------------------------------------------------------------------------

  /** A call fails in the lexer only where its text is split: an argument that was split off is read again without
      error. */
  lemma CallRaises(name: string, text: string, cwd: Path)
    ensures EffectOf(name, text, cwd) == Err(Lex(Malformed)) <==> HoldsABadEscape(text)
  {
    hide LexFrom, ArgsFrom, HoldsABadEscape, ReturnedValue, Resolved, Decorated;
    SplitRaises(text);
    if ArgsFrom(text, 0, 0, "").Ok? {
      NothingReadsSoFar();
      ArgumentsReread(text, 0, 0, "");
      ResolvedNeverLexes(name, text, cwd);
    }
  }

  lemma ResolvedNeverLexes(name: string, text: string, cwd: Path)
    requires ArgsFrom(text, 0, 0, "").Ok?
    ensures forall args, path: Path :: args != [] ==> !(Resolved(name, text, args, path, cwd) == Err(Lex(Malformed)))
  {
    hide ReturnedValue, ReturnedPath, NormPath, JoinPath, Decorated;
  }

  /** Call `k` fails, and no call completed before it does. */
  predicate FailsFirst(tl: seq<Entry>, start: Path, n: nat, k: nat)
    requires n <= |tl|
  {
    k < n && tl[k].Complete? && EffectAt(tl, start, k).Err?
    && forall j :: 0 <= j < k && tl[j].Complete? ==> EffectAt(tl, start, j).Ok?
  }

  /** The replay fails exactly when some call does, and with the error of the first that does. */
  lemma {:induction false} TheFirstErrorEndsTheReplay(tl: seq<Entry>, start: Path, n: nat, e: TraceError)
    requires n <= |tl|
    ensures Reads(tl, start, n) == Err(e) <==>
            exists k: nat :: FailsFirst(tl, start, n, k) && EffectAt(tl, start, k) == Err(e)
    ensures Reads(tl, start, n).Ok? <==> forall j :: 0 <= j < n && tl[j].Complete? ==> EffectAt(tl, start, j).Ok?
    decreases n
  {
    hide EffectAt, Executable;
    if n > 0 {
      TheFirstErrorEndsTheReplay(tl, start, n - 1, e);
      forall k: nat | FailsFirst(tl, start, n - 1, k) ensures FailsFirst(tl, start, n, k) {}
      if Reads(tl, start, n) == Err(e) && Reads(tl, start, n - 1).Ok? {
        assert FailsFirst(tl, start, n, n - 1);
      }
    }
  }

  // ---- what ends the check ---------------------------------------------------------------------------------

  function TimelineOf(lines: seq<string>): seq<Entry> { Timeline(Matched(lines).out) }

  function VerdictOf(lines: seq<string>, start: Path, roots: seq<Path>, tracked: set<Path>, declared: set<Path>,
                     present: set<Path>): Outcome
  {
    Verdict(Reads(TimelineOf(lines), start, |TimelineOf(lines)|), roots, tracked, declared, present)
  }

  /** The check ends with the uncaught exception exactly when the first call that fails, in the order of the timeline,
      is one whose text holds a bad escape. */
  lemma WhatRaises(lines: seq<string>, start: Path, roots: seq<Path>, tracked: set<Path>, declared: set<Path>,
                   present: set<Path>)
    ensures var tl := TimelineOf(lines);
      VerdictOf(lines, start, roots, tracked, declared, present) == Raised <==>
      exists k: nat :: FailsFirst(tl, start, |tl|, k) && HoldsABadEscape(tl[k].text)
  {
    hide Reads, HoldsABadEscape, Offenders, TimelineOf, EffectAt;
    var tl := TimelineOf(lines);
    TheFirstErrorEndsTheReplay(tl, start, |tl|, Lex(Malformed));
    forall k: nat | k < |tl| && tl[k].Complete?
      ensures EffectAt(tl, start, k) == Err(Lex(Malformed)) <==> HoldsABadEscape(tl[k].text)
    {
      EntryRaises(tl, start, k);
    }
  }

  lemma EntryRaises(tl: seq<Entry>, start: Path, k: nat)
    requires k < |tl| && tl[k].Complete?
    ensures EffectAt(tl, start, k) == Err(Lex(Malformed)) <==> HoldsABadEscape(tl[k].text)
  {
    hide EffectOf, HoldsABadEscape, Directory;
    CallRaises(tl[k].name, tl[k].text, Directory(tl, start, k, tl[k].pid));
  }

  const BAD_LITERAL: string := ['"', '\\', '8', '"']

  /** A literal no exception handler saves: a backslash before an eight. */
  lemma BadLiteral()
    ensures LexFrom(BAD_LITERAL, 1) == Err(Malformed)
  {
    var path := [1];
    assert IsWalk(BAD_LITERAL, path) && BadEscape(BAD_LITERAL, path[0]);
    MalformedIsABadEscape(BAD_LITERAL, 1);
  }

  const BAD_TEXT: string := BAD_LITERAL + [')']

  const BAD_CALL: string := ['a', '('] + BAD_TEXT

  const BAD_LINE: string := ['7', ' '] + BAD_CALL

  /** A one-digit pid, a space and a call that does not begin with one. */
  lemma OneDigitPid(raw: string)
    requires |raw| >= 3 && IsDigit(raw[0]) && raw[1] == ' ' && !IsSpace(raw[2]) && raw[|raw| - 1] != '\n'
    ensures WithoutNewlines(raw) == raw && PidAndRest(raw) == Some((DigitValue(raw[0]), raw[2..]))
  {
    hide DigitRun, LeftStrip;
    OneDigitRun(raw);
    LeftStripOfOne(raw[1..]);
    assert raw[1..][1..] == raw[2..] && raw[1..] != raw[2..];
    assert raw[..1][..0] == "" && Number(raw[..1]) == DigitValue(raw[0]);
  }

  lemma OneDigitRun(raw: string)
    requires |raw| >= 2 && IsDigit(raw[0]) && !IsDigit(raw[1])
    ensures DigitRun(raw) == 1
  {
    assert raw[1..][0] == raw[1] && DigitRun(raw[1..]) == 0;
  }

  lemma LeftStripOfOne(s: string)
    requires |s| >= 2 && IsSpace(s[0]) && !IsSpace(s[1])
    ensures LeftStrip(s) == s[1..]
  {
    assert s[1..][0] == s[1];
  }

  lemma BadLinePid()
    ensures PidAndRest(BAD_LINE) == Some((7, BAD_CALL)) && WithoutNewlines(BAD_LINE) == BAD_LINE
  {
    hide PidAndRest, WithoutNewlines;
    assert BAD_LINE[0] == '7' && BAD_LINE[2..] == BAD_CALL;
    OneDigitPid(BAD_LINE);
  }

  lemma BadCallIsWhole()
    ensures !StartsWith(BAD_CALL, "---") && !StartsWith(BAD_CALL, "+++") && ResumedText(BAD_CALL).None?
    ensures NameRun(BAD_CALL) == 1 && BAD_CALL[..1] == ['a'] && BAD_CALL[2..] == BAD_TEXT
    ensures !EndsWith(BAD_TEXT, UNFINISHED)
  {
    hide NameRun;
    assert BAD_CALL[..1][0] == 'a' && "---"[0] == '-' && "+++"[0] == '+' && "<... "[0] == '<';
    OneLetterName(BAD_CALL);
    assert |UNFINISHED| == 16 && |BAD_TEXT| == 5;
  }

  lemma OneLetterName(s: string)
    requires |s| >= 2 && IsNameChar(s[0]) && !IsNameChar(s[1])
    ensures NameRun(s) == 1
  {
    assert s[1..][0] == s[1];
  }

  lemma BadLineIsACall()
    ensures Classify(BAD_LINE) == Whole(7, ['a'], BAD_TEXT)
  {
    hide PidAndRest, WithoutNewlines, NameRun, ResumedText, StartsWith, EndsWith;
    BadLinePid();
    BadCallIsWhole();
  }

  lemma BadTextHoldsIt()
    ensures HoldsABadEscape(BAD_TEXT)
  {
    hide LexFrom, Escape;
    var walk: seq<nat> := [1];
    assert IsWalk(BAD_TEXT, walk) && BadEscape(BAD_TEXT, walk[0]);
    assert ComesToABadEscape(BAD_TEXT, 1);
    var scan: seq<(nat, nat)> := [(0, 0)];
    assert IsScan(BAD_TEXT, scan) && ScansTo(BAD_TEXT, 0, 0, 0);
    assert HoldsABadEscapeAt(BAD_TEXT, 0);
  }

  lemma OneWholeLine(raw: string, pid: nat, name: string, text: string)
    requires Classify(raw) == Whole(pid, name, text)
    ensures Matched([raw]).out == [Event(0, 0, pid, name, text)]
  {
    hide Classify;
    var lines := [raw];
    assert lines[..0] == [] && Matched(lines[..0]).out == [];
  }

  lemma OneCallTimeline(e: Event)
    requires !IsFork(e.name)
    ensures Timeline([e]) == [Complete(e.end, e.pid, e.name, e.text)]
  {
    hide ReturnedValue, Contains, IsFork;
    var events := [e];
    assert events[..0] == [] && Timeline(events[..0]) == [];
    assert Child(e).None?;
  }

  lemma BadTimeline()
    ensures TimelineOf([BAD_LINE]) == [Complete(0, 7, ['a'], BAD_TEXT)]
  {
    hide Classify, Matched, Timeline;
    BadLineIsACall();
    OneWholeLine(BAD_LINE, 7, ['a'], BAD_TEXT);
    OneCallTimeline(Event(0, 0, 7, ['a'], BAD_TEXT));
  }

  /** A trace of one line that ends the check with the uncaught exception, whatever the checkout. */
  lemma ABadEscapeRaises(start: Path, roots: seq<Path>, tracked: set<Path>, declared: set<Path>, present: set<Path>)
    ensures VerdictOf([BAD_LINE], start, roots, tracked, declared, present) == Raised
  {
    hide EffectAt, HoldsABadEscape, TimelineOf, VerdictOf;
    BadTimeline();
    BadTextHoldsIt();
    var tl := TimelineOf([BAD_LINE]);
    EntryRaises(tl, start, 0);
    assert FailsFirst(tl, start, |tl|, 0);
    WhatRaises([BAD_LINE], start, roots, tracked, declared, present);
  }
}
