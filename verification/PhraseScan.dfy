/** The wrap-insensitive phrase scan of `scripts/withdrawn-claim-scan.py`. */
module PhraseScan {
  import opened Basics
  import opened Whitespace

  // ---- lines --------------------------------------------------------------------

  /** Where Python's `str.splitlines` breaks a text. */
  predicate IsLineBreak(c: char) {
    var n := c as int;
    10 <= n <= 13 || 28 <= n <= 30 || n == 0x85 || n == 0x2028 || n == 0x2029
  }

  predicate OneLine(s: string) { forall i :: 0 <= i < |s| ==> !IsLineBreak(s[i]) }

  function LineLength(t: string): (n: nat)
    ensures n <= |t| && OneLine(t[..n]) && (n < |t| ==> IsLineBreak(t[n]))
  {
    if t == "" || IsLineBreak(t[0]) then 0
    else
      var n := 1 + LineLength(t[1..]);
      assert t[..n] == [t[0]] + t[1..][..n - 1];
      n
  }

  function SplitLines(t: string): seq<string>
    decreases |t|
  {
    if t == "" then []
    else
      var n := LineLength(t);
      if n == |t| then [t]
      else
        var past := if t[n] == '\r' && n + 1 < |t| && t[n + 1] == '\n' then n + 2 else n + 1;
        [t[..n]] + SplitLines(t[past..])
  }

  function Unlines(lines: seq<string>): string {
    if lines == [] then "" else lines[0] + ("\n" + Unlines(lines[1..]))
  }

  /** Lines written out and split again are the same lines. */
  lemma {:induction false} SplitUnlines(lines: seq<string>)
    requires forall i :: 0 <= i < |lines| ==> OneLine(lines[i])
    ensures SplitLines(Unlines(lines)) == lines
  {
    if lines != [] {
      var line, rest := lines[0], Unlines(lines[1..]);
      var t := line + ("\n" + rest);
      LineEndsAtBreak(line, "\n" + rest);
      assert t[..|line|] == line && t[|line| + 1..] == rest;
      SplitUnlines(lines[1..]);
    }
  }

  lemma {:induction false} LineEndsAtBreak(line: string, rest: string)
    requires OneLine(line) && rest != "" && IsLineBreak(rest[0])
    ensures LineLength(line + rest) == |line|
  {
    if line == "" {
      assert line + rest == rest;
    } else {
      assert (line + rest)[1..] == line[1..] + rest;
      LineEndsAtBreak(line[1..], rest);
    }
  }

  // ---- one line's piece -----------------------------------------------------------

  const MARKERS: seq<string> := ["//!", "///", "//", "#", "*", ">"]

  /** The first of MARKERS the piece starts with, or none. */
  function Marker(piece: string): (m: string)
    ensures |m| <= |piece| && piece[..|m|] == m
  {
    if StartsWith(piece, MARKERS[0]) then MARKERS[0]
    else if StartsWith(piece, MARKERS[1]) then MARKERS[1]
    else if StartsWith(piece, MARKERS[2]) then MARKERS[2]
    else if StartsWith(piece, MARKERS[3]) then MARKERS[3]
    else if StartsWith(piece, MARKERS[4]) then MARKERS[4]
    else if StartsWith(piece, MARKERS[5]) then MARKERS[5]
    else ""
  }

  function Piece(raw: string): string {
    var piece := Strip(raw);
    var m := Marker(piece);
    if m == "" then piece else Strip(piece[|m|..])
  }

  function Pieces(lines: seq<string>): (pieces: seq<string>)
    ensures |pieces| == |lines| && forall i :: 0 <= i < |lines| ==> pieces[i] == Piece(lines[i])
  {
    seq(|lines|, i requires 0 <= i < |lines| => Piece(lines[i]))
  }

  // ---- the joined text and its line map ----------------------------------------------

  /** The pieces that are not empty, with one space between. */
  function Text(pieces: seq<string>): string {
    if pieces == [] then ""
    else
      var before, piece := Text(pieces[..|pieces| - 1]), pieces[|pieces| - 1];
      if piece == "" then before else if before == "" then piece else before + (" " + piece)
  }

  /** `number` for each of `n` characters. */
  function Repeat(number: nat, n: nat): (r: seq<nat>)
    ensures |r| == n && forall i :: 0 <= i < n ==> r[i] == number
  {
    seq(n, i => number)
  }

  function Numbers(pieces: seq<string>): (numbers: seq<nat>)
    ensures |numbers| == |Text(pieces)|
    ensures forall i :: 0 <= i < |numbers| ==> 1 <= numbers[i] <= |pieces|
    ensures forall i, j :: 0 <= i <= j < |numbers| ==> numbers[i] <= numbers[j]
  {
    if pieces == [] then []
    else
      var before := Numbers(pieces[..|pieces| - 1]);
      before + Repeat(|pieces|, |Text(pieces)| - |before|)
  }

  /** `normalise`: one pass that appends to the parallel lists. */
  method Normalise(text: string) returns (joined: string, lines: seq<nat>)
    ensures joined == Text(Pieces(SplitLines(text))) && lines == Numbers(Pieces(SplitLines(text)))
  {
    hide Text, Numbers, SplitLines, Marker, Strip;
    var raws := SplitLines(text);
    ghost var pieces := Pieces(raws);
    joined, lines := "", [];
    assert pieces[..0] == [];
    NoPieces();
    for n := 0 to |raws|
      invariant joined == Text(pieces[..n]) && lines == Numbers(pieces[..n])
    {
      var number := n + 1;
      var piece := Strip(raws[n]);
      var m := Marker(piece);
      if m != "" {
        piece := Strip(piece[|m|..]);
      }
      AddPiece(pieces, n);
      assert piece == pieces[n];
      if piece != "" {
        if joined != "" {
          joined := joined + " ";
          lines := lines + [number];
        }
        joined := joined + piece;
        lines := lines + Repeat(number, |piece|);
      }
    }
    assert pieces[..|raws|] == pieces;
  }

  lemma NoPieces()
    ensures Text([]) == "" && Numbers([]) == []
  {
  }

  /** One more piece: what it adds to the text and to the line map. */
  lemma AddPiece(pieces: seq<string>, n: nat)
    requires n < |pieces|
    ensures pieces[n] == "" ==>
              Text(pieces[..n + 1]) == Text(pieces[..n]) && Numbers(pieces[..n + 1]) == Numbers(pieces[..n])
    ensures pieces[n] != "" && Text(pieces[..n]) == "" ==>
              Text(pieces[..n + 1]) == Text(pieces[..n]) + pieces[n]
              && Numbers(pieces[..n + 1]) == Numbers(pieces[..n]) + Repeat(n + 1, |pieces[n]|)
    ensures pieces[n] != "" && Text(pieces[..n]) != "" ==>
              Text(pieces[..n + 1]) == Text(pieces[..n]) + " " + pieces[n]
              && Numbers(pieces[..n + 1]) == Numbers(pieces[..n]) + [n + 1] + Repeat(n + 1, |pieces[n]|)
  {
    var more := pieces[..n + 1];
    assert more[..|more| - 1] == pieces[..n];
  }

  /** The first `n` lines' text is a prefix of the whole, and a character is numbered `n` exactly
      when they reach past it and the first `n - 1` do not. */
  lemma {:induction false} NumberIsTheLine(pieces: seq<string>, n: nat, i: nat)
    requires 1 <= n <= |pieces| && i < |Text(pieces)|
    ensures |Text(pieces[..n - 1])| <= |Text(pieces[..n])| <= |Text(pieces)|
    ensures Text(pieces)[..|Text(pieces[..n])|] == Text(pieces[..n])
    ensures Numbers(pieces)[i] == n <==> |Text(pieces[..n - 1])| <= i < |Text(pieces[..n])|
    decreases |pieces|
  {
    hide Numbers;
    var shorter := pieces[..|pieces| - 1];
    AddPiece(pieces, |pieces| - 1);
    assert pieces[..|pieces| - 1 + 1] == pieces;
    if n == |pieces| {
      assert pieces[..n] == pieces && pieces[..n - 1] == shorter;
    } else {
      assert shorter[..n] == pieces[..n] && shorter[..n - 1] == pieces[..n - 1];
      if i < |Text(shorter)| {
        NumberIsTheLine(shorter, n, i);
        assert Numbers(pieces)[i] == Numbers(shorter)[i];
      } else if |Text(shorter)| > 0 {
        NumberIsTheLine(shorter, n, |Text(shorter)| - 1);
      } else {
        EmptyPrefix(shorter, n);
        EmptyPrefix(shorter, n - 1);
      }
    }
  }

  lemma {:induction false} EmptyPrefix(pieces: seq<string>, n: nat)
    requires n <= |pieces| && Text(pieces) == ""
    ensures Text(pieces[..n]) == ""
    decreases |pieces|
  {
    if n == |pieces| {
      assert pieces[..n] == pieces;
    } else {
      var shorter := pieces[..|pieces| - 1];
      assert shorter[..n] == pieces[..n];
      EmptyPrefix(shorter, n);
    }
  }

  // ---- the overlapping find ---------------------------------------------------------------

  predicate OccursAt(haystack: string, needle: string, at: nat) {
    at + |needle| <= |haystack| && haystack[at..at + |needle|] == needle
  }

  /** `haystack.find(needle, start)`; None is Python's -1. */
  method Find(haystack: string, needle: string, start: nat) returns (at: Option<nat>)
    ensures at.Some? ==> start <= at.value && OccursAt(haystack, needle, at.value)
    ensures at.Some? ==> forall k :: start <= k < at.value ==> !OccursAt(haystack, needle, k)
    ensures at.None? ==> forall k: nat :: start <= k ==> !OccursAt(haystack, needle, k)
  {
    var k := start;
    while k + |needle| <= |haystack|
      invariant start <= k
      invariant forall j :: start <= j < k ==> !OccursAt(haystack, needle, j)
    {
      if haystack[k..k + |needle|] == needle {
        return Some(k);
      }
      k := k + 1;
    }
    at := None;
  }

  /** A phrase starts at a character of line `number`, before position `limit`. */
  ghost predicate PhraseStarts(pieces: seq<string>, needle: string, limit: nat, number: nat) {
    exists at :: 0 <= at < limit && at < |Text(pieces)| && OccursAt(AsciiLower(Text(pieces)), needle, at)
                 && Numbers(pieces)[at] == number
  }

  /** Some phrase of the first `n`, in any case, starts on line `number`. */
  ghost predicate StartsOnLine(pieces: seq<string>, needles: seq<string>, n: nat, number: nat)
    requires n <= |needles|
  {
    exists k :: 0 <= k < n && PhraseStarts(pieces, needles[k], |Text(pieces)|, number)
  }

  ghost predicate Distinct(s: seq<nat>) { forall i, j :: 0 <= i < j < |s| ==> s[i] != s[j] }

  /** The lines the scan prints for one file, in the order it prints them: every line where some
      phrase starts, overlapping occurrences included, and each once. */
  method Scan(text: string, needles: seq<string>) returns (printed: seq<nat>)
    requires forall k :: 0 <= k < |needles| ==> needles[k] != ""
    ensures Distinct(printed)
    ensures forall number :: number in printed <==> StartsOnLine(Pieces(SplitLines(text)), needles, |needles|, number)
  {
    hide PhraseStarts, StartsOnLine, Text, Numbers, SplitLines, OccursAt;
    ghost var pieces := Pieces(SplitLines(text));
    var joined, lines := Normalise(text);
    var haystack := AsciiLower(joined);
    var reported: set<nat> := {};
    printed := [];
    NoNeedles(pieces, needles);
    for n := 0 to |needles|
      invariant Distinct(printed)
      invariant forall number :: number in printed <==> number in reported
      invariant forall number :: number in printed <==> StartsOnLine(pieces, needles, n, number)
    {
      var start := 0;
      NothingBeforeZero(pieces, needles[n]);
      while true
        invariant start <= |haystack|
        invariant Distinct(printed)
        invariant forall number :: number in printed <==> number in reported
        invariant forall number :: number in printed <==>
          StartsOnLine(pieces, needles, n, number) || PhraseStarts(pieces, needles[n], start, number)
        decreases |haystack| - start
      {
        var at := Find(haystack, needles[n], start);
        if at.None? {
          NoneLeft(pieces, needles[n], start);
          NeedleDone(pieces, needles, n);
          break;
        }
        InText(haystack, needles[n], at.value);
        NextFound(pieces, needles[n], start, at.value);
        var lineno := if at.value < |lines| then lines[at.value] else 1;
        if lineno !in reported {
          reported := reported + {lineno};
          printed := printed + [lineno];
        }
        start := at.value + 1;
      }
    }
  }

  lemma InText(haystack: string, needle: string, at: nat)
    requires needle != "" && OccursAt(haystack, needle, at)
    ensures at < |haystack|
  {
  }

  lemma NoNeedles(pieces: seq<string>, needles: seq<string>)
    ensures forall number :: !StartsOnLine(pieces, needles, 0, number)
  {
  }

  lemma NeedleDone(pieces: seq<string>, needles: seq<string>, n: nat)
    requires n < |needles|
    ensures forall number :: StartsOnLine(pieces, needles, n + 1, number)
                             <==> StartsOnLine(pieces, needles, n, number)
                                  || PhraseStarts(pieces, needles[n], |Text(pieces)|, number)
  {
    hide PhraseStarts;
  }

  lemma NothingBeforeZero(pieces: seq<string>, needle: string)
    ensures forall number :: !PhraseStarts(pieces, needle, 0, number)
  {
  }

  lemma NoneLeft(pieces: seq<string>, needle: string, start: nat)
    requires start <= |Text(pieces)|
    requires forall k: nat :: start <= k ==> !OccursAt(AsciiLower(Text(pieces)), needle, k)
    ensures forall number :: PhraseStarts(pieces, needle, start, number)
                             <==> PhraseStarts(pieces, needle, |Text(pieces)|, number)
  {
  }

  lemma NextFound(pieces: seq<string>, needle: string, start: nat, at: nat)
    requires start <= at < |Text(pieces)| && OccursAt(AsciiLower(Text(pieces)), needle, at)
    requires forall k :: start <= k < at ==> !OccursAt(AsciiLower(Text(pieces)), needle, k)
    ensures forall number :: PhraseStarts(pieces, needle, at + 1, number)
                             <==> PhraseStarts(pieces, needle, start, number) || number == Numbers(pieces)[at]
  {
    forall number | PhraseStarts(pieces, needle, start, number) || number == Numbers(pieces)[at]
      ensures PhraseStarts(pieces, needle, at + 1, number)
    {
      if number == Numbers(pieces)[at] {
        assert OccursAt(AsciiLower(Text(pieces)), needle, at);
      }
    }
  }

  // ---- breaking a line ----------------------------------------------------------------------

  predicate IsMarker(m: string) { exists i :: 0 <= i < |MARKERS| && m == MARKERS[i] }

  /** Whether a continuation `marker + pad + right` loses exactly the added marker: without one,
      `right` starts with no marker of its own, and `//` is not glued to a `/` or a `!`. */
  predicate BreakIsSafe(marker: string, pad: string, right: string) {
    (marker == "" ==> Marker(right) == "")
    && (marker == MARKERS[2] && pad == "" && right != "" ==> right[0] != '/' && right[0] != '!')
  }

  predicate Tight(s: string) { s != "" && StartsTight(s) && EndsTight(s) }

  /** A marker holds no space, so one space after a text changes nothing about its marker. */
  lemma MarkerBeforeSpace(left: string, rest: string)
    requires left != ""
    ensures Marker(left + (" " + rest)) == Marker(left)
  {
    var s := left + (" " + rest);
    forall k | 0 <= k < |MARKERS| ensures StartsWith(s, MARKERS[k]) <==> StartsWith(left, MARKERS[k]) {
      var m := MARKERS[k];
      NoSpaceInMarker(k);
      if |m| <= |left| {
        assert s[..|m|] == left[..|m|];
      } else if |m| <= |s| {
        assert s[..|m|][|left|] == ' ';
      }
    }
  }

  lemma NoSpaceInMarker(k: nat)
    requires k < |MARKERS|
    ensures forall i :: 0 <= i < |MARKERS[k]| ==> MARKERS[k][i] != ' '
  {
  }

  lemma StripTight(left: string, core: string, right: string)
    requires Blank(left) && Blank(right) && Tight(core)
    ensures Strip(left + core + right) == core
  {
    StripAround(left, core, right);
  }

  lemma BlankEnd(s: string, end: string)
    requires Blank(end)
    ensures EndsTight(s + end) ==> end == ""
  {
    if end != "" { assert (s + end)[|s + end| - 1] == end[|end| - 1]; }
  }

  /** A suffix of a tight text: blank at its front only. */
  lemma StripSuffix(s: string) returns (lead: string)
    requires s != "" && EndsTight(s)
    ensures Blank(lead) && s == lead + Strip(s) && Tight(Strip(s))
  {
    hide IsSpace, LeftStrip, RightStrip;
    var l, r := StripParts(s);
    lead := l;
    BlankEnd(l + Strip(s), r);
    assert Strip(s) == "" && r == "" ==> s == l;
  }

  /** The piece of an unbroken line, from the piece of its left half. */
  lemma UnbrokenPiece(lead: string, left: string, right: string, tail: string, trail: string)
    requires Blank(lead) && Tight(left) && Tight(right) && Blank(tail) && Blank(trail)
    ensures var first := Piece(lead + left + trail);
            Piece(lead + (left + (" " + right)) + tail) == if first == "" then right else first + (" " + right)
  {
    hide IsSpace, LeftStrip, RightStrip, Strip, Marker;
    var core := left + (" " + right);
    StripTight(lead, core, tail);
    StripTight(lead, left, trail);
    MarkerBeforeSpace(left, right);
    var m := Marker(left);
    if m != "" {
      var rest := left[|m|..];
      assert core[|m|..] == rest + (" " + right);
      if rest == "" {
        assert core[|m|..] == " " + right + "";
        SpaceIsBlank();
        StripTight(" ", right, "");
        StripOfBlank("");
      } else {
        var x := StripSuffix(rest);
        var y := Strip(rest);
        assert rest + (" " + right) == x + (y + (" " + right)) + "";
        StripTight(x, y + (" " + right), "");
      }
    }
  }

  lemma SpaceIsBlank()
    ensures Blank(" ")
  {
  }

  /** What the marker cut takes from a continuation line. */
  lemma ContinuationMarker(marker: string, pad: string, right: string)
    requires IsMarker(marker) && Blank(pad) && Tight(right)
    ensures BreakIsSafe(marker, pad, right) ==> Marker(marker + (pad + right)) == marker
    ensures !BreakIsSafe(marker, pad, right) ==>
              |Marker(marker + (pad + right))| == |marker| + 1 && pad == ""
  {
    var s := marker + (pad + right);
    assert |s| > |marker|;
    assert s[|marker|] == (if pad == "" then right[0] else pad[0]);
    assert s[..|marker|] == marker;
    assert |marker| == 2 ==> s[..3] == marker + [s[2]];
  }

  /** The piece of a continuation line is the right half, or a shorter text when the break is not safe. */
  lemma BrokenPiece(indent: string, marker: string, pad: string, right: string, tail: string)
    requires Blank(indent) && (marker == "" || IsMarker(marker)) && Blank(pad) && Tight(right) && Blank(tail)
    ensures var second := Piece(indent + marker + pad + right + tail);
            if BreakIsSafe(marker, pad, right) then second == right else |second| < |right|
  {
    hide IsSpace, LeftStrip, RightStrip, Strip, Marker;
    var raw := indent + marker + pad + right + tail;
    if marker == "" {
      assert raw == (indent + pad) + right + tail;
      StripTight(indent + pad, right, tail);
      StripShortens(right[|Marker(right)|..]);
    } else {
      var core := marker + (pad + right);
      assert raw == indent + core + tail;
      MarkerIsTight(marker);
      StripTight(indent, core, tail);
      ContinuationMarker(marker, pad, right);
      var rest := core[|Marker(core)|..];
      if BreakIsSafe(marker, pad, right) {
        assert rest == pad + right + "";
        StripTight(pad, right, "");
      } else {
        StripShortens(rest);
      }
    }
  }

  lemma MarkerIsTight(m: string)
    requires IsMarker(m)
    ensures m != "" && StartsTight(m)
  {
  }

  lemma StripShortens(s: string)
    ensures |Strip(s)| <= |s|
  {
  }

  // The text so far decides what more pieces make of it.

  function Continued(text: string, pieces: seq<string>): string
    decreases |pieces|
  {
    if pieces == [] then text
    else
      Continued(if pieces[0] == "" then text else if text == "" then pieces[0] else text + (" " + pieces[0]),
                pieces[1..])
  }

  lemma {:induction false} TextContinues(before: seq<string>, after: seq<string>)
    ensures Text(before + after) == Continued(Text(before), after)
    decreases |after|
  {
    if after == [] {
      assert before + after == before;
    } else {
      var more := before + [after[0]];
      assert before + after == more + after[1..];
      assert more[..|more| - 1] == before;
      TextContinues(more, after[1..]);
    }
  }

  lemma {:induction false} LongerStaysLonger(a: string, b: string, after: seq<string>)
    requires |a| < |b|
    ensures |Continued(a, after)| < |Continued(b, after)|
    decreases |after|
  {
    if after != [] {
      var p := after[0];
      LongerStaysLonger(if p == "" then a else if a == "" then p else a + (" " + p),
                        if p == "" then b else if b == "" then p else b + (" " + p), after[1..]);
    }
  }

  lemma BreakInText(before: seq<string>, whole: string, first: string, right: string, second: string)
    requires right != "" && whole == (if first == "" then right else first + (" " + right))
    ensures second == right ==> Text(before + [whole]) == Text(before + [first, second])
    ensures |second| < |right| ==> |Text(before + [first, second])| < |Text(before + [whole])|
  {
    assert before + [first, second] == (before + [first]) + [second];
    TextContinues(before, [whole]);
    TextContinues(before, [first]);
    TextContinues(before + [first], [second]);
  }

  /** Breaking a line at one space, with any indentation, any trailing whitespace and at most one
      added comment marker, leaves the joined text of the file unchanged exactly when the break is
      safe. */
  lemma WrapInsensitive(before: seq<string>, lead: string, left: string, right: string, tail: string,
                        trail: string, indent: string, marker: string, pad: string, after: seq<string>)
    requires Tight(left) && Tight(right) && (marker == "" || IsMarker(marker))
    requires Blank(lead) && Blank(tail) && Blank(trail) && Blank(indent) && Blank(pad)
    ensures Text(Pieces(before + [lead + (left + (" " + right)) + tail] + after))
            == Text(Pieces(before + [lead + left + trail, indent + marker + pad + right + tail] + after))
            <==> BreakIsSafe(marker, pad, right)
  {
    hide Piece, Text, Continued, Tight, Blank, BreakIsSafe;
    var line := lead + (left + (" " + right)) + tail;
    var one, two := lead + left + trail, indent + marker + pad + right + tail;
    UnbrokenPiece(lead, left, right, tail, trail);
    BrokenPiece(indent, marker, pad, right, tail);
    assert right != "" by { TightIsNotEmpty(right); }
    BreakInText(Pieces(before), Piece(line), Piece(one), right, Piece(two));
    assert Pieces(before + [line] + after) == (Pieces(before) + [Piece(line)]) + Pieces(after);
    assert Pieces(before + [one, two] + after) == (Pieces(before) + [Piece(one), Piece(two)]) + Pieces(after);
    var x, y := Text(Pieces(before) + [Piece(line)]), Text(Pieces(before) + [Piece(one), Piece(two)]);
    TextContinues(Pieces(before) + [Piece(line)], Pieces(after));
    TextContinues(Pieces(before) + [Piece(one), Piece(two)], Pieces(after));
    if !BreakIsSafe(marker, pad, right) {
      LongerStaysLonger(y, x, Pieces(after));
    }
  }

  // ---- a wrapped file is scanned alike -----------------------------------------------------------

  /** The lines of a file in which one line is broken in two, and of the same file unbroken. */
  datatype Wrap = Wrap(before: seq<string>, lead: string, left: string, right: string, tail: string, trail: string,
                       indent: string, marker: string, pad: string, after: seq<string>)
  {
    function Whole(): seq<string> { before + [lead + (left + (" " + right)) + tail] + after }

    function Broken(): seq<string> { before + [lead + left + trail, indent + marker + pad + right + tail] + after }

    /** One space between two texts, blanks around them, at most one marker. */
    predicate IsWrap() {
      Tight(left) && Tight(right) && (marker == "" || IsMarker(marker))
      && Blank(lead) && Blank(tail) && Blank(trail) && Blank(indent) && Blank(pad)
    }

    /** How much of the joined text comes from the lines down to the break. */
    function Cut(): nat { |Text(Pieces(Broken()[..|before| + 1]))| }
  }

  lemma PiecesOfPrefix(lines: seq<string>, m: nat)
    requires m <= |lines|
    ensures Pieces(lines)[..m] == Pieces(lines[..m])
  {
  }

  /** Down to any line but the first half, the two files make one text. */
  lemma PrefixTexts(w: Wrap, m: nat)
    requires w.IsWrap() && BreakIsSafe(w.marker, w.pad, w.right) && m <= |w.Whole()|
    ensures m <= |w.before| ==> Pieces(w.Whole())[..m] == Pieces(w.Broken())[..m]
    ensures m > |w.before| ==> Text(Pieces(w.Whole())[..m]) == Text(Pieces(w.Broken())[..m + 1])
  {
    hide Text, Pieces, BreakIsSafe, IsMarker, Tight, Blank;
    PiecesOfPrefix(w.Whole(), m);
    var n := |w.before|;
    if m <= n {
      PiecesOfPrefix(w.Broken(), m);
      assert w.Whole()[..m] == w.before[..m] == w.Broken()[..m];
    } else {
      PiecesOfPrefix(w.Broken(), m + 1);
      var v := w.(after := w.after[..m - n - 1]);
      assert w.Whole()[..m] == v.Whole() && w.Broken()[..m + 1] == v.Broken();
      WrapInsensitive(v.before, v.lead, v.left, v.right, v.tail, v.trail, v.indent, v.marker, v.pad, v.after);
    }
  }

  /** A safe break moves the characters after it down by one line and leaves every other where it was. */
  lemma BreakShiftsLines(w: Wrap, i: nat)
    requires w.IsWrap() && BreakIsSafe(w.marker, w.pad, w.right) && i < |Text(Pieces(w.Whole()))|
    ensures Text(Pieces(w.Whole())) == Text(Pieces(w.Broken()))
    ensures Numbers(Pieces(w.Broken()))[i] == Numbers(Pieces(w.Whole()))[i] + if i >= w.Cut() then 1 else 0
  {
    hide Text, Pieces, Numbers, BreakIsSafe, Wrap.IsWrap;
    var x, y := Pieces(w.Whole()), Pieces(w.Broken());
    SameText(w);
    PiecesOfPrefix(w.Broken(), |w.before| + 1);
    forall m: nat | m <= |x|
      ensures m <= |w.before| ==> Text(x[..m]) == Text(y[..m])
      ensures m > |w.before| ==> Text(x[..m]) == Text(y[..m + 1])
    {
      PrefixTexts(w, m);
    }
    OneMoreLine(x, y, |w.before|, i);
  }

  /** The line of a character, when `y` has one line more than `x` and makes the same text down to
      every line but line `n` of its own. */
  lemma OneMoreLine(x: seq<string>, y: seq<string>, n: nat, i: nat)
    requires Text(x) == Text(y) && n < |x| && |y| == |x| + 1 && i < |Text(x)|
    requires forall m: nat :: m <= n ==> Text(x[..m]) == Text(y[..m])
    requires forall m: nat :: n < m <= |x| ==> Text(x[..m]) == Text(y[..m + 1])
    ensures Numbers(y)[i] == Numbers(x)[i] + if i >= |Text(y[..n + 1])| then 1 else 0
  {
    hide Text, Numbers;
    var m := Numbers(x)[i];
    NumberIsTheLine(x, m, i);
    if m <= n {
      NumberIsTheLine(y, m, i);
      TextGrows(y, m, n + 1);
    } else if m == n + 1 {
      assert Text(x[..n]) == Text(y[..n]) && Text(x[..n + 1]) == Text(y[..n + 2]);
      NumberIsTheLine(y, n + 1, i);
      NumberIsTheLine(y, n + 2, i);
    } else {
      assert Text(x[..m - 1]) == Text(y[..m]) && Text(x[..m]) == Text(y[..m + 1]);
      NumberIsTheLine(y, m + 1, i);
      TextGrows(y, n + 1, m);
    }
  }

  lemma {:induction false} TextGrows(pieces: seq<string>, m: nat, n: nat)
    requires m <= n <= |pieces|
    ensures |Text(pieces[..m])| <= |Text(pieces[..n])|
    decreases n - m
  {
    hide Text;
    if m < n {
      TextGrows(pieces, m, n - 1);
      TextOfPrefix(pieces, n);
    }
  }

  lemma TextOfPrefix(pieces: seq<string>, n: nat)
    requires 1 <= n <= |pieces|
    ensures |Text(pieces[..n - 1])| <= |Text(pieces[..n])|
  {
    assert pieces[..n][..n - 1] == pieces[..n - 1];
  }

  /** Some phrase starts at a place that is on line `number` once the places from `cut` on are one
      line further down. */
  ghost predicate StartsOnShiftedLine(pieces: seq<string>, cut: nat, needles: seq<string>, number: nat) {
    exists k, at :: 0 <= k < |needles| && 0 <= at < |Text(pieces)|
                    && OccursAt(AsciiLower(Text(pieces)), needles[k], at)
                    && number == Numbers(pieces)[at] + if at >= cut then 1 else 0
  }

  /** Two files that differ in one safe break are scanned alike: a line of the broken file is printed
      exactly when a phrase starts in the unbroken one at a place that the break moves to that line. */
  lemma WrappedTextsScanAlike(w: Wrap, needles: seq<string>, number: nat)
    requires w.IsWrap() && BreakIsSafe(w.marker, w.pad, w.right)
    requires forall i :: 0 <= i < |w.Whole()| ==> OneLine(w.Whole()[i])
    requires forall i :: 0 <= i < |w.Broken()| ==> OneLine(w.Broken()[i])
    ensures var whole, broken := SplitLines(Unlines(w.Whole())), SplitLines(Unlines(w.Broken()));
            && Text(Pieces(whole)) == Text(Pieces(broken))
            && (StartsOnLine(Pieces(broken), needles, |needles|, number)
                <==> StartsOnShiftedLine(Pieces(whole), w.Cut(), needles, number))
  {
    hide Text, Pieces, Numbers, BreakIsSafe, Wrap.IsWrap, Wrap.Whole, Wrap.Broken, Wrap.Cut, OneLine;
    hide StartsOnLine, StartsOnShiftedLine;
    SplitUnlines(w.Whole());
    SplitUnlines(w.Broken());
    SameText(w);
    var x, y := Pieces(w.Whole()), Pieces(w.Broken());
    forall i: nat | i < |Text(x)| ensures Numbers(y)[i] == Numbers(x)[i] + if i >= w.Cut() then 1 else 0 {
      BreakShiftsLines(w, i);
    }
    StartsShift(x, y, w.Cut(), needles, number);
  }

  lemma StartsShift(x: seq<string>, y: seq<string>, cut: nat, needles: seq<string>, number: nat)
    requires Text(x) == Text(y)
    requires forall i: nat :: i < |Text(x)| ==> Numbers(y)[i] == Numbers(x)[i] + if i >= cut then 1 else 0
    ensures StartsOnLine(y, needles, |needles|, number) <==> StartsOnShiftedLine(x, cut, needles, number)
  {
    hide Text, Numbers, OccursAt;
    if StartsOnLine(y, needles, |needles|, number) {
      var k :| 0 <= k < |needles| && PhraseStarts(y, needles[k], |Text(y)|, number);
      var at :| 0 <= at < |Text(y)| && OccursAt(AsciiLower(Text(y)), needles[k], at) && Numbers(y)[at] == number;
      assert OccursAt(AsciiLower(Text(x)), needles[k], at);
    }
    if StartsOnShiftedLine(x, cut, needles, number) {
      var k, at :| 0 <= k < |needles| && 0 <= at < |Text(x)| && OccursAt(AsciiLower(Text(x)), needles[k], at)
                   && number == Numbers(x)[at] + if at >= cut then 1 else 0;
      assert OccursAt(AsciiLower(Text(y)), needles[k], at);
      assert PhraseStarts(y, needles[k], |Text(y)|, number);
    }
  }

  lemma SameText(w: Wrap)
    requires w.IsWrap() && BreakIsSafe(w.marker, w.pad, w.right)
    ensures Text(Pieces(w.Whole())) == Text(Pieces(w.Broken()))
  {
    hide Text, Pieces, BreakIsSafe, IsMarker, Tight, Blank;
    WrapInsensitive(w.before, w.lead, w.left, w.right, w.tail, w.trail, w.indent, w.marker, w.pad, w.after);
  }

  lemma TightIsNotEmpty(s: string)
    requires Tight(s)
    ensures s != ""
  {
  }

  lemma GluedSlash()
    ensures IsMarker(MARKERS[2]) && !BreakIsSafe(MARKERS[2], "", "/x")
    ensures Tight("a") && Tight("/x") && Blank("")
  {
    hide Marker;
  }

  /** A break that is not safe: `a /x` broken before `/x` behind the marker `//` reads `///x`, and loses a slash. */
  lemma AGluedMarkerIsNotSafe()
    ensures Text(Pieces(["a /x"])) != Text(Pieces(["a", "///x"]))
  {
    hide Text, Pieces, BreakIsSafe, IsMarker, Tight, Blank;
    GluedSlash();
    WrapInsensitive([], "", "a", "/x", "", "", "", MARKERS[2], "", []);
    assert "" + ("a" + (" " + "/x")) + "" == "a /x" && "" + "a" + "" == "a";
    assert "" + MARKERS[2] + "" + "/x" + "" == "///x";
    assert [] + ["a /x"] + [] == ["a /x"] && [] + ["a", "///x"] + [] == ["a", "///x"];
  }
}
