/** Matching interleaved `<unfinished ...>` and `<... resumed>` lines: `events` of
    `scripts/ci-trace.py`. */
module StraceEvents {
  import opened Basics
  import opened Decimal
  import opened Whitespace

  // ---- one line --------------------------------------------------------------------

  predicate EndsWith(s: string, suffix: string) { |suffix| <= |s| && s[|s| - |suffix|..] == suffix }

  const UNFINISHED: string := "<unfinished ...>"

  predicate IsNameChar(c: char) { 'a' <= c <= 'z' || c == '_' || IsDigit(c) }

  function NameRun(s: string): (n: nat)
    ensures n <= |s|
  {
    if s == "" || !IsNameChar(s[0]) then 0 else 1 + NameRun(s[1..])
  }

  function WithoutNewlines(raw: string): string {
    if raw != "" && raw[|raw| - 1] == '\n' then WithoutNewlines(raw[..|raw| - 1]) else raw
  }

  /** The pid and the rest of a line, behind an optional `[pid `. */
  function PidAndRest(raw: string): Option<(nat, string)> {
    var s := if StartsWith(raw, "[pid") && LeftStrip(raw[4..]) != raw[4..] then LeftStrip(raw[4..]) else raw;
    var n := DigitRun(s);
    if n == 0 then None
    else
      var t := if n < |s| && s[n] == ']' then s[n + 1..] else s[n..];
      if LeftStrip(t) == t then None else Some((Number(s[..n]), LeftStrip(t)))
  }

  /** What a line tells the matcher. */
  datatype Line =
    | Skipped
    | Resumed(pid: nat, text: string)
    | Unfinished(pid: nat, name: string, text: string)
    | Whole(pid: nat, name: string, text: string)

  function ResumedText(rest: string): Option<string> {
    if StartsWith(rest, "<... ") && NameRun(rest[5..]) > 0
       && StartsWith(rest[5 + NameRun(rest[5..])..], " resumed>")
    then Some(rest[5 + NameRun(rest[5..])..][9..])
    else None
  }

  function Classify(raw: string): Line {
    match PidAndRest(WithoutNewlines(raw))
    case None => Skipped
    case Some((pid, rest)) =>
      if StartsWith(rest, "---") || StartsWith(rest, "+++") then Skipped
      else if ResumedText(rest).Some? then Resumed(pid, ResumedText(rest).value)
      else
        var n := NameRun(rest);
        if n == 0 || n >= |rest| || rest[n] != '(' then Skipped
        else
          var text := rest[n + 1..];
          if EndsWith(text, UNFINISHED)
          then Unfinished(pid, rest[..n], RightStrip(text[..|text| - |UNFINISHED|]))
          else Whole(pid, rest[..n], text)
  }

  /** The line is this pid's own. */
  predicate OwnedBy(raw: string, pid: nat) {
    match Classify(raw)
    case Skipped => false
    case Resumed(p, _) => p == pid
    case Unfinished(p, _, _) => p == pid
    case Whole(p, _, _) => p == pid
  }

  // ---- the matcher ---------------------------------------------------------------------

  datatype Event = Event(start: nat, end: nat, pid: nat, name: string, text: string)

  datatype Waiting = Waiting(name: string, text: string, start: nat)

  datatype State = State(pending: map<nat, Waiting>, out: seq<Event>)

  function Next(st: State, n: nat, raw: string): State {
    match Classify(raw)
    case Skipped => st
    case Resumed(pid, text) =>
      if pid !in st.pending then st
      else
        var w := st.pending[pid];
        State(st.pending - {pid}, st.out + [Event(w.start, n, pid, w.name, w.text + text)])
    case Unfinished(pid, name, text) => st.(pending := st.pending[pid := Waiting(name, text, n)])
    case Whole(pid, name, text) => st.(out := st.out + [Event(n, n, pid, name, text)])
  }

  function Matched(lines: seq<string>): State {
    if lines == [] then State(map[], [])
    else Next(Matched(lines[..|lines| - 1]), |lines| - 1, lines[|lines| - 1])
  }

  /** `events`: one pass with a dictionary of the syscalls that wait to be resumed. */
  method Events(lines: seq<string>) returns (out: seq<Event>)
    ensures out == Matched(lines).out
  {
    hide Classify;
    var pending: map<nat, Waiting>;
    pending, out := map[], [];
    for n := 0 to |lines|
      invariant State(pending, out) == Matched(lines[..n])
    {
      assert lines[..n + 1][..n] == lines[..n];
      match Classify(lines[n])
      case Skipped =>
      case Resumed(pid, text) =>
        if pid in pending {
          var w := pending[pid];
          pending := pending - {pid};
          out := out + [Event(w.start, n, pid, w.name, w.text + text)];
        }
      case Unfinished(pid, name, text) =>
        pending := pending[pid := Waiting(name, text, n)];
      case Whole(pid, name, text) =>
        out := out + [Event(n, n, pid, name, text)];
    }
    assert lines[..|lines|] == lines;
  }

  // ---- interleaving ----------------------------------------------------------------------

  /** A pid's syscalls, in the order they completed. */
  function Calls(out: seq<Event>, pid: nat): seq<(string, string)> {
    if out == [] then []
    else
      var before, e := Calls(out[..|out| - 1], pid), out[|out| - 1];
      if e.pid == pid then before + [(e.name, e.text)] else before
  }

  function Own(lines: seq<string>, pid: nat): seq<string> {
    if lines == [] then []
    else
      var before, raw := Own(lines[..|lines| - 1], pid), lines[|lines| - 1];
      if OwnedBy(raw, pid) then before + [raw] else before
  }

  /** Two matchers agree about a pid: the same call waits, and the same calls completed. */
  ghost predicate AgreeOn(a: State, b: State, pid: nat) {
    (pid in a.pending <==> pid in b.pending)
    && (pid in a.pending ==> a.pending[pid].name == b.pending[pid].name && a.pending[pid].text == b.pending[pid].text)
    && Calls(a.out, pid) == Calls(b.out, pid)
  }

  lemma CallsOfOneMore(out: seq<Event>, e: Event, pid: nat)
    ensures Calls(out + [e], pid) == (if e.pid == pid then Calls(out, pid) + [(e.name, e.text)] else Calls(out, pid))
  {
    assert (out + [e])[..|out + [e]| - 1] == out;
  }

  lemma OthersChangeNothing(st: State, n: nat, raw: string, pid: nat)
    requires !OwnedBy(raw, pid)
    ensures AgreeOn(Next(st, n, raw), st, pid)
  {
    hide Classify;
    match Classify(raw)
    case Resumed(p, text) =>
      if p in st.pending {
        var w := st.pending[p];
        CallsOfOneMore(st.out, Event(w.start, n, p, w.name, w.text + text), pid);
      }
    case Whole(p, name, text) => CallsOfOneMore(st.out, Event(n, n, p, name, text), pid);
    case _ =>
  }

  lemma OwnLineActsAlike(a: State, b: State, m: nat, n: nat, raw: string, pid: nat)
    requires AgreeOn(a, b, pid) && OwnedBy(raw, pid)
    ensures AgreeOn(Next(a, m, raw), Next(b, n, raw), pid)
  {
    hide Classify;
    match Classify(raw)
    case Resumed(p, text) =>
      if p in a.pending {
        CallsOfOneMore(a.out, Event(a.pending[p].start, m, p, a.pending[p].name, a.pending[p].text + text), pid);
        CallsOfOneMore(b.out, Event(b.pending[p].start, n, p, b.pending[p].name, b.pending[p].text + text), pid);
      }
    case Whole(p, name, text) =>
      CallsOfOneMore(a.out, Event(m, m, p, name, text), pid);
      CallsOfOneMore(b.out, Event(n, n, p, name, text), pid);
    case _ =>
  }

  lemma {:induction false} OwnLinesSuffice(lines: seq<string>, pid: nat)
    ensures AgreeOn(Matched(lines), Matched(Own(lines, pid)), pid)
    decreases |lines|
  {
    hide Classify, Next, OwnedBy, AgreeOn, Calls;
    if lines == [] {
      assert Own(lines, pid) == [];
      AgreesWithItself(Matched(lines), pid);
    } else {
      var before, raw := lines[..|lines| - 1], lines[|lines| - 1];
      OwnLinesSuffice(before, pid);
      if OwnedBy(raw, pid) {
        var own := Own(before, pid) + [raw];
        assert own[..|own| - 1] == Own(before, pid);
        OwnLineActsAlike(Matched(before), Matched(Own(before, pid)), |lines| - 1, |own| - 1, raw, pid);
      } else {
        OthersChangeNothing(Matched(before), |lines| - 1, raw, pid);
        AgreementCarries(Matched(lines), Matched(before), Matched(Own(before, pid)), pid);
      }
    }
  }

  lemma AgreesWithItself(a: State, pid: nat)
    ensures AgreeOn(a, a, pid)
  {
  }

  lemma AgreementCarries(a: State, b: State, c: State, pid: nat)
    requires AgreeOn(a, b, pid) && AgreeOn(b, c, pid)
    ensures AgreeOn(a, c, pid)
  {
    hide Calls;
  }

  /** What is recovered for a pid depends on its own lines only: two traces that interleave them
      with other pids' lines in any way give it the same syscalls. */
  lemma InterleavingIndependence(a: seq<string>, b: seq<string>, pid: nat)
    requires Own(a, pid) == Own(b, pid)
    ensures Calls(Matched(a).out, pid) == Calls(Matched(b).out, pid)
  {
    OwnLinesSuffice(a, pid);
    OwnLinesSuffice(b, pid);
  }

  // ---- line numbers -----------------------------------------------------------------------

  /** Every line number is the start of at most one call and the end of at most one. */
  ghost predicate Numbered(st: State, n: nat) {
    (forall i :: 0 <= i < |st.out| ==> st.out[i].start <= st.out[i].end < n)
    && (forall i, j :: 0 <= i < j < |st.out| ==> st.out[i].end < st.out[j].end)
    && (forall i, j :: 0 <= i < j < |st.out| ==> st.out[i].start != st.out[j].start)
    && (forall p :: p in st.pending ==> st.pending[p].start < n)
    && (forall p, i :: p in st.pending && 0 <= i < |st.out| ==> st.pending[p].start != st.out[i].start)
    && (forall p, q :: p in st.pending && q in st.pending && p != q ==> st.pending[p].start != st.pending[q].start)
  }

  lemma NextNumbered(st: State, n: nat, raw: string)
    requires Numbered(st, n)
    ensures Numbered(Next(st, n, raw), n + 1)
  {
    hide Classify;
  }

  /** A call ends at or after its start, calls end on distinct lines in the order reported, and start
      on distinct lines. */
  lemma {:induction false} EventsAreNumbered(lines: seq<string>)
    ensures Numbered(Matched(lines), |lines|)
    decreases |lines|
  {
    if lines != [] {
      EventsAreNumbered(lines[..|lines| - 1]);
      NextNumbered(Matched(lines[..|lines| - 1]), |lines| - 1, lines[|lines| - 1]);
    }
  }
}
