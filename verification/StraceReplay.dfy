/** The replay of process working directories: `reads` of `scripts/ci-trace.py`. */
module StraceReplay {
  import opened Basics
  import opened Decimal
  import opened Whitespace
  import opened Encodings
  import opened PosixPath
  import opened StraceLexer
  import opened StraceArgs
  import opened StraceEvents

  datatype TraceError = Lex(error: LexError) | FchdirWithoutPath | TruncatedPath | UnreadableDirfd | DirfdWithoutPath

  // ---- what a completed syscall returned -----------------------------------------------

  datatype Returned = Returned(value: string, decoration: Option<string>, end: nat)

  function SpacesFrom(text: string, i: nat): (j: nat)
    requires i <= |text|
    ensures i <= j <= |text|
    decreases |text| - i
  {
    if i < |text| && IsSpace(text[i]) then SpacesFrom(text, i + 1) else i
  }

  function ValueLength(text: string, i: nat): (n: nat)
    requires i <= |text|
    ensures i + n <= |text|
  {
    if i < |text| && text[i] == '?' then 1
    else if i < |text| && text[i] == '-' && DigitRun(text[i + 1..]) > 0 then 1 + DigitRun(text[i + 1..])
    else DigitRun(text[i..])
  }

  function UpTo(text: string, i: nat, c: char): (j: nat)
    requires i <= |text|
    ensures i <= j <= |text|
    decreases |text| - i
  {
    if i < |text| && text[i] != c then UpTo(text, i + 1, c) else i
  }

  /** `) = value<decoration>` starting at `i`. */
  function ReturnAt(text: string, i: nat): (r: Option<Returned>)
    requires i < |text|
    ensures r.Some? ==> i < r.value.end <= |text|
  {
    if text[i] != ')' then None
    else
      var j := SpacesFrom(text, i + 1);
      if j == i + 1 || j == |text| || text[j] != '=' then None
      else
        var k := SpacesFrom(text, j + 1);
        var n := ValueLength(text, k);
        if k == j + 1 || n == 0 then None
        else
          var e := k + n;
          if e < |text| && text[e] == '<' && UpTo(text, e + 1, '>') < |text|
          then Some(Returned(text[k..e], Some(text[e + 1..UpTo(text, e + 1, '>')]), UpTo(text, e + 1, '>') + 1))
          else Some(Returned(text[k..e], None, e))
  }

  /** The last of the matches found from left to right. */
  function LastReturn(text: string, i: nat, found: Option<Returned>): Option<Returned>
    decreases |text| - i
  {
    if i >= |text| then found
    else
      match ReturnAt(text, i)
      case Some(r) => LastReturn(text, r.end, Some(r))
      case None => LastReturn(text, i + 1, found)
  }

  /** The value a text returned: None when it matches nothing. */
  function ReturnedValue(text: string): Option<string> {
    match LastReturn(text, 0, None)
    case Some(r) => Some(r.value)
    case None => None
  }

  function ReturnedPath(text: string): Option<string> {
    match LastReturn(text, 0, None)
    case Some(r) => r.decoration
    case None => None
  }

  // ---- the syscalls followed --------------------------------------------------------------

  predicate IsFork(name: string) { name == "clone" || name == "clone3" || name == "fork" || name == "vfork" }

  predicate TakesDirfd(name: string) {
    name == "openat" || name == "newfstatat" || name == "fstatat64" || name == "statx" || name == "faccessat"
    || name == "faccessat2" || name == "execveat"
  }

  predicate IsOpen(name: string) { name == "open" || name == "openat" || name == "creat" }

  /** The calls that look at a file without reading it. */
  predicate IsStat(name: string) {
    name == "stat" || name == "lstat" || name == "newfstatat" || name == "fstatat64" || name == "statx"
    || name == "access" || name == "faccessat" || name == "faccessat2"
  }

  function PathArg(name: string): Option<nat> {
    if TakesDirfd(name) then Some(1)
    else if name == "open" || name == "creat" || name == "stat" || name == "lstat" || name == "access"
            || name == "execve" || name == "chdir" then Some(0)
    else None
  }

  /** `AT_FDCWD` or a number, and the path strace decorated it with. */
  function Decorated(arg: string): Option<(string, Option<string>)> {
    var n := if StartsWith(arg, "AT_FDCWD") then 8 else ValueLength(arg, 0);
    if n == 0 || n > |arg| || arg[0] == '?' then None
    else if n == |arg| then Some((arg, None))
    else if |arg| >= n + 2 && arg[n] == '<' && arg[|arg| - 1] == '>'
    then Some((arg[..n], Some(arg[n + 1..|arg| - 1])))
    else None
  }

  function Given(text: Option<string>): bool { text.Some? && text.value != "" }

  // ---- what a completed syscall does --------------------------------------------------------

  datatype Effect = Nothing | Moves(dir: Path) | Names(path: Path)

  /** The directory a relative path of the call is resolved against. */
  function Base(name: string, args: seq<string>, cwd: Path): Result<Path, TraceError>
    requires args != []
  {
    if !TakesDirfd(name) then Ok(cwd)
    else
      match Decorated(args[0])
      case None => Err(UnreadableDirfd)
      case Some((fd, path)) =>
        if Given(path) then Ok(Utf8(path.value))
        else if fd != "AT_FDCWD" then Err(DirfdWithoutPath)
        else Ok(cwd)
  }

  function Resolved(name: string, text: string, args: seq<string>, path: Path, cwd: Path): Result<Path, TraceError>
    requires args != []
  {
    var value, decoration := ReturnedValue(text), ReturnedPath(text);
    if IsOpen(name) && Given(decoration) && Given(value) && value.value[0] != '-' && value.value != "?"
    then Ok(NormPath(Utf8(decoration.value)))
    else if IsAbsolute(path) then Ok(NormPath(path))
    else
      match Base(name, args, cwd)
      case Err(e) => Err(e)
      case Ok(base) => Ok(NormPath(JoinPath(base, path)))
  }

  /** What a completed call of a process whose directory is `cwd` does. */
  function EffectOf(name: string, text: string, cwd: Path): Result<Effect, TraceError> {
    match ArgsFrom(text, 0, 0, "")
    case Err(e) => Err(Lex(e))
    case Ok(args) =>
      var value := ReturnedValue(text);
      if name == "fchdir" then
        (if value == Some("0") && args != [] then
           (match Decorated(args[0])
            case Some((_, path)) => if Given(path) then Ok(Moves(Utf8(path.value))) else Err(FchdirWithoutPath)
            case None => Err(FchdirWithoutPath))
         else Ok(Nothing))
      else
        match PathArg(name)
        case None => Ok(Nothing)
        case Some(index) =>
          if index >= |args| || args[index] == "" || args[index][0] != '"' then Ok(Nothing)
          else
            match LexFrom(args[index], 1)
            case Err(e) => Err(Lex(e))
            case Ok(literal) =>
              if literal.truncated then Err(TruncatedPath)
              else
                match Resolved(name, text, args, literal.bytes, cwd)
                case Err(e) => Err(e)
                case Ok(path) =>
                  if name == "chdir" then Ok(if value == Some("0") then Moves(path) else Nothing) else Ok(Names(path))
  }

  // ---- the timeline ---------------------------------------------------------------------------

  /** A child appears at its parent's START line; a call has its effect at its END line. */
  datatype Entry =
    | Spawn(line: nat, parent: nat, child: nat, shared: bool)
    | Complete(line: nat, pid: nat, name: string, text: string)

  function Contains(s: string, part: string): bool { exists i :: 0 <= i <= |s| && StartsAt(s, i, part) }

  /** The child a fork returned, when it returned one. */
  function Child(e: Event): Option<nat> {
    var value := ReturnedValue(e.text);
    if IsFork(e.name) && Given(value) && AllDigits(value.value) && Number(value.value) > 0
    then Some(Number(value.value))
    else None
  }

  function EntriesOf(e: Event): seq<Entry> {
    var done := [Complete(e.end, e.pid, e.name, e.text)];
    match Child(e)
    case Some(child) =>
      [Spawn(e.start, e.pid, child, (e.name == "clone" || e.name == "clone3") && Contains(e.text, "CLONE_FS"))] + done
    case None => done
  }

  function Kind(e: Entry): nat { if e.Spawn? then 0 else 1 }

  predicate Precedes(a: Entry, b: Entry) { a.line < b.line || (a.line == b.line && Kind(a) < Kind(b)) }

  predicate InOrder(tl: seq<Entry>) { forall i, j :: 0 <= i < j < |tl| ==> !Precedes(tl[j], tl[i]) }

  /** A stable sort puts each entry after those that do not follow it. */
  function Insert(tl: seq<Entry>, e: Entry): seq<Entry> {
    if tl == [] || !Precedes(e, tl[|tl| - 1]) then tl + [e]
    else Insert(tl[..|tl| - 1], e) + [tl[|tl| - 1]]
  }

  lemma {:induction false} InsertHolds(tl: seq<Entry>, e: Entry)
    ensures multiset(Insert(tl, e)) == multiset(tl) + multiset{e}
  {
    if tl != [] && Precedes(e, tl[|tl| - 1]) {
      InsertHolds(tl[..|tl| - 1], e);
      assert tl == tl[..|tl| - 1] + [tl[|tl| - 1]];
    }
  }

  lemma {:induction false} InsertKeepsOrder(tl: seq<Entry>, e: Entry)
    requires InOrder(tl)
    ensures InOrder(Insert(tl, e))
  {
    if tl != [] && Precedes(e, tl[|tl| - 1]) {
      var before, last := tl[..|tl| - 1], tl[|tl| - 1];
      var r := Insert(before, e);
      InsertKeepsOrder(before, e);
      InsertHolds(before, e);
      forall i | 0 <= i < |r| ensures !Precedes(last, r[i]) {
        assert r[i] in multiset(r);
        if r[i] != e {
          assert r[i] in before;
          var k :| 0 <= k < |before| && before[k] == r[i];
          assert tl[k] == r[i];
        }
      }
    }
  }

  function Timeline(events: seq<Event>): seq<Entry> {
    if events == [] then []
    else
      var tl, entries := Timeline(events[..|events| - 1]), EntriesOf(events[|events| - 1]);
      if |entries| == 2 then Insert(Insert(tl, entries[0]), entries[1]) else Insert(tl, entries[0])
  }

  lemma {:induction false} TimelineIsInOrder(events: seq<Event>)
    ensures InOrder(Timeline(events))
    decreases |events|
  {
    hide EntriesOf, Insert;
    if events != [] {
      var tl, entries := Timeline(events[..|events| - 1]), EntriesOf(events[|events| - 1]);
      TimelineIsInOrder(events[..|events| - 1]);
      OneOrTwo(events[|events| - 1]);
      InsertKeepsOrder(tl, entries[0]);
      if |entries| == 2 { InsertKeepsOrder(Insert(tl, entries[0]), entries[1]); }
    }
  }

  lemma OneOrTwo(e: Event)
    ensures 1 <= |EntriesOf(e)| <= 2
  {
  }

  lemma OneMoreEvent(events: seq<Event>)
    requires events != []
    ensures multiset(Timeline(events)) == multiset(Timeline(events[..|events| - 1]))
            + multiset(EntriesOf(events[|events| - 1]))
  {
    hide EntriesOf, Insert;
    var tl, entries := Timeline(events[..|events| - 1]), EntriesOf(events[|events| - 1]);
    OneOrTwo(events[|events| - 1]);
    InsertHolds(tl, entries[0]);
    if |entries| == 2 {
      InsertHolds(Insert(tl, entries[0]), entries[1]);
      assert entries == [entries[0], entries[1]];
    } else {
      assert entries == [entries[0]];
    }
  }

  /** The timeline holds exactly the entries of the events. */
  lemma {:induction false} TimelineHolds(events: seq<Event>, x: Entry)
    ensures x in Timeline(events) <==> exists i :: 0 <= i < |events| && x in EntriesOf(events[i])
    decreases |events|
  {
    hide EntriesOf, Timeline;
    if events == [] {
      NoEvents();
    } else {
      var before := events[..|events| - 1];
      OneMoreEvent(events);
      TimelineHolds(before, x);
      assert x in Timeline(events) <==> x in multiset(Timeline(events));
      assert x in Timeline(before) <==> x in multiset(Timeline(before));
      assert x in EntriesOf(events[|events| - 1]) <==> x in multiset(EntriesOf(events[|events| - 1]));
      if exists i :: 0 <= i < |events| && x in EntriesOf(events[i]) {
        var i :| 0 <= i < |events| && x in EntriesOf(events[i]);
        assert i < |before| ==> before[i] == events[i];
      }
      if exists i :: 0 <= i < |before| && x in EntriesOf(before[i]) {
        var i :| 0 <= i < |before| && x in EntriesOf(before[i]);
        assert before[i] == events[i];
      }
    }
  }

  lemma NoEvents()
    ensures Timeline([]) == []
  {
  }

  // ---- the operating system's view --------------------------------------------------------------
  //
  // Told by pid alone, without cells: which processes share a working directory after the first
  // `n` entries, and what it is. A pid not seen before starts alone in `start`.

  /** The process whose directory `pid` had just before a spawn of `child`. */
  function Before(pid: nat, child: nat, parent: nat): nat { if pid == child then parent else pid }

  predicate SameGroup(tl: seq<Entry>, n: nat, p: nat, q: nat)
    requires n <= |tl|
  {
    if n == 0 then p == q
    else
      match tl[n - 1]
      case Spawn(_, parent, child, shared) =>
        if shared then SameGroup(tl, n - 1, Before(p, child, parent), Before(q, child, parent))
        else if p == child || q == child then p == q
        else SameGroup(tl, n - 1, p, q)
      case Complete(_, _, _, _) => SameGroup(tl, n - 1, p, q)
  }

  function Directory(tl: seq<Entry>, start: Path, n: nat, pid: nat): Path
    requires n <= |tl|
  {
    if n == 0 then start
    else
      match tl[n - 1]
      case Spawn(_, parent, child, _) => Directory(tl, start, n - 1, Before(pid, child, parent))
      case Complete(_, caller, name, text) =>
        match EffectOf(name, text, Directory(tl, start, n - 1, caller))
        case Ok(Moves(dir)) =>
          if SameGroup(tl, n - 1, caller, pid) then dir else Directory(tl, start, n - 1, pid)
        case _ => Directory(tl, start, n - 1, pid)
  }

  /** The effect of entry `k`, a completed call, in the directory its caller then has. */
  function EffectAt(tl: seq<Entry>, start: Path, k: nat): Result<Effect, TraceError>
    requires k < |tl| && tl[k].Complete?
  {
    EffectOf(tl[k].name, tl[k].text, Directory(tl, start, k, tl[k].pid))
  }

  /** A path that was named, the call that named it, and the executable of the process that called. */
  datatype Found = Found(path: Path, call: string, exe: Option<Path>)

  /** A successful `execve` or `execveat` of a path. */
  predicate Executes(name: string, text: string) {
    (name == "execve" || name == "execveat") && ReturnedValue(text) == Some("0")
  }

  /** What a process runs after the first `n` entries: what it last executed, or what its parent ran when it was
      spawned; None for a process first seen running. */
  function Executable(tl: seq<Entry>, start: Path, n: nat, pid: nat): Option<Path>
    requires n <= |tl|
  {
    hide EffectOf, Directory, Executes;
    if n == 0 then None
    else
      match tl[n - 1]
      case Spawn(_, parent, child, _) => Executable(tl, start, n - 1, Before(pid, child, parent))
      case Complete(_, caller, name, text) =>
        var effect := EffectAt(tl, start, n - 1);
        if pid == caller && Executes(name, text) && effect.Ok? && effect.value.Names? then Some(effect.value.path)
        else Executable(tl, start, n - 1, pid)
  }

  function Note(found: seq<Found>, effect: Effect, name: string, exe: Option<Path>): seq<Found> {
    if effect.Names? then found + [Found(effect.path, name, exe)] else found
  }

  function NoteResult(found: Result<seq<Found>, TraceError>, effect: Result<Effect, TraceError>, name: string,
                      exe: Option<Path>): Result<seq<Found>, TraceError>
  {
    if found.Err? then found
    else if effect.Err? then Err(effect.error)
    else Ok(Note(found.value, effect.value, name, exe))
  }

  /** The paths the first `n` entries name, in order, or the first error. */
  function Reads(tl: seq<Entry>, start: Path, n: nat): Result<seq<Found>, TraceError>
    requires n <= |tl|
  {
    hide EffectOf, Directory, Executable;
    if n == 0 then Ok([])
    else if tl[n - 1].Spawn? then Reads(tl, start, n - 1)
    else
      NoteResult(Reads(tl, start, n - 1), EffectAt(tl, start, n - 1), tl[n - 1].name,
                 Executable(tl, start, n - 1, tl[n - 1].pid))
  }

  lemma {:induction false} SameGroupIsEquivalence(tl: seq<Entry>, n: nat, p: nat, q: nat, r: nat)
    requires n <= |tl|
    ensures SameGroup(tl, n, p, p)
    ensures SameGroup(tl, n, p, q) ==> SameGroup(tl, n, q, p)
    ensures SameGroup(tl, n, p, q) && SameGroup(tl, n, q, r) ==> SameGroup(tl, n, p, r)
  {
    hide EffectOf;
    if n > 0 {
      match tl[n - 1]
      case Spawn(_, parent, child, shared) =>
        SameGroupIsEquivalence(tl, n - 1, Before(p, child, parent), Before(q, child, parent), Before(r, child, parent));
        SameGroupIsEquivalence(tl, n - 1, p, q, r);
      case Complete(_, _, _, _) => SameGroupIsEquivalence(tl, n - 1, p, q, r);
    }
  }

  /** A group has one directory. */
  lemma {:induction false} GroupsShareTheDirectory(tl: seq<Entry>, start: Path, n: nat, p: nat, q: nat)
    requires n <= |tl| && SameGroup(tl, n, p, q)
    ensures Directory(tl, start, n, p) == Directory(tl, start, n, q)
  {
    hide EffectOf;
    if n > 0 {
      match tl[n - 1]
      case Spawn(_, parent, child, shared) =>
        if shared {
          GroupsShareTheDirectory(tl, start, n - 1, Before(p, child, parent), Before(q, child, parent));
        } else if p != child && q != child {
          GroupsShareTheDirectory(tl, start, n - 1, p, q);
        }
      case Complete(_, caller, _, _) =>
        GroupsShareTheDirectory(tl, start, n - 1, p, q);
        SameGroupIsEquivalence(tl, n - 1, caller, p, q);
        SameGroupIsEquivalence(tl, n - 1, caller, q, p);
        SameGroupIsEquivalence(tl, n - 1, p, q, q);
    }
  }

  // ---- the replay with shared cells ----------------------------------------------------------------

  /** A one-element list that processes of one group share. */
  class Cell {
    var dir: Path

    constructor (dir: Path)
      ensures this.dir == dir
    {
      this.dir := dir;
    }
  }

  /** Who shares a directory, and what each process's is, after the first `n` entries. */
  ghost function GroupsAfter(tl: seq<Entry>, n: nat): (nat, nat) -> bool
    requires n <= |tl|
  {
    (p: nat, q: nat) => SameGroup(tl, n, p, q)
  }

  ghost function DirectoriesAfter(tl: seq<Entry>, start: Path, n: nat): nat -> Path
    requires n <= |tl|
  {
    (p: nat) => Directory(tl, start, n, p)
  }

  /** The cells tell what the operating system's view tells: two seen pids share a cell exactly when
      they share a group, and the cell holds the group's directory; an unseen pid is alone in `start`. */
  ghost predicate Refines(fsOf: map<nat, Cell>, same: (nat, nat) -> bool, dir: nat -> Path, start: Path)
    reads set p | p in fsOf :: fsOf[p]
  {
    (forall p, q :: p in fsOf && q in fsOf ==> (fsOf[p] == fsOf[q] <==> same(p, q)))
    && (forall p, q :: p !in fsOf || q !in fsOf ==> (same(p, q) <==> p == q))
    && (forall p :: p in fsOf ==> fsOf[p].dir == dir(p))
    && (forall p :: p !in fsOf ==> dir(p) == start)
  }

  /** `fs`: the pid's cell, made on first sight. */
  method CellOf(fsOf: map<nat, Cell>, pid: nat, start: Path, ghost same: (nat, nat) -> bool, ghost dir: nat -> Path)
    returns (fsOf': map<nat, Cell>)
    requires Refines(fsOf, same, dir, start)
    ensures pid in fsOf' && Refines(fsOf', same, dir, start)
    ensures forall p :: p in fsOf' ==> (p in fsOf && fsOf'[p] == fsOf[p]) || (p == pid && fresh(fsOf'[p]))
  {
    fsOf' := fsOf;
    if pid !in fsOf {
      var cell := new Cell(start);
      assert forall q :: q in fsOf ==> fsOf[q] != cell;
      fsOf' := fsOf[pid := cell];
    }
  }

  /** A spawn gives the child its parent's cell, or a cell of its own holding the parent's directory. */
  method SpawnChild(fsOf: map<nat, Cell>, parent: nat, child: nat, shared: bool, start: Path,
                    ghost same: (nat, nat) -> bool, ghost dir: nat -> Path,
                    ghost same': (nat, nat) -> bool, ghost dir': nat -> Path)
    returns (fsOf': map<nat, Cell>)
    requires Refines(fsOf, same, dir, start) && parent in fsOf
    requires shared ==> forall p, q :: same'(p, q) <==> same(Before(p, child, parent), Before(q, child, parent))
    requires !shared ==>
               forall p, q :: (same'(p, q) <==> (if p == child || q == child then p == q else same(p, q)))
    requires forall p :: dir'(p) == dir(Before(p, child, parent))
    ensures Refines(fsOf', same', dir', start)
    ensures forall p :: p in fsOf' ==>
              (p in fsOf && fsOf'[p] == fsOf[p]) || fsOf'[p] == fsOf[parent] || fresh(fsOf'[p])
  {
    if shared {
      fsOf' := fsOf[child := fsOf[parent]];
    } else {
      var cell := new Cell(fsOf[parent].dir);
      assert forall q :: q in fsOf ==> fsOf[q] != cell;
      fsOf' := fsOf[child := cell];
    }
  }

  /** A successful change of directory writes the caller's cell, and so moves its whole group. */
  method MoveGroup(fsOf: map<nat, Cell>, pid: nat, to: Path, start: Path,
                   ghost same: (nat, nat) -> bool, ghost dir: nat -> Path, ghost dir': nat -> Path)
    requires Refines(fsOf, same, dir, start) && pid in fsOf
    requires forall p :: dir'(p) == if same(pid, p) then to else dir(p)
    modifies fsOf[pid]
    ensures Refines(fsOf, same, dir', start)
  {
    fsOf[pid].dir := to;
  }

  lemma {:induction false} SpawnSpec(tl: seq<Entry>, start: Path, n: nat, p: nat, q: nat)
    requires n < |tl| && tl[n].Spawn?
    ensures SameGroup(tl, n + 1, p, q)
            <==> (if tl[n].shared
                  then SameGroup(tl, n, Before(p, tl[n].child, tl[n].parent), Before(q, tl[n].child, tl[n].parent))
                  else if p == tl[n].child || q == tl[n].child then p == q
                  else SameGroup(tl, n, p, q))
    ensures Directory(tl, start, n + 1, p) == Directory(tl, start, n, Before(p, tl[n].child, tl[n].parent))
    ensures Reads(tl, start, n + 1) == Reads(tl, start, n)
  {
    hide EffectOf, Executable;
  }

  /** A successful chdir or fchdir moves all of the caller's group and nothing else. */
  lemma {:induction false} CompleteSpec(tl: seq<Entry>, start: Path, n: nat, p: nat, q: nat)
    requires n < |tl| && tl[n].Complete?
    ensures SameGroup(tl, n + 1, p, q) <==> SameGroup(tl, n, p, q)
    ensures Directory(tl, start, n + 1, p)
            == if EffectAt(tl, start, n).Ok? && EffectAt(tl, start, n).value.Moves? && SameGroup(tl, n, tl[n].pid, p)
               then EffectAt(tl, start, n).value.dir
               else Directory(tl, start, n, p)
    ensures Reads(tl, start, n + 1)
            == NoteResult(Reads(tl, start, n), EffectAt(tl, start, n), tl[n].name, Executable(tl, start, n, tl[n].pid))
  {
    hide EffectOf, Executable;
  }

  lemma ExecutableStep(tl: seq<Entry>, start: Path, n: nat, p: nat)
    requires n < |tl|
    ensures tl[n].Spawn? ==>
              Executable(tl, start, n + 1, p) == Executable(tl, start, n, Before(p, tl[n].child, tl[n].parent))
    ensures tl[n].Complete? ==>
              Executable(tl, start, n + 1, p)
              == if p == tl[n].pid && Executes(tl[n].name, tl[n].text) && EffectAt(tl, start, n).Ok?
                    && EffectAt(tl, start, n).value.Names? then Some(EffectAt(tl, start, n).value.path)
                 else Executable(tl, start, n, p)
  {
    hide EffectAt, Executes;
  }

  /** `exe_of.get(pid)`. */
  function ExeIn(exeOf: map<nat, Option<Path>>, pid: nat): Option<Path> { if pid in exeOf then exeOf[pid] else None }

  /** `exe_of` holds what every process runs. */
  ghost predicate HoldsExecutables(exeOf: map<nat, Option<Path>>, tl: seq<Entry>, start: Path, n: nat)
    requires n <= |tl|
  {
    forall p :: ExeIn(exeOf, p) == Executable(tl, start, n, p)
  }

  lemma NoExecutables(tl: seq<Entry>, start: Path)
    ensures HoldsExecutables(map[], tl, start, 0)
  {
  }

  /** A child runs what its parent runs. */
  lemma SpawnedExecutables(exeOf: map<nat, Option<Path>>, tl: seq<Entry>, start: Path, n: nat)
    requires n < |tl| && tl[n].Spawn? && HoldsExecutables(exeOf, tl, start, n)
    ensures HoldsExecutables(exeOf[tl[n].child := ExeIn(exeOf, tl[n].parent)], tl, start, n + 1)
  {
    hide Executable;
    var after := exeOf[tl[n].child := ExeIn(exeOf, tl[n].parent)];
    forall p: nat ensures ExeIn(after, p) == Executable(tl, start, n + 1, p) {
      ExecutableStep(tl, start, n, p);
      assert ExeIn(exeOf, tl[n].parent) == Executable(tl, start, n, tl[n].parent);
    }
  }

  /** A process that executed a path runs it; nobody else is touched. */
  lemma ExecutedExecutables(exeOf: map<nat, Option<Path>>, tl: seq<Entry>, start: Path, n: nat)
    requires n < |tl| && tl[n].Complete? && EffectAt(tl, start, n).Ok? && HoldsExecutables(exeOf, tl, start, n)
    ensures var effect := EffectAt(tl, start, n).value;
            HoldsExecutables(if Executes(tl[n].name, tl[n].text) && effect.Names?
                             then exeOf[tl[n].pid := Some(effect.path)] else exeOf, tl, start, n + 1)
  {
    hide Executable, EffectAt, Executes;
    var effect := EffectAt(tl, start, n).value;
    var after := if Executes(tl[n].name, tl[n].text) && effect.Names?
    then exeOf[tl[n].pid := Some(effect.path)] else exeOf;
    forall p: nat ensures ExeIn(after, p) == Executable(tl, start, n + 1, p) {
      ExecutableStep(tl, start, n, p);
      assert ExeIn(exeOf, p) == Executable(tl, start, n, p);
    }
  }

  lemma {:induction false} ErrorsStay(tl: seq<Entry>, start: Path, n: nat, m: nat)
    requires n <= m <= |tl| && Reads(tl, start, n).Err?
    ensures Reads(tl, start, m) == Reads(tl, start, n)
    decreases m
  {
    hide EffectOf, EffectAt, Executable;
    if n < m { ErrorsStay(tl, start, n, m - 1); }
  }

  lemma View(tl: seq<Entry>, start: Path, n: nat, p: nat, q: nat)
    requires n <= |tl|
    ensures GroupsAfter(tl, n)(p, q) <==> SameGroup(tl, n, p, q)
    ensures DirectoriesAfter(tl, start, n)(p) == Directory(tl, start, n, p)
  {
  }

  lemma SpawnView(tl: seq<Entry>, start: Path, n: nat, same: (nat, nat) -> bool, same': (nat, nat) -> bool,
                  dir: nat -> Path, dir': nat -> Path)
    requires n < |tl| && tl[n].Spawn?
    requires same == GroupsAfter(tl, n) && same' == GroupsAfter(tl, n + 1)
    requires dir == DirectoriesAfter(tl, start, n) && dir' == DirectoriesAfter(tl, start, n + 1)
    ensures tl[n].shared ==> forall p: nat, q: nat ::
              (same'(p, q) <==> same(Before(p, tl[n].child, tl[n].parent), Before(q, tl[n].child, tl[n].parent)))
    ensures !tl[n].shared ==> forall p: nat, q: nat ::
              (same'(p, q) <==> (if p == tl[n].child || q == tl[n].child then p == q else same(p, q)))
    ensures forall p: nat :: dir'(p) == dir(Before(p, tl[n].child, tl[n].parent))
    ensures Reads(tl, start, n + 1) == Reads(tl, start, n)
  {
    hide GroupsAfter, DirectoriesAfter, SameGroup, Directory, Reads, EffectOf, Executable;
    var child, parent := tl[n].child, tl[n].parent;
    forall p: nat, q: nat
      ensures tl[n].shared ==> (same'(p, q) <==> same(Before(p, child, parent), Before(q, child, parent)))
      ensures !tl[n].shared ==> (same'(p, q) <==> (if p == child || q == child then p == q else same(p, q)))
    {
      SpawnSpec(tl, start, n, p, q);
      View(tl, start, n + 1, p, q);
      View(tl, start, n, p, q);
      View(tl, start, n, Before(p, child, parent), Before(q, child, parent));
    }
    forall p: nat ensures dir'(p) == dir(Before(p, child, parent)) {
      SpawnSpec(tl, start, n, p, p);
      View(tl, start, n + 1, p, p);
      View(tl, start, n, Before(p, child, parent), p);
    }
    SpawnSpec(tl, start, n, 0, 0);
  }

  lemma CompleteView(tl: seq<Entry>, start: Path, n: nat, same: (nat, nat) -> bool, same': (nat, nat) -> bool,
                     dir: nat -> Path, dir': nat -> Path)
    requires n < |tl| && tl[n].Complete?
    requires same == GroupsAfter(tl, n) && same' == GroupsAfter(tl, n + 1)
    requires dir == DirectoriesAfter(tl, start, n) && dir' == DirectoriesAfter(tl, start, n + 1)
    ensures forall p: nat, q: nat :: same'(p, q) <==> same(p, q)
    ensures forall p: nat ::
              dir'(p) == (if EffectAt(tl, start, n).Ok? && EffectAt(tl, start, n).value.Moves? && same(tl[n].pid, p)
                          then EffectAt(tl, start, n).value.dir
                          else dir(p))
    ensures Reads(tl, start, n + 1)
            == NoteResult(Reads(tl, start, n), EffectAt(tl, start, n), tl[n].name, Executable(tl, start, n, tl[n].pid))
  {
    hide GroupsAfter, DirectoriesAfter, SameGroup, Directory, Reads, EffectAt, Executable;
    var effect := EffectAt(tl, start, n);
    forall p: nat, q: nat ensures same'(p, q) <==> same(p, q) {
      CompleteSpec(tl, start, n, p, q);
      View(tl, start, n + 1, p, q);
      View(tl, start, n, p, q);
    }
    forall p: nat
      ensures dir'(p) == (if effect.Ok? && effect.value.Moves? && same(tl[n].pid, p) then effect.value.dir else dir(p))
    {
      CompleteSpec(tl, start, n, p, p);
      View(tl, start, n + 1, p, p);
      View(tl, start, n, p, p);
      View(tl, start, n, tl[n].pid, p);
    }
    CompleteSpec(tl, start, n, 0, 0);
  }

  lemma SameView(fsOf: map<nat, Cell>, start: Path, same: (nat, nat) -> bool, dir: nat -> Path,
                 same': (nat, nat) -> bool, dir': nat -> Path)
    requires Refines(fsOf, same, dir, start)
    requires forall p: nat, q: nat :: same'(p, q) <==> same(p, q)
    requires forall p: nat :: dir'(p) == dir(p)
    ensures Refines(fsOf, same', dir', start)
  {
  }

  /** Two pids that were seen share a cell exactly when they share a directory, and the cell holds it; a pid that was
      not seen is alone in `start`. */
  ghost predicate TellsTheView(fsOf: map<nat, Cell>, tl: seq<Entry>, start: Path)
    reads set p | p in fsOf :: fsOf[p]
  {
    (forall p, q :: p in fsOf && q in fsOf ==> (fsOf[p] == fsOf[q] <==> SameGroup(tl, |tl|, p, q)))
    && (forall p :: p in fsOf ==> fsOf[p].dir == Directory(tl, start, |tl|, p))
    && (forall p: nat, q: nat :: p !in fsOf || q !in fsOf ==> (SameGroup(tl, |tl|, p, q) <==> p == q))
    && forall p: nat :: p !in fsOf ==> Directory(tl, start, |tl|, p) == start
  }

  /** `reads`: the timeline replayed over shared cells finds the paths, and the errors, that the operating system's view
      gives. Whatever timeline was replayed, so after every prefix of one, the cells tell that view. */
  method Replay(tl: seq<Entry>, start: Path) returns (r: Result<seq<Found>, TraceError>, fsOf: map<nat, Cell>)
    ensures r == Reads(tl, start, |tl|)
    ensures r.Ok? ==> TellsTheView(fsOf, tl, start)
  {
    hide EffectOf, GroupsAfter, DirectoriesAfter, Refines, TellsTheView, SameGroup, Directory, Reads, Executable,
         Executes, HoldsExecutables;
    fsOf := map[];
    var exeOf: map<nat, Option<Path>> := map[];
    var found: seq<Found> := [];
    NothingYet(fsOf, tl, start);
    NoExecutables(tl, start);
    for n := 0 to |tl|
      invariant forall p :: p in fsOf ==> fresh(fsOf[p])
      invariant Refines(fsOf, GroupsAfter(tl, n), DirectoriesAfter(tl, start, n), start)
      invariant HoldsExecutables(exeOf, tl, start, n)
      invariant Reads(tl, start, n) == Ok(found)
    {
      ghost var same, dir := GroupsAfter(tl, n), DirectoriesAfter(tl, start, n);
      ghost var same', dir' := GroupsAfter(tl, n + 1), DirectoriesAfter(tl, start, n + 1);
      match tl[n]
      case Spawn(_, parent, child, shared) =>
        SpawnView(tl, start, n, same, same', dir, dir');
        fsOf := CellOf(fsOf, parent, start, same, dir);
        fsOf := SpawnChild(fsOf, parent, child, shared, start, same, dir, same', dir');
        SpawnedExecutables(exeOf, tl, start, n);
        exeOf := exeOf[child := ExeIn(exeOf, parent)];
      case Complete(_, pid, name, text) =>
        CompleteView(tl, start, n, same, same', dir, dir');
        fsOf := CellOf(fsOf, pid, start, same, dir);
        CellHolds(fsOf, pid, tl, start, n);
        var effect := EffectOf(name, text, fsOf[pid].dir);
        assert effect == EffectAt(tl, start, n);
        if effect.Err? {
          ErrorsStay(tl, start, n + 1, |tl|);
          r := Err(effect.error);
          return;
        }
        if effect.value.Moves? {
          MoveGroup(fsOf, pid, effect.value.dir, start, same, dir, dir');
          SameView(fsOf, start, same, dir', same', dir');
        } else {
          SameView(fsOf, start, same, dir, same', dir');
        }
        RunsWhatItHolds(exeOf, tl, start, n, pid);
        found := Note(found, effect.value, name, ExeIn(exeOf, pid));
        ExecutedExecutables(exeOf, tl, start, n);
        if Executes(name, text) && effect.value.Names? {
          exeOf := exeOf[pid := Some(effect.value.path)];
        }
    }
    r := Ok(found);
    CellsTellTheView(fsOf, tl, start);
  }

  lemma RunsWhatItHolds(exeOf: map<nat, Option<Path>>, tl: seq<Entry>, start: Path, n: nat, pid: nat)
    requires n <= |tl| && HoldsExecutables(exeOf, tl, start, n)
    ensures ExeIn(exeOf, pid) == Executable(tl, start, n, pid)
  {
  }

  lemma CellsTellTheView(fsOf: map<nat, Cell>, tl: seq<Entry>, start: Path)
    requires Refines(fsOf, GroupsAfter(tl, |tl|), DirectoriesAfter(tl, start, |tl|), start)
    ensures TellsTheView(fsOf, tl, start)
  {
    var same, dir := GroupsAfter(tl, |tl|), DirectoriesAfter(tl, start, |tl|);
    forall p: nat, q: nat ensures same(p, q) <==> SameGroup(tl, |tl|, p, q) {}
    forall p: nat ensures dir(p) == Directory(tl, start, |tl|, p) {}
  }

  lemma CellHolds(fsOf: map<nat, Cell>, pid: nat, tl: seq<Entry>, start: Path, n: nat)
    requires n <= |tl| && pid in fsOf
    requires Refines(fsOf, GroupsAfter(tl, n), DirectoriesAfter(tl, start, n), start)
    ensures fsOf[pid].dir == Directory(tl, start, n, pid)
  {
  }

  lemma NothingYet(fsOf: map<nat, Cell>, tl: seq<Entry>, start: Path)
    requires fsOf == map[]
    ensures Refines(fsOf, GroupsAfter(tl, 0), DirectoriesAfter(tl, start, 0), start) && Reads(tl, start, 0) == Ok([])
  {
  }

  // ---- what the view says --------------------------------------------------------------------------

  /** Entry `i` gives `pid` another group or another directory. */
  predicate Disturbs(tl: seq<Entry>, start: Path, i: nat, pid: nat)
    requires i < |tl|
  {
    if tl[i].Spawn? then tl[i].child == pid
    else EffectAt(tl, start, i).Ok? && EffectAt(tl, start, i).value.Moves? && SameGroup(tl, i, tl[i].pid, pid)
  }

  /** A process keeps its directory until an entry gives it another. */
  lemma {:induction false} DirectoryStays(tl: seq<Entry>, start: Path, k: nat, j: nat, pid: nat)
    requires k <= j <= |tl|
    requires forall i :: k <= i < j ==> !Disturbs(tl, start, i, pid)
    ensures Directory(tl, start, j, pid) == Directory(tl, start, k, pid)
    decreases j
  {
    hide EffectOf;
    if k < j {
      DirectoryStays(tl, start, k, j - 1, pid);
      assert !Disturbs(tl, start, j - 1, pid);
      if tl[j - 1].Spawn? {
        SpawnSpec(tl, start, j - 1, pid, pid);
      } else {
        CompleteSpec(tl, start, j - 1, pid, pid);
      }
    }
  }

  /** In a timeline the spawn at a clone's START line comes before every call that ends at or after
      that line, the clone itself and the child's own calls included, and after every earlier one. */
  lemma SpawnComesAtItsStart(tl: seq<Entry>, k: nat, j: nat)
    requires InOrder(tl) && k < |tl| && j < |tl| && tl[k].Spawn? && tl[j].Complete?
    ensures tl[j].line >= tl[k].line <==> k < j
  {
    assert k != j;
    if k < j { assert !Precedes(tl[j], tl[k]); } else { assert !Precedes(tl[k], tl[j]); }
  }

  /** A child's calls resolve against its parent's directory at the clone's START line until its own
      group moves or its pid is spawned again, even those that end before the clone returns. */
  lemma ChildStartsWithParent(tl: seq<Entry>, start: Path, k: nat, j: nat)
    requires InOrder(tl) && k < |tl| && j < |tl| && tl[k].Spawn? && tl[j].Complete?
    requires tl[j].pid == tl[k].child && tl[j].line >= tl[k].line
    requires forall i :: k < i < j ==> !Disturbs(tl, start, i, tl[k].child)
    ensures EffectAt(tl, start, j) == EffectOf(tl[j].name, tl[j].text, Directory(tl, start, k, tl[k].parent))
  {
    hide EffectOf;
    SpawnComesAtItsStart(tl, k, j);
    DirectoryStays(tl, start, k + 1, j, tl[k].child);
    SpawnSpec(tl, start, k, tl[k].child, tl[k].child);
  }

  /** Without a CLONE_FS spawn no two processes share a directory. */
  lemma {:induction false} OnlySpawnsJoin(tl: seq<Entry>, n: nat, p: nat, q: nat)
    requires n <= |tl|
    requires forall i :: 0 <= i < n && tl[i].Spawn? ==> !tl[i].shared
    ensures SameGroup(tl, n, p, q) <==> p == q
  {
    if n > 0 { OnlySpawnsJoin(tl, n - 1, p, q); }
  }

  /** A CLONE_FS spawn joins child and parent for as long as neither pid is spawned again, whatever
      either does. */
  lemma {:induction false} SpawnsJoin(tl: seq<Entry>, start: Path, k: nat, n: nat)
    requires k < n <= |tl| && tl[k].Spawn? && tl[k].shared
    requires forall i :: k < i < n && tl[i].Spawn? ==> tl[i].child != tl[k].child && tl[i].child != tl[k].parent
    ensures SameGroup(tl, n, tl[k].child, tl[k].parent)
    ensures Directory(tl, start, n, tl[k].child) == Directory(tl, start, n, tl[k].parent)
    decreases n
  {
    hide EffectOf;
    var child, parent := tl[k].child, tl[k].parent;
    if n == k + 1 {
      SameGroupIsEquivalence(tl, k, parent, parent, parent);
      SpawnSpec(tl, start, k, child, parent);
    } else {
      SpawnsJoin(tl, start, k, n - 1);
      if tl[n - 1].Spawn? {
        SpawnSpec(tl, start, n - 1, child, parent);
      } else {
        CompleteSpec(tl, start, n - 1, child, parent);
      }
    }
    GroupsShareTheDirectory(tl, start, n, child, parent);
  }

  // ---- groups as lines of descent -----------------------------------------------------------------------

  /** The entry that last spawned `pid`. */
  function LastSpawn(tl: seq<Entry>, n: nat, pid: nat): (k: Option<nat>)
    requires n <= |tl|
    ensures k.Some? ==> k.value < n && tl[k.value].Spawn? && tl[k.value].child == pid
    ensures forall i :: (if k.Some? then k.value + 1 else 0) <= i < n && tl[i].Spawn? ==> tl[i].child != pid
  {
    if n == 0 then None
    else if tl[n - 1].Spawn? && tl[n - 1].child == pid then Some(n - 1)
    else LastSpawn(tl, n - 1, pid)
  }

  /** Where a process's directory began: up its line of CLONE_FS births, each taken at the moment of the birth, to a
      process that was first seen or was spawned with a directory of its own. */
  function Origin(tl: seq<Entry>, n: nat, pid: nat): (origin: (nat, Option<nat>))
    requires n <= |tl|
    ensures origin.1.Some? ==> origin.1.value < n
    decreases n
  {
    match LastSpawn(tl, n, pid)
    case None => (pid, None)
    case Some(k) => if tl[k].shared then Origin(tl, k, tl[k].parent) else (pid, Some(k))
  }

  lemma OriginStep(tl: seq<Entry>, n: nat, pid: nat)
    requires n < |tl|
    ensures tl[n].Complete? || tl[n].child != pid ==> Origin(tl, n + 1, pid) == Origin(tl, n, pid)
    ensures tl[n].Spawn? && tl[n].child == pid ==>
              Origin(tl, n + 1, pid) == if tl[n].shared then Origin(tl, n, tl[n].parent) else (pid, Some(n))
  {
  }

  /** Two processes share a directory exactly when CLONE_FS births lead both back to one origin. */
  lemma {:induction false} GroupsAreLinesOfDescent(tl: seq<Entry>, n: nat, p: nat, q: nat)
    requires n <= |tl|
    ensures SameGroup(tl, n, p, q) <==> Origin(tl, n, p) == Origin(tl, n, q)
    decreases n
  {
    hide Origin;
    if n > 0 {
      var e := tl[n - 1];
      OriginStep(tl, n - 1, p);
      OriginStep(tl, n - 1, q);
      if e.Spawn? && e.shared {
        GroupsAreLinesOfDescent(tl, n - 1, Before(p, e.child, e.parent), Before(q, e.child, e.parent));
      } else {
        GroupsAreLinesOfDescent(tl, n - 1, p, q);
      }
    } else {
      NobodyIsSpawnedYet(tl, p);
      NobodyIsSpawnedYet(tl, q);
    }
  }

  lemma NobodyIsSpawnedYet(tl: seq<Entry>, pid: nat)
    ensures Origin(tl, 0, pid) == (pid, None)
  {
  }

  // ---- the timeline has no ties -----------------------------------------------------------------------

  predicate SameKey(a: Entry, b: Entry) { a.line == b.line && Kind(a) == Kind(b) }

  predicate StrictlyInOrder(tl: seq<Entry>) { forall i, j :: 0 <= i < j < |tl| ==> Precedes(tl[i], tl[j]) }

  lemma {:induction false} InsertKeepsStrictOrder(tl: seq<Entry>, e: Entry)
    requires StrictlyInOrder(tl) && forall i :: 0 <= i < |tl| ==> !SameKey(tl[i], e)
    ensures StrictlyInOrder(Insert(tl, e))
  {
    if tl != [] && Precedes(e, tl[|tl| - 1]) {
      var before, last := tl[..|tl| - 1], tl[|tl| - 1];
      var r := Insert(before, e);
      InsertKeepsStrictOrder(before, e);
      InsertHolds(before, e);
      forall i | 0 <= i < |r| ensures Precedes(r[i], last) {
        assert r[i] in multiset(r);
        if r[i] != e {
          assert r[i] in before;
          var k :| 0 <= k < |before| && before[k] == r[i];
          assert tl[k] == r[i];
        }
      }
    }
  }

  /** The keys of an event's entries are its own. */
  lemma KeysAreDistinct(st: State, n: nat, i: nat, j: nat, x: Entry, y: Entry)
    requires Numbered(st, n) && i < j < |st.out| && x in EntriesOf(st.out[i]) && y in EntriesOf(st.out[j])
    ensures !SameKey(x, y)
  {
  }

  lemma {:induction false} NoTies(st: State, n: nat, k: nat)
    requires Numbered(st, n) && k <= |st.out|
    ensures StrictlyInOrder(Timeline(st.out[..k]))
    decreases k
  {
    hide EntriesOf, Numbered, Insert, Timeline;
    if k == 0 {
      NoEvents();
      assert st.out[..0] == [];
    } else {
      var events := st.out[..k];
      assert events[..k - 1] == st.out[..k - 1];
      NoTies(st, n, k - 1);
      var tl, entries := Timeline(st.out[..k - 1]), EntriesOf(st.out[k - 1]);
      OneOrTwo(st.out[k - 1]);
      forall x, y | x in tl && y in entries ensures !SameKey(x, y) {
        TimelineHolds(st.out[..k - 1], x);
        var i :| 0 <= i < k - 1 && x in EntriesOf(st.out[..k - 1][i]);
        KeysAreDistinct(st, n, i, k - 1, x, y);
      }
      InsertKeepsStrictOrder(tl, entries[0]);
      if |entries| == 2 {
        InsertHolds(tl, entries[0]);
        OwnKeys(st.out[k - 1]);
        var one := Insert(tl, entries[0]);
        forall i | 0 <= i < |one| ensures !SameKey(one[i], entries[1]) {
          assert one[i] in multiset(one);
          assert one[i] == entries[0] || one[i] in tl;
        }
        InsertKeepsStrictOrder(one, entries[1]);
      }
      OneMore(events);
    }
  }

  lemma OneMore(events: seq<Event>)
    requires events != []
    ensures var tl, entries := Timeline(events[..|events| - 1]), EntriesOf(events[|events| - 1]);
            1 <= |entries| <= 2
            && Timeline(events)
               == if |entries| == 2 then Insert(Insert(tl, entries[0]), entries[1]) else Insert(tl, entries[0])
  {
    hide EntriesOf, Insert;
    OneOrTwo(events[|events| - 1]);
  }

  lemma OwnKeys(e: Event)
    ensures |EntriesOf(e)| == 2 ==> !SameKey(EntriesOf(e)[0], EntriesOf(e)[1])
  {
  }

  /** The sorted timeline of a trace has no ties, so its order does not depend on the sort. */
  lemma TimelineHasNoTies(lines: seq<string>)
    ensures StrictlyInOrder(Timeline(Matched(lines).out))
  {
    EventsAreNumbered(lines);
    var out := Matched(lines).out;
    NoTies(Matched(lines), |lines|, |out|);
    assert out[..|out|] == out;
  }
}
