/** What a traced run read and what its gate declared: `to_tracked` and the `check` decision of
    `scripts/ci-trace.py`. */
module TraceCheck {
  import opened Basics
  import opened Encodings
  import opened PosixPath
  import opened StraceEvents
  import opened StraceLexer
  import opened StraceReplay

  const TARGET: Path := [116, 97, 114, 103, 101, 116]
  const GIT: Path := [46, 103, 105, 116]

  predicate Under(root: Path, p: Path) { |root| < |p| && p[..|root|] == root && p[|root|] == SLASH }

  /** The path below the first root that holds it. */
  function Relative(roots: seq<Path>, p: Path): Option<Path> {
    if roots == [] then None
    else if Under(roots[0], p) then Some(p[|roots[0]| + 1..])
    else Relative(roots[1..], p)
  }

  /** Below `target` or `.git`, or one of them. */
  predicate Ignored(rel: Path) { rel == TARGET || rel == GIT || Under(TARGET, rel) || Under(GIT, rel) }

  /** The tracked file a resolved path is, if it is one. */
  function Tracked(roots: seq<Path>, tracked: set<Path>, p: Path): Option<Path> {
    match Relative(roots, p)
    case None => None
    case Some(rel) => if Ignored(rel) || rel !in tracked then None else Some(rel)
  }

  /** Some call among the first `n` is `name` naming the tracked file `rel`. */
  ghost predicate Hit(found: seq<Found>, roots: seq<Path>, tracked: set<Path>, n: nat, rel: Path, name: string)
    requires n <= |found|
  {
    exists i :: 0 <= i < n && found[i].call == name && Tracked(roots, tracked, found[i].path) == Some(rel)
  }

  lemma OneMoreHit(found: seq<Found>, roots: seq<Path>, tracked: set<Path>, n: nat, rel: Path, name: string)
    requires n < |found|
    ensures Hit(found, roots, tracked, n + 1, rel, name)
            <==> Hit(found, roots, tracked, n, rel, name)
                 || (found[n].call == name && Tracked(roots, tracked, found[n].path) == Some(rel))
  {
    hide Tracked;
  }

  /** What is recorded of a tracked file: the calls that named it, and the executables that called. */
  datatype Mention = Mention(calls: set<string>, exes: set<Path>)

  predicate Called(hits: map<Path, Mention>, rel: Path, name: string) { rel in hits && name in hits[rel].calls }

  predicate RanBy(hits: map<Path, Mention>, rel: Path, exe: Path) { rel in hits && exe in hits[rel].exes }

  /** The last component of a path. */
  function BaseName(p: Path): Path {
    if p == [] || p[|p| - 1] == SLASH then [] else BaseName(p[..|p| - 1]) + [p[|p| - 1]]
  }

  const UNKNOWN: Path := [63]

  /** How an executable is reported: by its last component, or `?` when it is not known. */
  function ExeShown(exe: Option<Path>): Path { if exe.Some? && exe.value != [] then BaseName(exe.value) else UNKNOWN }

  /** Some call among the first `n` was by `exe`, naming the tracked file `rel`. */
  ghost predicate HitBy(found: seq<Found>, roots: seq<Path>, tracked: set<Path>, n: nat, rel: Path, exe: Path)
    requires n <= |found|
  {
    exists i :: 0 <= i < n && ExeShown(found[i].exe) == exe && Tracked(roots, tracked, found[i].path) == Some(rel)
  }

  lemma OneMoreHitBy(found: seq<Found>, roots: seq<Path>, tracked: set<Path>, n: nat, rel: Path, exe: Path)
    requires n < |found|
    ensures HitBy(found, roots, tracked, n + 1, rel, exe)
            <==> HitBy(found, roots, tracked, n, rel, exe)
                 || (ExeShown(found[n].exe) == exe && Tracked(roots, tracked, found[n].path) == Some(rel))
  {
    hide Tracked, ExeShown;
  }

  /** `to_tracked`: the calls that named each tracked file, and the executables that made them. */
  method ToTracked(found: seq<Found>, roots: seq<Path>, tracked: set<Path>) returns (hits: map<Path, Mention>)
    ensures forall rel, name :: Called(hits, rel, name) <==> Hit(found, roots, tracked, |found|, rel, name)
    ensures forall rel, exe :: RanBy(hits, rel, exe) <==> HitBy(found, roots, tracked, |found|, rel, exe)
    ensures forall rel :: rel in hits ==> hits[rel].calls != {}
  {
    hide Tracked, Hit, HitBy, ExeShown;
    hits := map[];
    NoHits(found, roots, tracked);
    for n := 0 to |found|
      invariant forall rel, name :: Called(hits, rel, name) <==> Hit(found, roots, tracked, n, rel, name)
      invariant forall rel, exe :: RanBy(hits, rel, exe) <==> HitBy(found, roots, tracked, n, rel, exe)
      invariant forall rel :: rel in hits ==> hits[rel].calls != {}
    {
      ghost var before := hits;
      var at := Tracked(roots, tracked, found[n].path);
      if at.Some? {
        var hit := if at.value in hits then hits[at.value] else Mention({}, {});
        hits := hits[at.value := Mention(hit.calls + {found[n].call}, hit.exes + {ExeShown(found[n].exe)})];
      }
      forall rel, name ensures Called(hits, rel, name) <==> Hit(found, roots, tracked, n + 1, rel, name) {
        OneMoreHit(found, roots, tracked, n, rel, name);
        assert Called(before, rel, name) <==> Hit(found, roots, tracked, n, rel, name);
      }
      forall rel, exe ensures RanBy(hits, rel, exe) <==> HitBy(found, roots, tracked, n + 1, rel, exe) {
        OneMoreHitBy(found, roots, tracked, n, rel, exe);
        assert RanBy(before, rel, exe) <==> HitBy(found, roots, tracked, n, rel, exe);
      }
    }
  }

  lemma NoHits(found: seq<Found>, roots: seq<Path>, tracked: set<Path>)
    ensures forall rel, name :: !Hit(found, roots, tracked, 0, rel, name)
    ensures forall rel, exe :: !HitBy(found, roots, tracked, 0, rel, exe)
  {
  }

  datatype Outcome = Error | Pass | Undeclared(files: set<Path>) | Raised

  /** The `check` command: Error is exit 2, Pass exit 0, Undeclared exit 1, and Raised the exception a malformed escape
      ends the script with, past its `except TraceError`. */
  method Check(lines: seq<string>, start: Path, roots: seq<Path>, tracked: set<Path>, declared: set<Path>,
               present: set<Path>)
    returns (outcome: Outcome)
    ensures outcome == Verdict(Reads(Timeline(Matched(lines).out), start, |Timeline(Matched(lines).out)|),
                               roots, tracked, declared, present)
  {
    hide Reads, Timeline, Hit, Offenders;
    var events := Events(lines);
    var timeline := Timeline(events);
    var named, cells := Replay(timeline, start);
    if named.Err? {
      return if named.error == Lex(Malformed) then Raised else Error;
    }
    var hits := ToTracked(named.value, roots, tracked);
    if declared == {} {
      return Error;
    }
    var undeclared := set rel | rel in hits && rel !in declared
                                && !(rel in present && forall name | name in hits[rel].calls :: IsStat(name));
    SameFiles(named.value, roots, tracked, declared, present, hits, undeclared);
    outcome := if undeclared == {} then Pass else Undeclared(undeclared);
  }

  /** A tracked file named by call `i` that the gate did not declare for that call. */
  predicate Offends(found: seq<Found>, roots: seq<Path>, tracked: set<Path>, declared: set<Path>,
                    present: set<Path>, i: nat)
    requires i < |found|
  {
    match Tracked(roots, tracked, found[i].path)
    case None => false
    case Some(rel) => rel !in declared && !(rel in present && IsStat(found[i].call))
  }

  /** What the gate read without declaring it. */
  function Offenders(found: seq<Found>, roots: seq<Path>, tracked: set<Path>, declared: set<Path>,
                     present: set<Path>)
    : set<Path>
  {
    set i | 0 <= i < |found| && Offends(found, roots, tracked, declared, present, i) ::
      Tracked(roots, tracked, found[i].path).value
  }

  function Verdict(named: Result<seq<Found>, TraceError>, roots: seq<Path>, tracked: set<Path>,
                   declared: set<Path>, present: set<Path>): Outcome
  {
    if named == Err(Lex(Malformed)) then Raised
    else if named.Err? || declared == {} then Error
    else
      var files := Offenders(named.value, roots, tracked, declared, present);
      if files == {} then Pass else Undeclared(files)
  }

  lemma OffenderListed(found: seq<Found>, roots: seq<Path>, tracked: set<Path>, declared: set<Path>,
                       present: set<Path>, i: nat)
    requires i < |found|
    ensures Offends(found, roots, tracked, declared, present, i) ==>
              Tracked(roots, tracked, found[i].path).value in Offenders(found, roots, tracked, declared, present)
  {
    hide Tracked, IsStat;
  }

  lemma SameFiles(found: seq<Found>, roots: seq<Path>, tracked: set<Path>, declared: set<Path>,
                  present: set<Path>, hits: map<Path, Mention>, undeclared: set<Path>)
    requires forall rel, name :: Called(hits, rel, name) <==> Hit(found, roots, tracked, |found|, rel, name)
    requires forall rel :: rel in hits ==> hits[rel].calls != {}
    requires undeclared == set rel | rel in hits && rel !in declared
                                     && !(rel in present && forall name | name in hits[rel].calls :: IsStat(name))
    ensures undeclared == Offenders(found, roots, tracked, declared, present)
  {
    hide IsStat, Tracked;
    var offenders := Offenders(found, roots, tracked, declared, present);
    forall rel | rel in undeclared ensures rel in offenders {
      var name: string;
      if rel in present {
        name :| name in hits[rel].calls && !IsStat(name);
      } else {
        name :| name in hits[rel].calls;
      }
      assert Called(hits, rel, name);
      var i :| 0 <= i < |found| && found[i].call == name && Tracked(roots, tracked, found[i].path) == Some(rel);
      OffenderListed(found, roots, tracked, declared, present, i);
    }
    forall rel | rel in offenders ensures rel in undeclared {
      var i :| 0 <= i < |found| && Offends(found, roots, tracked, declared, present, i)
               && rel == Tracked(roots, tracked, found[i].path).value;
      assert Hit(found, roots, tracked, |found|, rel, found[i].call);
      assert Called(hits, rel, found[i].call);
    }
  }

  lemma {:induction false} NamedIsFound(tl: seq<Entry>, start: Path, n: nat, k: nat)
    requires n <= |tl| && Reads(tl, start, n).Ok? && k < n && tl[k].Complete?
    ensures EffectAt(tl, start, k).Ok?
    ensures EffectAt(tl, start, k).value.Names? ==>
              Found(EffectAt(tl, start, k).value.path, tl[k].name, Executable(tl, start, k, tl[k].pid))
              in Reads(tl, start, n).value
    decreases n
  {
    hide EffectAt, Executable;
    if k < n - 1 {
      NamedIsFound(tl, start, n - 1, k);
    }
  }

  /** A run that passes names no tracked file its gate did not declare: every path any call named,
      resolved in its caller's directory at that moment, is outside the checkout, ignored,
      untracked, declared, or declared present and only looked at. */
  lemma PassMeansDeclared(lines: seq<string>, start: Path, roots: seq<Path>, tracked: set<Path>, declared: set<Path>,
                          present: set<Path>, k: nat)
    requires var tl := Timeline(Matched(lines).out);
             Verdict(Reads(tl, start, |tl|), roots, tracked, declared, present) == Pass && k < |tl| && tl[k].Complete?
    ensures var tl := Timeline(Matched(lines).out);
            EffectAt(tl, start, k).Ok?
            && (EffectAt(tl, start, k).value.Names? ==>
                  match Tracked(roots, tracked, EffectAt(tl, start, k).value.path)
                  case None => true
                  case Some(rel) => rel in declared || (rel in present && IsStat(tl[k].name)))
  {
    hide EffectAt, Tracked, IsStat, Reads, Timeline, Executable;
    var tl := Timeline(Matched(lines).out);
    var found := Reads(tl, start, |tl|).value;
    NamedIsFound(tl, start, |tl|, k);
    if EffectAt(tl, start, k).value.Names? {
      var i :| 0 <= i < |found| && found[i]
               == Found(EffectAt(tl, start, k).value.path, tl[k].name, Executable(tl, start, k, tl[k].pid));
      OffenderListed(found, roots, tracked, declared, present, i);
    }
  }
}
