/** The reverse-dependency walk of `scripts/reaper-linkage-walk.py`: which workspace crates
    link the target. */
module LinkageWalk {
  import opened Basics

  /** A workspace member and the names it depends on, of every dependency kind. */
  datatype Package = Package(name: string, dependencies: seq<string>)

  function Names(packages: seq<Package>): set<string> {
    set i | 0 <= i < |packages| :: packages[i].name
  }

  /** `user` lists `used` as a dependency, and both are workspace members. */
  ghost predicate Edge(packages: seq<Package>, user: string, used: string) {
    used in Names(packages)
    && exists i :: 0 <= i < |packages| && packages[i].name == user && used in packages[i].dependencies
  }

  /** A chain of at least one dependency edge. */
  ghost predicate Chain(packages: seq<Package>, path: seq<string>) {
    |path| >= 2 && forall i :: 0 <= i < |path| - 1 ==> Edge(packages, path[i], path[i + 1])
  }

  ghost predicate Links(packages: seq<Package>, user: string, target: string) {
    exists path :: Chain(packages, path) && path[0] == user && path[|path| - 1] == target
  }

  lemma EdgeLinks(packages: seq<Package>, user: string, used: string)
    requires Edge(packages, user, used)
    ensures Links(packages, user, used)
  {
    var path := [user, used];
    assert Chain(packages, path);
  }

  lemma EdgeThenLinks(packages: seq<Package>, user: string, used: string, target: string)
    requires Edge(packages, user, used) && Links(packages, used, target)
    ensures Links(packages, user, target)
  {
    var path :| Chain(packages, path) && path[0] == used && path[|path| - 1] == target;
    var longer := [user] + path;
    forall i | 0 <= i < |longer| - 1 ensures Edge(packages, longer[i], longer[i + 1]) {
      if i > 0 { assert Edge(packages, path[i - 1], path[i]); }
    }
    assert Chain(packages, longer);
  }

  /** A set that holds every direct user of the target and of its own members holds every user. */
  lemma {:induction false} ClosedHoldsChains(packages: seq<Package>, target: string, seen: set<string>,
                                             path: seq<string>)
    requires forall user, used :: Edge(packages, user, used) && (used == target || used in seen) ==> user in seen
    requires Chain(packages, path) && path[|path| - 1] == target
    ensures path[0] in seen
    decreases |path|
  {
    assert Edge(packages, path[0], path[1]);
    if |path| > 2 {
      var tail := path[1..];
      forall i | 0 <= i < |tail| - 1 ensures Edge(packages, tail[i], tail[i + 1]) {
        assert Edge(packages, path[i + 1], path[i + 2]);
      }
      ClosedHoldsChains(packages, target, seen, tail);
    }
  }

  function Users(reverse: map<string, set<string>>, used: string): set<string> {
    if used in reverse then reverse[used] else {}
  }

  /** An edge found among the first `i` packages and the first `j` dependencies of the next. */
  ghost predicate EdgeBefore(packages: seq<Package>, i: nat, j: nat, user: string, used: string)
    requires i < |packages| && j <= |packages[i].dependencies|
  {
    used in Names(packages)
    && ((exists k :: 0 <= k < i && packages[k].name == user && used in packages[k].dependencies)
        || (packages[i].name == user && used in packages[i].dependencies[..j]))
  }

  ghost predicate EdgeAmong(packages: seq<Package>, i: nat, user: string, used: string)
    requires i <= |packages|
  {
    used in Names(packages)
    && exists k :: 0 <= k < i && packages[k].name == user && used in packages[k].dependencies
  }

  lemma PackageDone(packages: seq<Package>, i: nat, user: string, used: string)
    requires i < |packages|
    ensures EdgeBefore(packages, i, 0, user, used) <==> EdgeAmong(packages, i, user, used)
    ensures EdgeBefore(packages, i, |packages[i].dependencies|, user, used) <==> EdgeAmong(packages, i + 1, user, used)
  {
    var all := packages[i].dependencies;
    assert all[..|all|] == all;
  }

  lemma DependencyDone(packages: seq<Package>, i: nat, j: nat, user: string, used: string)
    requires i < |packages| && j < |packages[i].dependencies|
    ensures EdgeBefore(packages, i, j + 1, user, used)
            <==> EdgeBefore(packages, i, j, user, used)
                 || (user == packages[i].name && used == packages[i].dependencies[j] && used in Names(packages))
  {
    var all := packages[i].dependencies;
    assert all[..j + 1] == all[..j] + [all[j]];
  }

  /** The reverse edges: who depends on each workspace member. */
  method ReverseEdges(packages: seq<Package>) returns (reverse: map<string, set<string>>)
    ensures forall user, used :: user in Users(reverse, used) <==> Edge(packages, user, used)
  {
    hide EdgeBefore, EdgeAmong, Edge;
    var names := Names(packages);
    reverse := map[];
    assert forall user, used :: !EdgeAmong(packages, 0, user, used) by { NoneYet(packages); }
    for i := 0 to |packages|
      invariant forall user, used :: user in Users(reverse, used) <==> EdgeAmong(packages, i, user, used)
    {
      var package := packages[i];
      forall user, used
        ensures EdgeBefore(packages, i, 0, user, used) <==> EdgeAmong(packages, i, user, used)
      {
        PackageDone(packages, i, user, used);
      }
      for j := 0 to |package.dependencies|
        invariant forall user, used :: user in Users(reverse, used) <==> EdgeBefore(packages, i, j, user, used)
      {
        var dependency := package.dependencies[j];
        ghost var before := reverse;
        if dependency in names {
          reverse := reverse[dependency := Users(reverse, dependency) + {package.name}];
        }
        forall user, used
          ensures user in Users(reverse, used) <==> EdgeBefore(packages, i, j + 1, user, used)
        {
          DependencyDone(packages, i, j, user, used);
          assert user in Users(before, used) <==> EdgeBefore(packages, i, j, user, used);
        }
      }
      forall user, used
        ensures EdgeBefore(packages, i, |package.dependencies|, user, used) <==> EdgeAmong(packages, i + 1, user, used)
      {
        PackageDone(packages, i, user, used);
      }
    }
    assert forall user, used :: EdgeAmong(packages, |packages|, user, used) <==> Edge(packages, user, used) by {
      AllAmong(packages);
    }
  }

  lemma NoneYet(packages: seq<Package>)
    ensures forall user, used :: !EdgeAmong(packages, 0, user, used)
  {
  }

  lemma AllAmong(packages: seq<Package>)
    ensures forall user, used :: EdgeAmong(packages, |packages|, user, used) <==> Edge(packages, user, used)
  {
  }

  /** The inner loop: every parent not yet seen is seen and joins the frontier. */
  method Visit(parents: set<string>, seen: set<string>, frontier: seq<string>)
    returns (seen': set<string>, frontier': seq<string>)
    ensures seen' == seen + parents
    ensures forall name :: name in frontier' <==> name in frontier || name in parents - seen
    ensures parents <= seen ==> frontier' == frontier
  {
    seen', frontier' := seen, frontier;
    var todo := parents;
    while todo != {}
      invariant todo <= parents
      invariant seen' == seen + (parents - todo)
      invariant forall name :: name in frontier' <==> name in frontier || name in parents - todo - seen
      invariant parents <= seen ==> frontier' == frontier
      decreases todo
    {
      var parent :| parent in todo;
      todo := todo - {parent};
      if parent !in seen' {
        seen' := seen' + {parent};
        frontier' := frontier' + [parent];
      }
    }
  }

  lemma UsersLink(packages: seq<Package>, target: string, node: string, parents: set<string>)
    requires node == target || Links(packages, node, target)
    requires forall user :: user in parents <==> Edge(packages, user, node)
    ensures forall user :: user in parents ==> Links(packages, user, target)
  {
    forall user | user in parents ensures Links(packages, user, target) {
      if node == target { EdgeLinks(packages, user, target); } else { EdgeThenLinks(packages, user, node, target); }
    }
  }

  /** Every node but those waiting has had its users seen. */
  ghost predicate Explored(reverse: map<string, set<string>>, target: string, seen: set<string>, waiting: seq<string>) {
    forall used :: (used == target || used in seen) && used !in waiting ==> Users(reverse, used) <= seen
  }

  lemma NothingExplored(reverse: map<string, set<string>>, target: string)
    ensures Explored(reverse, target, {}, [target])
  {
  }

  lemma ExploredStep(reverse: map<string, set<string>>, target: string, seen: set<string>, rest: seq<string>,
                     node: string, seen': set<string>, waiting': seq<string>)
    requires Explored(reverse, target, seen, rest + [node])
    requires seen' == seen + Users(reverse, node)
    requires forall name :: name in waiting' <==> name in rest || name in Users(reverse, node) - seen
    ensures Explored(reverse, target, seen', waiting')
  {
    forall used | (used == target || used in seen') && used !in waiting' ensures Users(reverse, used) <= seen' {
      if used != node { assert used !in rest + [node]; }
    }
  }

  /** None when the target is no workspace member; else the sorted names the script prints: every
      member but the target that links it through one or more edges, a cycle through the target
      included. */
  method Walk(packages: seq<Package>, target: string) returns (printed: Option<seq<string>>)
    ensures printed.None? <==> target !in Names(packages)
    ensures printed.Some? ==> StrictlySorted(printed.value)
    ensures printed.Some? ==>
              forall name :: name in printed.value <==> name != target && Links(packages, name, target)
  {
    hide Edge, Links, Explored;
    if target !in Names(packages) {
      return None;
    }
    var reverse := ReverseEdges(packages);
    UsersAreMembers(packages);
    var seen: set<string> := {};
    var frontier := [target];
    assert Explored(reverse, target, seen, frontier) by { NothingExplored(reverse, target); }
    while frontier != []
      invariant seen <= Names(packages)
      invariant forall name :: name in frontier ==> name == target || name in seen
      invariant forall name :: name in seen ==> Links(packages, name, target)
      invariant Explored(reverse, target, seen, frontier)
      decreases Names(packages) - seen, |frontier|
    {
      var node := frontier[|frontier| - 1];
      var rest := frontier[..|frontier| - 1];
      assert frontier == rest + [node];
      var parents := Users(reverse, node);
      UsersLink(packages, target, node, parents);
      ghost var seenBefore := seen;
      seen, frontier := Visit(parents, seen, rest);
      ExploredStep(reverse, target, seenBefore, rest, node, seen, frontier);
      if exists added :: added in parents - seenBefore {
        var added :| added in parents - seenBefore;
        assert added in Names(packages) - seenBefore;
      }
    }
    AllSeen(packages, target, reverse, seen);
    printed := Some(Sorted(seen - {target}));
  }

  lemma UsersAreMembers(packages: seq<Package>)
    ensures forall user, used :: Edge(packages, user, used) ==> user in Names(packages)
  {
  }

  lemma AllSeen(packages: seq<Package>, target: string, reverse: map<string, set<string>>, seen: set<string>)
    requires forall user, used :: user in Users(reverse, used) <==> Edge(packages, user, used)
    requires Explored(reverse, target, seen, [])
    ensures forall name :: Links(packages, name, target) ==> name in seen
  {
    forall name | Links(packages, name, target) ensures name in seen {
      var path :| Chain(packages, path) && path[0] == name && path[|path| - 1] == target;
      forall user, used | Edge(packages, user, used) && (used == target || used in seen) ensures user in seen {
        assert user in Users(reverse, used);
      }
      ClosedHoldsChains(packages, target, seen, path);
    }
  }
}
