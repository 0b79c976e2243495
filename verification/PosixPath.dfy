/** The two `os.path` functions the trace reader uses, over a path's bytes: `join` and `normpath`. */
module PosixPath {
  import opened Encodings

  type Path = seq<Byte>

  const SLASH: Byte := 47
  const DOT: Path := [46]
  const DOTDOT: Path := [46, 46]

  predicate IsAbsolute(p: Path) { p != [] && p[0] == SLASH }

  function JoinPath(base: Path, p: Path): Path {
    if IsAbsolute(p) then p
    else if base == [] || base[|base| - 1] == SLASH then base + p
    else base + [SLASH] + p
  }

  /** The bytes before the first slash. */
  function Head(p: Path): (n: nat)
    ensures n <= |p| && (n < |p| ==> p[n] == SLASH) && forall i :: 0 <= i < n ==> p[i] != SLASH
  {
    if p == [] || p[0] == SLASH then 0 else 1 + Head(p[1..])
  }

  function Components(p: Path): seq<Path>
    decreases |p|
  {
    var n := Head(p);
    if n == |p| then [p] else [p[..n]] + Components(p[n + 1..])
  }

  /** Drop `.` and empty components, and let `..` take back the one before it. */
  function Resolve(components: seq<Path>, absolute: bool, kept: seq<Path>): seq<Path>
    decreases |components|
  {
    if components == [] then kept
    else
      var c, rest := components[0], components[1..];
      if c == [] || c == DOT then Resolve(rest, absolute, kept)
      else if c != DOTDOT || (!absolute && kept == []) || (kept != [] && kept[|kept| - 1] == DOTDOT)
      then Resolve(rest, absolute, kept + [c])
      else if kept != [] then Resolve(rest, absolute, kept[..|kept| - 1])
      else Resolve(rest, absolute, kept)
  }

  function Slashed(components: seq<Path>): Path {
    if components == [] then []
    else if |components| == 1 then components[0]
    else components[0] + ([SLASH] + Slashed(components[1..]))
  }

  /** Exactly two leading slashes stay two; any other number is one. */
  function Root(p: Path): Path {
    if !IsAbsolute(p) then []
    else if |p| >= 2 && p[1] == SLASH && !(|p| >= 3 && p[2] == SLASH) then [SLASH, SLASH]
    else [SLASH]
  }

  function NormPath(p: Path): Path {
    var full := Root(p) + Slashed(Resolve(Components(p), IsAbsolute(p), []));
    if full == [] then DOT else full
  }

  // ---- normal paths ------------------------------------------------------------------

  predicate IsName(c: Path) { c != [] && c != DOT && forall i :: 0 <= i < |c| ==> c[i] != SLASH }

  /** Names only, and `..` only at the front of a relative path. */
  predicate IsNormal(kept: seq<Path>, absolute: bool) {
    (forall i :: 0 <= i < |kept| ==> IsName(kept[i]))
    && (forall i :: 0 <= i < |kept| && kept[i] == DOTDOT ==>
          !absolute && forall j :: 0 <= j < i ==> kept[j] == DOTDOT)
  }

  predicate NoSlash(components: seq<Path>) {
    forall i, k :: 0 <= i < |components| && 0 <= k < |components[i]| ==> components[i][k] != SLASH
  }

  lemma {:induction false} ComponentsHaveNoSlash(p: Path)
    ensures NoSlash(Components(p))
    decreases |p|
  {
    var n := Head(p);
    if n < |p| { ComponentsHaveNoSlash(p[n + 1..]); }
  }

  lemma {:induction false} ResolvedIsNormal(components: seq<Path>, absolute: bool, kept: seq<Path>)
    requires NoSlash(components) && IsNormal(kept, absolute)
    ensures IsNormal(Resolve(components, absolute, kept), absolute)
    decreases |components|
  {
    if components != [] {
      var c, rest := components[0], components[1..];
      if c == [] || c == DOT {
        ResolvedIsNormal(rest, absolute, kept);
      } else if c != DOTDOT || (!absolute && kept == []) || (kept != [] && kept[|kept| - 1] == DOTDOT) {
        ResolvedIsNormal(rest, absolute, kept + [c]);
      } else if kept != [] {
        ResolvedIsNormal(rest, absolute, kept[..|kept| - 1]);
      } else {
        ResolvedIsNormal(rest, absolute, kept);
      }
    }
  }

  /** A normal list resolves to itself. */
  lemma {:induction false} NormalStays(kept: seq<Path>, more: seq<Path>, absolute: bool)
    requires IsNormal(kept + more, absolute)
    ensures Resolve(more, absolute, kept) == kept + more
    decreases |more|
  {
    if more == [] {
      assert kept + more == kept;
    } else {
      assert (kept + more)[|kept|] == more[0];
      assert IsName(more[0]);
      assert (kept + [more[0]]) + more[1..] == kept + more;
      assert more[0] == DOTDOT && kept != [] ==> kept[|kept| - 1] == (kept + more)[|kept| - 1];
      NormalStays(kept + [more[0]], more[1..], absolute);
    }
  }

  lemma {:induction false} HeadOfName(name: Path, rest: Path)
    requires forall i :: 0 <= i < |name| ==> name[i] != SLASH
    requires rest == [] || rest[0] == SLASH
    ensures Head(name + rest) == |name|
    decreases |name|
  {
    if name == [] {
      assert name + rest == rest;
    } else {
      assert (name + rest)[1..] == name[1..] + rest;
      HeadOfName(name[1..], rest);
    }
  }

  lemma {:induction false} SlashedSplits(kept: seq<Path>)
    requires kept != [] && forall i :: 0 <= i < |kept| ==> IsName(kept[i])
    ensures Components(Slashed(kept)) == kept
    decreases |kept|
  {
    var p := Slashed(kept);
    if |kept| == 1 {
      HeadOfName(kept[0], []);
      assert kept[0] + [] == kept[0];
    } else {
      var rest := [SLASH] + Slashed(kept[1..]);
      HeadOfName(kept[0], rest);
      assert p[..|kept[0]|] == kept[0] && p[|kept[0]| + 1..] == Slashed(kept[1..]);
      SlashedSplits(kept[1..]);
    }
  }

  lemma SkipSlash(p: Path, absolute: bool)
    requires IsAbsolute(p)
    ensures Resolve(Components(p), absolute, []) == Resolve(Components(p[1..]), absolute, [])
  {
    assert Head(p) == 0;
    assert p[..0] == [];
    assert Components(p)[1..] == Components(p[1..]);
  }

  lemma SlashedIsRelative(kept: seq<Path>)
    requires forall i :: 0 <= i < |kept| ==> IsName(kept[i])
    ensures !IsAbsolute(Slashed(kept))
    ensures kept != [] ==> Slashed(kept) != []
  {
    if kept != [] { assert IsName(kept[0]); }
  }

  lemma ResolveSlashed(kept: seq<Path>, absolute: bool)
    requires IsNormal(kept, absolute)
    ensures Resolve(Components(Slashed(kept)), absolute, []) == kept
  {
    if kept == [] {
      assert Components([]) == [[]];
    } else {
      SlashedSplits(kept);
      assert [] + kept == kept;
      NormalStays([], kept, absolute);
    }
  }

  /** Normalising again changes nothing. */
  lemma NormPathIsIdempotent(p: Path)
    ensures NormPath(NormPath(p)) == NormPath(p)
  {
    hide Components, Resolve, Slashed, IsNormal;
    ComponentsHaveNoSlash(p);
    assert IsNormal([], IsAbsolute(p)) by { NothingIsNormal(IsAbsolute(p)); }
    ResolvedIsNormal(Components(p), IsAbsolute(p), []);
    var kept := Resolve(Components(p), IsAbsolute(p), []);
    var body := Slashed(kept);
    var full := Root(p) + body;
    NormalNames(kept, IsAbsolute(p));
    SlashedIsRelative(kept);
    ResolveSlashed(kept, IsAbsolute(p));
    if full == [] {
      DotIsNormal();
    } else if IsAbsolute(p) {
      SkipSlash(full, true);
      if Root(p) == [SLASH, SLASH] {
        assert full[1..] == [SLASH] + body;
        SkipSlash(full[1..], true);
        assert full[1..][1..] == body;
      } else {
        assert full[1..] == body;
      }
      assert Root(full) == Root(p);
    } else {
      assert full == body;
    }
  }

  lemma NothingIsNormal(absolute: bool)
    ensures IsNormal([], absolute)
  {
  }

  lemma NormalNames(kept: seq<Path>, absolute: bool)
    requires IsNormal(kept, absolute)
    ensures forall i :: 0 <= i < |kept| ==> IsName(kept[i])
  {
  }

  lemma DotIsNormal()
    ensures NormPath(DOT) == DOT
  {
    HeadOfName(DOT, []);
    assert DOT + [] == DOT;
    assert Components(DOT) == [DOT];
  }

  // ---- what a normal form means ----------------------------------------------------------

  /** Going from a place, named by the directories from the root down to it, into one component, as if no directory
      were a symbolic link. */
  function Enter(place: seq<Path>, c: Path): seq<Path> {
    if c == [] || c == DOT then place
    else if c != DOTDOT then place + [c]
    else if place == [] then []
    else place[..|place| - 1]
  }

  function WalkFrom(place: seq<Path>, components: seq<Path>): seq<Path>
    decreases |components|
  {
    if components == [] then place else WalkFrom(Enter(place, components[0]), components[1..])
  }

  /** The place an absolute path leads to. */
  function PlaceOf(p: Path): seq<Path> { WalkFrom([], Components(p)) }

  /** Below the root, resolving is walking. */
  lemma {:induction false} ResolvingIsWalking(components: seq<Path>, place: seq<Path>)
    requires NoSlash(components) && IsNormal(place, true)
    ensures Resolve(components, true, place) == WalkFrom(place, components)
    decreases |components|
  {
    if components != [] {
      var c := components[0];
      assert place != [] ==> place[|place| - 1] != DOTDOT;
      if c == [] || c == DOT || c != DOTDOT || place != [] {
        ResolvingIsWalking(components[1..], Enter(place, c));
      } else {
        ResolvingIsWalking(components[1..], place);
      }
    }
  }

  lemma RootedForm(p: Path)
    requires IsAbsolute(p)
    ensures NormPath(p) == Root(p) + Slashed(PlaceOf(p)) && IsNormal(PlaceOf(p), true)
  {
    hide Components, Slashed, IsNormal;
    ComponentsHaveNoSlash(p);
    NothingIsNormal(true);
    ResolvingIsWalking(Components(p), []);
    ResolvedIsNormal(Components(p), true, []);
  }

  lemma RootOfForm(root: Path, place: seq<Path>)
    requires (root == [SLASH] || root == [SLASH, SLASH]) && IsNormal(place, true)
    ensures Root(root + Slashed(place)) == root && PlaceOf(root + Slashed(place)) == place
  {
    hide Components, Slashed, IsNormal, Resolve, WalkFrom;
    var body := Slashed(place);
    var full := root + body;
    NormalNames(place, true);
    SlashedIsRelative(place);
    ResolveSlashed(place, true);
    SkipSlash(full, true);
    if root == [SLASH, SLASH] {
      assert full[1..] == [SLASH] + body;
      SkipSlash(full[1..], true);
      assert full[1..][1..] == body;
    } else {
      assert full[1..] == body;
    }
    ComponentsHaveNoSlash(full);
    NothingIsNormal(true);
    ResolvingIsWalking(Components(full), []);
  }

  /** The normal form of an absolute path leads to the place the path leads to, and names nothing else: two paths have
      one normal form exactly when they have one root and lead to one place. */
  lemma NormalFormIsThePlace(p: Path, q: Path)
    requires IsAbsolute(p) && IsAbsolute(q)
    ensures Root(NormPath(p)) == Root(p) && PlaceOf(NormPath(p)) == PlaceOf(p)
    ensures NormPath(p) == NormPath(q) <==> Root(p) == Root(q) && PlaceOf(p) == PlaceOf(q)
  {
    hide NormPath, PlaceOf, Slashed, IsNormal;
    RootedForm(p);
    RootedForm(q);
    RootOfForm(Root(p), PlaceOf(p));
    RootOfForm(Root(q), PlaceOf(q));
  }

  lemma ComponentsStep(p: Path)
    ensures Components(p)
            == if Head(p) == |p| then [p] else [p[..Head(p)]] + Components(p[Head(p) + 1..])
  {
    hide Head;
  }

  lemma {:induction false} ComponentsOfConcat(a: Path, b: Path)
    ensures Components(a + ([SLASH] + b)) == Components(a) + Components(b)
    decreases |a|
  {
    hide Components, Head;
    ComponentsStep(a);
    ComponentsStep(a + ([SLASH] + b));
    var n := Head(a);
    var p := a + ([SLASH] + b);
    if n == |a| {
      HeadOfName(a, [SLASH] + b);
      assert p[..|a|] == a && p[|a| + 1..] == b;
    } else {
      HeadOfName(a[..n], a[n..] + ([SLASH] + b));
      assert a[..n] + (a[n..] + ([SLASH] + b)) == p;
      assert p[..n] == a[..n] && p[n + 1..] == a[n + 1..] + ([SLASH] + b);
      ComponentsOfConcat(a[n + 1..], b);
    }
  }

  lemma {:induction false} WalkOfConcat(place: seq<Path>, a: seq<Path>, b: seq<Path>)
    ensures WalkFrom(place, a + b) == WalkFrom(WalkFrom(place, a), b)
    decreases |a|
  {
    if a == [] {
      assert a + b == b;
    } else {
      assert (a + b)[1..] == a[1..] + b;
      WalkOfConcat(Enter(place, a[0]), a[1..], b);
    }
  }

  /** A relative path joined to a directory leads where walking its components from that directory leads. */
  lemma JoinedPathsWalkOn(base: Path, p: Path)
    requires IsAbsolute(base) && !IsAbsolute(p)
    ensures IsAbsolute(JoinPath(base, p)) && Root(JoinPath(base, p)) == Root(base)
    ensures PlaceOf(JoinPath(base, p)) == WalkFrom(PlaceOf(base), Components(p))
  {
    hide Components, WalkFrom;
    var last := |base| - 1;
    if base[last] == SLASH {
      var a := base[..last];
      assert base == a + ([SLASH] + []) && base + p == a + ([SLASH] + p);
      ComponentsOfConcat(a, []);
      ComponentsOfConcat(a, p);
      WalkOfConcat([], Components(a), Components([]));
      WalkOfConcat([], Components(a), Components(p));
      NothingLeadsNowhere(WalkFrom([], Components(a)));
    } else {
      assert base + [SLASH] + p == base + ([SLASH] + p);
      ComponentsOfConcat(base, p);
      WalkOfConcat([], Components(base), Components(p));
    }
  }

  lemma NothingLeadsNowhere(place: seq<Path>)
    ensures WalkFrom(place, Components([])) == place
  {
    assert Components([]) == [[]];
  }
}
