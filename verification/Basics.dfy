/** Vocabulary shared by the models: optional values, Python's string order and sorting. */
module Basics {

  datatype Option<+T> = None | Some(value: T)

  datatype Result<+T, +E> = Ok(value: T) | Err(error: E)

  // ---- Python's `<` on strings: by code point, a proper prefix first ----------

  predicate Less(a: string, b: string) {
    b != [] && (a == [] || a[0] < b[0] || (a[0] == b[0] && Less(a[1..], b[1..])))
  }

  lemma {:induction false} LessIsTotal(a: string, b: string)
    ensures a == b || Less(a, b) || Less(b, a)
    ensures !(Less(a, b) && Less(b, a))
    ensures Less(a, b) ==> a != b
  {
    if a != [] && b != [] {
      LessIsTotal(a[1..], b[1..]);
      assert a == [a[0]] + a[1..] && b == [b[0]] + b[1..];
    }
  }

  lemma {:induction false} LessIsTransitive(a: string, b: string, c: string)
    requires Less(a, b) && Less(b, c)
    ensures Less(a, c)
  {
    if a != [] && a[0] == b[0] && b[0] == c[0] {
      LessIsTransitive(a[1..], b[1..], c[1..]);
    }
  }

  predicate StrictlySorted(s: seq<string>) {
    forall i, j :: 0 <= i < j < |s| ==> Less(s[i], s[j])
  }

  predicate IsLeast(x: string, s: set<string>) {
    x in s && forall y :: y in s ==> x == y || Less(x, y)
  }

  lemma LeastExists(s: set<string>)
    requires s != {}
    ensures exists x :: IsLeast(x, s)
    decreases |s|
  {
    var x :| x in s;
    var rest := s - {x};
    if rest == {} {
      assert s == {x};
      assert IsLeast(x, s);
    } else {
      LeastExists(rest);
      var y :| IsLeast(y, rest);
      LessIsTotal(x, y);
      if Less(x, y) {
        forall z | z in s ensures x == z || Less(x, z) {
          if z != x && z != y { LessIsTransitive(x, y, z); }
        }
        assert IsLeast(x, s);
      } else {
        assert IsLeast(y, s);
      }
    }
  }

  lemma LeastIsUnique(x: string, y: string, s: set<string>)
    requires IsLeast(x, s) && IsLeast(y, s)
    ensures x == y
  {
    LessIsTotal(x, y);
  }

  function Least(s: set<string>): (x: string)
    requires s != {}
    ensures IsLeast(x, s)
  {
    LeastExists(s);
    assert forall x, y :: IsLeast(x, s) && IsLeast(y, s) ==> x == y by {
      forall x, y | IsLeast(x, s) && IsLeast(y, s) ensures x == y { LeastIsUnique(x, y, s); }
    }
    var x :| IsLeast(x, s);
    x
  }

  /** Python's `sorted(set(...))`, and `sorted(d)` over a dict's keys. */
  function Sorted(s: set<string>): (r: seq<string>)
    ensures StrictlySorted(r)
    ensures forall x :: x in r <==> x in s
    ensures |r| == |s|
    decreases |s|
  {
    if s == {} then []
    else
      var x := Least(s);
      assert forall y :: y in s - {x} ==> Less(x, y);
      [x] + Sorted(s - {x})
  }

  /** A set has one sorted listing. */
  lemma {:induction false} SortedIsUnique(a: seq<string>, b: seq<string>)
    requires StrictlySorted(a) && StrictlySorted(b)
    requires forall x :: x in a <==> x in b
    ensures a == b
  {
    assert |a| > 0 ==> a[0] in b;
    assert |b| > 0 ==> b[0] in a;
    if a != [] && b != [] {
      if a[0] != b[0] {
        var i :| 0 <= i < |a| && a[i] == b[0];
        var j :| 0 <= j < |b| && b[j] == a[0];
        LessIsTotal(a[0], b[0]);
      }
      forall x ensures x in a[1..] <==> x in b[1..] {
        LessIsTotal(a[0], x);
        if x in a[1..] { assert Less(a[0], x); assert x in a; }
        if x in b[1..] { assert Less(b[0], x); assert x in b; }
      }
      SortedIsUnique(a[1..], b[1..]);
      assert a == [a[0]] + a[1..] && b == [b[0]] + b[1..];
    }
  }

  function Min(a: int, b: int): int { if a <= b then a else b }

  // ---- joining ----------------------------------------------------------------

  function Join(sep: string, parts: seq<string>): string {
    if |parts| == 0 then ""
    else if |parts| == 1 then parts[0]
    else parts[0] + sep + Join(sep, parts[1..])
  }

  predicate StartsWith(s: string, prefix: string) { |prefix| <= |s| && s[..|prefix|] == prefix }

  // ---- ASCII text ---------------------------------------------------------------

  function LowerChar(c: char): char { if 'A' <= c <= 'Z' then (c as int + 32) as char else c }

  /** `_ascii_lower`: A to Z only. */
  function AsciiLower(s: string): (l: string)
    ensures |l| == |s| && forall i :: 0 <= i < |s| ==> l[i] == LowerChar(s[i])
  {
    seq(|s|, i requires 0 <= i < |s| => LowerChar(s[i]))
  }

  /** `s.rstrip("/")`. */
  function WithoutSlashes(s: string): string {
    if s != "" && s[|s| - 1] == '/' then WithoutSlashes(s[..|s| - 1]) else s
  }

  // ---- verdicts: the first fault found ------------------------------------------

  /** The faults of `a`, then those of `b`. */
  function Then<A>(a: Option<A>, b: Option<A>): Option<A> { if a.Some? then a else b }

  /** The first fault over a dict's entries, in the order of some of its keys. */
  function First<T, A>(m: map<string, T>, keys: seq<string>, fault: (string, T) -> Option<A>): Option<A>
    requires forall k :: k in keys ==> k in m
  {
    if keys == [] then None else Then(fault(keys[0], m[keys[0]]), First(m, keys[1..], fault))
  }

  /** Over all of them, in name order. */
  function FirstInOrder<T, A>(m: map<string, T>, fault: (string, T) -> Option<A>): Option<A> {
    First(m, Sorted(m.Keys), fault)
  }

  lemma {:induction false} FirstIsNone<T, A>(m: map<string, T>, keys: seq<string>, fault: (string, T) -> Option<A>)
    requires forall k :: k in keys ==> k in m
    ensures First(m, keys, fault).None? <==> forall k :: k in keys ==> fault(k, m[k]).None?
  {
    if keys != [] {
      FirstIsNone(m, keys[1..], fault);
      assert keys == [keys[0]] + keys[1..];
    }
  }

  /** The order decides which fault is named, never whether there is one. */
  lemma NoFaultInOrder<T, A>(m: map<string, T>, fault: (string, T) -> Option<A>)
    ensures FirstInOrder(m, fault).None? <==> forall k :: k in m ==> fault(k, m[k]).None?
  {
    FirstIsNone(m, Sorted(m.Keys), fault);
  }
}
