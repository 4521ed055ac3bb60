/**
 Reachability in a finite graph, defined by paths, and a breadth-first walk over a
 queue and a visited set.  Graphs may be cyclic and edges may leave the key set.
 */
module Reach {

  type Graph<T> = map<T, seq<T>>

  function Succ<T>(g: Graph<T>, x: T): (s: seq<T>) {
    if x in g then g[x] else []
  }

  ghost predicate IsPath<T>(g: Graph<T>, p: seq<T>) {
    |p| >= 1 && forall i :: 0 < i < |p| ==> p[i] in Succ(g, p[i - 1])
  }

  ghost predicate PathTo<T>(g: Graph<T>, roots: set<T>, x: T, p: seq<T>) {
    IsPath(g, p) && p[0] in roots && p[|p| - 1] == x
  }

  ghost predicate Reachable<T(!new)>(g: Graph<T>, roots: set<T>, x: T) {
    exists p :: PathTo(g, roots, x, p)
  }

  lemma ReachRoot<T(!new)>(g: Graph<T>, roots: set<T>, x: T)
    requires x in roots
    ensures Reachable(g, roots, x)
  {
    assert PathTo(g, roots, x, [x]);
  }

  lemma ReachStep<T(!new)>(g: Graph<T>, roots: set<T>, x: T, y: T)
    requires Reachable(g, roots, x) && y in Succ(g, x)
    ensures Reachable(g, roots, y)
  {
    var p :| PathTo(g, roots, x, p);
    var q := p + [y];
    forall i | 0 < i < |q| ensures q[i] in Succ(g, q[i - 1]) {
      if i < |p| { assert p[i] in Succ(g, p[i - 1]); }
    }
    assert PathTo(g, roots, y, q);
  }

  ghost predicate ClosedUnder<T>(g: Graph<T>, s: iset<T>) {
    forall x, y :: x in s && y in Succ(g, x) ==> y in s
  }

  /** A closed set holding the roots holds everything reachable. */
  lemma {:induction false} PathStays<T>(g: Graph<T>, s: iset<T>, p: seq<T>)
    requires ClosedUnder(g, s) && IsPath(g, p) && p[0] in s
    ensures p[|p| - 1] in s
    decreases |p|
  {
    if |p| > 1 {
      var q := p[..|p| - 1];
      PathStays(g, s, q);
      assert p[|p| - 1] in Succ(g, q[|q| - 1]);
    }
  }

  lemma ReachStays<T(!new)>(g: Graph<T>, roots: set<T>, s: iset<T>, x: T)
    requires ClosedUnder(g, s) && (forall r :: r in roots ==> r in s) && Reachable(g, roots, x)
    ensures x in s
  {
    var p :| PathTo(g, roots, x, p);
    PathStays(g, s, p);
  }

  lemma ReachMore<T(!new)>(g: Graph<T>, roots: set<T>, more: set<T>, x: T)
    requires roots <= more && Reachable(g, roots, x)
    ensures Reachable(g, more, x)
  {
    var p :| PathTo(g, roots, x, p);
    assert PathTo(g, more, x, p);
  }

  ghost predicate Differ<T>(xs: seq<T>, i: nat, j: nat)
    requires i < |xs| && j < |xs|
  {
    xs[i] != xs[j]
  }

  ghost predicate NoDup<T>(xs: seq<T>) {
    forall i, j :: 0 <= i < j < |xs| ==> Differ(xs, i, j)
  }

  lemma NoDupSnoc<T>(xs: seq<T>, x: T)
    requires NoDup(xs) && x !in xs
    ensures NoDup(xs + [x])
  {
    var ys := xs + [x];
    forall i, j | 0 <= i < j < |ys| ensures Differ(ys, i, j) {
      if j < |xs| { assert Differ(xs, i, j); }
    }
  }

  lemma TailNoDup<T>(xs: seq<T>)
    requires NoDup(xs) && xs != []
    ensures NoDup(xs[1..]) && xs[0] !in xs[1..]
  {
    forall i, j | 0 <= i < j < |xs| - 1 ensures Differ(xs[1..], i, j) { assert Differ(xs, i + 1, j + 1); }
    forall j | 0 < j < |xs| ensures xs[0] != xs[j] { assert Differ(xs, 0, j); }
  }

  lemma ConsNoDup<T>(x: T, xs: seq<T>)
    requires NoDup(xs) && x !in xs
    ensures NoDup([x] + xs)
  {
    var ys := [x] + xs;
    forall i, j | 0 <= i < j < |ys| ensures Differ(ys, i, j) {
      if i > 0 { assert Differ(xs, i - 1, j - 1); }
    }
  }

  // ----- Walking -----

  function ToSet<T(!new)>(xs: seq<T>): (s: set<T>)
    ensures forall x :: x in s <==> x in xs
  {
    set x | x in xs
  }

  /** Every vertex a walk can meet. */
  ghost function Universe<T>(g: Graph<T>, roots: set<T>): (u: set<T>) {
    roots + set x, i | x in g && 0 <= i < |g[x]| :: g[x][i]
  }

  lemma UniverseSucc<T>(g: Graph<T>, roots: set<T>, x: T, y: T)
    requires y in Succ(g, x)
    ensures y in Universe(g, roots)
  {
    var i :| 0 <= i < |g[x]| && g[x][i] == y;
  }

  /** Mark the unmarked and unblocked among `next`; `added` lists them in order. */
  method Expand<T(!new, ==)>(next: seq<T>, visited: set<T>, blocked: set<T>) returns (v: set<T>, added: seq<T>)
    ensures v == visited + (ToSet(next) - blocked)
    ensures forall x :: x in added <==> x in v && x !in visited
  {
    v, added := visited, [];
    for i := 0 to |next|
      invariant v == visited + (ToSet(next[..i]) - blocked)
      invariant forall x :: x in added <==> x in v && x !in visited
    {
      var p := next[i];
      assert next[..i + 1] == next[..i] + [p];
      if p !in blocked && p !in v {
        v, added := v + {p}, added + [p];
      }
    }
    assert next[..|next|] == next;
  }

  ghost predicate Expanded<T>(g: Graph<T>, x: T, s: set<T>) {
    forall y :: y in Succ(g, x) ==> y in s
  }

  /** What holds between two steps of a walk: everything marked but not queued is expanded. */
  ghost predicate Walking<T(!new)>(g: Graph<T>, roots: set<T>, blocked: set<T>, visited: set<T>, queue: seq<T>) {
    && roots <= visited <= Universe(g, roots) && visited !! blocked
    && (forall x :: x in queue ==> x in visited)
    && (forall x :: x in visited ==> Reachable(g, roots, x))
    && (forall x :: x in visited && x !in queue ==> Expanded(g, x, visited + blocked))
  }

  lemma WalkStep<T(!new)>(g: Graph<T>, roots: set<T>, blocked: set<T>, visited: set<T>, queue: seq<T>, v: set<T>,
      added: seq<T>)
    requires queue != [] && Walking(g, roots, blocked, visited, queue)
    requires v == visited + (ToSet(Succ(g, queue[0])) - blocked)
    requires forall x :: x in added <==> x in v && x !in visited
    ensures Walking(g, roots, blocked, v, queue[1..] + added)
  {
    var curr := queue[0];
    assert forall x :: x in queue <==> x == curr || x in queue[1..];
    forall x | x in v ensures Reachable(g, roots, x) && x in Universe(g, roots) {
      if x !in visited {
        ReachStep(g, roots, curr, x);
        UniverseSucc(g, roots, curr, x);
      }
    }
    forall x | x in v && x !in queue[1..] + added ensures Expanded(g, x, v + blocked) {
      if x != curr {
        assert Expanded(g, x, visited + blocked);
      }
    }
  }

  /** The search of `repocache.go`: marks everything reachable without entering `blocked`. */
  method Walk<T(!new, ==)>(g: Graph<T>, start: seq<T>, blocked: set<T>) returns (visited: set<T>)
    requires forall x :: x in start ==> x !in blocked
    ensures Walking(g, ToSet(start), blocked, visited, [])
  {
    ghost var roots := ToSet(start);
    visited := ToSet(start);
    var queue := start;
    forall x | x in roots ensures Reachable(g, roots, x) {
      ReachRoot(g, roots, x);
    }
    while |queue| > 0
      invariant Walking(g, roots, blocked, visited, queue)
      decreases |Universe(g, roots)| - |visited|, |queue|
    {
      var curr := queue[0];
      var v, added := Expand(Succ(g, curr), visited, blocked);
      WalkStep(g, roots, blocked, visited, queue, v, added);
      Shrinks(visited, v, Universe(g, roots), added);
      visited, queue := v, queue[1..] + added;
    }
  }

  /** Each step marks something new or shortens the queue. */
  lemma Shrinks<T(!new)>(visited: set<T>, v: set<T>, u: set<T>, added: seq<T>)
    requires visited <= v <= u
    requires forall x :: x in added <==> x in v && x !in visited
    ensures |v| <= |u|
    ensures if added == [] then v == visited else |visited| < |v|
  {
    SubsetSize(v, u);
    SubsetSize(visited, v);
    if added == [] {
      assert v == visited;
    } else {
      assert added[0] in v && added[0] !in visited;
    }
  }

  lemma SubsetSize<T>(a: set<T>, b: set<T>)
    requires a <= b
    ensures |a| <= |b| && (a != b ==> |a| < |b|)
  {
    assert b == a + (b - a);
    if a != b {
      var x :| x in b - a;
    }
  }

  /** A finished walk that blocks nothing marks exactly what is reachable. */
  lemma WalkExact<T(!new)>(g: Graph<T>, roots: set<T>, visited: set<T>, x: T)
    requires Walking(g, roots, {}, visited, [])
    ensures x in visited <==> Reachable(g, roots, x)
  {
    if Reachable(g, roots, x) {
      var s := iset y | y in visited;
      forall u, w | u in s && w in Succ(g, u) ensures w in s {
        assert Expanded(g, u, visited + {});
      }
      ReachStays(g, roots, s, x);
    }
  }

  /** The marked set of a finished walk is closed. */
  lemma WalkCloses<T(!new)>(g: Graph<T>, roots: set<T>, visited: set<T>)
    requires Walking(g, roots, {}, visited, [])
    ensures ClosedUnder(g, (iset y | y in visited))
  {
    var s := iset y | y in visited;
    forall u, w | u in s && w in Succ(g, u) ensures w in s {
      assert Expanded(g, u, visited + {});
    }
  }

  /** Blocking a closed set prunes exactly that set, also below roots that are themselves blocked. */
  lemma WalkPrunes<T(!new)>(g: Graph<T>, all: set<T>, roots: set<T>, blocked: set<T>, visited: set<T>, x: T)
    requires ClosedUnder(g, (iset y | y in blocked))
    requires roots == all - blocked && Walking(g, roots, blocked, visited, [])
    ensures x in visited <==> Reachable(g, all, x) && x !in blocked
  {
    if x in visited {
      ReachMore(g, roots, all, x);
    }
    if Reachable(g, all, x) && x !in blocked {
      var s := iset y | y in visited + blocked;
      var b := iset y | y in blocked;
      forall u, w | u in s && w in Succ(g, u) ensures w in s {
        if u in visited {
          assert Expanded(g, u, visited + blocked);
        } else {
          assert u in b;
          assert w in b;
        }
      }
      ReachStays(g, all, s, x);
    }
  }
}
