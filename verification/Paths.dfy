/** Reachability in a finite adjacency map, the independent notion against which
    both the link graph and the hierarchy are judged. */
module Paths {

  type Adjacency = map<nat, set<nat>>

  function Neighbours(g: Adjacency, n: nat): set<nat> {
    if n in g then g[n] else {}
  }

  ghost predicate IsPath(g: Adjacency, p: seq<nat>) {
    p != [] && forall i :: 0 <= i < |p| - 1 ==> p[i + 1] in Neighbours(g, p[i])
  }

  ghost predicate PathFromTo(g: Adjacency, p: seq<nat>, a: nat, b: nat) {
    IsPath(g, p) && p[0] == a && p[|p| - 1] == b
  }

  ghost predicate Reaches(g: Adjacency, a: nat, b: nat) {
    exists p :: PathFromTo(g, p, a, b)
  }

  ghost predicate ClosedUnder(g: Adjacency, s: set<nat>) {
    forall n, m :: n in s && m in Neighbours(g, n) ==> m in s
  }

  ghost predicate Symmetric(g: Adjacency) {
    forall a, b :: a in g && b in g[a] ==> b in g && a in g[b]
  }

  lemma ReachesSelf(g: Adjacency, a: nat)
    ensures Reaches(g, a, a)
  {
    assert PathFromTo(g, [a], a, a);
  }

  lemma ReachesNeighbour(g: Adjacency, a: nat, b: nat)
    requires b in Neighbours(g, a)
    ensures Reaches(g, a, b)
  {
    assert PathFromTo(g, [a, b], a, b);
  }

  lemma ReachesTransitive(g: Adjacency, a: nat, b: nat, c: nat)
    requires Reaches(g, a, b) && Reaches(g, b, c)
    ensures Reaches(g, a, c)
  {
    var p :| PathFromTo(g, p, a, b);
    var q :| PathFromTo(g, q, b, c);
    var r := p + q[1..];
    forall i | 0 <= i < |r| - 1 ensures r[i + 1] in Neighbours(g, r[i]) {
      if i >= |p| - 1 {
        assert r[i] == q[i - (|p| - 1)] && r[i + 1] == q[i - (|p| - 1) + 1];
      }
    }
    assert r[|r| - 1] == c by { if |q| == 1 { assert r == p; } }
    assert PathFromTo(g, r, a, c);
  }

  lemma ReachesThenNeighbour(g: Adjacency, a: nat, b: nat, c: nat)
    requires Reaches(g, a, b) && c in Neighbours(g, b)
    ensures Reaches(g, a, c)
  {
    ReachesNeighbour(g, b, c);
    ReachesTransitive(g, a, b, c);
  }

  /** A non-trivial reach starts with a step to a neighbour. */
  lemma ReachesByFirstStep(g: Adjacency, a: nat, b: nat)
    ensures Reaches(g, a, b) <==> a == b || exists c :: c in Neighbours(g, a) && Reaches(g, c, b)
  {
    if Reaches(g, a, b) && a != b {
      var p :| PathFromTo(g, p, a, b);
      var q := p[1..];
      assert q[0] == p[0 + 1] && q[0] in Neighbours(g, a);
      forall i | 0 <= i < |q| - 1 ensures q[i + 1] in Neighbours(g, q[i]) {
        assert p[i + 1 + 1] in Neighbours(g, p[i + 1]);
      }
      assert PathFromTo(g, q, q[0], b);
    }
    ReachesSelf(g, a);
    forall c | c in Neighbours(g, a) && Reaches(g, c, b) ensures Reaches(g, a, b) {
      ReachesNeighbour(g, a, c);
      ReachesTransitive(g, a, c, b);
    }
  }

  /** A non-trivial reach ends with a step from somewhere reached. */
  lemma ReachesByLastStep(g: Adjacency, a: nat, b: nat) returns (c: nat)
    requires Reaches(g, a, b) && a != b
    ensures Reaches(g, a, c) && b in Neighbours(g, c)
  {
    var p :| PathFromTo(g, p, a, b);
    c := p[|p| - 2];
    assert PathFromTo(g, p[..|p| - 1], a, c);
    assert p[|p| - 2 + 1] in Neighbours(g, p[|p| - 2]);
  }

  lemma {:induction false} PathStaysInside(g: Adjacency, p: seq<nat>, s: set<nat>)
    requires IsPath(g, p) && p[0] in s && ClosedUnder(g, s)
    ensures forall i :: 0 <= i < |p| ==> p[i] in s
  {
    if |p| > 1 {
      var init := p[..|p| - 1];
      PathStaysInside(g, init, s);
      assert init[|init| - 1] == p[|p| - 2];
      forall i | 0 <= i < |p| ensures p[i] in s {
        if i < |init| { assert p[i] == init[i]; }
      }
    }
  }

  /** A closed set keeps everything it can reach. */
  lemma ClosedKeepsReached(g: Adjacency, s: set<nat>, a: nat, b: nat)
    requires ClosedUnder(g, s) && a in s && Reaches(g, a, b)
    ensures b in s
  {
    var p :| PathFromTo(g, p, a, b);
    PathStaysInside(g, p, s);
  }

  lemma {:induction false} ReversedPath(g: Adjacency, p: seq<nat>, a: nat, b: nat)
    requires Symmetric(g) && PathFromTo(g, p, a, b)
    ensures Reaches(g, b, a)
    decreases |p|
  {
    if |p| == 1 {
      ReachesSelf(g, a);
    } else {
      var init := p[..|p| - 1];
      var c := p[|p| - 2];
      assert PathFromTo(g, init, a, c);
      ReversedPath(g, init, a, c);
      assert p[|p| - 2 + 1] in Neighbours(g, p[|p| - 2]);
      ReachesNeighbour(g, b, c);
      ReachesTransitive(g, b, c, a);
    }
  }

  lemma ReachesSymmetric(g: Adjacency, a: nat, b: nat)
    requires Symmetric(g) && Reaches(g, a, b)
    ensures Reaches(g, b, a)
  {
    var p :| PathFromTo(g, p, a, b);
    ReversedPath(g, p, a, b);
  }

  /** Everything reachable lies among the start and the listed neighbours. */
  ghost function Universe(g: Adjacency): set<nat> {
    g.Keys + set n, m | n in g && m in g[n] :: m
  }

  ghost function Component(g: Adjacency, a: nat): (c: set<nat>)
    ensures forall b :: b in c <==> Reaches(g, a, b)
  {
    var c := set b | b in Universe(g) + {a} && Reaches(g, a, b);
    assert ClosedUnder(g, Universe(g) + {a});
    forall b | Reaches(g, a, b) ensures b in c { ClosedKeepsReached(g, Universe(g) + {a}, a, b); }
    c
  }

  /** Paths that start outside a closed part of the table do not depend on
      what the table says inside it. */
  lemma {:induction false} PathOutside(g: Adjacency, g': Adjacency, inside: set<nat>, p: seq<nat>)
    requires forall n :: n !in inside ==> Neighbours(g, n) == Neighbours(g', n)
    requires forall n, m :: n !in inside && m in Neighbours(g, n) ==> m !in inside
    requires IsPath(g, p) && p[0] !in inside
    ensures IsPath(g', p)
    ensures forall i :: 0 <= i < |p| ==> p[i] !in inside
  {
    if |p| > 1 {
      var init := p[..|p| - 1];
      PathOutside(g, g', inside, init);
      assert init[|init| - 1] == p[|p| - 2];
      assert p[|p| - 2 + 1] in Neighbours(g, p[|p| - 2]);
      forall i | 0 <= i < |p| - 1 ensures p[i + 1] in Neighbours(g', p[i]) {
        if i + 1 < |init| { assert init[i + 1] in Neighbours(g', init[i]); }
      }
      forall i | 0 <= i < |p| ensures p[i] !in inside {
        if i < |init| { assert p[i] == init[i]; }
      }
    }
  }

  lemma ComponentOutside(g: Adjacency, g': Adjacency, inside: set<nat>, h: nat)
    requires forall n :: n !in inside ==> Neighbours(g, n) == Neighbours(g', n)
    requires forall n, m :: n !in inside && m in Neighbours(g, n) ==> m !in inside
    requires h !in inside
    ensures Component(g, h) == Component(g', h)
  {
    forall b ensures Reaches(g, h, b) <==> Reaches(g', h, b) {
      if Reaches(g, h, b) {
        var p :| PathFromTo(g, p, h, b);
        PathOutside(g, g', inside, p);
        assert PathFromTo(g', p, h, b);
      }
      if Reaches(g', h, b) {
        var p :| PathFromTo(g', p, h, b);
        PathOutside(g', g, inside, p);
        assert PathFromTo(g, p, h, b);
      }
    }
  }

  /** In a symmetric table, reachability is sharing a component. */
  lemma SameComponent(g: Adjacency, a: nat, h: nat)
    requires Symmetric(g) && h in Component(g, a)
    ensures Component(g, h) == Component(g, a)
  {
    ReachesSymmetric(g, a, h);
    forall b ensures Reaches(g, h, b) <==> Reaches(g, a, b) {
      if Reaches(g, h, b) { ReachesTransitive(g, a, h, b); }
      if Reaches(g, a, b) { ReachesTransitive(g, h, a, b); }
    }
  }

  lemma ComponentIsClosed(g: Adjacency, a: nat)
    ensures a in Component(g, a)
    ensures ClosedUnder(g, Component(g, a))
    ensures Symmetric(g) ==> forall n, m :: n !in Component(g, a) && m in Neighbours(g, n) ==> m !in Component(g, a)
  {
    ReachesSelf(g, a);
    forall n, m | n in Component(g, a) && m in Neighbours(g, n) ensures m in Component(g, a) {
      ReachesThenNeighbour(g, a, n, m);
    }
    if Symmetric(g) {
      forall n, m | n !in Component(g, a) && m in Neighbours(g, n) ensures m !in Component(g, a) {
        if m in Component(g, a) { ReachesThenNeighbour(g, a, m, n); }
      }
    }
  }

  // ---------- acyclic tables ----------

  ghost predicate Acyclic(g: Adjacency) {
    forall a, b :: b in Neighbours(g, a) ==> !Reaches(g, b, a)
  }

  /** How much can still be reached: the measure of a walk that follows edges. */
  ghost function Extent(g: Adjacency, a: nat): nat { |Component(g, a)| }

  lemma ExtentShrinks(g: Adjacency, a: nat, b: nat)
    requires Acyclic(g) && b in Neighbours(g, a)
    ensures Extent(g, b) < Extent(g, a)
  {
    ReachesSelf(g, a);
    forall c | Reaches(g, b, c) ensures Reaches(g, a, c) {
      ReachesNeighbour(g, a, b);
      ReachesTransitive(g, a, b, c);
    }
    SmallerSet(Component(g, b), Component(g, a), a);
  }

  lemma SmallerSet(s: set<nat>, t: set<nat>, x: nat)
    requires s <= t && x in t && x !in s
    ensures |s| < |t|
  {
    SubsetSize(s, t - {x});
  }

  lemma {:induction false} SubsetSize(s: set<nat>, t: set<nat>)
    requires s <= t
    ensures |s| <= |t|
  {
    if s != {} {
      var x :| x in s;
      SubsetSize(s - {x}, t - {x});
    }
  }

  // ---------- least elements of finite sets ----------

  ghost predicate IsLeast(m: nat, s: set<nat>) {
    m in s && forall x :: x in s ==> m <= x
  }

  lemma {:induction false} LeastExists(s: set<nat>) returns (m: nat)
    requires s != {}
    ensures IsLeast(m, s)
  {
    var x :| x in s;
    if s == {x} {
      m := x;
    } else {
      var m' := LeastExists(s - {x});
      m := if m' < x then m' else x;
      forall y | y in s ensures m <= y {
        if y != x { assert y in s - {x}; }
      }
    }
  }

  /** std::min_element, and the next element of an ascending iteration. */
  method LeastOf(s: set<nat>) returns (m: nat)
    requires s != {}
    ensures IsLeast(m, s)
  {
    m :| m in s;
    var rest := s - {m};
    assert s - rest == {m};
    while rest != {}
      invariant rest <= s && m in s && m !in rest
      invariant forall x :: x in s - rest ==> m <= x
    {
      var x :| x in rest;
      ghost var seen := s - rest;
      rest := rest - {x};
      assert s - rest == seen + {x};
      if x < m { m := x; }
    }
    assert s - rest == s;
  }
}
