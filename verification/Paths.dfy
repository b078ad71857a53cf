/**
 Directed graphs over numbered nodes and the paths inside them.  A graph is its
 set of edges, so two ways of building the same edges give equal graphs.
 */
module Paths {

  type Edges = set<(nat, nat)>

  ghost predicate IsPath(edges: Edges, p: seq<nat>) {
    |p| > 0 &&
    (|p| == 1 || (IsPath(edges, p[..|p| - 1]) && (p[|p| - 2], p[|p| - 1]) in edges))
  }

  ghost predicate Connects(edges: Edges, p: seq<nat>, a: nat, b: nat) {
    IsPath(edges, p) && p[0] == a && p[|p| - 1] == b
  }

  /** `b` can be reached from `a` in zero or more steps. */
  ghost predicate Reaches(edges: Edges, a: nat, b: nat) {
    exists p :: Connects(edges, p, a, b)
  }

  /** `b` can be reached from `a` in one or more steps. */
  ghost predicate ReachesProperly(edges: Edges, a: nat, b: nat) {
    exists c :: (a, c) in edges && Reaches(edges, c, b)
  }

  ghost predicate Mutual(edges: Edges, a: nat, b: nat) {
    Reaches(edges, a, b) && Reaches(edges, b, a)
  }

  ghost predicate Closed(edges: Edges, s: set<nat>) {
    forall e <- edges :: e.0 in s ==> e.1 in s
  }

  ghost function Induced(edges: Edges, s: set<nat>): (r: Edges)
    ensures forall a, b :: (a, b) in r <==> (a, b) in edges && a in s && b in s
  {
    set e <- edges | e.0 in s && e.1 in s
  }

  lemma ReachesSelf(edges: Edges, a: nat)
    ensures Reaches(edges, a, a)
  {
    assert Connects(edges, [a], a, a);
  }

  lemma PathSnoc(edges: Edges, p: seq<nat>, x: nat)
    requires IsPath(edges, p) && (p[|p| - 1], x) in edges
    ensures IsPath(edges, p + [x])
  {
    assert (p + [x])[..|p|] == p;
  }

  lemma ReachesStep(edges: Edges, a: nat, b: nat, c: nat)
    requires Reaches(edges, a, b) && (b, c) in edges
    ensures Reaches(edges, a, c)
  {
    var p :| Connects(edges, p, a, b);
    PathSnoc(edges, p, c);
    assert Connects(edges, p + [c], a, c);
  }

  lemma {:induction false} ReachesAlong(edges: Edges, a: nat, b: nat, p: seq<nat>)
    requires Reaches(edges, a, b) && IsPath(edges, p) && p[0] == b
    ensures Reaches(edges, a, p[|p| - 1])
  {
    if |p| > 1 {
      ReachesAlong(edges, a, b, p[..|p| - 1]);
      ReachesStep(edges, a, p[|p| - 2], p[|p| - 1]);
    }
  }

  lemma ReachesTrans(edges: Edges, a: nat, b: nat, c: nat)
    requires Reaches(edges, a, b) && Reaches(edges, b, c)
    ensures Reaches(edges, a, c)
  {
    var p :| Connects(edges, p, b, c);
    ReachesAlong(edges, a, b, p);
  }

  lemma StepReaches(edges: Edges, a: nat, b: nat, c: nat)
    requires (a, b) in edges && Reaches(edges, b, c)
    ensures Reaches(edges, a, c)
  {
    ReachesSelf(edges, a);
    ReachesStep(edges, a, a, b);
    ReachesTrans(edges, a, b, c);
  }

  lemma {:induction false} ClosedAlong(edges: Edges, s: set<nat>, p: seq<nat>)
    requires Closed(edges, s) && IsPath(edges, p) && p[0] in s
    ensures p[|p| - 1] in s
  {
    if |p| > 1 {
      ClosedAlong(edges, s, p[..|p| - 1]);
    }
  }

  /** Nothing leaves a closed set. */
  lemma ClosedContains(edges: Edges, s: set<nat>, a: nat, b: nat)
    requires Closed(edges, s) && a in s && Reaches(edges, a, b)
    ensures b in s
  {
    var p :| Connects(edges, p, a, b);
    ClosedAlong(edges, s, p);
  }

  lemma {:induction false} PathMonotone(edges: Edges, more: Edges, p: seq<nat>)
    requires edges <= more && IsPath(edges, p)
    ensures IsPath(more, p)
  {
    if |p| > 1 {
      PathMonotone(edges, more, p[..|p| - 1]);
    }
  }

  lemma ReachesMonotone(edges: Edges, more: Edges, a: nat, b: nat)
    requires edges <= more && Reaches(edges, a, b)
    ensures Reaches(more, a, b)
  {
    var p :| Connects(edges, p, a, b);
    PathMonotone(edges, more, p);
    assert Connects(more, p, a, b);
  }

  lemma MutualTrans(edges: Edges, a: nat, b: nat, c: nat)
    requires Mutual(edges, a, b) && Mutual(edges, b, c)
    ensures Mutual(edges, a, c)
  {
    ReachesTrans(edges, a, b, c);
    ReachesTrans(edges, c, b, a);
  }

  // ----- what a set of roots reaches -----

  /** Some root leads to `x`. */
  ghost predicate Reached(edges: Edges, roots: seq<nat>, x: nat) {
    exists r :: r in roots && Reaches(edges, r, x)
  }

  ghost predicate Seeds(edges: Edges, roots: seq<nat>, s: set<nat>) {
    (forall r :: r in roots ==> r in s) && Closed(edges, s)
  }

  /** The least closed set that holds the roots is what the roots reach. */
  lemma LeastSeedIsReached(edges: Edges, roots: seq<nat>, s: set<nat>, n: nat)
    requires Seeds(edges, roots, s)
    requires forall x :: x in s ==> x < n
    requires forall t :: Seeds(edges, roots, t) ==> s <= t
    ensures forall x :: x in s <==> Reached(edges, roots, x)
  {
    var reached := set x: nat | x < n && Reached(edges, roots, x);
    forall r | r in roots
      ensures r in reached
    {
      ReachesSelf(edges, r);
    }
    forall e | e in edges && e.0 in reached
      ensures e.1 in reached
    {
      var r :| r in roots && Reaches(edges, r, e.0);
      ReachesStep(edges, r, e.0, e.1);
      ClosedContains(edges, s, r, e.1);
    }
    assert Seeds(edges, roots, reached);
    forall x | Reached(edges, roots, x)
      ensures x in s
    {
      var r :| r in roots && Reaches(edges, r, x);
      ClosedContains(edges, s, r, x);
    }
  }

  /** Adding edges or roots loses nothing that was reached. */
  lemma ReachedMonotone(edges: Edges, more: Edges, roots: seq<nat>, extra: seq<nat>, x: nat)
    requires edges <= more && (forall r :: r in roots ==> r in extra) && Reached(edges, roots, x)
    ensures Reached(more, extra, x)
  {
    var r :| r in roots && Reaches(edges, r, x);
    ReachesMonotone(edges, more, r, x);
  }

  // ----- rows of targets and rows of flags -----

  type Adjacency = seq<seq<nat>>

  ghost predicate InRange(outgoing: Adjacency) {
    forall a, k :: 0 <= a < |outgoing| && 0 <= k < |outgoing[a]| ==> outgoing[a][k] < |outgoing|
  }

  ghost function EdgesOf(outgoing: Adjacency): (r: Edges)
    ensures forall a: nat, b: nat :: (a, b) in r <==> a < |outgoing| && b in outgoing[a]
  {
    set a: nat, b: nat | a < |outgoing| && b in outgoing[a] :: (a, b)
  }

  ghost function Marked(flags: seq<bool>): (r: set<nat>)
    ensures forall x: nat :: x in r <==> x < |flags| && flags[x]
  {
    set x: nat | x < |flags| && flags[x]
  }

  ghost function Unvisited(flags: seq<bool>): set<nat> {
    set x: nat | x < |flags| && !flags[x]
  }
}
