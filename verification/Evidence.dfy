/**
 The evidence graph of domain/evidence.rs.  Its breadth-first search returns the
 canonical explanation: the shortest path, and the smallest one among those.
 */
module Evidence {
  import opened Common
  import opened Paths
  import opened Sorting

  // ----- the order on paths -----

  /** `p` is smaller than `q` at the first place where they differ. */
  ghost predicate LexLess(p: seq<nat>, q: seq<nat>) {
    exists k :: 0 <= k < |p| && k < |q| && p[..k] == q[..k] && p[k] < q[k]
  }

  /** Shorter paths first, equally long ones in lexicographic order. */
  ghost predicate Precedes(p: seq<nat>, q: seq<nat>) {
    |p| < |q| || (|p| == |q| && LexLess(p, q))
  }

  ghost predicate AtMost(p: seq<nat>, q: seq<nat>) {
    p == q || Precedes(p, q)
  }

  lemma PrecedesTotal(p: seq<nat>, q: seq<nat>)
    ensures AtMost(p, q) || Precedes(q, p)
  {
    if |p| == |q| && p != q {
      var k := FirstDifference(p, q);
      assert q[..k] == p[..k];
    }
  }

  lemma {:induction false} FirstDifference(p: seq<nat>, q: seq<nat>) returns (k: nat)
    requires |p| == |q| && p != q
    ensures k < |p| && p[..k] == q[..k] && p[k] != q[k]
  {
    if p[0] != q[0] {
      k := 0;
    } else {
      assert p == [p[0]] + p[1..] && q == [q[0]] + q[1..];
      k := FirstDifference(p[1..], q[1..]);
      assert p[..k + 1] == [p[0]] + p[1..][..k];
      assert q[..k + 1] == [q[0]] + q[1..][..k];
      k := k + 1;
    }
  }

  lemma PrecedesTrans(p: seq<nat>, q: seq<nat>, r: seq<nat>)
    requires Precedes(p, q) && Precedes(q, r)
    ensures Precedes(p, r)
  {
    if |p| == |q| == |r| {
      var i :| 0 <= i < |p| && i < |q| && p[..i] == q[..i] && p[i] < q[i];
      var j :| 0 <= j < |q| && j < |r| && q[..j] == r[..j] && q[j] < r[j];
      var k := if i < j then i else j;
      assert p[..k] == p[..i][..k] == q[..i][..k] == q[..k];
      assert q[..k] == q[..j][..k] == r[..j][..k] == r[..k];
      assert i < j ==> q[i] == q[..j][i] == r[..j][i] == r[i];
      assert j < i ==> p[j] == p[..i][j] == q[..i][j] == q[j];
    }
  }

  /** Nothing precedes itself, so the order has no cycles. */
  lemma PrecedesIrreflexive(p: seq<nat>)
    ensures !Precedes(p, p)
  {
  }

  /** Extending keeps the order, whatever is appended. */
  lemma PrecedesExtend(p: seq<nat>, q: seq<nat>, x: nat, y: nat)
    requires Precedes(p, q)
    ensures Precedes(p + [x], q + [y])
  {
    if |p| == |q| {
      var k :| 0 <= k < |p| && k < |q| && p[..k] == q[..k] && p[k] < q[k];
      assert (p + [x])[..k] == p[..k] && (q + [y])[..k] == q[..k];
    }
  }

  lemma PrecedesLast(p: seq<nat>, x: nat, y: nat)
    requires x < y
    ensures Precedes(p + [x], p + [y])
  {
    assert (p + [x])[..|p|] == p == (p + [y])[..|p|];
    assert (p + [x])[|p|] == x && (p + [y])[|p|] == y;
  }

  // ----- what an explanation must be -----

  /** A path along edges from a listed source to `target`. */
  ghost predicate Explains(edges: Edges, sources: set<nat>, target: nat, p: seq<nat>) {
    IsPath(edges, p) && p[0] in sources && p[|p| - 1] == target
  }

  ghost predicate IsLeastExplanation(edges: Edges, sources: set<nat>, target: nat, p: seq<nat>) {
    && Explains(edges, sources, target, p)
    && forall q :: Explains(edges, sources, target, q) ==> AtMost(p, q)
  }

  /** There is only one such path, and no other is shorter. */
  lemma LeastExplanationUnique(edges: Edges, sources: set<nat>, target: nat, p: seq<nat>, q: seq<nat>)
    requires IsLeastExplanation(edges, sources, target, p) && IsLeastExplanation(edges, sources, target, q)
    ensures p == q
  {
    if p != q {
      PrecedesTrans(p, q, p);
      PrecedesIrreflexive(p);
    }
  }

  /** Least among the explanations of `target` with `n` nodes whose last step comes from `from`. */
  ghost predicate IsLeastFrom(edges: Edges, sources: set<nat>, target: nat, n: nat, from: set<nat>, p: seq<nat>) {
    && Explains(edges, sources, target, p) && |p| == n && n > 1 && p[n - 2] in from
    && forall q :: Explains(edges, sources, target, q) && |q| == n && q[n - 2] in from ==> AtMost(p, q)
  }

  /** Least among the explanations of `target` with `n` nodes. */
  ghost predicate IsLeastOfLength(edges: Edges, sources: set<nat>, target: nat, n: nat, p: seq<nat>) {
    && Explains(edges, sources, target, p) && |p| == n
    && forall q :: Explains(edges, sources, target, q) && |q| == n ==> AtMost(p, q)
  }

  lemma ExplainsFront(edges: Edges, sources: set<nat>, target: nat, q: seq<nat>)
    requires Explains(edges, sources, target, q) && |q| > 1
    ensures Explains(edges, sources, q[|q| - 2], q[..|q| - 1]) && (q[|q| - 2], target) in edges
    ensures q == q[..|q| - 1] + [target]
  {
  }

  /** A least explanation of `y` makes a least one of `target` through `y`. */
  lemma LeastThroughOne(edges: Edges, sources: set<nat>, target: nat, n: nat, y: nat, p: seq<nat>)
    requires n > 1 && IsLeastOfLength(edges, sources, y, n - 1, p) && (y, target) in edges
    ensures IsLeastFrom(edges, sources, target, n, {y}, p + [target])
  {
    PathSnoc(edges, p, target);
    forall q | Explains(edges, sources, target, q) && |q| == n && q[n - 2] == y
      ensures AtMost(p + [target], q)
    {
      ExplainsFront(edges, sources, target, q);
      var front := q[..n - 1];
      assert AtMost(p, front);
      if p != front {
        PrecedesExtend(p, front, target, target);
      }
    }
  }

  lemma LeastOfBoth(edges: Edges, sources: set<nat>, target: nat, n: nat, a: set<nat>, b: set<nat>, p: seq<nat>,
                    q: seq<nat>)
    requires IsLeastFrom(edges, sources, target, n, a, p) && IsLeastFrom(edges, sources, target, n, b, q)
    requires Precedes(p, q) || p == q
    ensures IsLeastFrom(edges, sources, target, n, a + b, p)
  {
    forall r | Explains(edges, sources, target, r) && |r| == n && r[n - 2] in a + b
      ensures AtMost(p, r)
    {
      if r[n - 2] !in a && Precedes(p, q) && Precedes(q, r) {
        PrecedesTrans(p, q, r);
      }
    }
  }

  /** Of finitely many last steps, one belongs to the least explanation. */
  lemma {:induction false} LeastThrough(edges: Edges, sources: set<nat>, target: nat, n: nat, from: set<nat>)
    returns (p: seq<nat>)
    requires n > 1 && from != {}
    requires forall y :: y in from ==>
      (y, target) in edges && exists q :: Explains(edges, sources, y, q) && |q| == n - 1
    ensures IsLeastFrom(edges, sources, target, n, from, p)
    decreases n, 0, |from|
  {
    var y :| y in from;
    var q :| Explains(edges, sources, y, q) && |q| == n - 1;
    var least := LeastOfLength(edges, sources, y, q);
    LeastThroughOne(edges, sources, target, n, y, least);
    p := least + [target];
    var rest := from - {y};
    if rest == {} {
      assert from == {y};
    } else {
      var other := LeastThrough(edges, sources, target, n, rest);
      PrecedesTotal(p, other);
      assert from == {y} + rest == rest + {y};
      if AtMost(p, other) {
        LeastOfBoth(edges, sources, target, n, {y}, rest, p, other);
      } else {
        LeastOfBoth(edges, sources, target, n, rest, {y}, other, p);
        p := other;
      }
    }
  }

  lemma {:induction false} LeastOfLength(edges: Edges, sources: set<nat>, target: nat, q: seq<nat>)
    returns (p: seq<nat>)
    requires Explains(edges, sources, target, q)
    ensures IsLeastOfLength(edges, sources, target, |q|, p)
    decreases |q|, 1, 0
  {
    var n := |q|;
    if n == 1 {
      p := [target];
      forall r | Explains(edges, sources, target, r) && |r| == 1
        ensures r == p
      {
      }
    } else {
      var from := set e <- edges |
        e.1 == target && (exists r :: Explains(edges, sources, e.0, r) && |r| == n - 1) :: e.0;
      ExplainsFront(edges, sources, target, q);
      assert (q[n - 2], target) in edges && q[n - 2] in from;
      p := LeastThrough(edges, sources, target, n, from);
      forall r | Explains(edges, sources, target, r) && |r| == n
        ensures AtMost(p, r)
      {
        ExplainsFront(edges, sources, target, r);
        assert (r[n - 2], target) in edges && r[n - 2] in from;
      }
    }
  }

  /** Whenever there is an explanation there is a least one. */
  lemma {:induction false} LeastExplanationExists(edges: Edges, sources: set<nat>, target: nat, q: seq<nat>)
    ensures Explains(edges, sources, target, q) ==> exists p :: IsLeastExplanation(edges, sources, target, p)
    decreases |q|
  {
    if Explains(edges, sources, target, q) {
      if r :| Explains(edges, sources, target, r) && |r| < |q| {
        LeastExplanationExists(edges, sources, target, r);
      } else {
        var p := LeastOfLength(edges, sources, target, q);
        assert IsLeastExplanation(edges, sources, target, p);
      }
    }
  }

  // ----- the invariant of the search -----

  /**
   What the search has enqueued so far: the nodes in order, the path by which each
   was found, and for a node that is not a source the position of its parent.
   */
  datatype Trail = Trail(visit: seq<nat>, paths: seq<seq<nat>>, up: seq<nat>)

  ghost predicate Found(edges: Edges, sources: set<nat>, t: Trail) {
    && |t.visit| == |t.paths| == |t.up|
    && (forall s :: s in sources ==> s in t.visit)
    && (forall k {:trigger IsLeastExplanation(edges, sources, t.visit[k], t.paths[k])} ::
          0 <= k < |t.visit| ==> IsLeastExplanation(edges, sources, t.visit[k], t.paths[k]))
  }

  /** Nodes were enqueued in the order of their paths. */
  ghost predicate Ranked(t: Trail) {
    forall i, j {:trigger Precedes(t.paths[i], t.paths[j])} ::
      0 <= i < j < |t.paths| ==> Precedes(t.paths[i], t.paths[j])
  }

  /** Only nodes before `bound` have become parents. */
  ghost predicate Parented(t: Trail, bound: nat) {
    && |t.visit| == |t.paths| == |t.up|
    && forall k :: 0 <= k < |t.paths| ==>
         |t.paths[k]| == 1 ||
         (t.up[k] < k && t.up[k] < bound && t.paths[k] == t.paths[t.up[k]] + [t.visit[k]])
  }

  ghost predicate Expanded(edges: Edges, t: Trail, head: nat) {
    head <= |t.visit| && forall i, y :: 0 <= i < head && (t.visit[i], y) in edges ==> y in t.visit
  }

  function Discover(t: Trail, head: nat, x: nat): Trail
    requires head < |t.paths|
  {
    Trail(t.visit + [x], t.paths + [t.paths[head] + [x]], t.up + [head])
  }

  /** A path to a node that waits at or after `head` is no smaller than the path of `head`. */
  lemma WaitingBound(edges: Edges, sources: set<nat>, t: Trail, head: nat, w: nat, q: seq<nat>)
    requires Found(edges, sources, t) && Ranked(t) && head <= w < |t.visit|
    requires Explains(edges, sources, t.visit[w], q)
    ensures AtMost(t.paths[head], q)
  {
    assert IsLeastExplanation(edges, sources, t.visit[w], t.paths[w]);
    assert w > head ==> Precedes(t.paths[head], t.paths[w]);
    if w > head && t.paths[w] != q {
      PrecedesTrans(t.paths[head], t.paths[w], q);
    }
  }

  /** The last step into a node outside the trail comes from a waiting node or from outside. */
  lemma LastStepIn(edges: Edges, sources: set<nat>, t: Trail, head: nat, x: nat, q: seq<nat>)
    returns (front: seq<nat>, w: nat)
    requires Found(edges, sources, t) && Expanded(edges, t, head)
    requires x !in t.visit && Explains(edges, sources, x, q)
    ensures |front| > 0 && q == front + [x] && Explains(edges, sources, front[|front| - 1], front)
    ensures front[|front| - 1] in t.visit ==> head <= w < |t.visit| && t.visit[w] == front[|front| - 1]
  {
    assert |q| > 1;
    front, w := q[..|q| - 1], 0;
    if q[|q| - 2] in t.visit {
      w :| 0 <= w < |t.visit| && t.visit[w] == q[|q| - 2];
      assert w < head ==> x in t.visit;
    }
  }

  /** A path that ends outside the trail is longer than the path of `head`. */
  lemma {:induction false} Frontier(edges: Edges, sources: set<nat>, t: Trail, head: nat, x: nat, q: seq<nat>)
    requires Found(edges, sources, t) && Ranked(t) && Expanded(edges, t, head) && head < |t.visit|
    requires x !in t.visit && Explains(edges, sources, x, q)
    ensures |t.paths[head]| < |q|
    decreases |q|
  {
    var front, w := LastStepIn(edges, sources, t, head, x, q);
    if front[|front| - 1] in t.visit {
      WaitingBound(edges, sources, t, head, w, front);
    } else {
      Frontier(edges, sources, t, head, front[|front| - 1], front);
    }
  }

  lemma DiscoverLeast(edges: Edges, sources: set<nat>, t: Trail, head: nat, x: nat, q: seq<nat>)
    requires Found(edges, sources, t) && Ranked(t) && Expanded(edges, t, head) && head < |t.visit|
    requires x !in t.visit && Explains(edges, sources, x, q)
    ensures AtMost(t.paths[head] + [x], q)
  {
    var front, w := LastStepIn(edges, sources, t, head, x, q);
    if front[|front| - 1] in t.visit {
      WaitingBound(edges, sources, t, head, w, front);
      if t.paths[head] != front {
        PrecedesExtend(t.paths[head], front, x, x);
      }
    } else {
      Frontier(edges, sources, t, head, front[|front| - 1], front);
    }
  }

  lemma DiscoverFound(edges: Edges, sources: set<nat>, t: Trail, head: nat, x: nat)
    requires Found(edges, sources, t) && Ranked(t) && Expanded(edges, t, head) && head < |t.visit|
    requires x !in t.visit && (t.visit[head], x) in edges
    ensures Found(edges, sources, Discover(t, head, x))
  {
    var p := t.paths[head] + [x];
    assert IsLeastExplanation(edges, sources, t.visit[head], t.paths[head]);
    PathSnoc(edges, t.paths[head], x);
    forall q | Explains(edges, sources, x, q)
      ensures AtMost(p, q)
    {
      DiscoverLeast(edges, sources, t, head, x, q);
    }
    assert IsLeastExplanation(edges, sources, x, p);
  }

  lemma DiscoverRanked(t: Trail, head: nat, x: nat)
    requires Ranked(t) && Parented(t, head + 1) && head < |t.paths| && |t.paths[head]| > 0
    requires forall k :: 0 <= k < |t.paths| && |t.paths[k]| > 1 && t.up[k] == head ==> t.visit[k] < x
    ensures Ranked(Discover(t, head, x)) && Parented(Discover(t, head, x), head + 1)
  {
    var p := t.paths[head] + [x];
    forall k | 0 <= k < |t.paths|
      ensures Precedes(t.paths[k], p)
    {
      if |t.paths[k]| != 1 {
        var i := t.up[k];
        if i == head {
          PrecedesLast(t.paths[head], t.visit[k], x);
        } else {
          PrecedesExtend(t.paths[i], t.paths[head], t.visit[k], x);
        }
      }
    }
    var d := Discover(t, head, x);
    assert forall i :: 0 <= i < |t.paths| ==> d.paths[i] == t.paths[i];
    assert d.paths[|t.paths|] == p;
  }

  /** Once every enqueued node is expanded, whatever is not enqueued has no explanation. */
  lemma NoneBeyond(edges: Edges, sources: set<nat>, t: Trail, target: nat, q: seq<nat>)
    requires Found(edges, sources, t) && Expanded(edges, t, |t.visit|)
    requires Explains(edges, sources, target, q)
    ensures target in t.visit
  {
    var s := set x | x in t.visit;
    ClosedAlong(edges, s, q);
  }

  /** The starting trail: the sources in ascending order, each a path of its own. */
  lemma SourcesTrail(edges: Edges, sources: set<nat>, row: seq<nat>) returns (t: Trail)
    requires Ascending(row) && forall s :: s in row <==> s in sources
    ensures t.visit == row && |t.paths| == |row| && forall k :: 0 <= k < |row| ==> t.paths[k] == [row[k]]
    ensures Found(edges, sources, t) && Ranked(t) && Parented(t, 0) && Expanded(edges, t, 0)
  {
    t := Trail(row, seq(|row|, k requires 0 <= k < |row| => [row[k]]), seq(|row|, _ => 0));
    forall k | 0 <= k < |row|
      ensures IsLeastExplanation(edges, sources, row[k], t.paths[k])
    {
      assert row[k] in row;
      assert forall q :: Explains(edges, sources, row[k], q) && |q| == 1 ==> q == [row[k]];
    }
    forall i, j | 0 <= i < j < |row|
      ensures Precedes(t.paths[i], t.paths[j])
    {
      PrecedesLast([], row[i], row[j]);
      assert [] + [row[i]] == [row[i]] && [] + [row[j]] == [row[j]];
    }
  }

  /** `previous` records the parents of the trail, and nothing for its sources. */
  ghost predicate Recorded(t: Trail, previous: seq<Option<nat>>) {
    && |t.visit| == |t.paths| == |t.up|
    && forall k :: 0 <= k < |t.visit| ==>
         && t.visit[k] < |previous|
         && (|t.paths[k]| == 1 ==> previous[t.visit[k]] == None)
         && (|t.paths[k]| != 1 ==> t.up[k] < k && previous[t.visit[k]] == Some(t.visit[t.up[k]]))
  }

  ghost predicate SeenIs(seen: seq<bool>, visit: seq<nat>) {
    && (forall x :: x in visit ==> x < |seen| && seen[x])
    && (forall x :: 0 <= x < |seen| && seen[x] ==> x in visit)
  }

  lemma DiscoverRecorded(t: Trail, head: nat, x: nat, previous: seq<Option<nat>>)
    requires Recorded(t, previous) && head < |t.visit| && x !in t.visit && x < |previous|
    requires |t.paths[head]| > 0
    ensures Recorded(Discover(t, head, x), previous[x := Some(t.visit[head])])
  {
    var d := Discover(t, head, x);
    forall k | 0 <= k < |t.visit|
      ensures d.visit[k] == t.visit[k] && d.visit[k] != x && d.up[k] == t.up[k] && d.paths[k] == t.paths[k]
    {
      assert t.visit[k] in t.visit;
    }
    assert |d.paths[|t.visit|]| != 1;
  }

  /** All that the outer loop of the search keeps. */
  ghost predicate Tracing(edges: Edges, sources: set<nat>, t: Trail, head: nat,
                          seen: seq<bool>, previous: seq<Option<nat>>, queue: seq<nat>) {
    && Found(edges, sources, t) && Ranked(t) && Parented(t, head) && Expanded(edges, t, head)
    && Recorded(t, previous) && SeenIs(seen, t.visit)
    && |seen| == |previous| && queue == t.visit[head..]
  }

  /** The trail in the middle of expanding `head`, with the targets from `e` on still to come. */
  ghost predicate Expanding(edges: Edges, sources: set<nat>, t: Trail, head: nat, row: seq<nat>, e: nat) {
    && Found(edges, sources, t) && Ranked(t) && Parented(t, head + 1) && Expanded(edges, t, head)
    && head < |t.visit| && e <= |row|
    && (forall i :: 0 <= i < e ==> row[i] in t.visit)
    && (forall k, m :: 0 <= k < |t.paths| && |t.paths[k]| > 1 && t.up[k] == head && e <= m < |row| ==>
          t.visit[k] < row[m])
  }

  ghost predicate Recording(t: Trail, current: nat, head: nat,
                            seen: seq<bool>, previous: seq<Option<nat>>, queue: seq<nat>) {
    && Recorded(t, previous) && SeenIs(seen, t.visit) && |seen| == |previous|
    && head < |t.visit| && t.visit[head] == current && queue == t.visit[head + 1..]
  }

  lemma ExpandStep(edges: Edges, sources: set<nat>, t: Trail, head: nat, row: seq<nat>, e: nat)
    requires Expanding(edges, sources, t, head, row, e)
    requires e < |row| && Ascending(row) && (t.visit[head], row[e]) in edges
    ensures row[e] in t.visit ==> Expanding(edges, sources, t, head, row, e + 1)
    ensures row[e] !in t.visit ==> Expanding(edges, sources, Discover(t, head, row[e]), head, row, e + 1)
  {
    var x := row[e];
    if x !in t.visit {
      assert IsLeastExplanation(edges, sources, t.visit[head], t.paths[head]);
      DiscoverFound(edges, sources, t, head, x);
      DiscoverRanked(t, head, x);
      var d := Discover(t, head, x);
      assert forall y :: y in d.visit <==> y in t.visit || y == x;
      DiscoverAbove(t, head, row, e);
    }
  }

  lemma DiscoverAbove(t: Trail, head: nat, row: seq<nat>, e: nat)
    requires |t.visit| == |t.paths| == |t.up| && head < |t.paths| && e < |row| && Ascending(row)
    requires forall k, m :: 0 <= k < |t.paths| && |t.paths[k]| > 1 && t.up[k] == head && e <= m < |row| ==>
               t.visit[k] < row[m]
    ensures var d := Discover(t, head, row[e]);
            forall k, m :: 0 <= k < |d.paths| && |d.paths[k]| > 1 && d.up[k] == head && e + 1 <= m < |row| ==>
              d.visit[k] < row[m]
  {
    var d := Discover(t, head, row[e]);
    assert forall k :: 0 <= k < |t.paths| ==>
      d.paths[k] == t.paths[k] && d.up[k] == t.up[k] && d.visit[k] == t.visit[k];
  }

  lemma RecordStep(t: Trail, current: nat, head: nat, seen: seq<bool>, previous: seq<Option<nat>>,
                   queue: seq<nat>, x: nat)
    requires Recording(t, current, head, seen, previous, queue)
    requires |t.paths[head]| > 0 && x < |seen| && !seen[x]
    ensures x !in t.visit
    ensures Recording(Discover(t, head, x), current, head, seen[x := true], previous[x := Some(current)], queue + [x])
  {
    DiscoverRecorded(t, head, x, previous);
    var d := Discover(t, head, x);
    assert forall y :: y in d.visit <==> y in t.visit || y == x;
  }

  lemma ExpandStart(edges: Edges, sources: set<nat>, t: Trail, head: nat, row: seq<nat>,
                    seen: seq<bool>, previous: seq<Option<nat>>, queue: seq<nat>)
    requires Tracing(edges, sources, t, head, seen, previous, queue) && queue != []
    ensures Expanding(edges, sources, t, head, row, 0)
    ensures Recording(t, queue[0], head, seen, previous, queue[1..])
  {
  }

  lemma ExpandEnd(edges: Edges, sources: set<nat>, t: Trail, head: nat, row: seq<nat>, current: nat,
                  seen: seq<bool>, previous: seq<Option<nat>>, queue: seq<nat>)
    requires Expanding(edges, sources, t, head, row, |row|)
    requires Recording(t, current, head, seen, previous, queue)
    requires forall y :: (current, y) in edges ==> y in row
    ensures Tracing(edges, sources, t, head + 1, seen, previous, queue)
  {
  }

  /** Enqueues the targets of `current` that were not seen yet, in row order. */
  method ExpandRow(row: seq<nat>, current: nat, seen0: seq<bool>, previous0: seq<Option<nat>>, queue0: seq<nat>,
                   ghost edges: Edges, ghost sources: set<nat>, ghost t0: Trail, ghost head: nat)
    returns (seen: seq<bool>, previous: seq<Option<nat>>, queue: seq<nat>, ghost t: Trail)
    requires Expanding(edges, sources, t0, head, row, 0)
    requires Recording(t0, current, head, seen0, previous0, queue0)
    requires Ascending(row) && forall y: nat :: y in row ==> y < |seen0|
    requires forall y: nat :: (current, y) in edges <==> y in row
    ensures Tracing(edges, sources, t, head + 1, seen, previous, queue)
    ensures |seen| == |seen0|
    ensures Unvisited(seen) < Unvisited(seen0) || (seen == seen0 && |queue| == |queue0|)
  {
    seen, previous, queue, t := seen0, previous0, queue0, t0;
    for e := 0 to |row|
      invariant Expanding(edges, sources, t, head, row, e)
      invariant Recording(t, current, head, seen, previous, queue) && |seen| == |seen0|
      invariant Unvisited(seen) < Unvisited(seen0) || (seen == seen0 && |queue| == |queue0|)
    {
      var next := row[e];
      assert next in row;
      ExpandStep(edges, sources, t, head, row, e);
      if !seen[next] {
        assert next in Unvisited(seen);
        RecordStep(t, current, head, seen, previous, queue, next);
        seen := seen[next := true];
        previous := previous[next := Some(current)];
        queue := queue + [next];
        t := Discover(t, head, next);
      }
    }
    ExpandEnd(edges, sources, t, head, row, current, seen, previous, queue);
  }

  lemma WalkStep(path: seq<nat>, before: seq<nat>, current: nat, ids: seq<nat>, parent: nat)
    requires ids != [] && ids[|ids| - 1] == current
    requires path == before + [current] + Reverse(ids[..|ids| - 1])
    ensures path == before + Reverse((ids + [parent])[..|ids|])
  {
    assert (ids + [parent])[..|ids|] == ids;
  }

  // ----- the graph object -----

  datatype EvidenceKind =
    | Entry | Manifest | Script | Configuration | Import | Export
    | Symbol | Member | Package | Plugin | Retain | Blocker

  datatype EvidenceNode = EvidenceNode(
    id: nat, kind: EvidenceKind, summary: string, path: Option<string>, span: Option<(nat, nat)>)

  const EVIDENCE_ID_LIMIT: nat := 0x1_0000_0000

  class EvidenceGraph {
    var nodes: seq<EvidenceNode>
    var outgoing: Adjacency

    ghost predicate Valid()
      reads this
    {
      && |nodes| == |outgoing| <= EVIDENCE_ID_LIMIT
      && (forall i :: 0 <= i < |nodes| ==> nodes[i].id == i)
      && (forall i :: 0 <= i < |outgoing| ==> Ascending(outgoing[i]))
    }

    ghost function EdgeSet(): Edges
      reads this
    {
      EdgesOf(outgoing)
    }

    constructor ()
      ensures Valid() && nodes == [] && EdgeSet() == {}
    {
      nodes, outgoing := [], [];
    }

    method AddNode(kind: EvidenceKind, summary: string, path: Option<string>, span: Option<(nat, nat)>)
      returns (id: nat)
      requires Valid() && |nodes| < EVIDENCE_ID_LIMIT
      modifies this
      ensures Valid() && id == |old(nodes)|
      ensures nodes == old(nodes) + [EvidenceNode(id, kind, summary, path, span)]
      ensures EdgeSet() == old(EdgeSet())
    {
      id := |nodes|;
      nodes := nodes + [EvidenceNode(id, kind, summary, path, span)];
      outgoing := outgoing + [[]];
    }

    method AddEdge(source: nat, target: nat)
      requires Valid() && source < |nodes|
      modifies this
      ensures Valid() && nodes == old(nodes)
      ensures EdgeSet() == old(EdgeSet()) + {(source, target)}
    {
      var row := outgoing[source];
      if target !in row {
        outgoing := outgoing[source := Sort(NatLeq, row + [target])];
        SortSorted(NatLeq, row + [target]);
        SortDistinct(NatLeq, row + [target]);
        forall x
          ensures x in Sort(NatLeq, row + [target]) <==> x in row || x == target
        {
          SortElements(NatLeq, row + [target], x);
        }
      }
    }

    /** The listed sources that are nodes of this graph. */
    ghost function Known(sources: seq<nat>): (r: set<nat>)
      reads this
      ensures forall s :: s in r <==> s in sources && s < |nodes|
    {
      set s | s in sources && s < |nodes|
    }

    /** Enqueues the sources in ascending order, without repetition. */
    method Start(sources: seq<nat>) returns (seen: seq<bool>, queue: seq<nat>)
      requires Valid()
      ensures |seen| == |nodes| && SeenIs(seen, queue) && Ascending(queue)
      ensures forall s :: s in queue <==> s in Known(sources)
    {
      seen := seq(|nodes|, _ => false);
      var ordered := Dedup(Sort(NatLeq, sources));
      SortDedup(sources);
      queue := [];
      for i := 0 to |ordered|
        invariant |seen| == |nodes| && SeenIs(seen, queue) && Ascending(queue)
        invariant forall s :: s in queue <==> s in ordered[..i] && s < |nodes|
      {
        var source := ordered[i];
        assert ordered[..i + 1] == ordered[..i] + [source];
        forall k | 0 <= k < |queue|
          ensures queue[k] < source
        {
          assert queue[k] in ordered[..i];
        }
        if source < |seen| && !seen[source] {
          seen := seen[source := true];
          queue := queue + [source];
        }
      }
      assert ordered[..|ordered|] == ordered;
    }

    /** Follows edges breadth first until `target` comes up or nothing is left. */
    method Search(sources: seq<nat>, target: nat)
      returns (seen: seq<bool>, previous: seq<Option<nat>>, ghost t: Trail, ghost head: nat, ghost rest: seq<nat>)
      requires Valid() && InRange(outgoing) && target < |nodes|
      ensures Tracing(EdgeSet(), Known(sources), t, head, seen, previous, rest)
      ensures |seen| == |nodes|
      ensures target in t.visit || rest == []
    {
      ghost var edges, known := EdgeSet(), Known(sources);
      var queue;
      seen, queue := Start(sources);
      previous := seq(|nodes|, _ => None);
      t := SourcesTrail(edges, known, queue);
      head := 0;
      assert forall k :: 0 <= k < |t.visit| ==> t.visit[k] in queue;
      while queue != []
        invariant Tracing(edges, known, t, head, seen, previous, queue) && |seen| == |nodes|
        decreases Unvisited(seen), |queue|
      {
        var current := queue[0];
        if current == target {
          return seen, previous, t, head, queue;
        }
        ExpandStart(edges, known, t, head, outgoing[current], seen, previous, queue);
        seen, previous, queue, t := ExpandRow(outgoing[current], current, seen, previous, queue[1..],
                                              edges, known, t, head);
        head := head + 1;
      }
      rest := queue;
    }

    /** Walks the parents back from `target` and turns the walk around. */
    method Walk(previous: seq<Option<nat>>, target: nat, ghost t: Trail, ghost at: nat) returns (ids: seq<nat>)
      requires at < |t.visit| && t.visit[at] == target && Recorded(t, previous)
      requires Parented(t, |t.visit|)
      requires forall k :: 0 <= k < |t.paths| ==> |t.paths[k]| > 0 && t.paths[k][|t.paths[k]| - 1] == t.visit[k]
      ensures ids == t.paths[at]
    {
      ids := [target];
      var current := target;
      ghost var k: nat := at;
      while previous[current].Some?
        invariant k < |t.visit| == |t.paths| && current == t.visit[k] < |previous|
        invariant ids != [] && ids[|ids| - 1] == current
        invariant t.paths[at] == t.paths[k] + Reverse(ids[..|ids| - 1])
        decreases k
      {
        var parent := previous[current].value;
        WalkStep(t.paths[at], t.paths[t.up[k]], current, ids, parent);
        ids := ids + [parent];
        current := parent;
        k := t.up[k];
      }
      assert |t.paths[k]| == 1 && t.paths[k] == [current];
      ids := Reverse(ids);
    }

    method Collect(ids: seq<nat>) returns (path: seq<EvidenceNode>)
      requires Valid() && forall i :: 0 <= i < |ids| ==> ids[i] < |nodes|
      ensures Ids(path) == ids && forall i :: 0 <= i < |path| ==> path[i] in nodes
    {
      path := [];
      for i := 0 to |ids|
        invariant |path| == i && forall k :: 0 <= k < i ==> path[k] == nodes[ids[k]]
      {
        path := path + [nodes[ids[i]]];
      }
    }

    /** The least explanation of `target`, or nothing when there is none. */
    method ShortestPath(sources: seq<nat>, target: nat) returns (path: seq<EvidenceNode>)
      requires Valid() && InRange(outgoing)
      ensures forall i :: 0 <= i < |path| ==> path[i] in nodes
      ensures if path == [] then
                target >= |nodes| || forall q :: !Explains(EdgeSet(), Known(sources), target, q)
              else
                target < |nodes| && IsLeastExplanation(EdgeSet(), Known(sources), target, Ids(path))
    {
      if target >= |nodes| {
        path := [];
        return;
      }
      var seen, previous, t, head, rest := Search(sources, target);
      if !seen[target] {
        if q :| Explains(EdgeSet(), Known(sources), target, q) {
          NoneBeyond(EdgeSet(), Known(sources), t, target, q);
        }
        path := [];
        return;
      }
      ghost var at: nat :| at < |t.visit| && t.visit[at] == target;
      forall k | 0 <= k < |t.paths|
        ensures |t.paths[k]| > 0 && t.paths[k][|t.paths[k]| - 1] == t.visit[k]
        ensures forall i :: 0 <= i < |t.paths[k]| ==> t.paths[k][i] < |nodes|
      {
        assert IsLeastExplanation(EdgeSet(), Known(sources), t.visit[k], t.paths[k]);
        PathInRange(EdgeSet(), |nodes|, t.paths[k]);
      }
      var ids := Walk(previous, target, t, at);
      path := Collect(ids);
    }
  }

  function Ids(path: seq<EvidenceNode>): seq<nat> {
    seq(|path|, i requires 0 <= i < |path| => path[i].id)
  }

  lemma {:induction false} PathInRange(edges: Edges, n: nat, p: seq<nat>)
    requires IsPath(edges, p) && p[0] < n && forall e <- edges :: e.1 < n
    ensures forall i :: 0 <= i < |p| ==> p[i] < n
  {
    if |p| > 1 {
      PathInRange(edges, n, p[..|p| - 1]);
      assert forall i :: 0 <= i < |p| - 1 ==> p[i] == p[..|p| - 1][i];
    }
  }
}
