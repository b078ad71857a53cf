/**
 The module graph of domain/graph.rs: files are numbered, rows of targets grow in
 place, and reachability and components are computed by explicit loops.
 */
module FileGraphs {
  import opened Paths
  import opened Sorting
  import opened StrongComponents

  // ----- component lists -----

  ghost predicate HeadsAscend(groups: seq<seq<nat>>) {
    && (forall i :: 0 <= i < |groups| ==> groups[i] != [])
    && (forall i, j :: 0 <= i < j < |groups| ==> groups[i][0] < groups[j][0])
  }

  /**
   The components of the graph inside `nodes`: every node is in one, two nodes
   share one exactly when each reaches the other inside `nodes`, and both the
   components and their members are listed in ascending order.
   */
  ghost predicate IsComponentList(edges: Edges, nodes: set<nat>, groups: seq<seq<nat>>) {
    && HeadsAscend(groups)
    && (forall g :: g in groups ==> Ascending(g))
    && (forall x :: x in nodes <==> exists g :: g in groups && x in g)
    && (forall g, x, y :: g in groups && x in g && y in nodes ==>
          (y in g <==> Mutual(Induced(edges, nodes), x, y)))
  }

  lemma ComponentInOther(edges: Edges, nodes: set<nat>, a: seq<seq<nat>>, b: seq<seq<nat>>, g: seq<nat>)
    requires IsComponentList(edges, nodes, a) && IsComponentList(edges, nodes, b) && g in a
    ensures g in b
  {
    var i :| 0 <= i < |a| && a[i] == g;
    var x := g[0];
    assert x in g && x in nodes;
    var h :| h in b && x in h;
    forall y
      ensures y in g <==> y in h
    {
      assert y in g || y in h ==> y in nodes;
    }
    AscendingUnique(g, h);
  }

  lemma {:induction false} HeadsDetermine(a: seq<seq<nat>>, b: seq<seq<nat>>)
    requires HeadsAscend(a) && HeadsAscend(b)
    requires forall g :: g in a <==> g in b
    ensures a == b
  {
    if a == [] {
      assert forall k :: 0 <= k < |b| ==> b[k] in a;
    } else {
      assert a[0] in b && b != [] && b[0] in a;
      var k :| 0 <= k < |b| && b[k] == a[0];
      var m :| 0 <= m < |a| && a[m] == b[0];
      assert k == 0 == m;
      assert forall g :: g in a[1..] <==> g in a && g != a[0];
      assert forall g :: g in b[1..] <==> g in b && g != b[0];
      HeadsDetermine(a[1..], b[1..]);
    }
  }

  /** The edges and the included nodes alone determine the component list. */
  lemma ComponentListUnique(edges: Edges, nodes: set<nat>, a: seq<seq<nat>>, b: seq<seq<nat>>)
    requires IsComponentList(edges, nodes, a) && IsComponentList(edges, nodes, b)
    ensures a == b
  {
    forall g
      ensures g in a <==> g in b
    {
      if g in a {
        ComponentInOther(edges, nodes, a, b, g);
      }
      if g in b {
        ComponentInOther(edges, nodes, b, a, g);
      }
    }
    HeadsDetermine(a, b);
  }

  // ----- arranging the components -----

  function Head(group: seq<nat>): nat {
    if group == [] then 0 else group[0]
  }

  predicate HeadLeq(a: seq<nat>, b: seq<nat>) {
    Head(a) <= Head(b)
  }

  ghost predicate SameRows(a: seq<seq<nat>>, b: seq<seq<nat>>) {
    |a| == |b| && forall i :: 0 <= i < |a| ==> b[i] == Sort(NatLeq, a[i])
  }

  lemma SortedRow(row: seq<nat>)
    requires Distinct(row)
    ensures Ascending(Sort(NatLeq, row))
    ensures forall x :: x in Sort(NatLeq, row) <==> x in row
  {
    SortSorted(NatLeq, row);
    SortDistinct(NatLeq, row);
    forall x
      ensures x in Sort(NatLeq, row) <==> x in row
    {
      SortElements(NatLeq, row, x);
    }
  }

  lemma SortedHeads(rows: seq<seq<nat>>)
    requires forall i :: 0 <= i < |rows| ==> rows[i] != []
    requires Disjoint(rows)
    ensures HeadsAscend(Sort(HeadLeq, rows))
  {
    var list := Sort(HeadLeq, rows);
    forall i, j | 0 <= i < j < |rows|
      ensures rows[i] != rows[j]
    {
      assert rows[i][0] in rows[i];
    }
    SortDistinct(HeadLeq, rows);
    SortSorted(HeadLeq, rows);
    forall i | 0 <= i < |list|
      ensures list[i] in rows && list[i] != []
    {
      SortElements(HeadLeq, rows, list[i]);
    }
    forall i, j | 0 <= i < j < |list|
      ensures list[i][0] < list[j][0]
    {
      var k :| 0 <= k < |rows| && rows[k] == list[i];
      var m :| 0 <= m < |rows| && rows[m] == list[j];
      assert HeadLeq(list[i], list[j]) && list[i] != list[j] && k != m;
      OwnHeads(rows, k, m);
    }
  }

  lemma OwnHeads(rows: seq<seq<nat>>, k: nat, m: nat)
    requires k < |rows| && m < |rows| && k != m && Disjoint(rows) && rows[k] != [] && rows[m] != []
    ensures rows[k][0] != rows[m][0]
  {
    var x, y := rows[k][0], rows[m][0];
    assert x in rows[k] && y in rows[m];
  }

  lemma BothIsMutual(edges: Edges, nodes: set<nat>, x: nat, y: nat)
    requires x in nodes && y in nodes
    ensures Both(Reachability(edges, nodes), x, y) <==> Mutual(edges, x, y)
  {
  }

  /** Sorting the members of each group keeps the partition. */
  lemma RowsPartition(edges: Edges, nodes: set<nat>, groups: seq<seq<nat>>, rows: seq<seq<nat>>)
    requires ArePartition(Reachability(Induced(edges, nodes), nodes), nodes, groups)
    requires SameRows(groups, rows)
    ensures forall i :: 0 <= i < |rows| ==> rows[i] != []
    ensures Disjoint(rows)
    ensures forall g :: g in rows ==> Ascending(g)
    ensures forall x :: x in nodes <==> exists g :: g in rows && x in g
    ensures forall g, x, y :: g in rows && x in g && y in nodes ==>
      (y in g <==> Mutual(Induced(edges, nodes), x, y))
  {
    forall i | 0 <= i < |rows|
      ensures Ascending(rows[i]) && forall x :: x in rows[i] <==> x in groups[i]
    {
      SortedRow(groups[i]);
    }
    forall i | 0 <= i < |rows|
      ensures rows[i] != []
    {
      assert groups[i][0] in rows[i];
    }
    forall x
      ensures x in nodes <==> exists g :: g in rows && x in g
    {
      if x in nodes {
        var i :| 0 <= i < |groups| && x in groups[i];
        assert rows[i] in rows;
      }
    }
    forall g, x, y | g in rows && x in g && y in nodes
      ensures y in g <==> Mutual(Induced(edges, nodes), x, y)
    {
      var k :| 0 <= k < |rows| && rows[k] == g;
      assert x in groups[k];
      assert y in groups[k] <==> Both(Reachability(Induced(edges, nodes), nodes), x, y);
      BothIsMutual(Induced(edges, nodes), nodes, x, y);
    }
  }

  /** So does sorting the groups by their first members. */
  /** The groups, each in ascending order. */
  function SortedEach(groups: seq<seq<nat>>): (r: seq<seq<nat>>)
    ensures SameRows(groups, r)
  {
    seq(|groups|, k requires 0 <= k < |groups| => Sort(NatLeq, groups[k]))
  }

  lemma SortsOneMore(groups: seq<seq<nat>>, i: nat)
    requires i < |groups|
    ensures SortedEach(groups[..i + 1]) == SortedEach(groups[..i]) + [Sort(NatLeq, groups[i])]
  {
  }

  lemma ArrangedPartition(edges: Edges, nodes: set<nat>, groups: seq<seq<nat>>, rows: seq<seq<nat>>)
    requires ArePartition(Reachability(Induced(edges, nodes), nodes), nodes, groups)
    requires SameRows(groups, rows)
    ensures IsComponentList(edges, nodes, Sort(HeadLeq, rows))
  {
    RowsPartition(edges, nodes, groups, rows);
    SortedHeads(rows);
    forall g
      ensures g in Sort(HeadLeq, rows) <==> g in rows
    {
      SortElements(HeadLeq, rows, g);
    }
  }

  // ----- the graph object -----

  /** Distinct elements of a row, in ascending order. */
  ghost predicate Finished(outgoing: Adjacency) {
    forall i :: 0 <= i < |outgoing| ==> Ascending(outgoing[i])
  }

  class FileGraph {
    var outgoing: Adjacency

    ghost function EdgeSet(): Edges
      reads this
    {
      EdgesOf(outgoing)
    }

    constructor (fileCount: nat)
      ensures |outgoing| == fileCount && EdgeSet() == {}
    {
      outgoing := seq(fileCount, _ => []);
    }

    /** Repeated edges are stored, but do not change the graph. */
    method AddEdge(from: nat, to: nat)
      requires from < |outgoing|
      modifies this
      ensures |outgoing| == old(|outgoing|)
      ensures EdgeSet() == old(EdgeSet()) + {(from, to)}
    {
      outgoing := outgoing[from := outgoing[from] + [to]];
    }

    method Finish()
      modifies this
      ensures |outgoing| == old(|outgoing|)
      ensures EdgeSet() == old(EdgeSet()) && Finished(outgoing)
    {
      ghost var before := outgoing;
      for i := 0 to |outgoing|
        invariant |outgoing| == |before|
        invariant forall k :: 0 <= k < i ==> outgoing[k] == Dedup(Sort(NatLeq, before[k]))
        invariant forall k :: i <= k < |before| ==> outgoing[k] == before[k]
      {
        outgoing := outgoing[i := Dedup(Sort(NatLeq, outgoing[i]))];
      }
      forall k | 0 <= k < |before|
        ensures Ascending(outgoing[k]) && forall x :: x in outgoing[k] <==> x in before[k]
      {
        SortDedup(before[k]);
      }
    }

    method ReachableFromMany(roots: seq<nat>) returns (reachable: seq<bool>)
      requires InRange(outgoing)
      requires forall r :: r in roots ==> r < |outgoing|
      ensures |reachable| == |outgoing|
      ensures forall x: nat :: x < |outgoing| ==> (reachable[x] <==> Reached(EdgeSet(), roots, x))
    {
      ghost var edges := EdgeSet();
      reachable := seq(|outgoing|, _ => false);
      var queue: seq<nat> := [];
      for i := 0 to |roots|
        invariant |reachable| == |outgoing|
        invariant forall x :: x in queue <==> x in Marked(reachable)
        invariant forall r :: r in roots[..i] ==> r in Marked(reachable)
        invariant forall x :: x in queue ==> x in roots
      {
        assert roots[i] in roots;
        if !reachable[roots[i]] {
          reachable := reachable[roots[i] := true];
          queue := queue + [roots[i]];
        }
      }
      assert forall s :: Seeds(edges, roots, s) ==> Marked(reachable) <= s;
      ghost var done: set<nat> := {};
      while queue != []
        invariant |reachable| == |outgoing|
        invariant forall r :: r in roots ==> r in Marked(reachable)
        invariant forall s :: Seeds(edges, roots, s) ==> Marked(reachable) <= s
        invariant forall x :: x in Marked(reachable) <==> x in done || x in queue
        invariant forall e <- edges :: e.0 in done ==> e.1 in Marked(reachable)
        decreases Unvisited(reachable), |queue|
      {
        var file := queue[0];
        ghost var was, waiting := reachable, |queue|;
        assert file in queue && queue == [file] + queue[1..];
        queue := queue[1..];
        done := done + {file};
        for e := 0 to |outgoing[file]|
          invariant |reachable| == |outgoing|
          invariant Marked(was) <= Marked(reachable)
          invariant forall s :: Seeds(edges, roots, s) ==> Marked(reachable) <= s
          invariant forall x :: x in Marked(reachable) <==> x in done || x in queue
          invariant forall i :: 0 <= i < e ==> outgoing[file][i] in Marked(reachable)
          invariant Unvisited(reachable) < Unvisited(was) || (reachable == was && |queue| < waiting)
        {
          var target := outgoing[file][e];
          if !reachable[target] {
            assert (file, target) in edges && target in Unvisited(reachable);
            reachable := reachable[target := true];
            queue := queue + [target];
          }
        }
      }
      LeastSeedIsReached(edges, roots, Marked(reachable), |outgoing|);
    }

    /** Row y lists every x with an edge from x to y. */
    method Reversed() returns (reversed: Adjacency)
      requires InRange(outgoing)
      ensures |reversed| == |outgoing| && InRange(reversed)
      ensures forall x: nat, y: nat :: y < |outgoing| ==> (x in reversed[y] <==> (x, y) in EdgeSet())
    {
      reversed := seq(|outgoing|, _ => []);
      for source := 0 to |outgoing|
        invariant |reversed| == |outgoing| && InRange(reversed)
        invariant forall x: nat, y: nat :: y < |outgoing| ==>
          (x in reversed[y] <==> x < source && y in outgoing[x])
      {
        for e := 0 to |outgoing[source]|
          invariant |reversed| == |outgoing| && InRange(reversed)
          invariant forall x: nat, y: nat :: y < |outgoing| ==>
            (x in reversed[y] <==> (x < source && y in outgoing[x]) || (x == source && y in outgoing[source][..e]))
        {
          var target := outgoing[source][e];
          assert outgoing[source][..e + 1] == outgoing[source][..e] + [target];
          ghost var before := reversed;
          reversed := reversed[target := reversed[target] + [source]];
          assert forall x, y :: 0 <= y < |outgoing| ==>
            (x in reversed[y] <==> x in before[y] || (x == source && y == target));
        }
        assert outgoing[source][..|outgoing[source]|] == outgoing[source];
      }
      ghost var filled := reversed;
      for y := 0 to |reversed|
        invariant |reversed| == |filled|
        invariant forall k :: 0 <= k < |filled| ==> reversed[k] == if k < y then Sort(NatLeq, filled[k]) else filled[k]
      {
        reversed := reversed[y := Sort(NatLeq, reversed[y])];
      }
      forall x, y | 0 <= y < |filled|
        ensures x in reversed[y] <==> x in filled[y]
      {
        SortElements(NatLeq, filled[y], x);
      }
      forall y, k | 0 <= y < |reversed| && 0 <= k < |reversed[y]|
        ensures reversed[y][k] < |outgoing|
      {
        assert reversed[y][k] in filled[y];
      }
    }

    method ComponentsWithin(included: seq<bool>) returns (components: seq<seq<nat>>)
      requires InRange(outgoing) && |included| == |outgoing|
      ensures IsComponentList(EdgeSet(), Marked(included), components)
    {
      var reversed := Reversed();
      var groups := Components(outgoing, reversed, included);
      components := [];
      for i := 0 to |groups|
        invariant components == SortedEach(groups[..i])
      {
        SortsOneMore(groups, i);
        components := components + [Sort(NatLeq, groups[i])];
      }
      assert groups[..|groups|] == groups;
      ArrangedPartition(EdgeSet(), Marked(included), groups, components);
      components := Sort(HeadLeq, components);
    }
  }

  // ----- insertion order -----

  ghost function Inserted(insertions: seq<(nat, nat)>): Edges {
    set e | e in insertions
  }

  ghost predicate Within(insertions: seq<(nat, nat)>, n: nat) {
    forall e :: e in insertions ==> e.0 < n && e.1 < n
  }

  /** Builds a graph the way the resolver does: edges in any order, then Finish. */
  method Build(n: nat, insertions: seq<(nat, nat)>) returns (graph: FileGraph)
    requires Within(insertions, n)
    ensures fresh(graph) && |graph.outgoing| == n && InRange(graph.outgoing)
    ensures graph.EdgeSet() == Inserted(insertions)
    ensures Finished(graph.outgoing)
  {
    graph := new FileGraph(n);
    for i := 0 to |insertions|
      invariant fresh(graph) && |graph.outgoing| == n
      invariant graph.EdgeSet() == Inserted(insertions[..i])
    {
      assert insertions[i] in insertions;
      assert insertions[..i + 1] == insertions[..i] + [insertions[i]];
      graph.AddEdge(insertions[i].0, insertions[i].1);
    }
    assert insertions[..|insertions|] == insertions;
    graph.Finish();
    forall a, k | 0 <= a < n && 0 <= k < |graph.outgoing[a]|
      ensures graph.outgoing[a][k] < n
    {
      assert (a, graph.outgoing[a][k]) in graph.EdgeSet();
    }
  }

  /** Order and repetition of the insertions leave no trace in the finished rows. */
  lemma FinishedUnique(a: Adjacency, b: Adjacency)
    requires |a| == |b| && Finished(a) && Finished(b) && EdgesOf(a) == EdgesOf(b)
    ensures a == b
  {
    forall i | 0 <= i < |a|
      ensures a[i] == b[i]
    {
      forall x
        ensures x in a[i] <==> x in b[i]
      {
        assert (i, x) in EdgesOf(a) <==> (i, x) in EdgesOf(b);
      }
      AscendingUnique(a[i], b[i]);
    }
  }

  /** Nor in the components, whatever the order and repetition of the insertions. */
  lemma InsertionOrderIrrelevant(a: seq<(nat, nat)>, b: seq<(nat, nat)>, nodes: set<nat>,
                                 fromA: seq<seq<nat>>, fromB: seq<seq<nat>>)
    requires forall e :: e in a <==> e in b
    requires IsComponentList(Inserted(a), nodes, fromA) && IsComponentList(Inserted(b), nodes, fromB)
    ensures fromA == fromB
  {
    assert Inserted(a) == Inserted(b);
    ComponentListUnique(Inserted(a), nodes, fromA, fromB);
  }
}
