/**
 Kosaraju's algorithm with explicit stacks, as FileGraph::components_within and
 dead_strongly_connected_components both run it: a depth-first pass that lists
 nodes as they finish, then a backward sweep from the last finished node.
 */
module StrongComponents {
  import opened Paths
  import opened Sorting

  /** The graph both passes walk: edges whose two ends are included. */
  ghost function Walked(outgoing: Adjacency, included: seq<bool>): Edges {
    Induced(EdgesOf(outgoing), Marked(included))
  }

  // ----- what a list of components must be -----

  ghost predicate Disjoint(groups: seq<seq<nat>>) {
    forall i, j, x :: 0 <= i < j < |groups| && x in groups[i] ==> x !in groups[j]
  }

  ghost predicate Both(reach: Edges, x: nat, y: nat) {
    (x, y) in reach && (y, x) in reach
  }

  /** The groups split `nodes` into the classes of mutual reachability. */
  ghost predicate ArePartition(reach: Edges, nodes: set<nat>, groups: seq<seq<nat>>) {
    && (forall i :: 0 <= i < |groups| ==> groups[i] != [] && Distinct(groups[i]))
    && Disjoint(groups)
    && (forall x :: x in nodes <==> exists i :: 0 <= i < |groups| && x in groups[i])
    && (forall i, x, y :: 0 <= i < |groups| && x in groups[i] && y in nodes ==>
          (y in groups[i] <==> Both(reach, x, y)))
  }

  ghost function Reachability(edges: Edges, nodes: set<nat>): Edges {
    set a: nat, b: nat | a in nodes && b in nodes && Reaches(edges, a, b) :: (a, b)
  }

  // ----- the order in which nodes finish -----

  /**
   `reach` stands for reachability along `edges`.  The searches below need only
   these facts about it.
   */
  ghost predicate Follows(edges: Edges, reach: Edges, nodes: set<nat>) {
    && (forall a :: a in nodes ==> (a, a) in reach)
    && (forall a, b, c :: (a, b) in reach && (b, c) in edges ==> (a, c) in reach)
  }

  /**
   When node j finished, the nodes at b..j were exactly its newly finished
   descendants, and nothing that had finished before b leads into them.
   */
  ghost predicate Finishes(edges: Edges, reach: Edges, order: seq<nat>, b: nat, j: nat) {
    && b <= j < |order|
    && (forall i {:trigger (order[j], order[i]) in reach} :: b <= i <= j ==> (order[j], order[i]) in reach)
    && (forall i, k {:trigger (order[i], order[k]) in edges} ::
          0 <= i < b <= k <= j ==> (order[i], order[k]) !in edges)
  }

  ghost predicate HasFinished(edges: Edges, reach: Edges, order: seq<nat>, j: nat) {
    exists b: nat :: Finishes(edges, reach, order, b, j)
  }

  ghost predicate IsFinishOrder(edges: Edges, reach: Edges, order: seq<nat>) {
    forall j: nat :: j < |order| ==> HasFinished(edges, reach, order, j)
  }

  lemma FinishesExtends(edges: Edges, reach: Edges, order: seq<nat>, v: nat)
    requires IsFinishOrder(edges, reach, order)
    requires HasFinished(edges, reach, order + [v], |order|)
    ensures IsFinishOrder(edges, reach, order + [v])
  {
    forall j: nat | j < |order + [v]|
      ensures HasFinished(edges, reach, order + [v], j)
    {
      if j < |order| {
        assert HasFinished(edges, reach, order, j);
        var b: nat :| Finishes(edges, reach, order, b, j);
        assert Finishes(edges, reach, order + [v], b, j);
      }
    }
  }

  lemma ReachabilityFollows(edges: Edges, nodes: set<nat>)
    requires edges == Induced(edges, nodes)
    ensures Follows(edges, Reachability(edges, nodes), nodes)
  {
    forall a | a in nodes
      ensures Reaches(edges, a, a)
    {
      ReachesSelf(edges, a);
    }
    forall a, b, c | (a, b) in Reachability(edges, nodes) && (b, c) in edges
      ensures (a, c) in Reachability(edges, nodes)
    {
      ReachesStep(edges, a, b, c);
    }
  }

  datatype Frame = Frame(node: nat, next: nat)

  /** No node stands twice among the finished and the stacked ones. */
  ghost predicate OnceEach(order: seq<nat>, stack: seq<nat>) {
    Distinct(order) && Distinct(stack) && forall x :: x in order ==> x !in stack
  }

  /** Stacked and finished nodes are visited, and all visited nodes are one of the two. */
  ghost predicate Tracked(visited: seq<bool>, order: seq<nat>, stack: seq<nat>) {
    && (forall x :: x in order || x in stack ==> x < |visited| && visited[x])
    && (forall x :: 0 <= x < |visited| && visited[x] ==> x in order || x in stack)
  }

  /** Finished nodes only lead to visited ones. */
  ghost predicate OrderClosed(edges: Edges, visited: set<nat>, order: seq<nat>) {
    forall a, b :: a in order && (a, b) in edges ==> b in visited
  }

  /** The edges that each frame has already followed lead to visited nodes. */
  ghost predicate FramesClosed(outgoing: Adjacency, included: seq<bool>, visited: seq<bool>, stack: seq<Frame>) {
    && |visited| == |included| == |outgoing|
    && (forall f :: f in stack ==>
          f.node < |outgoing| && included[f.node] && f.next <= |outgoing[f.node]|)
    && (forall f, e {:trigger f in stack, outgoing[f.node][e]} ::
          f in stack && 0 <= e < f.next && outgoing[f.node][e] < |outgoing| ==>
          included[outgoing[f.node][e]] ==> visited[outgoing[f.node][e]])
  }

  lemma FramesClosedStep(outgoing: Adjacency, included: seq<bool>, visited: seq<bool>, stack: seq<Frame>)
    requires InRange(outgoing) && FramesClosed(outgoing, included, visited, stack) && stack != []
    ensures FramesClosed(outgoing, included, visited, stack[..|stack| - 1])
    ensures var Frame(file, next) := stack[|stack| - 1];
            if next == |outgoing[file]| then
              OrderClosed(Walked(outgoing, included), Marked(visited), [file])
            else
              var target := outgoing[file][next];
              var advanced := stack[|stack| - 1 := Frame(file, next + 1)];
              if included[target] && !visited[target] then
                (file, target) in Walked(outgoing, included)
                && FramesClosed(outgoing, included, visited[target := true], advanced + [Frame(target, 0)])
              else
                FramesClosed(outgoing, included, visited, advanced)
  {
    var Frame(file, next) := stack[|stack| - 1];
    assert forall f :: f in stack[..|stack| - 1] ==> f in stack;
    if next < |outgoing[file]| {
      var advanced := stack[|stack| - 1 := Frame(file, next + 1)];
      assert stack[|stack| - 1] in stack;
      assert forall f :: f in advanced ==> f in stack || f == Frame(file, next + 1);
      assert forall f :: f in advanced + [Frame(outgoing[file][next], 0)] ==>
        f in advanced || f == Frame(outgoing[file][next], 0);
    } else {
      assert stack[|stack| - 1] in stack;
    }
  }

  /** The stack is one path, and each stacked node reaches what finished above it. */
  ghost predicate StackReaches(reach: Edges, order: seq<nat>, stack: seq<nat>, low: seq<nat>) {
    && |low| == |stack|
    && (forall k :: 0 <= k < |low| ==> low[k] <= |order|)
    && (forall k, m {:trigger (stack[k], stack[m]) in reach} ::
          0 <= k <= m < |stack| ==> (stack[k], stack[m]) in reach)
    && (forall k, i {:trigger (stack[k], order[i]) in reach} ::
          0 <= k < |stack| && low[k] <= i < |order| ==> (stack[k], order[i]) in reach)
  }

  /** Nothing that finished before a node was stacked leads to it or above it. */
  ghost predicate StackSealed(edges: Edges, order: seq<nat>, stack: seq<nat>, low: seq<nat>) {
    && |low| == |stack|
    && (forall k, i, m {:trigger low[k], (order[i], order[m]) in edges} ::
          0 <= k < |stack| && 0 <= i < low[k] <= m < |order| ==> (order[i], order[m]) !in edges)
    && (forall k, i, m {:trigger low[k], (order[i], stack[m]) in edges} ::
          0 <= k <= m < |stack| && 0 <= i < low[k] && i < |order| ==> (order[i], stack[m]) !in edges)
  }

  /** What the depth-first loop keeps about its order and the nodes on its stack. */
  ghost predicate Searching(edges: Edges, reach: Edges, visited: seq<bool>,
                            order: seq<nat>, stack: seq<nat>, low: seq<nat>) {
    && Tracked(visited, order, stack)
    && OnceEach(order, stack)
    && OrderClosed(edges, Marked(visited), order)
    && StackReaches(reach, order, stack, low)
    && StackSealed(edges, order, stack, low)
    && IsFinishOrder(edges, reach, order)
  }

  lemma DistinctOneMore(s: seq<nat>, x: nat)
    requires Distinct(s) && x !in s
    ensures Distinct(s + [x])
  {
  }

  lemma PushKeeps(edges: Edges, reach: Edges, nodes: set<nat>, visited: seq<bool>,
                  order: seq<nat>, stack: seq<nat>, low: seq<nat>, target: nat)
    requires Follows(edges, reach, nodes) && target in nodes
    requires Searching(edges, reach, visited, order, stack, low)
    requires target < |visited| && !visited[target]
    requires stack != [] ==> (stack[|stack| - 1], target) in edges
    ensures Searching(edges, reach, visited[target := true], order, stack + [target], low + [|order|])
  {
    assert forall k :: 0 <= k < |stack| ==> (stack[k], stack[|stack| - 1]) in reach;
    assert forall x :: x in stack + [target] <==> x in stack || x == target;
    DistinctOneMore(stack, target);
  }

  /** What is popped goes from one list to the other. */
  lemma PopMoves(order: seq<nat>, stack: seq<nat>, front: seq<nat>, file: nat)
    requires stack == front + [file]
    ensures file in stack && file in order + [file]
    ensures forall x :: x in stack <==> x in front || x == file
    ensures forall x :: x in order + [file] <==> x in order || x == file
  {
  }

  lemma PopTracked(visited: seq<bool>, order: seq<nat>, stack: seq<nat>)
    requires Tracked(visited, order, stack) && stack != []
    ensures Tracked(visited, order + [stack[|stack| - 1]], stack[..|stack| - 1])
  {
    PopMoves(order, stack, stack[..|stack| - 1], stack[|stack| - 1]);
  }

  lemma PopOnceEach(order: seq<nat>, stack: seq<nat>)
    requires OnceEach(order, stack) && stack != []
    ensures OnceEach(order + [stack[|stack| - 1]], stack[..|stack| - 1])
  {
    PopMoves(order, stack, stack[..|stack| - 1], stack[|stack| - 1]);
    DistinctOneMore(order, stack[|stack| - 1]);
  }

  lemma PopKeeps(edges: Edges, reach: Edges, nodes: set<nat>, visited: seq<bool>,
                 order: seq<nat>, stack: seq<nat>, low: seq<nat>)
    requires Follows(edges, reach, nodes) && stack != []
    requires Searching(edges, reach, visited, order, stack, low)
    requires OrderClosed(edges, Marked(visited), [stack[|stack| - 1]])
    ensures Searching(edges, reach, visited, order + [stack[|stack| - 1]], stack[..|stack| - 1], low[..|stack| - 1])
  {
    var top := |stack| - 1;
    var file := stack[top];
    assert Finishes(edges, reach, order + [file], low[top], |order|);
    FinishesExtends(edges, reach, order, file);
    PopTracked(visited, order, stack);
    PopOnceEach(order, stack);
  }

  /** All that the search keeps, given the nodes on its stack and what had finished when each was stacked. */
  ghost predicate Exploring(outgoing: Adjacency, included: seq<bool>, edges: Edges, reach: Edges,
                            visited: seq<bool>, order: seq<nat>, stack: seq<Frame>, path: seq<nat>, low: seq<nat>) {
    && |path| == |stack|
    && (forall k :: 0 <= k < |stack| ==> stack[k].node == path[k])
    && FramesClosed(outgoing, included, visited, stack)
    && Searching(edges, reach, visited, order, path, low)
    && Marked(visited) <= Marked(included)
  }

  /** What the loop of FinishFrom keeps. */
  ghost predicate IsExploring(outgoing: Adjacency, included: seq<bool>, edges: Edges, reach: Edges,
                              visited: seq<bool>, order: seq<nat>, stack: seq<Frame>) {
    exists path, low :: Exploring(outgoing, included, edges, reach, visited, order, stack, path, low)
  }

  ghost predicate IsTop(outgoing: Adjacency, included: seq<bool>, visited: seq<bool>, stack: seq<Frame>, top: Frame) {
    && |outgoing| == |included| == |visited| && stack != [] && stack[|stack| - 1] == top
    && top.node < |outgoing| && top.next <= |outgoing[top.node]|
  }

  lemma ExploringTop(outgoing: Adjacency, included: seq<bool>, edges: Edges, reach: Edges,
                     visited: seq<bool>, order: seq<nat>, stack: seq<Frame>)
    requires IsExploring(outgoing, included, edges, reach, visited, order, stack) && stack != []
    ensures IsTop(outgoing, included, visited, stack, stack[|stack| - 1])
  {
    assert stack[|stack| - 1] in stack;
  }

  /** The next edge of the top frame leads to no new node. */
  lemma ExploringSkips(outgoing: Adjacency, included: seq<bool>, edges: Edges, reach: Edges,
                       visited: seq<bool>, order: seq<nat>, stack: seq<Frame>, file: nat, next: nat)
    requires InRange(outgoing) && edges == Walked(outgoing, included)
    requires IsExploring(outgoing, included, edges, reach, visited, order, stack)
    requires IsTop(outgoing, included, visited, stack, Frame(file, next)) && next < |outgoing[file]|
    requires !(included[outgoing[file][next]] && !visited[outgoing[file][next]])
    ensures IsExploring(outgoing, included, edges, reach, visited, order, stack[|stack| - 1 := Frame(file, next + 1)])
  {
    var path: seq<nat>, low: seq<nat> :| Exploring(outgoing, included, edges, reach, visited, order, stack, path, low);
    FramesClosedStep(outgoing, included, visited, stack);
    assert Exploring(outgoing, included, edges, reach, visited, order,
                     stack[|stack| - 1 := Frame(file, next + 1)], path, low);
  }

  /** The next edge of the top frame leads to a new node, which goes on top. */
  lemma ExploringPushes(outgoing: Adjacency, included: seq<bool>, edges: Edges, reach: Edges,
                        visited: seq<bool>, order: seq<nat>, stack: seq<Frame>, file: nat, next: nat, target: nat)
    requires InRange(outgoing) && edges == Walked(outgoing, included) && Follows(edges, reach, Marked(included))
    requires IsExploring(outgoing, included, edges, reach, visited, order, stack)
    requires IsTop(outgoing, included, visited, stack, Frame(file, next)) && next < |outgoing[file]|
    requires target == outgoing[file][next] && included[target] && !visited[target]
    ensures IsExploring(outgoing, included, edges, reach, visited[target := true], order,
                        stack[|stack| - 1 := Frame(file, next + 1)] + [Frame(target, 0)])
    ensures Unvisited(visited[target := true]) < Unvisited(visited)
  {
    var path: seq<nat>, low: seq<nat> :| Exploring(outgoing, included, edges, reach, visited, order, stack, path, low);
    FramesClosedStep(outgoing, included, visited, stack);
    PushKeeps(edges, reach, Marked(included), visited, order, path, low, target);
    assert target in Unvisited(visited);
    assert Exploring(outgoing, included, edges, reach, visited[target := true], order,
                     stack[|stack| - 1 := Frame(file, next + 1)] + [Frame(target, 0)],
                     path + [target], low + [|order|]);
  }

  /** The top frame has followed all its edges. */
  lemma ExploringFinishes(outgoing: Adjacency, included: seq<bool>, edges: Edges, reach: Edges,
                          visited: seq<bool>, order: seq<nat>, stack: seq<Frame>, file: nat)
    requires InRange(outgoing) && edges == Walked(outgoing, included) && Follows(edges, reach, Marked(included))
    requires IsExploring(outgoing, included, edges, reach, visited, order, stack)
    requires file < |outgoing| && IsTop(outgoing, included, visited, stack, Frame(file, |outgoing[file]|))
    ensures IsExploring(outgoing, included, edges, reach, visited, order + [file], stack[..|stack| - 1])
  {
    var path: seq<nat>, low: seq<nat> :| Exploring(outgoing, included, edges, reach, visited, order, stack, path, low);
    var top := |stack| - 1;
    FramesClosedStep(outgoing, included, visited, stack);
    PopKeeps(edges, reach, Marked(included), visited, order, path, low);
    assert Exploring(outgoing, included, edges, reach, visited, order + [file], stack[..top], path[..top], low[..top]);
  }

  lemma ExploringStarts(outgoing: Adjacency, included: seq<bool>, edges: Edges, reach: Edges,
                        visited: seq<bool>, order: seq<nat>, start: nat)
    requires InRange(outgoing) && |included| == |outgoing| == |visited|
    requires Follows(edges, reach, Marked(included)) && Marked(visited) <= Marked(included)
    requires Searching(edges, reach, visited, order, [], [])
    requires start < |outgoing| && included[start] && !visited[start]
    ensures IsExploring(outgoing, included, edges, reach, visited[start := true], order, [Frame(start, 0)])
  {
    PushKeeps(edges, reach, Marked(included), visited, order, [], [], start);
    assert [] + [start] == [start] && [] + [|order|] == [|order|];
    assert Exploring(outgoing, included, edges, reach, visited[start := true], order,
                     [Frame(start, 0)], [start], [|order|]);
  }

  lemma ExploringEnds(outgoing: Adjacency, included: seq<bool>, edges: Edges, reach: Edges,
                      visited: seq<bool>, order: seq<nat>)
    requires IsExploring(outgoing, included, edges, reach, visited, order, [])
    ensures Searching(edges, reach, visited, order, [], []) && Marked(visited) <= Marked(included)
    ensures |visited| == |outgoing|
  {
    var path: seq<nat>, low: seq<nat> :| Exploring(outgoing, included, edges, reach, visited, order, [], path, low);
    assert path == [] && low == [];
  }

  ghost function Remaining(outgoing: Adjacency, stack: seq<Frame>): int {
    if stack == [] || stack[|stack| - 1].node >= |outgoing| then 0
    else |outgoing[stack[|stack| - 1].node]| - stack[|stack| - 1].next
  }

  /** Searches from `start`, appending the newly visited nodes as they finish. */
  method FinishFrom(outgoing: Adjacency, included: seq<bool>, ghost edges: Edges, ghost reach: Edges,
                    start: nat, visited0: seq<bool>, order0: seq<nat>)
    returns (visited: seq<bool>, order: seq<nat>)
    requires InRange(outgoing) && |included| == |outgoing| == |visited0|
    requires edges == Walked(outgoing, included) && Follows(edges, reach, Marked(included))
    requires Searching(edges, reach, visited0, order0, [], []) && Marked(visited0) <= Marked(included)
    requires start < |outgoing| && included[start] && !visited0[start]
    ensures |visited| == |outgoing| && visited[start]
    ensures Searching(edges, reach, visited, order, [], [])
    ensures Marked(visited0) <= Marked(visited) <= Marked(included)
  {
    ExploringStarts(outgoing, included, edges, reach, visited0, order0, start);
    visited, order := visited0[start := true], order0;
    var stack := [Frame(start, 0)];
    while stack != []
      invariant IsExploring(outgoing, included, edges, reach, visited, order, stack)
      invariant |visited| == |outgoing| && visited[start]
      invariant Marked(visited0) <= Marked(visited)
      decreases Unvisited(visited), |stack|, Remaining(outgoing, stack)
    {
      ExploringTop(outgoing, included, edges, reach, visited, order, stack);
      var top := |stack| - 1;
      var Frame(file, next) := stack[top];
      if next < |outgoing[file]| {
        var target := outgoing[file][next];
        ghost var before := stack;
        stack := stack[top := Frame(file, next + 1)];
        if included[target] && !visited[target] {
          ExploringPushes(outgoing, included, edges, reach, visited, order, before, file, next, target);
          visited := visited[target := true];
          stack := stack + [Frame(target, 0)];
        } else {
          ExploringSkips(outgoing, included, edges, reach, visited, order, before, file, next);
        }
      } else {
        ExploringFinishes(outgoing, included, edges, reach, visited, order, stack, file);
        order := order + [file];
        stack := stack[..top];
      }
    }
    ExploringEnds(outgoing, included, edges, reach, visited, order);
  }

  /** Lists the included nodes as a depth-first search over them finishes. */
  method FinishingOrder(outgoing: Adjacency, included: seq<bool>, ghost reach: Edges) returns (order: seq<nat>)
    requires InRange(outgoing) && |included| == |outgoing|
    requires Follows(Walked(outgoing, included), reach, Marked(included))
    ensures Distinct(order) && forall x :: x in order <==> x in Marked(included)
    ensures IsFinishOrder(Walked(outgoing, included), reach, order)
  {
    ghost var edges := Walked(outgoing, included);
    var visited := seq(|outgoing|, _ => false);
    order := [];
    for start := 0 to |outgoing|
      invariant |visited| == |outgoing|
      invariant Searching(edges, reach, visited, order, [], []) && Marked(visited) <= Marked(included)
      invariant forall x :: 0 <= x < start && included[x] ==> x in Marked(visited)
    {
      if included[start] && !visited[start] {
        visited, order := FinishFrom(outgoing, included, edges, reach, start, visited, order);
      }
    }
  }

  // ----- the backward sweep -----

  /** `incoming` lists, for every included node, the included nodes leading to it. */
  ghost predicate Reverses(edges: Edges, included: seq<bool>, incoming: Adjacency) {
    && |incoming| == |included| && InRange(incoming)
    && (forall x: nat, y: nat :: (x, y) in edges <==>
          x < |included| && y < |included| && included[x] && included[y] && x in incoming[y])
  }

  /** Whoever leads into `s` is itself in `s` or in `done`. */
  ghost predicate BackClosed(edges: Edges, done: set<nat>, s: set<nat>) {
    forall x, y :: (x, y) in edges && y in s ==> x in s || x in done
  }

  ghost function Elements(s: seq<nat>): (r: set<nat>) {
    set x | x in s
  }

  /** What the sweep keeps: `component` is popped, `stack` waits, both are newly assigned. */
  ghost predicate Sweeping(included: seq<bool>, taken0: seq<bool>, taken: seq<bool>,
                           component: seq<nat>, stack: seq<nat>, within: set<nat>) {
    && |taken0| == |taken| == |included|
    && OnceEach(component, stack)
    && (forall x :: x in component || x in stack ==>
          x in within && x < |included| && included[x] && !taken0[x])
    && (forall x :: 0 <= x < |taken| ==> (taken[x] <==> taken0[x] || x in component || x in stack))
  }

  lemma SweepPush(included: seq<bool>, taken0: seq<bool>, taken: seq<bool>,
                  component: seq<nat>, stack: seq<nat>, within: set<nat>, source: nat)
    requires Sweeping(included, taken0, taken, component, stack, within)
    requires source in within && source < |included| && included[source] && !taken[source]
    ensures Sweeping(included, taken0, taken[source := true], component, stack + [source], within)
  {
    DistinctOneMore(stack, source);
    assert forall x :: x in stack + [source] <==> x in stack || x == source;
  }

  lemma SweepPop(included: seq<bool>, taken0: seq<bool>, taken: seq<bool>,
                 component: seq<nat>, stack: seq<nat>, within: set<nat>)
    requires stack != []
    requires Sweeping(included, taken0, taken, component, stack, within)
    ensures Sweeping(included, taken0, taken, component + [stack[|stack| - 1]], stack[..|stack| - 1], within)
  {
    PopOnceEach(component, stack);
    PopMoves(component, stack, stack[..|stack| - 1], stack[|stack| - 1]);
  }

  /** What the first `e` files of the row leave behind: each is taken, and whatever was taken before. */
  ghost predicate Pulled(row: seq<nat>, e: nat, included: seq<bool>, was: seq<bool>, taken: seq<bool>) {
    && e <= |row| && Marked(was) <= Marked(taken)
    && forall i :: 0 <= i < e && row[i] in Marked(included) ==> row[i] in Marked(taken)
  }

  lemma PullsOneMore(row: seq<nat>, e: nat, included: seq<bool>, was: seq<bool>, taken: seq<bool>, after: seq<bool>)
    requires Pulled(row, e, included, was, taken) && e < |row| && Marked(taken) <= Marked(after)
    requires row[e] in Marked(included) ==> row[e] in Marked(after)
    ensures Pulled(row, e + 1, included, was, after)
  {
  }

  /** Something was taken since then, or nothing happened to the stack. */
  ghost predicate MoreTaken(was: seq<bool>, waiting: nat, taken: seq<bool>, stack: seq<nat>) {
    Unvisited(taken) < Unvisited(was) || (taken == was && |stack| == waiting)
  }

  lemma TakesOneMore(was: seq<bool>, waiting: nat, taken: seq<bool>, stack: seq<nat>, source: nat)
    requires MoreTaken(was, waiting, taken, stack) && source < |taken| && !taken[source]
    ensures MoreTaken(was, waiting, taken[source := true], stack + [source])
    ensures Marked(taken) <= Marked(taken[source := true]) && source in Marked(taken[source := true])
  {
    assert source in Unvisited(taken);
  }

  lemma PulledClosed(edges: Edges, included: seq<bool>, incoming: Adjacency, was: seq<bool>, taken: seq<bool>,
                     component: seq<nat>, file: nat)
    requires Reverses(edges, included, incoming) && file < |included| && included[file]
    requires BackClosed(edges, Marked(was), Elements(component))
    requires Pulled(incoming[file], |incoming[file]|, included, was, taken)
    ensures BackClosed(edges, Marked(taken), Elements(component + [file]))
  {
    assert forall x :: x in component + [file] <==> x in component || x == file;
    assert forall x :: (x, file) in edges ==> x in incoming[file] && x in Marked(taken);
  }

  /** Collects what leads to `start` through included nodes that are not assigned yet. */
  method CollectComponent(incoming: Adjacency, included: seq<bool>, taken0: seq<bool>, start: nat,
                          ghost edges: Edges, ghost within: set<nat>)
    returns (taken: seq<bool>, component: seq<nat>)
    requires Reverses(edges, included, incoming) && |taken0| == |included|
    requires start < |included| && included[start] && !taken0[start]
    requires start in within && BackClosed(edges, Marked(taken0), within)
    ensures Sweeping(included, taken0, taken, component, [], within)
    ensures start in component && BackClosed(edges, Marked(taken0), Elements(component))
  {
    component := [];
    var stack := [start];
    taken := taken0[start := true];
    while stack != []
      invariant Sweeping(included, taken0, taken, component, stack, within)
      invariant start in component || start in stack
      invariant BackClosed(edges, Marked(taken), Elements(component))
      decreases Unvisited(taken), |stack|
    {
      var file := stack[|stack| - 1];
      assert file in stack;
      SweepPop(included, taken0, taken, component, stack, within);
      ghost var was, waiting, collected := taken, |stack| - 1, component;
      stack := stack[..|stack| - 1];
      component := component + [file];
      for e := 0 to |incoming[file]|
        invariant Sweeping(included, taken0, taken, component, stack, within)
        invariant start in component || start in stack
        invariant MoreTaken(was, waiting, taken, stack) && Pulled(incoming[file], e, included, was, taken)
      {
        var source := incoming[file][e];
        ghost var before := taken;
        if included[source] && !taken[source] {
          assert (source, file) in edges;
          SweepPush(included, taken0, taken, component, stack, within, source);
          TakesOneMore(was, waiting, taken, stack, source);
          taken := taken[source := true];
          stack := stack + [source];
        }
        PullsOneMore(incoming[file], e, included, was, before, taken);
      }
      PulledClosed(edges, included, incoming, was, taken, collected, file);
    }
  }

  /** No class of mutual reachability is only partly done. */
  ghost predicate Saturated(reach: Edges, nodes: set<nat>, done: set<nat>) {
    forall x, y :: x in done && y in nodes && Both(reach, x, y) ==> y in done
  }

  /** Nodes that finished since order[j] was first visited and lead back to it. */
  ghost function Window(reach: Edges, order: seq<nat>, b: nat, j: nat): set<nat>
    requires b <= j < |order|
  {
    set i | b <= i <= j && (order[i], order[j]) in reach :: order[i]
  }

  lemma WindowBackClosed(edges: Edges, nodes: set<nat>, order: seq<nat>, b: nat, j: nat, done: set<nat>)
    requires edges == Induced(edges, nodes) && forall x :: x in order <==> x in nodes
    requires Finishes(edges, Reachability(edges, nodes), order, b, j)
    requires forall k :: j < k < |order| ==> order[k] in done
    ensures BackClosed(edges, done, Window(Reachability(edges, nodes), order, b, j))
    ensures order[j] in Window(Reachability(edges, nodes), order, b, j)
  {
    var reach := Reachability(edges, nodes);
    forall x, y | (x, y) in edges && y in Window(reach, order, b, j)
      ensures x in Window(reach, order, b, j) || x in done
    {
      var k :| b <= k <= j && order[k] == y && (y, order[j]) in reach;
      assert x in order;
      var i :| 0 <= i < |order| && order[i] == x;
      StepReaches(edges, x, y, order[j]);
    }
    ReachesSelf(edges, order[j]);
    assert order[j] in order;
  }

  /** Walking a path backward from a collected node never leaves the collection. */
  lemma {:induction false} CollectsBackward(edges: Edges, nodes: set<nat>, done: set<nat>, collected: set<nat>,
                                            v: nat, p: seq<nat>)
    requires edges == Induced(edges, nodes)
    requires BackClosed(edges, done, collected) && v !in done && v in nodes
    requires Saturated(Reachability(edges, nodes), nodes, done)
    requires forall x :: x in collected ==> Reaches(edges, x, v)
    requires IsPath(edges, p) && Reaches(edges, v, p[0]) && p[|p| - 1] in collected
    ensures p[0] in collected
  {
    if |p| > 1 {
      var front := p[..|p| - 1];
      var x, y := p[|p| - 2], p[|p| - 1];
      ReachesAlong(edges, v, p[0], front);
      StepReaches(edges, x, y, v);
      assert x in done ==> Both(Reachability(edges, nodes), x, v);
      CollectsBackward(edges, nodes, done, collected, v, front);
    }
  }

  lemma CollectsClass(edges: Edges, nodes: set<nat>, order: seq<nat>, b: nat, j: nat,
                      done: set<nat>, collected: set<nat>)
    requires edges == Induced(edges, nodes) && forall x :: x in order <==> x in nodes
    requires Finishes(edges, Reachability(edges, nodes), order, b, j)
    requires order[j] in collected && collected <= Window(Reachability(edges, nodes), order, b, j)
    requires BackClosed(edges, done, collected) && order[j] !in done
    requires Saturated(Reachability(edges, nodes), nodes, done)
    ensures forall x, y :: x in collected && y in nodes ==>
      (y in collected <==> Both(Reachability(edges, nodes), x, y))
  {
    var reach := Reachability(edges, nodes);
    var v := order[j];
    assert v in order;
    forall x | x in collected
      ensures x in nodes && Mutual(edges, v, x)
    {
      var i :| b <= i <= j && order[i] == x;
      assert x in order && (v, order[i]) in reach;
    }
    forall x, y | x in collected && y in nodes
      ensures y in collected <==> Both(reach, x, y)
    {
      if y in collected {
        MutualTrans(edges, x, v, y);
      }
      if Mutual(edges, x, y) {
        MutualTrans(edges, v, x, y);
        var p :| Connects(edges, p, y, v);
        CollectsBackward(edges, nodes, done, collected, v, p);
      }
    }
  }

  lemma PartitionGrows(reach: Edges, nodes: set<nat>, done: set<nat>, groups: seq<seq<nat>>, component: seq<nat>)
    requires done <= nodes && Saturated(reach, nodes, done) && ArePartition(reach, done, groups)
    requires component != [] && Distinct(component)
    requires forall x :: x in component ==> x in nodes && x !in done
    requires forall x, y :: x in component && y in nodes ==> (y in component <==> Both(reach, x, y))
    ensures ArePartition(reach, done + Elements(component), groups + [component])
    ensures Saturated(reach, nodes, done + Elements(component))
  {
    var all := groups + [component];
    var more := done + Elements(component);
    forall x
      ensures x in more <==> exists i :: 0 <= i < |all| && x in all[i]
    {
      if x in done {
        var i :| 0 <= i < |groups| && x in groups[i];
        assert all[i] == groups[i];
      } else if x in component {
        assert all[|groups|] == component;
      }
    }
    forall i, x, y | 0 <= i < |all| && x in all[i] && y in more
      ensures y in all[i] <==> Both(reach, x, y)
    {
      if i < |groups| && y in component {
        assert all[i] == groups[i] && x in done;
      }
    }
  }

  /** What has been collected from the node at `j` is its class, and completes the partition of what is taken. */
  lemma SweepStep(edges: Edges, included: seq<bool>, order: seq<nat>, b: nat, j: nat, taken0: seq<bool>,
                  taken: seq<bool>, component: seq<nat>, groups: seq<seq<nat>>)
    requires edges == Induced(edges, Marked(included)) && forall x :: x in order <==> x in Marked(included)
    requires Finishes(edges, Reachability(edges, Marked(included)), order, b, j)
    requires Sweeping(included, taken0, taken, component, [],
                      Window(Reachability(edges, Marked(included)), order, b, j))
    requires order[j] in component && BackClosed(edges, Marked(taken0), Elements(component))
    requires Marked(taken0) <= Marked(included) && order[j] !in Marked(taken0)
    requires ArePartition(Reachability(edges, Marked(included)), Marked(taken0), groups)
    requires Saturated(Reachability(edges, Marked(included)), Marked(included), Marked(taken0))
    ensures ArePartition(Reachability(edges, Marked(included)), Marked(taken), groups + [component])
    ensures Saturated(Reachability(edges, Marked(included)), Marked(included), Marked(taken))
    ensures Marked(taken0) <= Marked(taken) <= Marked(included) && order[j] in Marked(taken)
  {
    var nodes, done := Marked(included), Marked(taken0);
    CollectsClass(edges, nodes, order, b, j, done, Elements(component));
    PartitionGrows(Reachability(edges, nodes), nodes, done, groups, component);
    assert Marked(taken) == done + Elements(component);
  }

  /** The components in the order in which the sweep meets them. */
  method Sweep(incoming: Adjacency, included: seq<bool>, order: seq<nat>, ghost edges: Edges)
    returns (groups: seq<seq<nat>>)
    requires Reverses(edges, included, incoming) && edges == Induced(edges, Marked(included))
    requires forall x :: x in order <==> x in Marked(included)
    requires IsFinishOrder(edges, Reachability(edges, Marked(included)), order)
    ensures ArePartition(Reachability(edges, Marked(included)), Marked(included), groups)
  {
    ghost var nodes := Marked(included);
    ghost var reach := Reachability(edges, nodes);
    var taken := seq(|included|, _ => false);
    groups := [];
    for j := |order| downto 0
      invariant |taken| == |included| && Marked(taken) <= nodes
      invariant ArePartition(reach, Marked(taken), groups)
      invariant Saturated(reach, nodes, Marked(taken))
      invariant forall k :: j <= k < |order| ==> order[k] in Marked(taken)
    {
      var start := order[j];
      assert start in order;
      if !taken[start] {
        assert HasFinished(edges, reach, order, j);
        ghost var b: nat :| Finishes(edges, reach, order, b, j);
        ghost var before := taken;
        WindowBackClosed(edges, nodes, order, b, j, Marked(taken));
        var component;
        taken, component := CollectComponent(incoming, included, taken, start, edges, Window(reach, order, b, j));
        SweepStep(edges, included, order, b, j, before, taken, component, groups);
        groups := groups + [component];
      }
    }
    assert Marked(taken) == nodes;
  }

  /** The strongly connected classes of the included nodes, one list each. */
  method Components(outgoing: Adjacency, incoming: Adjacency, included: seq<bool>) returns (groups: seq<seq<nat>>)
    requires InRange(outgoing) && |included| == |outgoing|
    requires Reverses(Walked(outgoing, included), included, incoming)
    ensures ArePartition(Reachability(Walked(outgoing, included), Marked(included)), Marked(included), groups)
  {
    ghost var edges := Walked(outgoing, included);
    ReachabilityFollows(edges, Marked(included));
    var order := FinishingOrder(outgoing, included, Reachability(edges, Marked(included)));
    groups := Sweep(incoming, included, order, edges);
  }
}
