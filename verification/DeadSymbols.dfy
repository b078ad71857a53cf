/**
 The report half of analysis/symbols.rs: which declarations are dead, and how the
 dead ones fall into groups that only keep one another alive.
 */
module DeadSymbols {
  import opened Facts
  import opened Paths
  import opened Sorting
  import opened StrongComponents
  import opened SymbolLiveness

  datatype DeadSymbolGroup = DeadSymbolGroup(members: seq<SymbolKey>, cyclic: bool)

  // ----- order of keys and groups -----

  predicate KeyLeq(a: SymbolKey, b: SymbolKey) {
    a.file < b.file || (a.file == b.file && a.symbol <= b.symbol)
  }

  predicate MembersLeq(a: seq<SymbolKey>, b: seq<SymbolKey>) {
    a == [] || (b != [] && if a[0] == b[0] then MembersLeq(a[1..], b[1..]) else KeyLeq(a[0], b[0]))
  }

  predicate GroupLeq(a: DeadSymbolGroup, b: DeadSymbolGroup) {
    MembersLeq(a.members, b.members)
  }

  lemma {:induction false} MembersTotal(a: seq<SymbolKey>, b: seq<SymbolKey>)
    ensures MembersLeq(a, b) || MembersLeq(b, a)
  {
    if a != [] && b != [] && a[0] == b[0] {
      MembersTotal(a[1..], b[1..]);
    }
  }

  lemma {:induction false} MembersTrans(a: seq<SymbolKey>, b: seq<SymbolKey>, c: seq<SymbolKey>)
    requires MembersLeq(a, b) && MembersLeq(b, c)
    ensures MembersLeq(a, c)
  {
    if a != [] && a[0] == b[0] == c[0] {
      MembersTrans(a[1..], b[1..], c[1..]);
    }
  }

  lemma GroupOrder()
    ensures TotalPreorder(GroupLeq)
  {
    forall a, b
      ensures GroupLeq(a, b) || GroupLeq(b, a)
    {
      MembersTotal(a.members, b.members);
    }
    forall a, b, c | GroupLeq(a, b) && GroupLeq(b, c)
      ensures GroupLeq(a, c)
    {
      MembersTrans(a.members, b.members, c.members);
    }
  }

  // ----- what the groups must be -----

  /** The rows of the symbol graph without their lanes. */
  function Adjacent(outgoing: seq<seq<Edge>>): (r: Adjacency)
    ensures |r| == |outgoing|
  {
    seq(|outgoing|, i requires 0 <= i < |outgoing| =>
      seq(|outgoing[i]|, e requires 0 <= e < |outgoing[i]| => outgoing[i][e].target))
  }

  /**
   The groups of dead nodes: strongly connected classes of the graph inside `dead`,
   each in key order, and `cyclic` exactly when its members lead back to themselves.
   */
  ghost predicate IsDeadGroup(inner: Edges, keys: seq<SymbolKey>, dead: set<nat>, g: DeadSymbolGroup) {
    && g.members != [] && SortedBy(KeyLeq, g.members) && Distinct(g.members)
    && (forall k :: k in g.members ==> exists i :: i in dead && i < |keys| && keys[i] == k)
    && (forall i, j :: i in dead && j in dead && i < |keys| && j < |keys| && keys[i] in g.members ==>
          (keys[j] in g.members <==> Mutual(inner, i, j)))
    && (forall i :: i in dead && i < |keys| && keys[i] in g.members ==>
          (g.cyclic <==> ReachesProperly(inner, i, i)))
  }

  ghost predicate AreDeadGroups(graph: Edges, keys: seq<SymbolKey>, dead: set<nat>, groups: seq<DeadSymbolGroup>) {
    && SortedBy(GroupLeq, groups) && Distinct(groups)
    && (forall g :: g in groups ==> IsDeadGroup(Induced(graph, dead), keys, dead, g))
    && (forall i :: i in dead && i < |keys| ==> exists g :: g in groups && keys[i] in g.members)
  }

  // ----- one group -----

  function KeysAt(keys: seq<SymbolKey>, nodes: seq<nat>): (r: seq<SymbolKey>)
    requires forall n :: n in nodes ==> n < |keys|
    ensures |r| == |nodes|
  {
    seq(|nodes|, i requires 0 <= i < |nodes| => assert nodes[i] in nodes; keys[nodes[i]])
  }

  /** The class of a node is cyclic when it has a second member or an edge to itself. */
  lemma CyclicClass(inner: Edges, dead: set<nat>, c: seq<nat>, i: nat)
    requires inner == Induced(inner, dead) && Distinct(c) && i in c
    requires forall x :: x in c ==> x in dead
    requires forall x, y :: x in c && y in dead ==> (y in c <==> Mutual(inner, x, y))
    ensures ReachesProperly(inner, i, i) <==> |c| > 1 || (c[0], c[0]) in inner
  {
    if |c| > 1 {
      var j := if c[0] == i then c[1] else c[0];
      assert j in c && j != i;
      var p :| Connects(inner, p, i, j);
      FirstStep(inner, p);
      ReachesTrans(inner, p[1], j, i);
    } else {
      assert i == c[0];
      if (i, i) in inner {
        ReachesSelf(inner, i);
      }
      if x :| (i, x) in inner && Reaches(inner, x, i) {
        ReachesSelf(inner, i);
        ReachesStep(inner, i, i, x);
        assert Mutual(inner, i, x);
        assert x in c;
      }
    }
  }

  lemma {:induction false} FirstStep(edges: Edges, p: seq<nat>)
    requires IsPath(edges, p) && |p| > 1
    ensures (p[0], p[1]) in edges && Reaches(edges, p[1], p[|p| - 1])
  {
    if |p| == 2 {
      ReachesSelf(edges, p[1]);
    } else {
      FirstStep(edges, p[..|p| - 1]);
      ReachesStep(edges, p[1], p[|p| - 2], p[|p| - 1]);
    }
  }

  lemma NamedMembers(keys: seq<SymbolKey>, c: seq<nat>)
    requires Distinct(keys) && Distinct(c) && forall x :: x in c ==> x < |keys|
    ensures var members := Sort(KeyLeq, KeysAt(keys, c));
            && |members| == |c| && SortedBy(KeyLeq, members) && Distinct(members)
            && (forall k :: k in members ==> exists x :: x in c && keys[x] == k)
            && (forall x: nat :: x < |keys| ==> (keys[x] in members <==> x in c))
  {
    var named := KeysAt(keys, c);
    var members := Sort(KeyLeq, named);
    forall i, j | 0 <= i < j < |named|
      ensures named[i] != named[j]
    {
      assert c[i] in c && c[j] in c && c[i] != c[j];
    }
    SortDistinct(KeyLeq, named);
    SortSorted(KeyLeq, named);
    forall k | k in members
      ensures exists x :: x in c && keys[x] == k
    {
      SortElements(KeyLeq, named, k);
      var i :| 0 <= i < |named| && named[i] == k;
      assert c[i] in c;
    }
    forall x: nat | x < |keys|
      ensures keys[x] in members <==> x in c
    {
      SortElements(KeyLeq, named, keys[x]);
      if x in c {
        var i :| 0 <= i < |c| && c[i] == x;
        assert named[i] == keys[x];
      }
      if keys[x] in named {
        var i :| 0 <= i < |named| && named[i] == keys[x];
        assert c[i] in c;
      }
    }
  }

  lemma GroupOfClass(inner: Edges, keys: seq<SymbolKey>, dead: set<nat>, c: seq<nat>, g: DeadSymbolGroup)
    requires inner == Induced(inner, dead) && Distinct(keys)
    requires c != [] && Distinct(c) && forall x :: x in c ==> x in dead && x < |keys|
    requires forall x, y :: x in c && y in dead ==> (y in c <==> Mutual(inner, x, y))
    requires g.members == Sort(KeyLeq, KeysAt(keys, c))
    requires g.cyclic <==> |c| > 1 || (c[0], c[0]) in inner
    ensures IsDeadGroup(inner, keys, dead, g)
    ensures forall x: nat :: x < |keys| ==> (keys[x] in g.members <==> x in c)
  {
    NamedMembers(keys, c);
    forall i | i in dead && i < |keys| && keys[i] in g.members
      ensures g.cyclic <==> ReachesProperly(inner, i, i)
    {
      CyclicClass(inner, dead, c, i);
    }
  }

  // ----- all groups -----

  /** The edges between candidates, turned around. */
  method IncomingEdges(outgoing: seq<seq<Edge>>, candidate: seq<bool>) returns (incoming: Adjacency)
    requires |candidate| == |outgoing| && InRange(Adjacent(outgoing))
    ensures Reverses(Walked(Adjacent(outgoing), candidate), candidate, incoming)
  {
    var n := |outgoing|;
    incoming := seq(n, _ => []);
    for source := 0 to n
      invariant |incoming| == n && InRange(incoming)
      invariant forall x: nat, y: nat :: y < n ==>
        (x in incoming[y] <==> x < source && candidate[x] && candidate[y] && y in Adjacent(outgoing)[x])
    {
      if !candidate[source] {
        continue;
      }
      var row := outgoing[source];
      ghost var targets := Adjacent(outgoing)[source];
      ghost var before := incoming;
      for e := 0 to |row|
        invariant |incoming| == n && InRange(incoming)
        invariant forall x: nat, y: nat :: y < n ==>
          (x in incoming[y] <==> x in before[y] || (x == source && candidate[y] && y in targets[..e]))
      {
        var target := row[e].target;
        assert target == targets[e];
        assert targets[..e + 1] == targets[..e] + [target];
        if candidate[target] {
          incoming := incoming[target := incoming[target] + [source]];
        }
      }
      assert targets[..|row|] == targets;
    }
    ghost var filled := incoming;
    for y := 0 to n
      invariant |incoming| == n
      invariant forall k :: 0 <= k < n ==>
        incoming[k] == if k < y then Dedup(Sort(NatLeq, filled[k])) else filled[k]
    {
      incoming := incoming[y := Dedup(Sort(NatLeq, incoming[y]))];
    }
    forall y | 0 <= y < n
      ensures forall x :: x in incoming[y] <==> x in filled[y]
    {
      SortDedup(filled[y]);
    }
    forall y, k | 0 <= y < n && 0 <= k < |incoming[y]|
      ensures incoming[y][k] < n
    {
      assert incoming[y][k] in filled[y];
    }
  }

  predicate SelfEdge(row: seq<Edge>, node: nat) {
    exists e :: 0 <= e < |row| && row[e].target == node
  }

  /** The group carries the keys of one component. */
  ghost predicate Names(inner: Edges, keys: seq<SymbolKey>, dead: set<nat>, c: seq<nat>, g: DeadSymbolGroup) {
    && c != [] && c[0] < |keys|
    && IsDeadGroup(inner, keys, dead, g)
    && forall x: nat :: x < |keys| ==> (keys[x] in g.members <==> x in c)
  }

  /** One whole class of mutual reachability. */
  ghost predicate IsClass(inner: Edges, dead: set<nat>, c: seq<nat>) {
    && c != [] && Distinct(c)
    && (forall x :: x in c ==> x in dead)
    && (forall x, y :: x in c && y in dead ==> (y in c <==> Mutual(inner, x, y)))
  }

  lemma PartitionClass(inner: Edges, dead: set<nat>, components: seq<seq<nat>>, i: nat)
    requires ArePartition(Reachability(inner, dead), dead, components) && i < |components|
    ensures IsClass(inner, dead, components[i])
  {
    var c := components[i];
    forall x, y | x in c && y in dead
      ensures y in c <==> Mutual(inner, x, y)
    {
      assert y in c <==> Both(Reachability(inner, dead), x, y);
    }
  }

  lemma NamesClass(inner: Edges, keys: seq<SymbolKey>, dead: set<nat>, c: seq<nat>, g: DeadSymbolGroup)
    requires Distinct(keys) && inner == Induced(inner, dead) && IsClass(inner, dead, c)
    requires forall x :: x in c ==> x < |keys|
    requires g.members == Sort(KeyLeq, KeysAt(keys, c))
    requires g.cyclic <==> |c| > 1 || (c[0], c[0]) in inner
    ensures Names(inner, keys, dead, c, g)
  {
    assert c[0] in c;
    GroupOfClass(inner, keys, dead, c, g);
  }

  /** The group of one component, with its keys in order. */
  method NameGroup(keys: seq<SymbolKey>, outgoing: seq<seq<Edge>>, c: seq<nat>, ghost inner: Edges,
                   ghost dead: set<nat>)
    returns (group: DeadSymbolGroup)
    requires Distinct(keys) && |keys| == |outgoing| && inner == Induced(inner, dead)
    requires forall x :: x in dead ==> x < |keys| && (SelfEdge(outgoing[x], x) <==> (x, x) in inner)
    requires IsClass(inner, dead, c)
    ensures Names(inner, keys, dead, c, group)
  {
    assert c[0] in c;
    group := DeadSymbolGroup(Sort(KeyLeq, KeysAt(keys, c)), |c| > 1 || SelfEdge(outgoing[c[0]], c[0]));
    NamesClass(inner, keys, dead, c, group);
  }

  lemma SelfEdgesMatch(outgoing: seq<seq<Edge>>, candidate: seq<bool>, x: nat)
    requires |candidate| == |outgoing| && x in Marked(candidate)
    ensures SelfEdge(outgoing[x], x) <==> (x, x) in Walked(Adjacent(outgoing), candidate)
  {
    var row := Adjacent(outgoing)[x];
    assert forall e :: 0 <= e < |row| ==> row[e] == outgoing[x][e].target;
  }

  method DeadStronglyConnectedComponents(keys: seq<SymbolKey>, outgoing: seq<seq<Edge>>, candidate: seq<bool>)
    returns (groups: seq<DeadSymbolGroup>)
    requires Distinct(keys) && |keys| == |outgoing| == |candidate| && InRange(Adjacent(outgoing))
    ensures AreDeadGroups(EdgesOf(Adjacent(outgoing)), keys, Marked(candidate), groups)
  {
    ghost var dead, inner := Marked(candidate), Walked(Adjacent(outgoing), candidate);
    var incoming := IncomingEdges(outgoing, candidate);
    var components := Components(Adjacent(outgoing), incoming, candidate);
    forall x | x in dead
      ensures SelfEdge(outgoing[x], x) <==> (x, x) in inner
    {
      SelfEdgesMatch(outgoing, candidate, x);
    }
    groups := [];
    for i := 0 to |components|
      invariant |groups| == i
      invariant forall k :: 0 <= k < i ==> Names(inner, keys, dead, components[k], groups[k])
    {
      PartitionClass(inner, dead, components, i);
      var group := NameGroup(keys, outgoing, components[i], inner, dead);
      groups := groups + [group];
    }
    ArrangedGroups(EdgesOf(Adjacent(outgoing)), keys, dead, components, groups);
    groups := Sort(GroupLeq, groups);
  }

  lemma NamesDiffer(inner: Edges, keys: seq<SymbolKey>, dead: set<nat>, c: seq<nat>, g: DeadSymbolGroup,
                    d: seq<nat>, h: DeadSymbolGroup)
    requires Names(inner, keys, dead, c, g) && Names(inner, keys, dead, d, h)
    requires forall x :: x in c ==> x !in d
    ensures g != h
  {
    assert c[0] in c && keys[c[0]] in g.members;
  }

  lemma NamesCover(inner: Edges, keys: seq<SymbolKey>, dead: set<nat>, components: seq<seq<nat>>,
                   groups: seq<DeadSymbolGroup>, x: nat)
    requires |groups| == |components| && x < |keys|
    requires forall i :: 0 <= i < |groups| ==> Names(inner, keys, dead, components[i], groups[i])
    requires exists i :: 0 <= i < |components| && x in components[i]
    ensures exists g :: g in groups && keys[x] in g.members
  {
    var i :| 0 <= i < |components| && x in components[i];
    assert Names(inner, keys, dead, components[i], groups[i]);
    assert groups[i] in groups && keys[x] in groups[i].members;
  }

  lemma ArrangedGroups(graph: Edges, keys: seq<SymbolKey>, dead: set<nat>, components: seq<seq<nat>>,
                       groups: seq<DeadSymbolGroup>)
    requires |groups| == |components|
    requires ArePartition(Reachability(Induced(graph, dead), dead), dead, components)
    requires forall i :: 0 <= i < |groups| ==> Names(Induced(graph, dead), keys, dead, components[i], groups[i])
    ensures AreDeadGroups(graph, keys, dead, Sort(GroupLeq, groups))
  {
    var inner := Induced(graph, dead);
    GroupOrder();
    SortSorted(GroupLeq, groups);
    assert Distinct(groups) by {
      forall i, j | 0 <= i < j < |groups|
        ensures groups[i] != groups[j]
      {
        NamesDiffer(inner, keys, dead, components[i], groups[i], components[j], groups[j]);
      }
    }
    SortDistinct(GroupLeq, groups);
    forall g
      ensures g in Sort(GroupLeq, groups) <==> g in groups
    {
      SortElements(GroupLeq, groups, g);
    }
    forall g | g in groups
      ensures IsDeadGroup(inner, keys, dead, g)
    {
      var i :| 0 <= i < |groups| && groups[i] == g;
      assert Names(inner, keys, dead, components[i], groups[i]);
    }
    forall x | x in dead && x < |keys|
      ensures exists g :: g in Sort(GroupLeq, groups) && keys[x] in g.members
    {
      NamesCover(inner, keys, dead, components, groups, x);
    }
  }

  // ----- the whole analysis -----

  datatype SymbolState = SymbolState(symbol: nat, lanes: Lanes)

  datatype FileSymbols = FileSymbols(symbols: seq<SymbolState>, declarationsComplete: bool, exportsComplete: bool)

  datatype AnalysisResult = AnalysisResult(files: seq<FileSymbols>, deadGroups: seq<DeadSymbolGroup>)

  /** No guard of a reachable file can hide uses of its declarations. */
  predicate DeclarationsComplete(input: Input, file: nat) {
    !FileFlag(input.reachableFiles, file) || file >= |input.files| ||
    forall g :: g in input.files[file].guards ==> g != DirectEval && g != DynamicScope
  }

  predicate ExportsComplete(input: Input, file: nat) {
    !FileFlag(input.reachableFiles, file) || file >= |input.files| ||
    forall g :: g in input.files[file].guards ==> g != ComputedCommonJsExport && g != OpaqueCommonJsExports
  }

  predicate IsReportable(files: seq<FileFacts>, key: SymbolKey) {
    key.file < |files| &&
    var symbol := SymbolAt(files[key.file].symbols, key.symbol);
    symbol.Some? && !symbol.value.ambient && !symbol.value.parameterProperty
    && symbol.value.kind !in {CatchBinding, EnumMember, TypeParameter, Unknown}
  }

  /** A declaration that is reported as dead, given what is live. */
  ghost predicate IsDead(input: Input, live: LiveSet, key: SymbolKey) {
    && FileFlag(input.reachableFiles, key.file) && DeclarationsComplete(input, key.file)
    && (key, Runtime) !in live && (key, Type) !in live
    && IsReportable(input.files, key)
  }

  ghost function DeadNodes(input: Input, live: LiveSet, keys: seq<SymbolKey>): set<nat> {
    set n: nat | n < |keys| && IsDead(input, live, keys[n])
  }

  ghost function SymbolGraph(input: Input, keys: seq<SymbolKey>): Edges {
    set i: nat, j: nat | i < |keys| && j < |keys| && AnyLaneEdge(input, keys[i], keys[j]) :: (i, j)
  }

  ghost predicate AnyLaneEdge(input: Input, a: SymbolKey, b: SymbolKey) {
    exists u :: SymbolEdge(input, a, b, u)
  }

  ghost predicate AreLanes(live: LiveSet, key: SymbolKey, lanes: Lanes) {
    (lanes.runtime <==> (key, Runtime) in live) && (lanes.types <==> (key, Type) in live)
  }

  /** The per-file part of the result says for every symbol in which lanes it is live. */
  ghost predicate ReportsLanes(input: Input, live: LiveSet, file: nat, r: FileSymbols)
    requires file < |input.files|
  {
    var symbols := input.files[file].symbols;
    && |r.symbols| == |symbols|
    && (forall i :: 0 <= i < |symbols| ==>
          r.symbols[i].symbol == symbols[i].id && AreLanes(live, SymbolKey(file, symbols[i].id), r.symbols[i].lanes))
    && r.declarationsComplete == DeclarationsComplete(input, file)
    && r.exportsComplete == ExportsComplete(input, file)
  }

  lemma GraphMatches(input: Input, keys: seq<SymbolKey>, outgoing: seq<seq<Edge>>)
    requires RowsMatch(keys, outgoing, (a, b, u) => SymbolEdge(input, a, b, u))
    ensures InRange(Adjacent(outgoing))
    ensures EdgesOf(Adjacent(outgoing)) == SymbolGraph(input, keys)
  {
    var rows := Adjacent(outgoing);
    forall i, e | 0 <= i < |outgoing| && 0 <= e < |outgoing[i]|
      ensures rows[i][e] == outgoing[i][e].target < |keys|
    {
      assert outgoing[i][e] in outgoing[i];
    }
    forall i: nat, j: nat | i < |keys| && j < |keys|
      ensures j in rows[i] <==> AnyLaneEdge(input, keys[i], keys[j])
    {
      if j in rows[i] {
        var e :| 0 <= e < |rows[i]| && rows[i][e] == j;
        assert outgoing[i][e] in outgoing[i];
        assert HasEdge(outgoing[i], j, outgoing[i][e].targetUsage);
      }
      if u :| SymbolEdge(input, keys[i], keys[j], u) {
        assert HasEdge(outgoing[i], j, u);
        var edge :| edge in outgoing[i] && edge.target == j && edge.targetUsage == u;
        var e :| 0 <= e < |outgoing[i]| && outgoing[i][e] == edge;
        assert rows[i][e] == j;
      }
    }
  }

  lemma LiveAt(keys: seq<SymbolKey>, reachable: seq<Lanes>, n: nat, u: UsageKind)
    requires Distinct(keys) && |keys| == |reachable| && n < |keys|
    ensures (keys[n], u) in LiveOf(keys, reachable) <==> InLane(reachable[n], u)
  {
  }

  method FileStates(input: Input, file: nat, keys: seq<SymbolKey>, nodeByKey: map<SymbolKey, nat>,
                    reachable: seq<Lanes>)
    returns (r: FileSymbols)
    requires NumbersSymbols(input.files, keys, nodeByKey) && |reachable| == |keys| && file < |input.files|
    ensures ReportsLanes(input, LiveOf(keys, reachable), file, r)
  {
    var symbols := input.files[file].symbols;
    var states: seq<SymbolState> := [];
    ghost var live := LiveOf(keys, reachable);
    for i := 0 to |symbols|
      invariant |states| == i
      invariant forall k :: 0 <= k < i ==>
        states[k].symbol == symbols[k].id && AreLanes(live, SymbolKey(file, symbols[k].id), states[k].lanes)
    {
      var key := SymbolKey(file, symbols[i].id);
      assert Declares(input.files, key);
      LiveAt(keys, reachable, nodeByKey[key], Runtime);
      LiveAt(keys, reachable, nodeByKey[key], Type);
      states := states + [SymbolState(symbols[i].id, reachable[nodeByKey[key]])];
    }
    r := FileSymbols(states, DeclarationsComplete(input, file), ExportsComplete(input, file));
  }

  method AnalyzeSymbols(input: Input) returns (result: AnalysisResult, ghost live: LiveSet, ghost keys: seq<SymbolKey>)
    requires UniqueIds(input.files)
    ensures IsLiveness(input, live)
    ensures |result.files| == |input.files|
    ensures forall f :: 0 <= f < |result.files| ==> ReportsLanes(input, live, f, result.files[f])
    ensures Distinct(keys) && forall k :: k in keys <==> Declares(input.files, k)
    ensures AreDeadGroups(SymbolGraph(input, keys), keys, DeadNodes(input, live, keys), result.deadGroups)
  {
    var named, nodeByKey := NumberSymbols(input.files);
    var outgoing := BuildOutgoing(input, named, nodeByKey);
    var reachable := MarkLive(input, named, nodeByKey, outgoing);
    keys, live := named, LiveOf(named, reachable);
    var candidates: seq<bool> := [];
    for n := 0 to |named|
      invariant |candidates| == n
      invariant forall k :: 0 <= k < n ==> (candidates[k] <==> IsDead(input, live, named[k]))
    {
      var key := named[n];
      LiveAt(named, reachable, n, Runtime);
      LiveAt(named, reachable, n, Type);
      candidates := candidates + [
        FileFlag(input.reachableFiles, key.file) && DeclarationsComplete(input, key.file)
        && !InLane(reachable[n], Runtime) && !InLane(reachable[n], Type) && IsReportable(input.files, key)];
    }
    GraphMatches(input, named, outgoing);
    var groups := DeadStronglyConnectedComponents(named, outgoing, candidates);
    assert Marked(candidates) == DeadNodes(input, live, named);
    var files: seq<FileSymbols> := [];
    for f := 0 to |input.files|
      invariant |files| == f
      invariant forall k :: 0 <= k < f ==> ReportsLanes(input, live, k, files[k])
    {
      var states := FileStates(input, f, named, nodeByKey, reachable);
      files := files + [states];
    }
    result := AnalysisResult(files, groups);
  }

  // ----- consequences -----

  /** No live symbol leads to a member of a dead group. */
  lemma DeadGroupsUntouched(input: Input, live: LiveSet, keys: seq<SymbolKey>, groups: seq<DeadSymbolGroup>,
                            g: DeadSymbolGroup, a: SymbolKey, w: UsageKind, b: SymbolKey, u: UsageKind)
    requires IsLiveness(input, live)
    requires AreDeadGroups(SymbolGraph(input, keys), keys, DeadNodes(input, live, keys), groups)
    requires g in groups && b in g.members && (a, w) in live
    ensures !SymbolEdge(input, a, b, u)
  {
    var i :| i in DeadNodes(input, live, keys) && i < |keys| && keys[i] == b;
    assert (b, Runtime) !in live && (b, Type) !in live;
    assert (b, u) !in live;
  }

  /** More links, roots or public files never make another symbol dead. */
  lemma DeadShrinks(input: Input, more: Input, live: LiveSet, moreLive: LiveSet, key: SymbolKey)
    requires Extends(input, more) && more.reachableFiles == input.reachableFiles
    requires IsLiveness(input, live) && IsLiveness(more, moreLive)
    requires IsDead(more, moreLive, key)
    ensures IsDead(input, live, key)
  {
    LivenessMonotone(input, more, live, moreLive);
  }
}
