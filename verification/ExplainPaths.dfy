/**
 The import chain that explains why a file is reachable, application/explain.rs: a
 breadth-first search over the resolved imports of a report, with a map of optional
 predecessors, and the walk back from the file.
 */
module ExplainPaths {
  import opened Common
  import opened Sorting
  import opened Strings

  datatype ImportEdge = ImportEdge(resolved: bool, target: Option<string>)

  datatype FileImports = FileImports(path: string, imports: seq<ImportEdge>)

  predicate Resolves(imports: seq<ImportEdge>, b: string) {
    exists j :: 0 <= j < |imports| && imports[j].resolved && imports[j].target == Some(b)
  }

  /** Some file of the report at `a` has a resolved import of `b`. */
  predicate Imports(files: seq<FileImports>, a: string, b: string) {
    exists i :: 0 <= i < |files| && files[i].path == a && Resolves(files[i].imports, b)
  }

  ghost predicate IsChain(files: seq<FileImports>, p: seq<string>) {
    p != [] && forall i :: 0 < i < |p| ==> Imports(files, p[i - 1], p[i])
  }

  /** A chain of resolved imports from an entry to `target`. */
  ghost predicate Explains(files: seq<FileImports>, entries: seq<string>, target: string, p: seq<string>) {
    IsChain(files, p) && p[0] in entries && p[|p| - 1] == target
  }

  ghost predicate IsShortest(files: seq<FileImports>, entries: seq<string>, target: string, p: seq<string>) {
    && Explains(files, entries, target, p)
    && forall q :: Explains(files, entries, target, q) ==> |p| <= |q|
  }

  // ----- the map of outgoing imports -----

  type Outgoing = map<string, seq<string>>

  function Row(outgoing: Outgoing, a: string): seq<string> {
    if a in outgoing then outgoing[a] else []
  }

  /** The rows list exactly the resolved imports of the files. */
  ghost predicate Lists(outgoing: Outgoing, files: seq<FileImports>) {
    forall a, b :: b in Row(outgoing, a) <==> Imports(files, a, b)
  }

  function Added(outgoing: Outgoing, a: string, b: string): Outgoing {
    var row := Row(outgoing, a);
    outgoing[a := if b in row then row else Sort(StrLeq, row + [b])]
  }

  lemma AddedElements(outgoing: Outgoing, a: string, b: string, x: string, y: string)
    ensures y in Row(Added(outgoing, a, b), x) <==> y in Row(outgoing, x) || (x == a && y == b)
  {
    SortElements(StrLeq, Row(outgoing, a) + [b], y);
  }

  lemma ResolvesOneMore(imports: seq<ImportEdge>, e: ImportEdge, b: string)
    ensures Resolves(imports + [e], b) <==> Resolves(imports, b) || (e.resolved && e.target == Some(b))
  {
    var more := imports + [e];
    if Resolves(imports, b) {
      var j :| 0 <= j < |imports| && imports[j].resolved && imports[j].target == Some(b);
      assert more[j] == imports[j];
    }
    assert more[|imports|] == e;
  }

  lemma ImportsOneMore(files: seq<FileImports>, f: FileImports, a: string, b: string)
    ensures Imports(files + [f], a, b) <==> Imports(files, a, b) || (f.path == a && Resolves(f.imports, b))
  {
    var more := files + [f];
    if Imports(files, a, b) {
      var i :| 0 <= i < |files| && files[i].path == a && Resolves(files[i].imports, b);
      assert more[i] == files[i];
    }
    assert more[|files|] == f;
  }

  lemma ListsOneMore(outgoing: Outgoing, files: seq<FileImports>, path: string, imports: seq<ImportEdge>, e: ImportEdge)
    requires Lists(outgoing, files + [FileImports(path, imports)])
    ensures var more := files + [FileImports(path, imports + [e])];
            Lists(if e.resolved && e.target.Some? then Added(outgoing, path, e.target.value) else outgoing, more)
  {
    forall a, b
      ensures Imports(files + [FileImports(path, imports + [e])], a, b) <==>
        Imports(files + [FileImports(path, imports)], a, b) || (path == a && e.resolved && e.target == Some(b))
      ensures e.target.Some? ==>
        (b in Row(Added(outgoing, path, e.target.value), a) <==>
          b in Row(outgoing, a) || (a == path && b == e.target.value))
    {
      ImportsOneMore(files, FileImports(path, imports + [e]), a, b);
      ImportsOneMore(files, FileImports(path, imports), a, b);
      ResolvesOneMore(imports, e, b);
      if e.target.Some? {
        AddedElements(outgoing, path, e.target.value, a, b);
      }
    }
  }

  lemma ListsNextFile(outgoing: Outgoing, files: seq<FileImports>, path: string)
    requires Lists(outgoing, files)
    ensures Lists(outgoing, files + [FileImports(path, [])])
  {
    forall a, b
      ensures Imports(files + [FileImports(path, [])], a, b) <==> Imports(files, a, b)
    {
      ImportsOneMore(files, FileImports(path, []), a, b);
    }
  }

  method BuildOutgoing(files: seq<FileImports>) returns (outgoing: Outgoing)
    ensures Lists(outgoing, files)
  {
    outgoing := map[];
    for i := 0 to |files|
      invariant Lists(outgoing, files[..i])
    {
      var file := files[i];
      ListsNextFile(outgoing, files[..i], file.path);
      for j := 0 to |file.imports|
        invariant Lists(outgoing, files[..i] + [FileImports(file.path, file.imports[..j])])
      {
        var e := file.imports[j];
        ListsOneMore(outgoing, files[..i], file.path, file.imports[..j], e);
        assert file.imports[..j + 1] == file.imports[..j] + [e];
        if e.resolved && e.target.Some? {
          outgoing := Added(outgoing, file.path, e.target.value);
        }
      }
      assert file.imports[..|file.imports|] == file.imports;
      assert files[..i + 1] == files[..i] + [file];
    }
    assert files[..|files|] == files;
  }

  // ----- what the search keeps -----

  /** The files enqueued so far, in order, and the length of the chain by which each was found. */
  datatype Trail = Trail(visit: seq<string>, depth: seq<nat>)

  /** The depths never fall, and by at most one they exceed the depth of `head`. */
  ghost predicate Levels(t: Trail, head: nat) {
    && |t.visit| == |t.depth| && head <= |t.visit|
    && (forall i, j :: 0 <= i < j < |t.depth| ==> t.depth[i] <= t.depth[j])
    && (head < |t.depth| ==> forall k :: 0 <= k < |t.depth| ==> t.depth[k] <= t.depth[head] + 1)
  }

  /** No chain to an enqueued file is shorter than its depth. */
  ghost predicate Minimal(files: seq<FileImports>, entries: seq<string>, t: Trail) {
    && |t.visit| == |t.depth|
    && forall k, q {:trigger Explains(files, entries, t.visit[k], q)} ::
         0 <= k < |t.visit| && Explains(files, entries, t.visit[k], q) ==> t.depth[k] <= |q|
  }

  ghost predicate Expanded(files: seq<FileImports>, t: Trail, head: nat) {
    head <= |t.visit| && forall i, y :: 0 <= i < head && Imports(files, t.visit[i], y) ==> y in t.visit
  }

  ghost predicate Covers(t: Trail, entries: seq<string>) {
    forall e :: e in entries ==> e in t.visit
  }

  /** What the map says about the file at position `k`: it is an entry, or a parent before it imports it. */
  ghost predicate HasParent(files: seq<FileImports>, entries: seq<string>, t: Trail, k: nat, parent: Option<string>)
    requires |t.visit| == |t.depth| && k < |t.visit|
  {
    match parent
    case None => t.visit[k] in entries && t.depth[k] == 1
    case Some(x) =>
      Imports(files, x, t.visit[k]) && exists j :: 0 <= j < k && t.visit[j] == x && t.depth[k] == t.depth[j] + 1
  }

  ghost predicate Recorded(files: seq<FileImports>, entries: seq<string>, t: Trail,
                           previous: map<string, Option<string>>) {
    && |t.visit| == |t.depth| && (forall x :: x in previous <==> x in t.visit)
    && forall k :: 0 <= k < |t.visit| ==> HasParent(files, entries, t, k, previous[t.visit[k]])
  }

  function Discover(t: Trail, head: nat, x: string): Trail
    requires head < |t.depth|
  {
    Trail(t.visit + [x], t.depth + [t.depth[head] + 1])
  }

  /** A chain that ends outside the trail is longer than the depth of `head`. */
  lemma {:induction false} Frontier(files: seq<FileImports>, entries: seq<string>, t: Trail, head: nat, x: string,
                                    q: seq<string>)
    requires Levels(t, head) && Minimal(files, entries, t) && Expanded(files, t, head) && Covers(t, entries)
    requires head < |t.visit| && x !in t.visit && Explains(files, entries, x, q)
    ensures t.depth[head] < |q|
    decreases |q|
  {
    var front := q[..|q| - 1];
    var y := q[|q| - 2];
    assert Imports(files, y, x) && Explains(files, entries, y, front);
    if y in t.visit {
      var k :| 0 <= k < |t.visit| && t.visit[k] == y;
      assert k >= head;
    } else {
      Frontier(files, entries, t, head, y, front);
    }
  }

  lemma DiscoverMinimal(files: seq<FileImports>, entries: seq<string>, t: Trail, head: nat, x: string)
    requires Levels(t, head) && Minimal(files, entries, t) && Expanded(files, t, head) && Covers(t, entries)
    requires head < |t.visit| && x !in t.visit
    ensures Levels(Discover(t, head, x), head) && Minimal(files, entries, Discover(t, head, x))
  {
    var d := Discover(t, head, x);
    forall k, q | 0 <= k < |d.visit| && Explains(files, entries, d.visit[k], q)
      ensures d.depth[k] <= |q|
    {
      if k < |t.visit| {
        assert Explains(files, entries, t.visit[k], q);
      } else {
        Frontier(files, entries, t, head, x, q);
      }
    }
  }

  lemma DiscoverRecorded(files: seq<FileImports>, entries: seq<string>, t: Trail, head: nat, x: string,
                         previous: map<string, Option<string>>)
    requires Recorded(files, entries, t, previous) && head < |t.visit| && x !in t.visit
    requires Imports(files, t.visit[head], x)
    ensures Recorded(files, entries, Discover(t, head, x), previous[x := Some(t.visit[head])])
  {
    var d, more := Discover(t, head, x), previous[x := Some(t.visit[head])];
    forall k | 0 <= k < |d.visit|
      ensures d.visit[k] in more && HasParent(files, entries, d, k, more[d.visit[k]])
    {
      if k < |t.visit| {
        assert t.visit[k] in t.visit;
        assert HasParent(files, entries, t, k, previous[t.visit[k]]);
        if previous[t.visit[k]].Some? {
          var j :| 0 <= j < k && t.visit[j] == previous[t.visit[k]].value && t.depth[k] == t.depth[j] + 1;
          assert d.visit[j] == t.visit[j] && d.depth[j] == t.depth[j];
        }
      } else {
        assert d.visit[head] == t.visit[head] && d.depth[head] == t.depth[head];
      }
    }
  }

  /** All that the outer loop of the search keeps. */
  ghost predicate Tracing(files: seq<FileImports>, entries: seq<string>, t: Trail, head: nat,
                          previous: map<string, Option<string>>, queue: seq<string>) {
    && Levels(t, head) && Minimal(files, entries, t) && Expanded(files, t, head) && Covers(t, entries)
    && Recorded(files, entries, t, previous) && queue == t.visit[head..]
  }

  /** The same while the imports of `current`, at `head`, are enqueued. */
  ghost predicate Expanding(files: seq<FileImports>, entries: seq<string>, t: Trail, head: nat, current: string,
                            previous: map<string, Option<string>>, queue: seq<string>) {
    && Levels(t, head) && Minimal(files, entries, t) && Expanded(files, t, head) && Covers(t, entries)
    && Recorded(files, entries, t, previous)
    && head < |t.visit| && t.visit[head] == current && queue == t.visit[head + 1..]
  }

  lemma ExpandStep(files: seq<FileImports>, entries: seq<string>, t: Trail, head: nat, current: string,
                   previous: map<string, Option<string>>, queue: seq<string>, x: string)
    requires Expanding(files, entries, t, head, current, previous, queue) && x !in previous &&
      Imports(files, current, x)
    ensures Expanding(files, entries, Discover(t, head, x), head, current, previous[x := Some(current)], queue + [x])
  {
    DiscoverMinimal(files, entries, t, head, x);
    DiscoverRecorded(files, entries, t, head, x, previous);
  }

  lemma ExpandEnd(files: seq<FileImports>, entries: seq<string>, t: Trail, head: nat, current: string,
                  previous: map<string, Option<string>>, queue: seq<string>)
    requires Expanding(files, entries, t, head, current, previous, queue)
    requires forall y :: Imports(files, current, y) ==> y in previous
    ensures Tracing(files, entries, t, head + 1, previous, queue)
  {
  }

  /** The starting trail: the entries as they come, each once. */
  ghost predicate Starting(entries: seq<string>, n: nat, previous: map<string, Option<string>>, queue: seq<string>) {
    && n <= |entries| && (forall x :: x in previous <==> x in queue) && (forall x :: x in queue <==> x in entries[..n])
    && forall x :: x in previous ==> previous[x] == None
  }

  lemma StartTracing(files: seq<FileImports>, entries: seq<string>, previous: map<string, Option<string>>,
                     queue: seq<string>)
    requires Starting(entries, |entries|, previous, queue)
    ensures Tracing(files, entries, Trail(queue, seq(|queue|, _ => 1)), 0, previous, queue)
  {
    assert entries[..|entries|] == entries;
    forall k | 0 <= k < |queue|
      ensures queue[k] in entries && previous[queue[k]] == None
    {
      assert queue[k] in queue;
    }
  }

  /** Once all enqueued files are expanded, what is not enqueued has no chain. */
  lemma {:induction false} NoneBeyond(files: seq<FileImports>, entries: seq<string>, t: Trail, target: string,
                                      q: seq<string>)
    requires Expanded(files, t, |t.visit|) && Covers(t, entries) && Explains(files, entries, target, q)
    ensures target in t.visit
    decreases |q|
  {
    if |q| > 1 {
      NoneBeyond(files, entries, t, q[|q| - 2], q[..|q| - 1]);
      assert Imports(files, q[|q| - 2], target);
    }
  }

  // ----- the walk back -----

  /** What has been walked so far, turned around, is a chain from the file at `k` to the target. */
  ghost predicate Walked(files: seq<FileImports>, t: Trail, at: nat, k: nat, path: seq<string>) {
    && |t.visit| == |t.depth| && k < |t.visit| && at < |t.visit| && path != []
    && path[|path| - 1] == t.visit[k] && t.depth[at] == t.depth[k] + |path| - 1
    && var r := Reverse(path);
    && IsChain(files, r) && r[0] == t.visit[k] && r[|r| - 1] == t.visit[at]
  }

  lemma WalkStep(files: seq<FileImports>, t: Trail, at: nat, k: nat, path: seq<string>, j: nat)
    requires Walked(files, t, at, k, path) && j < k && t.depth[k] == t.depth[j] + 1
    requires Imports(files, t.visit[j], t.visit[k])
    ensures Walked(files, t, at, j, path + [t.visit[j]])
  {
    var longer, r := path + [t.visit[j]], Reverse(path);
    assert longer[..|path|] == path;
    assert Reverse(longer) == [t.visit[j]] + r;
    forall i | 0 < i < |r| + 1
      ensures Imports(files, Reverse(longer)[i - 1], Reverse(longer)[i])
    {
      assert i > 1 ==> Imports(files, r[i - 2], r[i - 1]);
    }
  }

  /** Follows the predecessors from the target back to an entry. */
  method WalkBack(ghost files: seq<FileImports>, ghost entries: seq<string>, ghost t: Trail,
                  previous: map<string, Option<string>>, target: string) returns (path: seq<string>)
    requires Recorded(files, entries, t, previous) && Minimal(files, entries, t) && target in previous
    ensures IsShortest(files, entries, target, path)
  {
    ghost var at: nat :| at < |t.visit| && t.visit[at] == target;
    ghost var k := at;
    var current := target;
    path := [target];
    while current in previous && previous[current].Some?
      invariant Walked(files, t, at, k, path) && current == t.visit[k]
      decreases k
    {
      var parent := previous[current].value;
      assert HasParent(files, entries, t, k, previous[t.visit[k]]);
      ghost var j: nat :| j < k && t.visit[j] == parent && t.depth[k] == t.depth[j] + 1;
      WalkStep(files, t, at, k, path, j);
      path := path + [parent];
      current := parent;
      k := j;
    }
    assert HasParent(files, entries, t, k, previous[t.visit[k]]);
    path := Reverse(path);
    assert Explains(files, entries, t.visit[at], path) && |path| == t.depth[at];
  }

  // ----- the search -----

  method EnqueueEntries(entries: seq<string>) returns (previous: map<string, Option<string>>, queue: seq<string>)
    ensures Starting(entries, |entries|, previous, queue)
  {
    previous, queue := map[], [];
    for n := 0 to |entries|
      invariant Starting(entries, n, previous, queue)
    {
      var entry := entries[n];
      assert entries[..n + 1] == entries[..n] + [entry];
      if entry !in previous {
        queue := queue + [entry];
      }
      previous := previous[entry := None];
    }
  }

  ghost predicate MetUpTo(row: seq<string>, e: nat, previous: map<string, Option<string>>) {
    e <= |row| && forall i :: 0 <= i < e ==> row[i] in previous
  }

  lemma MetUpToNext(row: seq<string>, e: nat, before: map<string, Option<string>>,
                    previous: map<string, Option<string>>)
    requires MetUpTo(row, e, before) && e < |row| && before.Keys + {row[e]} <= previous.Keys
    ensures MetUpTo(row, e + 1, previous)
  {
  }

  /** Of the names some were met since then, or nothing happened. */
  ghost predicate MoreMet(names: set<string>, previous0: map<string, Option<string>>, queue0: seq<string>,
                          previous: map<string, Option<string>>, queue: seq<string>) {
    names - previous.Keys < names - previous0.Keys || (previous == previous0 && queue == queue0)
  }

  lemma MeetsOneMore(names: set<string>, previous0: map<string, Option<string>>, queue0: seq<string>,
                     previous: map<string, Option<string>>, queue: seq<string>, x: string, parent: Option<string>)
    requires MoreMet(names, previous0, queue0, previous, queue) && x in names && x !in previous
    ensures MoreMet(names, previous0, queue0, previous[x := parent], queue + [x])
  {
    var more := previous[x := parent];
    assert more.Keys == previous.Keys + {x};
    assert x in names - previous.Keys && x !in names - more.Keys;
  }

  /** Enqueues the imports of `current` that were not met yet. */
  method ExpandRow(row: seq<string>, current: string, previous0: map<string, Option<string>>, queue0: seq<string>,
                   ghost files: seq<FileImports>, ghost entries: seq<string>, ghost t0: Trail, ghost head: nat,
                   ghost names: set<string>)
    returns (previous: map<string, Option<string>>, queue: seq<string>, ghost t: Trail)
    requires Expanding(files, entries, t0, head, current, previous0, queue0)
    requires forall y :: y in row <==> Imports(files, current, y)
    requires forall y :: y in row ==> y in names
    ensures Tracing(files, entries, t, head + 1, previous, queue)
    ensures MoreMet(names, previous0, queue0, previous, queue)
  {
    previous, queue, t := previous0, queue0, t0;
    for e := 0 to |row|
      invariant Expanding(files, entries, t, head, current, previous, queue)
      invariant MetUpTo(row, e, previous)
      invariant MoreMet(names, previous0, queue0, previous, queue)
    {
      var next := row[e];
      ghost var before := previous;
      assert next in row;
      if next !in previous {
        ExpandStep(files, entries, t, head, current, previous, queue, next);
        MeetsOneMore(names, previous0, queue0, previous, queue, next, Some(current));
        previous := previous[next := Some(current)];
        queue := queue + [next];
        t := Discover(t, head, next);
      }
      MetUpToNext(row, e, before, previous);
    }
    ExpandEnd(files, entries, t, head, current, previous, queue);
  }

  /** Everything that some row lists. */
  ghost function Listed(outgoing: Outgoing): (r: set<string>)
    ensures forall a, b :: b in Row(outgoing, a) ==> b in r
  {
    set a, b | a in outgoing && b in outgoing[a] :: b
  }

  /** A shortest chain of resolved imports from an entry to the file, or nothing when there is no chain. */
  method ShortestFilePath(files: seq<FileImports>, entries: seq<string>, target: string) returns (path: seq<string>)
    ensures if path == [] then forall q :: !Explains(files, entries, target, q)
            else IsShortest(files, entries, target, path)
  {
    var outgoing := BuildOutgoing(files);
    var previous, queue := EnqueueEntries(entries);
    ghost var t, head := Trail(queue, seq(|queue|, _ => 1)), 0;
    StartTracing(files, entries, previous, queue);
    while queue != []
      invariant Tracing(files, entries, t, head, previous, queue)
      decreases Listed(outgoing) - previous.Keys, |queue|
    {
      var current := queue[0];
      if current == target {
        break;
      }
      previous, queue, t := ExpandRow(Row(outgoing, current), current, previous, queue[1..],
                                      files, entries, t, head, Listed(outgoing));
      head := head + 1;
    }
    if target !in previous {
      forall q
        ensures !Explains(files, entries, target, q)
      {
        if Explains(files, entries, target, q) {
          NoneBeyond(files, entries, t, target, q);
        }
      }
      return [];
    }
    path := WalkBack(files, entries, t, previous, target);
  }
}
