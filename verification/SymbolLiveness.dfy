/**
 The two-lane liveness pass of analysis/symbols.rs: declared symbols become nodes,
 references and resolved links become edges, and a worklist marks what the roots
 keep alive at run time and in type positions.
 */
module SymbolLiveness {
  import opened Common
  import opened Facts
  import opened Paths
  import opened Sorting

  datatype Link = Link(source: SymbolKey, sourceUsage: UsageKind, target: SymbolKey, targetUsage: UsageKind)

  datatype SymbolRoot = SymbolRoot(symbol: SymbolKey, usage: UsageKind)

  datatype Input = Input(
    files: seq<FileFacts>, reachableFiles: seq<bool>, openWorldFiles: seq<bool>,
    links: seq<Link>, explicitRoots: seq<SymbolRoot>)

  /** Missing entries count as false. */
  predicate FileFlag(flags: seq<bool>, file: nat) {
    file < |flags| && flags[file]
  }

  // ----- what the result must be -----

  ghost predicate Declares(files: seq<FileFacts>, key: SymbolKey) {
    key.file < |files| && exists s :: s in files[key.file].symbols && s.id == key.symbol
  }

  /** Symbol ids identify the declarations of one file. */
  ghost predicate UniqueIds(files: seq<FileFacts>) {
    forall f, i, j :: 0 <= f < |files| && 0 <= i < j < |files[f].symbols| ==>
      files[f].symbols[i].id != files[f].symbols[j].id
  }

  ghost predicate ReferenceEdge(refs: seq<ReferenceFact>, a: nat, b: nat, u: UsageKind) {
    exists r :: r in refs && r.owner == OwnedBySymbol(a) && r.target == b && r.usage == u
  }

  ghost predicate LinkEdge(links: seq<Link>, a: SymbolKey, b: SymbolKey, u: UsageKind) {
    exists l :: l in links && l.source == a && l.target == b && l.targetUsage == u
  }

  /** Being alive in any lane, `a` keeps `b` alive in lane `u`. */
  ghost predicate SymbolEdge(input: Input, a: SymbolKey, b: SymbolKey, u: UsageKind) {
    && Declares(input.files, a) && Declares(input.files, b)
    && ((a.file == b.file && ReferenceEdge(input.files[a.file].references, a.symbol, b.symbol, u))
        || LinkEdge(input.links, a, b, u))
  }

  ghost function EagerEdges(regions: seq<RegionFact>): Edges {
    set r | r in regions && r.eager && r.parent.Some? :: (r.parent.value, r.id)
  }

  /** The region runs as soon as its module does. */
  ghost predicate Active(regions: seq<RegionFact>, region: nat) {
    Reaches(EagerEdges(regions), MODULE_REGION, region)
  }

  ghost predicate ReferenceRoot(facts: FileFacts, refs: seq<ReferenceFact>, symbol: nat, u: UsageKind) {
    exists r :: r in refs && Active(facts.regions, r.region) && r.target == symbol && r.usage == u
  }

  function SymbolAt(symbols: seq<SymbolFact>, id: nat): (r: Option<SymbolFact>)
    ensures r.Some? ==> r.value in symbols && r.value.id == id
    ensures r.None? ==> forall s :: s in symbols ==> s.id != id
  {
    if symbols == [] then None
    else if symbols[0].id == id then Some(symbols[0])
    else SymbolAt(symbols[1..], id)
  }

  /** The lanes in which an export may be consumed from outside. */
  ghost predicate ExportLane(facts: FileFacts, e: ExportBinding, symbol: nat, u: UsageKind) {
    && e.local == Some(symbol)
    && if e.typeOnly then u == Type
       else u == Runtime ||
            (SymbolAt(facts.symbols, symbol).Some? && SymbolAt(facts.symbols, symbol).value.namespace != RuntimeOnly)
  }

  ghost predicate ExportRoot(facts: FileFacts, exports: seq<ExportBinding>, symbol: nat, u: UsageKind) {
    exists e :: e in exports && ExportLane(facts, e, symbol, u)
  }

  /** What the file itself roots: module execution, and its exports when they are public. */
  ghost predicate FileRoot(input: Input, key: SymbolKey, u: UsageKind)
    requires key.file < |input.files|
  {
    var facts := input.files[key.file];
    && FileFlag(input.reachableFiles, key.file)
    && (ReferenceRoot(facts, facts.references, key.symbol, u)
        || (FileFlag(input.openWorldFiles, key.file) && ExportRoot(facts, facts.exports, key.symbol, u)))
  }

  ghost predicate IsRoot(input: Input, key: SymbolKey, u: UsageKind) {
    Declares(input.files, key) && (SymbolRoot(key, u) in input.explicitRoots || FileRoot(input, key, u))
  }

  type LiveSet = set<(SymbolKey, UsageKind)>

  ghost predicate KeepsAlive(input: Input, s: LiveSet) {
    && (forall k, u :: IsRoot(input, k, u) ==> (k, u) in s)
    && (forall a, w, b, u :: (a, w) in s && SymbolEdge(input, a, b, u) ==> (b, u) in s)
  }

  /** The least set of (symbol, lane) pairs that holds the roots and follows the edges. */
  ghost predicate IsLiveness(input: Input, s: LiveSet) {
    KeepsAlive(input, s) && forall t :: KeepsAlive(input, t) ==> s <= t
  }

  // ----- consequences -----

  /** There is only one liveness. */
  lemma LivenessUnique(input: Input, s: LiveSet, t: LiveSet)
    requires IsLiveness(input, s) && IsLiveness(input, t)
    ensures s == t
  {
  }

  ghost predicate LiveStep(input: Input, s: LiveSet, k: SymbolKey, u: UsageKind) {
    IsRoot(input, k, u) || exists a, w :: (a, w) in s && SymbolEdge(input, a, k, u)
  }

  /** A symbol is live in a lane exactly when it is a root there or a live symbol leads to it there. */
  lemma LivenessIsFixpoint(input: Input, s: LiveSet, k: SymbolKey, u: UsageKind)
    requires IsLiveness(input, s)
    ensures (k, u) in s <==> LiveStep(input, s, k, u)
  {
    var t := set x | x in s && LiveStep(input, s, x.0, x.1);
    assert KeepsAlive(input, t) by {
      forall x, v | IsRoot(input, x, v)
        ensures (x, v) in t
      {
        assert LiveStep(input, s, x, v);
      }
      forall a, w, b, v | (a, w) in t && SymbolEdge(input, a, b, v)
        ensures (b, v) in t
      {
        assert (a, w) in s;
        assert LiveStep(input, s, b, v);
      }
    }
  }

  /** `more` has every file of `input`, and at least its links, roots, reachable and public files. */
  ghost predicate Extends(input: Input, more: Input) {
    && more.files == input.files
    && (forall f :: FileFlag(input.reachableFiles, f) ==> FileFlag(more.reachableFiles, f))
    && (forall f :: FileFlag(input.openWorldFiles, f) ==> FileFlag(more.openWorldFiles, f))
    && (forall l :: l in input.links ==> l in more.links)
    && (forall r :: r in input.explicitRoots ==> r in more.explicitRoots)
  }

  /** More links, roots or public files only make more symbols live. */
  lemma LivenessMonotone(input: Input, more: Input, s: LiveSet, t: LiveSet)
    requires Extends(input, more) && IsLiveness(input, s) && IsLiveness(more, t)
    ensures s <= t
  {
    assert KeepsAlive(input, t) by {
      forall k, u | IsRoot(input, k, u)
        ensures (k, u) in t
      {
        assert IsRoot(more, k, u);
      }
      forall a, w, b, u | (a, w) in t && SymbolEdge(input, a, b, u)
        ensures (b, u) in t
      {
        assert SymbolEdge(more, a, b, u);
      }
    }
  }

  // ----- nodes -----

  ghost predicate NumbersSymbols(files: seq<FileFacts>, keys: seq<SymbolKey>, nodeByKey: map<SymbolKey, nat>) {
    && Distinct(keys)
    && (forall k :: k in keys <==> Declares(files, k))
    && (forall k :: k in nodeByKey <==> Declares(files, k))
    && (forall k :: k in nodeByKey ==> nodeByKey[k] < |keys| && keys[nodeByKey[k]] == k)
  }

  method NumberSymbols(files: seq<FileFacts>) returns (keys: seq<SymbolKey>, nodeByKey: map<SymbolKey, nat>)
    requires UniqueIds(files)
    ensures NumbersSymbols(files, keys, nodeByKey)
  {
    keys, nodeByKey := [], map[];
    for file := 0 to |files|
      invariant Distinct(keys)
      invariant forall k :: k in keys <==> k.file < file && Declares(files, k)
      invariant forall k :: k in nodeByKey <==> k in keys
      invariant forall k :: k in nodeByKey ==> nodeByKey[k] < |keys| && keys[nodeByKey[k]] == k
    {
      var symbols := files[file].symbols;
      for i := 0 to |symbols|
        invariant Distinct(keys)
        invariant forall k :: k in keys <==>
          || (k.file < file && Declares(files, k))
          || (k.file == file && exists j :: 0 <= j < i && symbols[j].id == k.symbol)
        invariant forall k :: k in nodeByKey <==> k in keys
        invariant forall k :: k in nodeByKey ==> nodeByKey[k] < |keys| && keys[nodeByKey[k]] == k
      {
        var key := SymbolKey(file, symbols[i].id);
        assert key !in keys;
        nodeByKey := nodeByKey[key := |keys|];
        keys := keys + [key];
      }
    }
  }

  // ----- edges between nodes -----

  datatype Edge = Edge(sourceUsage: UsageKind, target: nat, targetUsage: UsageKind)

  function Rank(u: UsageKind): nat {
    if u == Runtime then 0 else 1
  }

  predicate EdgeLeq(a: Edge, b: Edge) {
    if a.sourceUsage != b.sourceUsage then Rank(a.sourceUsage) < Rank(b.sourceUsage)
    else if a.target != b.target then a.target < b.target
    else Rank(a.targetUsage) <= Rank(b.targetUsage)
  }

  ghost predicate HasEdge(row: seq<Edge>, b: nat, u: UsageKind) {
    exists e :: e in row && e.target == b && e.targetUsage == u
  }

  lemma HasEdgePush(row: seq<Edge>, e: Edge, b: nat, u: UsageKind)
    ensures HasEdge(row + [e], b, u) <==> HasEdge(row, b, u) || (e.target == b && e.targetUsage == u)
  {
    assert e in row + [e];
    assert forall x :: x in row + [e] <==> x in row || x == e;
  }

  lemma HasEdgeArranged(row: seq<Edge>, b: nat, u: UsageKind)
    ensures HasEdge(Dedup(Sort(EdgeLeq, row)), b, u) <==> HasEdge(row, b, u)
  {
    forall e
      ensures e in Dedup(Sort(EdgeLeq, row)) <==> e in row
    {
      SortElements(EdgeLeq, row, e);
      DedupElements(Sort(EdgeLeq, row), e);
    }
  }

  lemma ReferenceEdgePush(refs: seq<ReferenceFact>, r: nat, a: nat, b: nat, u: UsageKind)
    requires r < |refs|
    ensures ReferenceEdge(refs[..r + 1], a, b, u) <==>
            ReferenceEdge(refs[..r], a, b, u) ||
            (refs[r].owner == OwnedBySymbol(a) && refs[r].target == b && refs[r].usage == u)
  {
    assert refs[..r + 1] == refs[..r] + [refs[r]];
    assert refs[r] in refs[..r + 1];
    assert forall x :: x in refs[..r + 1] <==> x in refs[..r] || x == refs[r];
  }

  lemma LinkEdgePush(links: seq<Link>, n: nat, a: SymbolKey, b: SymbolKey, u: UsageKind)
    requires n < |links|
    ensures LinkEdge(links[..n + 1], a, b, u) <==>
            LinkEdge(links[..n], a, b, u) ||
            (links[n].source == a && links[n].target == b && links[n].targetUsage == u)
  {
    assert links[..n + 1] == links[..n] + [links[n]];
    assert links[n] in links[..n + 1];
    assert forall x :: x in links[..n + 1] <==> x in links[..n] || x == links[n];
  }

  /** The edges of the references of the first `bound` files. */
  ghost predicate FromReferences(files: seq<FileFacts>, bound: nat, a: SymbolKey, b: SymbolKey, u: UsageKind) {
    && a.file == b.file && a.file < bound && a.file < |files|
    && ReferenceEdge(files[a.file].references, a.symbol, b.symbol, u)
  }

  ghost predicate RowsMatch(keys: seq<SymbolKey>, rows: seq<seq<Edge>>,
                            edge: (SymbolKey, SymbolKey, UsageKind) -> bool) {
    && |rows| == |keys|
    && (forall i, e :: 0 <= i < |rows| && e in rows[i] ==> e.target < |keys|)
    && (forall i, b, u {:trigger HasEdge(rows[i], b, u)} :: 0 <= i < |keys| && 0 <= b < |keys| ==>
          (HasEdge(rows[i], b, u) <==> edge(keys[i], keys[b], u)))
  }

  lemma RowsPush(keys: seq<SymbolKey>, rows: seq<seq<Edge>>, source: nat, e: Edge,
                 edge: (SymbolKey, SymbolKey, UsageKind) -> bool, more: (SymbolKey, SymbolKey, UsageKind) -> bool)
    requires RowsMatch(keys, rows, edge) && Distinct(keys) && source < |keys| && e.target < |keys|
    requires forall a, b, u :: a in keys && b in keys ==>
               (more(a, b, u) <==> edge(a, b, u) || (a == keys[source] && b == keys[e.target] && u == e.targetUsage))
    ensures RowsMatch(keys, rows[source := rows[source] + [e]], more)
  {
    var pushed := rows[source := rows[source] + [e]];
    forall i, b, u | 0 <= i < |keys| && 0 <= b < |keys|
      ensures HasEdge(pushed[i], b, u) <==> more(keys[i], keys[b], u)
    {
      HasEdgePush(rows[source], e, b, u);
      assert HasEdge(rows[i], b, u) <==> edge(keys[i], keys[b], u);
    }
  }

  lemma RowsSame(keys: seq<SymbolKey>, rows: seq<seq<Edge>>,
                 edge: (SymbolKey, SymbolKey, UsageKind) -> bool, other: (SymbolKey, SymbolKey, UsageKind) -> bool)
    requires RowsMatch(keys, rows, edge)
    requires forall a, b, u :: a in keys && b in keys ==> (edge(a, b, u) <==> other(a, b, u))
    ensures RowsMatch(keys, rows, other)
  {
    forall i, b, u | 0 <= i < |keys| && 0 <= b < |keys|
      ensures HasEdge(rows[i], b, u) <==> other(keys[i], keys[b], u)
    {
      assert HasEdge(rows[i], b, u) <==> edge(keys[i], keys[b], u);
    }
  }

  /** Adds the edges of references that a symbol owns. */
  method AddReferences(files: seq<FileFacts>, keys: seq<SymbolKey>, nodeByKey: map<SymbolKey, nat>)
    returns (rows: seq<seq<Edge>>)
    requires NumbersSymbols(files, keys, nodeByKey)
    ensures RowsMatch(keys, rows, (a, b, u) => FromReferences(files, |files|, a, b, u))
  {
    rows := seq(|keys|, _ => []);
    for file := 0 to |files|
      invariant RowsMatch(keys, rows, (a, b, u) => FromReferences(files, file, a, b, u))
    {
      var refs := files[file].references;
      ghost var upTo := (n: nat) requires n <= |refs| => (a: SymbolKey, b: SymbolKey, u: UsageKind) =>
        FromReferences(files, file, a, b, u) ||
        (a.file == file == b.file && n <= |refs| && ReferenceEdge(refs[..n], a.symbol, b.symbol, u));
      RowsSame(keys, rows, (a, b, u) => FromReferences(files, file, a, b, u), upTo(0));
      for r := 0 to |refs|
        invariant RowsMatch(keys, rows, upTo(r))
      {
        var reference := refs[r];
        forall a, b, u
          ensures upTo(r + 1)(a, b, u) <==>
                  upTo(r)(a, b, u) ||
                  (a.file == file == b.file && reference.owner == OwnedBySymbol(a.symbol)
                   && reference.target == b.symbol && reference.usage == u)
        {
          ReferenceEdgePush(refs, r, a.symbol, b.symbol, u);
        }
        var target := SymbolKey(file, reference.target);
        if reference.owner.OwnedBySymbol? && SymbolKey(file, reference.owner.symbol) in nodeByKey &&
          target in nodeByKey {
          var source := nodeByKey[SymbolKey(file, reference.owner.symbol)];
          var edge := Edge(reference.usage, nodeByKey[target], reference.usage);
          RowsPush(keys, rows, source, edge, upTo(r), upTo(r + 1));
          rows := rows[source := rows[source] + [edge]];
        } else {
          RowsSame(keys, rows, upTo(r), upTo(r + 1));
        }
      }
      assert refs[..|refs|] == refs;
      RowsSame(keys, rows, upTo(|refs|), (a, b, u) => FromReferences(files, file + 1, a, b, u));
    }
  }

  /** Adds the edges of links whose two ends are declared, then arranges each row. */
  method BuildOutgoing(input: Input, keys: seq<SymbolKey>, nodeByKey: map<SymbolKey, nat>)
    returns (outgoing: seq<seq<Edge>>)
    requires NumbersSymbols(input.files, keys, nodeByKey)
    ensures RowsMatch(keys, outgoing, (a, b, u) => SymbolEdge(input, a, b, u))
  {
    outgoing := AddReferences(input.files, keys, nodeByKey);
    ghost var upTo := (n: nat) => (a: SymbolKey, b: SymbolKey, u: UsageKind) =>
      FromReferences(input.files, |input.files|, a, b, u) ||
      (n <= |input.links| && LinkEdge(input.links[..n], a, b, u));
    RowsSame(keys, outgoing, (a, b, u) => FromReferences(input.files, |input.files|, a, b, u), upTo(0));
    for n := 0 to |input.links|
      invariant RowsMatch(keys, outgoing, upTo(n))
    {
      var link := input.links[n];
      forall a, b, u
        ensures upTo(n + 1)(a, b, u) <==>
                upTo(n)(a, b, u) || (link.source == a && link.target == b && link.targetUsage == u)
      {
        LinkEdgePush(input.links, n, a, b, u);
      }
      if link.source in nodeByKey && link.target in nodeByKey {
        var source := nodeByKey[link.source];
        var edge := Edge(link.sourceUsage, nodeByKey[link.target], link.targetUsage);
        RowsPush(keys, outgoing, source, edge, upTo(n), upTo(n + 1));
        outgoing := outgoing[source := outgoing[source] + [edge]];
      } else {
        RowsSame(keys, outgoing, upTo(n), upTo(n + 1));
      }
    }
    assert input.links[..|input.links|] == input.links;
    RowsSame(keys, outgoing, upTo(|input.links|), (a, b, u) => SymbolEdge(input, a, b, u));
    ghost var filled := outgoing;
    for i := 0 to |outgoing|
      invariant |outgoing| == |filled|
      invariant forall k :: 0 <= k < |filled| ==>
        outgoing[k] == if k < i then Dedup(Sort(EdgeLeq, filled[k])) else filled[k]
    {
      outgoing := outgoing[i := Dedup(Sort(EdgeLeq, outgoing[i]))];
    }
    RowsArranged(keys, filled, outgoing, (a, b, u) => SymbolEdge(input, a, b, u));
  }

  lemma RowsArranged(keys: seq<SymbolKey>, filled: seq<seq<Edge>>, rows: seq<seq<Edge>>,
                     edge: (SymbolKey, SymbolKey, UsageKind) -> bool)
    requires RowsMatch(keys, filled, edge)
    requires |rows| == |filled| && forall k :: 0 <= k < |filled| ==> rows[k] == Dedup(Sort(EdgeLeq, filled[k]))
    ensures RowsMatch(keys, rows, edge)
  {
    forall i, b, u | 0 <= i < |keys| && 0 <= b < |keys|
      ensures HasEdge(rows[i], b, u) <==> edge(keys[i], keys[b], u)
    {
      HasEdgeArranged(filled[i], b, u);
      assert HasEdge(filled[i], b, u) <==> edge(keys[i], keys[b], u);
    }
    forall i, e | 0 <= i < |rows| && e in rows[i]
      ensures e.target < |keys|
    {
      SortElements(EdgeLeq, filled[i], e);
      DedupElements(Sort(EdgeLeq, filled[i]), e);
    }
  }

  // ----- eager regions -----

  /** One row per region number; parents that no region has are skipped. */
  method EagerChildren(regions: seq<RegionFact>) returns (eagerChildren: Adjacency)
    ensures |eagerChildren| > MODULE_REGION && InRange(eagerChildren)
    ensures forall p: nat, c: nat :: p < |eagerChildren| ==>
      (c in eagerChildren[p] <==> (p, c) in EagerEdges(regions))
  {
    var count := 1;
    for i := 0 to |regions|
      invariant count >= 1 && forall k :: 0 <= k < i ==> regions[k].id < count
    {
      if regions[i].id >= count {
        count := regions[i].id + 1;
      }
    }
    eagerChildren := seq(count, _ => []);
    for i := 0 to |regions|
      invariant |eagerChildren| == count && InRange(eagerChildren)
      invariant forall p: nat, c: nat :: p < count ==>
        (c in eagerChildren[p] <==> (p, c) in EagerEdges(regions[..i]))
    {
      var region := regions[i];
      assert regions[..i + 1] == regions[..i] + [region];
      assert EagerEdges(regions[..i + 1]) == EagerEdges(regions[..i]) +
        if region.eager && region.parent.Some? then {(region.parent.value, region.id)} else {};
      if region.eager && region.parent.Some? && region.parent.value < |eagerChildren| {
        var parent := region.parent.value;
        eagerChildren := eagerChildren[parent := eagerChildren[parent] + [region.id]];
      }
    }
    assert regions[..|regions|] == regions;
  }

  method ActiveEagerRegions(regions: seq<RegionFact>) returns (active: seq<bool>)
    ensures forall r: nat :: FileFlag(active, r) <==> Active(regions, r)
  {
    var eagerChildren := EagerChildren(regions);
    var count := |eagerChildren|;
    active := seq(count, _ => false);
    active := active[MODULE_REGION := true];
    ghost var edges := EagerEdges(regions);
    var queue: seq<nat> := [MODULE_REGION];
    ghost var done: set<nat> := {};
    while queue != []
      invariant |active| == count && MODULE_REGION in Marked(active)
      invariant forall s :: Seeds(edges, [MODULE_REGION], s) ==> Marked(active) <= s
      invariant forall x :: x in Marked(active) <==> x in done || x in queue
      invariant forall e <- edges :: e.0 in done ==> e.1 in Marked(active)
      decreases Unvisited(active), |queue|
    {
      var parent := queue[0];
      ghost var was, waiting := active, |queue|;
      assert parent in queue && queue == [parent] + queue[1..];
      queue := queue[1..];
      done := done + {parent};
      for c := 0 to |eagerChildren[parent]|
        invariant |active| == count && Marked(was) <= Marked(active)
        invariant forall s :: Seeds(edges, [MODULE_REGION], s) ==> Marked(active) <= s
        invariant forall x :: x in Marked(active) <==> x in done || x in queue
        invariant forall k :: 0 <= k < c ==> eagerChildren[parent][k] in Marked(active)
        invariant Unvisited(active) < Unvisited(was) || (active == was && |queue| < waiting)
      {
        var child := eagerChildren[parent][c];
        assert child in eagerChildren[parent];
        assert (parent, child) in edges && child < count;
        if !active[child] {
          assert child in Unvisited(active);
          active := active[child := true];
          queue := queue + [child];
        }
      }
    }
    LeastSeedIsReached(edges, [MODULE_REGION], Marked(active), count);
    forall r: nat
      ensures r in Marked(active) <==> Active(regions, r)
    {
      assert MODULE_REGION in [MODULE_REGION];
      assert r in Marked(active) <==> Reached(edges, [MODULE_REGION], r);
    }
  }

  // ----- marking -----

  datatype Lanes = Lanes(runtime: bool, types: bool)

  predicate InLane(lanes: Lanes, u: UsageKind) {
    if u == Runtime then lanes.runtime else lanes.types
  }

  type State = (nat, UsageKind)

  ghost function Flagged(reachable: seq<Lanes>): (r: set<State>)
    ensures forall n: nat, u :: (n, u) in r <==> n < |reachable| && InLane(reachable[n], u)
  {
    set n: nat, u: UsageKind | n < |reachable| && InLane(reachable[n], u) :: (n, u)
  }

  ghost function Unflagged(reachable: seq<Lanes>): (r: set<State>)
    ensures forall n: nat, u :: (n, u) in r <==> n < |reachable| && !InLane(reachable[n], u)
  {
    set n: nat, u: UsageKind | n < |reachable| && !InLane(reachable[n], u) :: (n, u)
  }

  method MarkNodeReachable(reachable0: seq<Lanes>, queue0: seq<State>, node: nat, usage: UsageKind)
    returns (reachable: seq<Lanes>, queue: seq<State>)
    requires node < |reachable0|
    ensures |reachable| == |reachable0|
    ensures Flagged(reachable) == Flagged(reachable0) + {(node, usage)}
    ensures queue == if (node, usage) in Flagged(reachable0) then queue0 else queue0 + [(node, usage)]
    ensures if (node, usage) in Flagged(reachable0) then reachable == reachable0
            else Unflagged(reachable) < Unflagged(reachable0)
  {
    assert (node, usage) in Flagged(reachable0) <==> (node, usage) !in Unflagged(reachable0);
    reachable, queue := reachable0, queue0;
    if !InLane(reachable[node], usage) {
      var lanes := reachable[node];
      reachable := reachable[node := if usage == Runtime then lanes.(runtime := true) else lanes.(types := true)];
      queue := queue + [(node, usage)];
    }
  }

  /** Exactly the nodes whose keys satisfy `root` are marked, and all of them wait in the queue. */
  ghost predicate RootsMatch(keys: seq<SymbolKey>, reachable: seq<Lanes>, queue: seq<State>,
                             root: (SymbolKey, UsageKind) -> bool) {
    && |reachable| == |keys|
    && (forall n, u {:trigger InLane(reachable[n], u)} :: 0 <= n < |keys| ==>
          (InLane(reachable[n], u) <==> root(keys[n], u)))
    && (forall s :: s in queue <==> s in Flagged(reachable))
  }

  lemma RootsSame(keys: seq<SymbolKey>, reachable: seq<Lanes>, queue: seq<State>,
                  root: (SymbolKey, UsageKind) -> bool, other: (SymbolKey, UsageKind) -> bool)
    requires RootsMatch(keys, reachable, queue, root)
    requires forall k, u :: k in keys ==> (root(k, u) <==> other(k, u))
    ensures RootsMatch(keys, reachable, queue, other)
  {
  }

  /** Marks a key, unless no file declares it. */
  method MarkReachable(keys: seq<SymbolKey>, nodeByKey: map<SymbolKey, nat>, reachable0: seq<Lanes>, queue0: seq<State>,
                       key: SymbolKey, usage: UsageKind,
                       ghost root: (SymbolKey, UsageKind) -> bool, ghost more: (SymbolKey, UsageKind) -> bool)
    returns (reachable: seq<Lanes>, queue: seq<State>)
    requires Distinct(keys) && forall k :: k in nodeByKey <==> k in keys
    requires forall k :: k in nodeByKey ==> nodeByKey[k] < |keys| && keys[nodeByKey[k]] == k
    requires RootsMatch(keys, reachable0, queue0, root)
    requires forall k, u :: k in keys ==> (more(k, u) <==> root(k, u) || (k == key && u == usage))
    ensures RootsMatch(keys, reachable, queue, more)
  {
    reachable, queue := reachable0, queue0;
    if key in nodeByKey {
      reachable, queue := MarkNodeReachable(reachable, queue, nodeByKey[key], usage);
      forall n, u | 0 <= n < |keys|
        ensures InLane(reachable[n], u) <==> more(keys[n], u)
      {
        assert (n, u) in Flagged(reachable) <==> InLane(reachable[n], u);
        assert InLane(reachable0[n], u) <==> root(keys[n], u);
      }
    }
  }

  lemma ReferenceRootPush(facts: FileFacts, refs: seq<ReferenceFact>, r: nat, symbol: nat, u: UsageKind)
    requires r < |refs|
    ensures ReferenceRoot(facts, refs[..r + 1], symbol, u) <==>
            ReferenceRoot(facts, refs[..r], symbol, u) ||
            (Active(facts.regions, refs[r].region) && refs[r].target == symbol && refs[r].usage == u)
  {
    assert refs[..r + 1] == refs[..r] + [refs[r]];
    assert refs[r] in refs[..r + 1];
    assert forall x :: x in refs[..r + 1] <==> x in refs[..r] || x == refs[r];
  }

  lemma ExportRootPush(facts: FileFacts, exports: seq<ExportBinding>, e: nat, symbol: nat, u: UsageKind)
    requires e < |exports|
    ensures ExportRoot(facts, exports[..e + 1], symbol, u) <==>
            ExportRoot(facts, exports[..e], symbol, u) || ExportLane(facts, exports[e], symbol, u)
  {
    assert exports[..e + 1] == exports[..e] + [exports[e]];
    assert exports[e] in exports[..e + 1];
    assert forall x :: x in exports[..e + 1] <==> x in exports[..e] || x == exports[e];
  }

  /** The roots that module execution gives one reachable file. */
  method MarkReferences(keys: seq<SymbolKey>, nodeByKey: map<SymbolKey, nat>, facts: FileFacts, file: nat,
                        reachable0: seq<Lanes>, queue0: seq<State>, ghost root: (SymbolKey, UsageKind) -> bool)
    returns (reachable: seq<Lanes>, queue: seq<State>)
    requires Distinct(keys) && forall k :: k in nodeByKey <==> k in keys
    requires forall k :: k in nodeByKey ==> nodeByKey[k] < |keys| && keys[nodeByKey[k]] == k
    requires RootsMatch(keys, reachable0, queue0, root)
    ensures RootsMatch(keys, reachable, queue, (k, u) =>
      root(k, u) || (k.file == file && ReferenceRoot(facts, facts.references, k.symbol, u)))
  {
    reachable, queue := reachable0, queue0;
    var activeRegions := ActiveEagerRegions(facts.regions);
    var refs := facts.references;
    ghost var upTo := (n: nat) => (k: SymbolKey, u: UsageKind) =>
      root(k, u) || (n <= |refs| && k.file == file && ReferenceRoot(facts, refs[..n], k.symbol, u));
    for r := 0 to |refs|
      invariant RootsMatch(keys, reachable, queue, upTo(r))
    {
      forall k: SymbolKey, u
        ensures ReferenceRoot(facts, refs[..r + 1], k.symbol, u) <==>
                ReferenceRoot(facts, refs[..r], k.symbol, u) ||
                (Active(facts.regions, refs[r].region) && refs[r].target == k.symbol && refs[r].usage == u)
      {
        ReferenceRootPush(facts, refs, r, k.symbol, u);
      }
      assert FileFlag(activeRegions, refs[r].region) <==> Active(facts.regions, refs[r].region);
      if FileFlag(activeRegions, refs[r].region) {
        reachable, queue := MarkReachable(keys, nodeByKey, reachable, queue, SymbolKey(file, refs[r].target),
                                          refs[r].usage, upTo(r), upTo(r + 1));
      } else {
        RootsSame(keys, reachable, queue, upTo(r), upTo(r + 1));
      }
    }
    assert refs[..|refs|] == refs;
    RootsSame(keys, reachable, queue, upTo(|refs|), (k, u) =>
      root(k, u) || (k.file == file && ReferenceRoot(facts, facts.references, k.symbol, u)));
  }

  lemma LanesOfLocal(facts: FileFacts, e: ExportBinding, file: nat, k: SymbolKey, u: UsageKind)
    requires e.local.Some?
    ensures k.file == file && ExportLane(facts, e, k.symbol, u) <==>
            k == SymbolKey(file, e.local.value) && ExportLane(facts, e, e.local.value, u)
  {
  }

  /** The roots that one export of a public file gives. */
  method MarkExport(keys: seq<SymbolKey>, nodeByKey: map<SymbolKey, nat>, facts: FileFacts, file: nat,
                    binding: ExportBinding,
                    reachable0: seq<Lanes>, queue0: seq<State>,
                    ghost root: (SymbolKey, UsageKind) -> bool, ghost more: (SymbolKey, UsageKind) -> bool)
    returns (reachable: seq<Lanes>, queue: seq<State>)
    requires Distinct(keys) && forall k :: k in nodeByKey <==> k in keys
    requires forall k :: k in nodeByKey ==> nodeByKey[k] < |keys| && keys[nodeByKey[k]] == k
    requires RootsMatch(keys, reachable0, queue0, root)
    requires forall k, u :: more(k, u) <==> root(k, u) || (k.file == file && ExportLane(facts, binding, k.symbol, u))
    ensures RootsMatch(keys, reachable, queue, more)
  {
    if binding.local.None? {
      RootsSame(keys, reachable0, queue0, root, more);
      return reachable0, queue0;
    }
    var key := SymbolKey(file, binding.local.value);
    forall k: SymbolKey, u
      ensures more(k, u) <==> root(k, u) || (k == key && ExportLane(facts, binding, key.symbol, u))
    {
      LanesOfLocal(facts, binding, file, k, u);
    }
    if binding.typeOnly {
      reachable, queue := MarkReachable(keys, nodeByKey, reachable0, queue0, key, Type, root, more);
      return;
    }
    ghost var both := (k: SymbolKey, u: UsageKind) => root(k, u) || (k == key && u == Runtime);
    reachable, queue := MarkReachable(keys, nodeByKey, reachable0, queue0, key, Runtime, root, both);
    var symbol := SymbolAt(facts.symbols, binding.local.value);
    if symbol.Some? && symbol.value.namespace != RuntimeOnly {
      reachable, queue := MarkReachable(keys, nodeByKey, reachable, queue, key, Type, both, more);
    } else {
      RootsSame(keys, reachable, queue, both, more);
    }
  }

  /** The roots that a public file gives by its exports. */
  method MarkExports(keys: seq<SymbolKey>, nodeByKey: map<SymbolKey, nat>, facts: FileFacts, file: nat,
                     reachable0: seq<Lanes>, queue0: seq<State>, ghost root: (SymbolKey, UsageKind) -> bool)
    returns (reachable: seq<Lanes>, queue: seq<State>)
    requires Distinct(keys) && forall k :: k in nodeByKey <==> k in keys
    requires forall k :: k in nodeByKey ==> nodeByKey[k] < |keys| && keys[nodeByKey[k]] == k
    requires RootsMatch(keys, reachable0, queue0, root)
    ensures RootsMatch(keys, reachable, queue, (k, u) =>
      root(k, u) || (k.file == file && ExportRoot(facts, facts.exports, k.symbol, u)))
  {
    reachable, queue := reachable0, queue0;
    var exports := facts.exports;
    ghost var upTo := (n: nat) => (k: SymbolKey, u: UsageKind) =>
      root(k, u) || (n <= |exports| && k.file == file && ExportRoot(facts, exports[..n], k.symbol, u));
    for e := 0 to |exports|
      invariant RootsMatch(keys, reachable, queue, upTo(e))
    {
      forall k: SymbolKey, u
        ensures upTo(e + 1)(k, u) <==> upTo(e)(k, u) || (k.file == file && ExportLane(facts, exports[e], k.symbol, u))
      {
        ExportRootPush(facts, exports, e, k.symbol, u);
      }
      reachable, queue := MarkExport(keys, nodeByKey, facts, file, exports[e], reachable, queue, upTo(e), upTo(e + 1));
    }
    assert exports[..|exports|] == exports;
    RootsSame(keys, reachable, queue, upTo(|exports|), (k, u) =>
      root(k, u) || (k.file == file && ExportRoot(facts, facts.exports, k.symbol, u)));
  }

  method MarkRoots(input: Input, keys: seq<SymbolKey>, nodeByKey: map<SymbolKey, nat>)
    returns (reachable: seq<Lanes>, queue: seq<State>)
    requires NumbersSymbols(input.files, keys, nodeByKey)
    ensures RootsMatch(keys, reachable, queue, (k, u) => IsRoot(input, k, u))
  {
    reachable := seq(|keys|, _ => Lanes(false, false));
    queue := [];
    var roots := input.explicitRoots;
    ghost var upTo := (n: nat) => (k: SymbolKey, u: UsageKind) => n <= |roots| && SymbolRoot(k, u) in roots[..n];
    for r := 0 to |roots|
      invariant RootsMatch(keys, reachable, queue, upTo(r))
    {
      assert roots[..r + 1] == roots[..r] + [roots[r]];
      reachable, queue := MarkReachable(keys, nodeByKey, reachable, queue, roots[r].symbol, roots[r].usage,
                                        upTo(r), upTo(r + 1));
    }
    assert roots[..|roots|] == roots;
    ghost var before := (n: nat) => (k: SymbolKey, u: UsageKind) =>
      SymbolRoot(k, u) in roots || (k.file < n && k.file < |input.files| && FileRoot(input, k, u));
    RootsSame(keys, reachable, queue, upTo(|roots|), before(0));
    for file := 0 to |input.files|
      invariant RootsMatch(keys, reachable, queue, before(file))
    {
      var facts := input.files[file];
      forall k: SymbolKey, u
        ensures before(file + 1)(k, u) <==> before(file)(k, u) || (k.file == file && FileRoot(input, k, u))
      {
      }
      if !FileFlag(input.reachableFiles, file) {
        RootsSame(keys, reachable, queue, before(file), before(file + 1));
        continue;
      }
      reachable, queue := MarkReferences(keys, nodeByKey, facts, file, reachable, queue, before(file));
      ghost var run := (k: SymbolKey, u: UsageKind) =>
        before(file)(k, u) || (k.file == file && ReferenceRoot(facts, facts.references, k.symbol, u));
      RootsSame(keys, reachable, queue, (k, u) =>
        before(file)(k, u) || (k.file == file && ReferenceRoot(facts, facts.references, k.symbol, u)), run);
      if !FileFlag(input.openWorldFiles, file) {
        RootsSame(keys, reachable, queue, run, before(file + 1));
        continue;
      }
      reachable, queue := MarkExports(keys, nodeByKey, facts, file, reachable, queue, run);
      RootsSame(keys, reachable, queue, (k, u) =>
        run(k, u) || (k.file == file && ExportRoot(facts, facts.exports, k.symbol, u)), before(file + 1));
    }
    RootsSame(keys, reachable, queue, before(|input.files|), (k, u) => IsRoot(input, k, u));
  }

  // ----- propagation -----

  /** `t` holds the targets of every edge whose source it holds in any lane. */
  ghost predicate FollowsEdges(outgoing: seq<seq<Edge>>, t: set<State>) {
    forall n, w, e :: (n, w) in t && n < |outgoing| && e in outgoing[n] ==> (e.target, e.targetUsage) in t
  }

  ghost function Targets(row: seq<Edge>): (r: set<State>)
    ensures forall e :: e in row ==> (e.target, e.targetUsage) in r
  {
    set e | e in row :: (e.target, e.targetUsage)
  }

  /** Marks the targets of one node; what was not marked before joins the queue. */
  method MarkTargets(row: seq<Edge>, reachable0: seq<Lanes>, queue0: seq<State>)
    returns (reachable: seq<Lanes>, queue: seq<State>)
    requires forall e :: e in row ==> e.target < |reachable0|
    ensures |reachable| == |reachable0|
    ensures Flagged(reachable) == Flagged(reachable0) + Targets(row)
    ensures forall s :: s in queue <==> s in queue0 || (s in Flagged(reachable) && s !in Flagged(reachable0))
    ensures Unflagged(reachable) < Unflagged(reachable0) || (reachable == reachable0 && |queue| == |queue0|)
  {
    reachable, queue := reachable0, queue0;
    for i := 0 to |row|
      invariant |reachable| == |reachable0|
      invariant Flagged(reachable) == Flagged(reachable0) + Targets(row[..i])
      invariant forall s :: s in queue <==> s in queue0 || (s in Flagged(reachable) && s !in Flagged(reachable0))
      invariant Unflagged(reachable) < Unflagged(reachable0) || (reachable == reachable0 && |queue| == |queue0|)
    {
      assert row[..i + 1] == row[..i] + [row[i]];
      assert Targets(row[..i + 1]) == Targets(row[..i]) + {(row[i].target, row[i].targetUsage)};
      reachable, queue := MarkNodeReachable(reachable, queue, row[i].target, row[i].targetUsage);
    }
    assert row[..|row|] == row;
  }

  method Propagate(outgoing: seq<seq<Edge>>, reachable0: seq<Lanes>, queue0: seq<State>) returns (reachable: seq<Lanes>)
    requires |outgoing| == |reachable0|
    requires forall i, e :: 0 <= i < |outgoing| && e in outgoing[i] ==> e.target < |outgoing|
    requires forall s :: s in queue0 <==> s in Flagged(reachable0)
    ensures |reachable| == |reachable0|
    ensures FollowsEdges(outgoing, Flagged(reachable)) && Flagged(reachable0) <= Flagged(reachable)
    ensures forall t :: FollowsEdges(outgoing, t) && Flagged(reachable0) <= t ==> Flagged(reachable) <= t
  {
    reachable := reachable0;
    var queue := queue0;
    ghost var done: set<State> := {};
    while queue != []
      invariant |reachable| == |reachable0| && Flagged(reachable0) <= Flagged(reachable)
      invariant forall t :: FollowsEdges(outgoing, t) && Flagged(reachable0) <= t ==> Flagged(reachable) <= t
      invariant forall s :: s in Flagged(reachable) <==> s in done || s in queue
      invariant forall s :: s in done && s.0 < |outgoing| ==> Targets(outgoing[s.0]) <= Flagged(reachable)
      decreases Unflagged(reachable), |queue|
    {
      var state := queue[0];
      assert state in queue && queue == [state] + queue[1..];
      queue := queue[1..];
      done := done + {state};
      forall t | FollowsEdges(outgoing, t) && Flagged(reachable0) <= t
        ensures Targets(outgoing[state.0]) <= t
      {
        assert Flagged(reachable) <= t;
        assert (state.0, state.1) in t;
      }
      reachable, queue := MarkTargets(outgoing[state.0], reachable, queue);
    }
    assert forall n: nat, w, e :: (n, w) in Flagged(reachable) && n < |outgoing| && e in outgoing[n] ==>
      (e.target, e.targetUsage) in Targets(outgoing[(n, w).0]);
  }

  ghost function LiveOf(keys: seq<SymbolKey>, reachable: seq<Lanes>): (r: LiveSet)
    requires |keys| == |reachable|
    ensures forall k, u :: (k, u) in r <==> exists n :: 0 <= n < |keys| && keys[n] == k && InLane(reachable[n], u)
  {
    set n: nat, u: UsageKind | n < |keys| && InLane(reachable[n], u) :: (keys[n], u)
  }

  /** The nodes of a set of symbols. */
  ghost function NodesOf(keys: seq<SymbolKey>, t: LiveSet): (r: set<State>)
    ensures forall n: nat, u :: (n, u) in r <==> n < |keys| && (keys[n], u) in t
  {
    set n: nat, u: UsageKind | n < |keys| && (keys[n], u) in t :: (n, u)
  }

  lemma LeastNodesAreLiveness(input: Input, keys: seq<SymbolKey>, nodeByKey: map<SymbolKey, nat>,
                              outgoing: seq<seq<Edge>>, roots: seq<Lanes>, reachable: seq<Lanes>)
    requires NumbersSymbols(input.files, keys, nodeByKey)
    requires |keys| == |reachable| == |roots|
    requires RowsMatch(keys, outgoing, (a, b, u) => SymbolEdge(input, a, b, u))
    requires forall n, u :: 0 <= n < |keys| ==> (InLane(roots[n], u) <==> IsRoot(input, keys[n], u))
    requires FollowsEdges(outgoing, Flagged(reachable)) && Flagged(roots) <= Flagged(reachable)
    requires forall t :: FollowsEdges(outgoing, t) && Flagged(roots) <= t ==> Flagged(reachable) <= t
    ensures IsLiveness(input, LiveOf(keys, reachable))
  {
    var live := LiveOf(keys, reachable);
    forall k, u | IsRoot(input, k, u)
      ensures (k, u) in live
    {
      var n := nodeByKey[k];
      assert (n, u) in Flagged(roots);
    }
    forall a, w, b, u | (a, w) in live && SymbolEdge(input, a, b, u)
      ensures (b, u) in live
    {
      var n, m := nodeByKey[a], nodeByKey[b];
      assert HasEdge(outgoing[n], m, u);
      var e :| e in outgoing[n] && e.target == m && e.targetUsage == u;
      var i :| 0 <= i < |keys| && keys[i] == a && InLane(reachable[i], w);
      assert i == n && (n, w) in Flagged(reachable);
      assert (m, u) in Flagged(reachable);
    }
    forall t | KeepsAlive(input, t)
      ensures live <= t
    {
      var nodes := NodesOf(keys, t);
      assert FollowsEdges(outgoing, nodes) by {
        forall n, w, e | (n, w) in nodes && n < |outgoing| && e in outgoing[n]
          ensures (e.target, e.targetUsage) in nodes
        {
          assert HasEdge(outgoing[n], e.target, e.targetUsage);
          assert SymbolEdge(input, keys[n], keys[e.target], e.targetUsage);
        }
      }
      forall s | s in Flagged(roots)
        ensures s in nodes
      {
        assert InLane(roots[s.0], s.1);
      }
      assert Flagged(reachable) <= nodes;
    }
  }

  /** Which symbols are live, by node: the least fixpoint of roots and edges. */
  method MarkLive(input: Input, keys: seq<SymbolKey>, nodeByKey: map<SymbolKey, nat>, outgoing: seq<seq<Edge>>)
    returns (reachable: seq<Lanes>)
    requires NumbersSymbols(input.files, keys, nodeByKey)
    requires RowsMatch(keys, outgoing, (a, b, u) => SymbolEdge(input, a, b, u))
    ensures |reachable| == |keys| && IsLiveness(input, LiveOf(keys, reachable))
  {
    var roots, queue := MarkRoots(input, keys, nodeByKey);
    reachable := Propagate(outgoing, roots, queue);
    LeastNodesAreLiveness(input, keys, nodeByKey, outgoing, roots, reachable);
  }
}
