/**
 What keeps a symbol alive and what the symbol analysis reports, stated on the fields of
 the files alone.  Results about a report take what `AnalyzeSymbols` promises of it.
 */
module SymbolLaws {
  import opened Common
  import opened DeadSymbols
  import opened Facts
  import opened Paths
  import opened Sorting
  import opened SymbolLiveness
  import opened SymbolSafety

  /** A file that counts as reachable. */
  predicate IsReached(input: Input, file: nat) {
    file < |input.reachableFiles| && input.reachableFiles[file]
  }

  /** Direct eval or a dynamic scope may use any declaration of the file. */
  predicate MayUseAnything(facts: FileFacts) {
    DirectEval in facts.guards || DynamicScope in facts.guards
  }

  /** Computed or opaque CommonJS exports may export any name of the file. */
  predicate MayExportAnything(facts: FileFacts) {
    ComputedCommonJsExport in facts.guards || OpaqueCommonJsExports in facts.guards
  }

  /** Declarations that are worth a report: no ambient ones, no parameter properties, and none of four kinds. */
  predicate IsWorthReporting(s: SymbolFact) {
    && !s.ambient && !s.parameterProperty
    && s.kind != CatchBinding && s.kind != EnumMember && s.kind != TypeParameter && s.kind != Unknown
  }

  /** A file whose exports count as used from outside. */
  predicate IsPublic(input: Input, file: nat) {
    file < |input.openWorldFiles| && input.openWorldFiles[file]
  }

  // ----- what is live -----

  /** A reference that symbol `a` owns names symbol `b` in this lane. */
  predicate RefersTo(facts: FileFacts, a: nat, b: nat, u: UsageKind) {
    exists r :: r in facts.references && r.owner == OwnedBySymbol(a) && r.target == b && r.usage == u
  }

  predicate IsLinked(links: seq<Link>, a: SymbolKey, b: SymbolKey, u: UsageKind) {
    exists l :: l in links && l.source == a && l.target == b && l.targetUsage == u
  }

  /** A declared symbol keeps another alive by a reference it owns in their file, or by a link. */
  lemma EdgeByFields(input: Input, a: SymbolKey, b: SymbolKey, u: UsageKind)
    requires a.file < |input.files| && b.file < |input.files|
    requires exists s :: s in input.files[a.file].symbols && s.id == a.symbol
    requires exists s :: s in input.files[b.file].symbols && s.id == b.symbol
    ensures SymbolEdge(input, a, b, u) <==>
              || (a.file == b.file && RefersTo(input.files[a.file], a.symbol, b.symbol, u))
              || IsLinked(input.links, a, b, u)
  {
  }

  /** A binding gives its local symbol to the outside: a type only as a type, a value also as one if it is one. */
  predicate IsGiven(e: ExportBinding, s: SymbolFact, u: UsageKind) {
    e.local == Some(s.id) && (u == Type ==> e.typeOnly || s.namespace != RuntimeOnly) && (u == Runtime ==> !e.typeOnly)
  }

  /** A reference in a region that runs with the file names the symbol in this lane. */
  ghost predicate RunsOver(facts: FileFacts, symbol: nat, u: UsageKind) {
    exists r :: r in facts.references && Active(facts.regions, r.region) && r.target == symbol && r.usage == u
  }

  /**
   A symbol is a root when it is listed as one, or its file is reached and either code
   that runs with the file refers to it, or the file is public and gives it to the outside.
   */
  lemma RootByFields(input: Input, key: SymbolKey, s: SymbolFact, u: UsageKind)
    requires UniqueIds(input.files) && key.file < |input.files|
    requires s in input.files[key.file].symbols && s.id == key.symbol
    ensures var facts := input.files[key.file];
            IsRoot(input, key, u) <==>
              || SymbolRoot(key, u) in input.explicitRoots
              || (IsReached(input, key.file) && RunsOver(facts, key.symbol, u))
              || (IsReached(input, key.file) && IsPublic(input, key.file) &&
                  exists e :: e in facts.exports && IsGiven(e, s, u))
  {
    var facts := input.files[key.file];
    SymbolIsFound(facts.symbols, s);
    forall e
      ensures ExportLane(facts, e, key.symbol, u) <==> IsGiven(e, s, u)
    {
    }
    assert Declares(input.files, key);
  }

  lemma {:induction false} SymbolIsFound(symbols: seq<SymbolFact>, s: SymbolFact)
    requires s in symbols && forall i, j :: 0 <= i < j < |symbols| ==> symbols[i].id != symbols[j].id
    ensures SymbolAt(symbols, s.id) == Some(s)
    decreases |symbols|
  {
    var t := SymbolAt(symbols, s.id).value;
    var i :| 0 <= i < |symbols| && symbols[i] == s;
    var j :| 0 <= j < |symbols| && symbols[j] == t;
  }

  /** An eager region whose parent is active. */
  ghost predicate HasActiveParent(regions: seq<RegionFact>, region: nat) {
    exists r :: r in regions && r.eager && r.parent.Some? && r.id == region && Active(regions, r.parent.value)
  }

  /** A region is active when it is region 0, or an eager child of an active one. */
  lemma ActiveByRegion(regions: seq<RegionFact>, region: nat)
    ensures Active(regions, 0)
    ensures region != 0 ==> (Active(regions, region) <==> HasActiveParent(regions, region))
  {
    var edges := EagerEdges(regions);
    ReachesSelf(edges, 0);
    if r :| r in regions && r.eager && r.parent.Some? && r.id == region && Active(regions, r.parent.value) {
      ReachesStep(edges, MODULE_REGION, r.parent.value, r.id);
    }
    if Active(regions, region) && region != 0 {
      var p :| Connects(edges, p, MODULE_REGION, region);
      var front := p[..|p| - 1];
      assert Connects(edges, front, MODULE_REGION, p[|p| - 2]);
      var r :| r in regions && r.eager && r.parent.Some? && (r.parent.value, r.id) == (p[|p| - 2], region);
    }
  }

  /** The two flags of a node are its two lanes. */
  lemma LanesByFields(keys: seq<SymbolKey>, reachable: seq<Lanes>, n: nat)
    requires Distinct(keys) && |keys| == |reachable| && n < |keys|
    ensures (keys[n], Runtime) in LiveOf(keys, reachable) <==> reachable[n].runtime
    ensures (keys[n], Type) in LiveOf(keys, reachable) <==> reachable[n].types
  {
  }

  /** Outgoing edges are ordered by their own lane, their target, and the lane of the target; run time comes first. */
  lemma EdgeOrder(a: Edge, b: Edge)
    ensures EdgeLeq(a, b) && EdgeLeq(b, a) ==> a == b
    ensures a.sourceUsage == Runtime && b.sourceUsage == Type ==> EdgeLeq(a, b) && !EdgeLeq(b, a)
    ensures a.sourceUsage == b.sourceUsage && a.target < b.target ==> EdgeLeq(a, b) && !EdgeLeq(b, a)
    ensures a.sourceUsage == b.sourceUsage && a.target == b.target ==>
              (EdgeLeq(a, b) <==> a.targetUsage == Runtime || b.targetUsage == Type)
  {
  }

  // ----- what is reported -----

  /** The flags of a reached file say whether its guards let uses or exports go unseen. */
  lemma CompletenessByGuards(input: Input, live: LiveSet, f: nat, r: FileSymbols)
    requires f < |input.files| && ReportsLanes(input, live, f, r)
    ensures r.declarationsComplete <==> IsReached(input, f) ==> !MayUseAnything(input.files[f])
    ensures r.exportsComplete <==> IsReached(input, f) ==> !MayExportAnything(input.files[f])
  {
  }

  /** Every symbol of a file is reported under its id, as live in exactly the lanes in which it is. */
  lemma StatesByFields(input: Input, live: LiveSet, f: nat, r: FileSymbols, i: nat)
    requires f < |input.files| && ReportsLanes(input, live, f, r) && i < |input.files[f].symbols|
    ensures |r.symbols| == |input.files[f].symbols| && r.symbols[i].symbol == input.files[f].symbols[i].id
    ensures r.symbols[i].lanes.runtime <==> (SymbolKey(f, r.symbols[i].symbol), Runtime) in live
    ensures r.symbols[i].lanes.types <==> (SymbolKey(f, r.symbols[i].symbol), Type) in live
  {
  }

  lemma DeadByFields(input: Input, live: LiveSet, key: SymbolKey, s: SymbolFact)
    requires UniqueIds(input.files) && key.file < |input.files|
    requires s in input.files[key.file].symbols && s.id == key.symbol
    ensures IsDead(input, live, key) <==>
              IsReached(input, key.file) && !MayUseAnything(input.files[key.file])
              && (key, Runtime) !in live && (key, Type) !in live && IsWorthReporting(s)
  {
    SymbolIsFound(input.files[key.file].symbols, s);
  }

  /**
   A declared symbol is a member of a reported group exactly when its file is reached and
   lets no use go unseen, the symbol is live in no lane, and it is worth a report.
   */
  lemma ReportedByFields(input: Input, live: LiveSet, keys: seq<SymbolKey>, groups: seq<DeadSymbolGroup>,
                         key: SymbolKey, s: SymbolFact)
    requires UniqueIds(input.files) && forall k :: k in keys <==> Declares(input.files, k)
    requires AreDeadGroups(SymbolGraph(input, keys), keys, DeadNodes(input, live, keys), groups)
    requires key.file < |input.files| && s in input.files[key.file].symbols && s.id == key.symbol
    ensures !IsSpared(groups, key) <==>
              IsReached(input, key.file) && !MayUseAnything(input.files[key.file])
              && (key, Runtime) !in live && (key, Type) !in live && IsWorthReporting(s)
  {
    DeadByFields(input, live, key, s);
    assert Declares(input.files, key);
    var n: nat :| n < |keys| && keys[n] == key;
    if IsDead(input, live, key) {
      assert n in DeadNodes(input, live, keys);
    }
    if g :| g in groups && key in g.members {
      var i :| i in DeadNodes(input, live, keys) && i < |keys| && keys[i] == key;
    }
  }

  lemma MembersAreDeclared(input: Input, live: LiveSet, keys: seq<SymbolKey>, groups: seq<DeadSymbolGroup>)
    requires forall k :: k in keys <==> Declares(input.files, k)
    requires AreDeadGroups(SymbolGraph(input, keys), keys, DeadNodes(input, live, keys), groups)
    ensures forall g, k :: g in groups && k in g.members ==> Declares(input.files, k)
  {
    forall g, k | g in groups && k in g.members
      ensures Declares(input.files, k)
    {
      var i :| i in DeadNodes(input, live, keys) && i < |keys| && keys[i] == k;
    }
  }

  /** What a reached file declares is reported nowhere when eval or a dynamic scope may use it. */
  lemma GuardedFilesAreSpared(input: Input, live: LiveSet, keys: seq<SymbolKey>, result: AnalysisResult, f: nat,
                              key: SymbolKey)
    requires UniqueIds(input.files) && forall k :: k in keys <==> Declares(input.files, k)
    requires AreDeadGroups(SymbolGraph(input, keys), keys, DeadNodes(input, live, keys), result.deadGroups)
    requires f < |input.files| == |result.files| && ReportsLanes(input, live, f, result.files[f])
    requires IsReached(input, f) && key.file == f
    requires DirectEval in input.files[f].guards || DynamicScope in input.files[f].guards
    ensures IsSpared(result.deadGroups, key) && !result.files[f].declarationsComplete
  {
    CompletenessByGuards(input, live, f, result.files[f]);
    MembersAreDeclared(input, live, keys, result.deadGroups);
    if Declares(input.files, key) {
      var s :| s in input.files[f].symbols && s.id == key.symbol;
      ReportedByFields(input, live, keys, result.deadGroups, key, s);
    }
  }
}
