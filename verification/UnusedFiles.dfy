/**
 From the module graph to the unused-files findings of application/scan.rs:
 reachability, the blocker test, file statuses, and one finding per component.
 */
module UnusedFiles {
  import opened Common
  import opened Facts
  import opened FileGraphs
  import opened Paths
  import opened Reports

  predicate HasFatalDiagnostic(facts: FileFacts) {
    exists d :: d in facts.diagnostics && d.code in {"parse_failure", "semantic_failure", "unsupported_source_type"}
  }

  predicate BlocksReachability(facts: FileFacts) {
    exists d :: d in facts.diagnostics && d.blocksReachability
  }

  // ----- what is reported -----

  /** Some file that the entries reach cannot be analysed reliably. */
  ghost predicate Blocked(edges: Edges, entries: seq<nat>, facts: seq<FileFacts>) {
    exists f: nat :: f < |facts| && Reached(edges, entries, f) && BlocksReachability(facts[f])
  }

  ghost predicate IsUnused(edges: Edges, entries: seq<nat>, facts: seq<FileFacts>, f: nat) {
    f < |facts| && !Reached(edges, entries, f) && !HasFatalDiagnostic(facts[f])
  }

  /** The files that findings may name: none at all when a reachable file blocks. */
  ghost function ReportedFiles(edges: Edges, entries: seq<nat>, facts: seq<FileFacts>): (r: set<nat>)
    ensures forall f :: f in r <==> !Blocked(edges, entries, facts) && IsUnused(edges, entries, facts, f)
  {
    set f: nat | f < |facts| && !Blocked(edges, entries, facts) && IsUnused(edges, entries, facts, f)
  }

  function PathsOf(facts: seq<FileFacts>, files: seq<nat>): seq<string>
    requires forall f :: f in files ==> f < |facts|
  {
    seq(|files|, i requires 0 <= i < |files| => assert files[i] in files; facts[files[i]].path)
  }

  /** One finding for each component of the reported files, in component order. */
  ghost predicate AreFindings(edges: Edges, entries: seq<nat>, facts: seq<FileFacts>,
                              groups: seq<seq<nat>>, findings: seq<Finding>) {
    && IsComponentList(edges, ReportedFiles(edges, entries, facts), groups)
    && |findings| == |groups|
    && forall i :: 0 <= i < |groups| ==>
         && (forall f :: f in groups[i] ==> f < |facts|)
         && findings[i].paths == PathsOf(facts, groups[i])
         && findings[i].issueType == UNUSED_FILES
         && findings[i].eligibility == PreviewOnly
  }

  // ----- the steps -----

  method ClassifyFiles(facts: seq<FileFacts>, reachable: seq<bool>, hasReachableBlocker: bool)
    returns (statuses: seq<FileStatus>)
    requires |reachable| == |facts|
    ensures |statuses| == |facts|
    ensures forall f :: 0 <= f < |facts| ==>
      (statuses[f] == Unreachable <==> !reachable[f] && !hasReachableBlocker && !HasFatalDiagnostic(facts[f]))
    ensures forall f :: 0 <= f < |facts| ==>
      (statuses[f] == Reachable <==> reachable[f] && !HasFatalDiagnostic(facts[f]))
  {
    statuses := [];
    for f := 0 to |facts|
      invariant |statuses| == f
      invariant forall k :: 0 <= k < f ==>
        (statuses[k] == Unreachable <==> !reachable[k] && !hasReachableBlocker && !HasFatalDiagnostic(facts[k]))
      invariant forall k :: 0 <= k < f ==>
        (statuses[k] == Reachable <==> reachable[k] && !HasFatalDiagnostic(facts[k]))
    {
      var status :=
        if HasFatalDiagnostic(facts[f]) || (hasReachableBlocker && !reachable[f]) then Incomplete
        else if reachable[f] then Reachable
        else Unreachable;
      statuses := statuses + [status];
    }
  }

  method BuildFindings(graph: FileGraph, facts: seq<FileFacts>, statuses: seq<FileStatus>, hasReachableBlocker: bool)
    returns (findings: seq<Finding>, ghost groups: seq<seq<nat>>)
    requires InRange(graph.outgoing) && |graph.outgoing| == |facts| == |statuses|
    ensures hasReachableBlocker ==> groups == [] && findings == []
    ensures var nodes := set f: nat | f < |statuses| && statuses[f] == Unreachable;
            !hasReachableBlocker ==> IsComponentList(graph.EdgeSet(), nodes, groups)
    ensures |findings| == |groups|
    ensures forall i :: 0 <= i < |groups| ==>
      && (forall f :: f in groups[i] ==> f < |facts|)
      && findings[i].paths == PathsOf(facts, groups[i])
      && findings[i].issueType == UNUSED_FILES && findings[i].eligibility == PreviewOnly
  {
    findings, groups := [], [];
    if hasReachableBlocker {
      return;
    }
    var included := seq(|statuses|, f requires 0 <= f < |statuses| => statuses[f] == Unreachable);
    var components := graph.ComponentsWithin(included);
    groups := components;
    assert Marked(included) == set f: nat | f < |statuses| && statuses[f] == Unreachable;
    forall i, f | 0 <= i < |components| && f in components[i]
      ensures f < |facts|
    {
      assert components[i] in components && f in Marked(included);
    }
    for i := 0 to |components|
      invariant |findings| == i
      invariant forall k :: 0 <= k < i ==>
        findings[k].paths == PathsOf(facts, components[k])
        && findings[k].issueType == UNUSED_FILES && findings[k].eligibility == PreviewOnly
    {
      findings := findings + [
        Finding("ORP1001", UNUSED_FILES, ".", PathsOf(facts, components[i]), None, None, None,
                ["default"], High, PreviewOnly)];
    }
  }

  /** The unused-files findings of a whole scan. */
  method ScanFiles(graph: FileGraph, entries: seq<nat>, facts: seq<FileFacts>)
    returns (statuses: seq<FileStatus>, findings: seq<Finding>, ghost groups: seq<seq<nat>>)
    requires InRange(graph.outgoing) && |graph.outgoing| == |facts|
    requires forall e :: e in entries ==> e < |facts|
    ensures |statuses| == |facts|
    ensures forall f :: 0 <= f < |facts| ==>
      (statuses[f] == Unreachable <==> f in ReportedFiles(graph.EdgeSet(), entries, facts))
    ensures forall f :: 0 <= f < |facts| ==>
      (statuses[f] == Reachable <==> Reached(graph.EdgeSet(), entries, f) && !HasFatalDiagnostic(facts[f]))
    ensures AreFindings(graph.EdgeSet(), entries, facts, groups, findings)
  {
    ghost var edges := graph.EdgeSet();
    var reachable := graph.ReachableFromMany(entries);
    var hasReachableBlocker := exists f :: 0 <= f < |facts| && reachable[f] && BlocksReachability(facts[f]);
    assert hasReachableBlocker <==> Blocked(edges, entries, facts);
    statuses := ClassifyFiles(facts, reachable, hasReachableBlocker);
    findings, groups := BuildFindings(graph, facts, statuses, hasReachableBlocker);
    if !hasReachableBlocker {
      assert (set f: nat | f < |statuses| && statuses[f] == Unreachable) == ReportedFiles(edges, entries, facts);
    }
  }

  // ----- consequences -----

  /** No reachable file imports a reported one. */
  lemma NothingLiveLeadsToReported(edges: Edges, entries: seq<nat>, facts: seq<FileFacts>, f: nat, g: nat)
    requires Reached(edges, entries, f) && (f, g) in edges
    ensures g !in ReportedFiles(edges, entries, facts)
  {
    var e :| e in entries && Reaches(edges, e, f);
    ReachesStep(edges, e, f, g);
  }

  /** Entries are never reported. */
  lemma EntriesAreNotReported(edges: Edges, entries: seq<nat>, facts: seq<FileFacts>, e: nat)
    requires e in entries
    ensures e !in ReportedFiles(edges, entries, facts)
  {
    ReachesSelf(edges, e);
    assert Reached(edges, entries, e);
  }

  /** Further edges or entries only shrink what is reported. */
  lemma ReportedShrinks(edges: Edges, more: Edges, entries: seq<nat>, extra: seq<nat>, facts: seq<FileFacts>)
    requires edges <= more && forall e :: e in entries ==> e in extra
    ensures ReportedFiles(more, extra, facts) <= ReportedFiles(edges, entries, facts)
  {
    forall f | Reached(edges, entries, f)
      ensures Reached(more, extra, f)
    {
      ReachedMonotone(edges, more, entries, extra, f);
    }
  }

  /** The groups are disjoint and cover exactly the reported files. */
  lemma GroupsCoverReported(edges: Edges, entries: seq<nat>, facts: seq<FileFacts>,
                            groups: seq<seq<nat>>, findings: seq<Finding>, f: nat)
    requires AreFindings(edges, entries, facts, groups, findings)
    ensures f in ReportedFiles(edges, entries, facts) <==> exists i :: 0 <= i < |groups| && f in groups[i]
    ensures forall i, j :: 0 <= i < |groups| && 0 <= j < |groups| && f in groups[i] && f in groups[j] ==> i == j
  {
    var nodes := ReportedFiles(edges, entries, facts);
    if f in nodes {
      var g :| g in groups && f in g;
      var i :| 0 <= i < |groups| && groups[i] == g;
      assert f in groups[i];
    }
    forall i, j | 0 <= i < |groups| && 0 <= j < |groups| && f in groups[i] && f in groups[j]
      ensures i == j
    {
      SharedHeads(edges, nodes, groups, groups[i], groups[j], f);
    }
  }

  lemma SharedHeads(edges: Edges, nodes: set<nat>, groups: seq<seq<nat>>, g: seq<nat>, h: seq<nat>, f: nat)
    requires IsComponentList(edges, nodes, groups) && g in groups && h in groups && f in g && f in h
    ensures g[0] == h[0]
  {
    assert g[0] in g && h[0] in h;
    assert f in nodes && g[0] in nodes && h[0] in nodes;
    assert g[0] in h && h[0] in g;
  }
}
