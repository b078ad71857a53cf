/** Which files application/scan.rs reports as unused, stated on the fields of their facts alone. */
module FileLaws {
  import opened Common
  import opened Facts
  import opened Paths
  import opened Reports
  import opened UnusedFiles

  /** The file was not parsed or analysed at all. */
  predicate IsUnread(facts: FileFacts) {
    exists d :: d in facts.diagnostics &&
      (d.code == "parse_failure" || d.code == "semantic_failure" || d.code == "unsupported_source_type")
  }

  /** Some file that an entry leads to has a diagnostic that keeps reachability from being trusted. */
  ghost predicate IsUncertain(edges: Edges, entries: seq<nat>, facts: seq<FileFacts>) {
    exists f: nat, e, d ::
      f < |facts| && e in entries && Reaches(edges, e, f) && d in facts[f].diagnostics && d.blocksReachability
  }

  /**
   A file is reported exactly when no entry leads to it, it was read, and no file that an
   entry leads to keeps reachability from being trusted.
   */
  lemma ReportedByFields(edges: Edges, entries: seq<nat>, facts: seq<FileFacts>, f: nat)
    ensures f in ReportedFiles(edges, entries, facts) <==>
              && f < |facts| && (forall e :: e in entries ==> !Reaches(edges, e, f)) && !IsUnread(facts[f])
              && !IsUncertain(edges, entries, facts)
  {
    UncertainMeansBlocked(edges, entries, facts);
    if f < |facts| {
      UnreadMeansFatal(facts[f]);
      assert Reached(edges, entries, f) <==> exists e :: e in entries && Reaches(edges, e, f);
    }
  }

  lemma UnreadMeansFatal(facts: FileFacts)
    ensures HasFatalDiagnostic(facts) <==> IsUnread(facts)
  {
  }

  lemma UncertainMeansBlocked(edges: Edges, entries: seq<nat>, facts: seq<FileFacts>)
    ensures Blocked(edges, entries, facts) <==> IsUncertain(edges, entries, facts)
  {
    if f: nat :| f < |facts| && Reached(edges, entries, f) && BlocksReachability(facts[f]) {
      var e :| e in entries && Reaches(edges, e, f);
      var d :| d in facts[f].diagnostics && d.blocksReachability;
    }
    if f: nat, e, d :|
      f < |facts| && e in entries && Reaches(edges, e, f) && d in facts[f].diagnostics && d.blocksReachability {
      assert Reached(edges, entries, f);
    }
  }

  /** Every finding is about unused files and names the paths of its files, in order. */
  lemma FindingsNamePaths(edges: Edges, entries: seq<nat>, facts: seq<FileFacts>, groups: seq<seq<nat>>,
                          findings: seq<Finding>, i: nat, k: nat)
    requires AreFindings(edges, entries, facts, groups, findings) && i < |findings|
    ensures findings[i].issueType == "unusedFiles" && findings[i].eligibility == PreviewOnly
    ensures |findings[i].paths| == |groups[i]|
    ensures k < |groups[i]| ==> groups[i][k] < |facts| && findings[i].paths[k] == facts[groups[i][k]].path
  {
    if k < |groups[i]| {
      assert groups[i][k] in groups[i];
    }
  }
}
