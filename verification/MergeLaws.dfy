/**
 What the merge of profile reports keeps, stated on the fields of the findings alone, and
 what makes a finding deletable.
 */
module MergeLaws {
  import opened Common
  import opened ProfileMerge
  import opened Reports
  import opened TargetProfiles

  /** Two findings say the same when seven of their fields agree. */
  lemma SameByFields(a: Finding, b: Finding)
    ensures SameFinding(a, b) <==>
              && a.issueId == b.issueId && a.issueType == b.issueType && a.workspace == b.workspace
              && a.paths == b.paths && a.span == b.span && a.symbol == b.symbol && a.dependency == b.dependency
  {
  }

  lemma {:induction false} FindingIsOrigin(reports: seq<ProfileReport>, p: ProfileReport, f: Finding)
    requires p in reports && f in p.report.findings
    ensures Origin(p.profile, f.(targetProfiles := [p.profile])) in AllOrigins(TaggedReports(reports))
    decreases |reports|
  {
    var n := |reports| - 1;
    assert reports[..n + 1] == reports;
    TaggedFront(reports, n);
    if reports[n] == p {
      var i :| 0 <= i < |p.report.findings| && p.report.findings[i] == f;
      var own := OriginsOf(p.profile, Tagged(p).report.findings);
      assert own[i] == Origin(p.profile, f.(targetProfiles := [p.profile]));
    } else {
      FindingIsOrigin(reports[..n], p, f);
    }
  }

  /** No finding is lost: whatever a profile reports stands in the merged report, and lists that profile. */
  lemma NoFindingLost(reports: seq<ProfileReport>, files: seq<FileReport>, merged: seq<Finding>, p: ProfileReport,
                      f: Finding)
    returns (g: Finding)
    requires IsAggregate(reports, |reports|, files, merged) && p in reports && f in p.report.findings
    ensures g in merged && p.profile in g.targetProfiles
    ensures g.issueId == f.issueId && g.issueType == f.issueType && g.workspace == f.workspace && g.paths == f.paths
    ensures g.span == f.span && g.symbol == f.symbol && g.dependency == f.dependency
  {
    var o := Origin(p.profile, f.(targetProfiles := [p.profile]));
    assert reports[..|reports|] == reports;
    FindingIsOrigin(reports, p, f);
    assert Shown(merged, o);
    g :| g in merged && SameFinding(o.finding, g) && o.profile in g.targetProfiles;
    SameByFields(o.finding, g);
  }

  /** Every profile that a merged finding lists reported it. */
  lemma ListedProfilesReported(reports: seq<ProfileReport>, files: seq<FileReport>, merged: seq<Finding>, g: Finding,
                               profile: string)
    returns (p: ProfileReport, f: Finding)
    requires IsAggregate(reports, |reports|, files, merged) && g in merged && profile in g.targetProfiles
    ensures p in reports && p.profile == profile && f in p.report.findings
    ensures g.issueId == f.issueId && g.issueType == f.issueType && g.workspace == f.workspace && g.paths == f.paths
    ensures g.span == f.span && g.symbol == f.symbol && g.dependency == f.dependency
  {
    var origins := AllOrigins(TaggedReports(reports));
    assert reports[..|reports|] == reports;
    assert MadeBy(origins, g, profile);
    var o :| o in origins && o.profile == profile && SameFinding(o.finding, g);
    p, f := OriginIsReported(reports, o);
    SameByFields(o.finding, g);
  }

  /** No two of the findings agree in all seven fields. */
  ghost predicate AllDiffer(findings: seq<Finding>) {
    forall i, j :: 0 <= i < j < |findings| ==>
      var a, b := findings[i], findings[j];
      || a.issueId != b.issueId || a.issueType != b.issueType || a.workspace != b.workspace || a.paths != b.paths
      || a.span != b.span || a.symbol != b.symbol || a.dependency != b.dependency
  }

  /** What a merge promises of repeated findings, on the fields. */
  lemma NoneTwiceByFields(findings: seq<Finding>)
    ensures NoneSame(findings) <==> AllDiffer(findings)
  {
    forall i, j | 0 <= i < j < |findings|
      ensures SameFinding(findings[i], findings[j]) <==>
                var a, b := findings[i], findings[j];
                && a.issueId == b.issueId && a.issueType == b.issueType && a.workspace == b.workspace
                && a.paths == b.paths && a.span == b.span && a.symbol == b.symbol && a.dependency == b.dependency
    {
      SameByFields(findings[i], findings[j]);
    }
  }

  /** A workspace is closed when its first context declares no world, or the closed one. */
  lemma {:induction false} ClosedByContext(contexts: seq<PackageContext>, workspace: string, i: nat)
    requires i < |contexts| && contexts[i].workspaceName == workspace
    requires forall j :: 0 <= j < i ==> contexts[j].workspaceName != workspace
    ensures IsClosedWorld(contexts, workspace) <==> contexts[i].world == None || contexts[i].world == Some(Closed)
    decreases i
  {
    if i > 0 {
      assert contexts[0].workspaceName != workspace;
      ClosedByContext(contexts[1..], workspace, i - 1);
    }
  }

  /** A workspace without a context is not closed. */
  lemma {:induction false} NoContextIsOpen(contexts: seq<PackageContext>, workspace: string)
    requires forall j :: 0 <= j < |contexts| ==> contexts[j].workspaceName != workspace
    ensures !IsClosedWorld(contexts, workspace)
    decreases |contexts|
  {
    if contexts != [] {
      assert contexts[0].workspaceName != workspace;
      NoContextIsOpen(contexts[1..], workspace);
    }
  }

  /** Only findings of high confidence about unused files are candidates for deletion. */
  lemma CandidateByFields(f: Finding)
    ensures IsCandidate(f) <==> f.issueType == "unusedFiles" && f.confidence == High
  {
  }
}
