/**
 From the scans of all profiles to the files that a fix may delete: the results about
 application/scan.rs and application/project.rs put together.
 */
module FileDeletion {
  import opened Facts
  import opened Paths
  import opened ProfileMerge
  import opened Reports
  import opened UnusedFiles

  /** The scan of one profile: its module graph and entries, and the status it gave to each file. */
  datatype ProfileScan = ProfileScan(
    profile: string, edges: Edges, entries: seq<nat>, facts: seq<FileFacts>, statuses: seq<FileStatus>)

  /** The statuses are those that a scan gives. */
  ghost predicate IsScanned(s: ProfileScan) {
    && |s.statuses| == |s.facts|
    && forall i :: 0 <= i < |s.facts| ==>
      (s.statuses[i] == Unreachable <==> i in ReportedFiles(s.edges, s.entries, s.facts))
  }

  /** The report lists every scanned file with its status. */
  ghost predicate IsReportOf(s: ProfileScan, p: ProfileReport) {
    && p.profile == s.profile && |s.statuses| == |s.facts| == |p.report.files|
    && forall i :: 0 <= i < |s.facts| ==>
         p.report.files[i].path == s.facts[i].path && p.report.files[i].status == s.statuses[i]
  }

  /**
   Whatever a merged report allows to be deleted is, in every profile, reached from no
   entry, analysed without a fatal diagnostic, and judged while no reachable file
   blocked the analysis.
   */
  lemma DeletableIsDeadInEveryProfile(scans: seq<ProfileScan>, reports: seq<ProfileReport>, files: seq<FileReport>,
                                      merged: seq<Finding>, contexts: seq<PackageContext>, profiles: seq<string>,
                                      f: Finding, k: nat, file: nat)
    requires |scans| == |reports|
    requires forall i :: 0 <= i < |scans| ==> IsScanned(scans[i]) && IsReportOf(scans[i], reports[i])
    requires IsAggregate(reports, |reports|, files, merged) && MayDelete(contexts, profiles, files, f)
    requires k < |scans| && file < |scans[k].facts| && scans[k].facts[file].path in f.paths
    ensures !Reached(scans[k].edges, scans[k].entries, file)
    ensures !Blocked(scans[k].edges, scans[k].entries, scans[k].facts)
    ensures !HasFatalDiagnostic(scans[k].facts[file])
  {
    var s := scans[k];
    assert IsScanned(s) && IsReportOf(s, reports[k]);
    EligibleIsUnreachableEverywhere(reports, files, merged, contexts, profiles, f, reports[k],
                                    reports[k].report.files[file]);
    assert file in ReportedFiles(s.edges, s.entries, s.facts);
  }

  /** No file that imports a deletable one is reachable in any profile. */
  lemma NothingReachableImportsDeletable(scans: seq<ProfileScan>, reports: seq<ProfileReport>, files: seq<FileReport>,
                                         merged: seq<Finding>, contexts: seq<PackageContext>, profiles: seq<string>,
                                         f: Finding, k: nat, importer: nat, file: nat)
    requires |scans| == |reports|
    requires forall i :: 0 <= i < |scans| ==> IsScanned(scans[i]) && IsReportOf(scans[i], reports[i])
    requires IsAggregate(reports, |reports|, files, merged) && MayDelete(contexts, profiles, files, f)
    requires k < |scans| && file < |scans[k].facts| && scans[k].facts[file].path in f.paths
    requires (importer, file) in scans[k].edges
    ensures !Reached(scans[k].edges, scans[k].entries, importer)
  {
    DeletableIsDeadInEveryProfile(scans, reports, files, merged, contexts, profiles, f, k, file);
    var s := scans[k];
    if Reached(s.edges, s.entries, importer) {
      var e :| e in s.entries && Reaches(s.edges, e, importer);
      ReachesStep(s.edges, e, importer, file);
    }
  }
}
