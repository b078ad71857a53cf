/** The parts of a scan report that the file analysis and the profile merge share. */
module Reports {
  import opened Common

  datatype FileStatus = Reachable | Unreachable | Incomplete

  datatype Confidence = High | Medium | Low | IncompleteConfidence

  datatype FixEligibility = NotAvailable | PreviewOnly | Eligible | BlockedFix

  datatype Finding = Finding(
    issueId: string, issueType: string, workspace: string, paths: seq<string>,
    span: Option<(nat, nat)>, symbol: Option<string>, dependency: Option<string>,
    targetProfiles: seq<string>, confidence: Confidence, eligibility: FixEligibility)

  const UNUSED_FILES: string := "unusedFiles"
}
