/**
 Merging the scan reports of several target profiles, application/project.rs, and the
 decision which unused files may be deleted.
 */
module ProfileMerge {
  import opened Common
  import opened Reports
  import opened Sorting
  import opened Strings
  import opened TargetProfiles

  datatype FileReport = FileReport(path: string, status: FileStatus, targetStatuses: map<string, FileStatus>)

  datatype ScanReport = ScanReport(files: seq<FileReport>, findings: seq<Finding>)

  datatype ProfileReport = ProfileReport(profile: string, report: ScanReport)

  datatype Error = NoEntryRoots

  // ----- what a merged file says -----

  /** One file as one profile saw it. */
  datatype Record = Record(profile: string, path: string, status: FileStatus)

  function MergeFileStatus(a: FileStatus, b: FileStatus): FileStatus {
    if a == Reachable || b == Reachable then Reachable
    else if a == Incomplete || b == Incomplete then Incomplete
    else Unreachable
  }

  function JoinOf(records: seq<Record>, path: string): FileStatus {
    if records == [] then Unreachable
    else
      var last := records[|records| - 1];
      var before := JoinOf(records[..|records| - 1], path);
      if last.path == path then MergeFileStatus(before, last.status) else before
  }

  function TargetsOf(records: seq<Record>, path: string): map<string, FileStatus> {
    if records == [] then map[]
    else
      var last := records[|records| - 1];
      var before := TargetsOf(records[..|records| - 1], path);
      if last.path == path then before[last.profile := last.status] else before
  }

  predicate SomeSaw(records: seq<Record>, path: string, status: FileStatus) {
    exists r :: r in records && r.path == path && r.status == status
  }

  /** The join: reachable anywhere wins, then incomplete anywhere; unreachable is left for the rest. */
  lemma {:induction false} JoinMeans(records: seq<Record>, path: string)
    ensures JoinOf(records, path) == Reachable <==> SomeSaw(records, path, Reachable)
    ensures JoinOf(records, path) == Incomplete <==>
      SomeSaw(records, path, Incomplete) && !SomeSaw(records, path, Reachable)
  {
    if records != [] {
      var front, last := records[..|records| - 1], records[|records| - 1];
      assert records == front + [last];
      JoinMeans(front, path);
      SawMore(front, last, path, Reachable);
      SawMore(front, last, path, Incomplete);
    }
  }

  lemma SawMore(front: seq<Record>, last: Record, path: string, status: FileStatus)
    ensures SomeSaw(front + [last], path, status) <==>
      SomeSaw(front, path, status) || (last.path == path && last.status == status)
  {
    if SomeSaw(front, path, status) {
      var r :| r in front && r.path == path && r.status == status;
      assert r in front + [last];
    }
    assert last in front + [last];
  }

  /** Each profile's own status, when no profile saw the file twice. */
  lemma {:induction false} TargetsMean(records: seq<Record>, path: string, profile: string)
    requires forall i, j :: 0 <= i < j < |records| && records[i].path == path && records[j].path == path ==>
      records[i].profile != records[j].profile
    ensures profile in TargetsOf(records, path) <==> exists r :: r in records && r.path == path && r.profile == profile
    ensures forall r ::
      r in records && r.path == path && r.profile == profile && profile in TargetsOf(records, path) ==>
      TargetsOf(records, path)[profile] == r.status
  {
    if records != [] {
      var front, last := records[..|records| - 1], records[|records| - 1];
      assert records == front + [last];
      TargetsMean(front, path, profile);
      forall r | r in front && r.path == path && last.path == path
        ensures r.profile != last.profile
      {
        var i :| 0 <= i < |front| && front[i] == r;
        assert records[i] == r;
      }
    }
  }

  function MergedFile(records: seq<Record>, path: string): FileReport {
    FileReport(path, JoinOf(records, path), TargetsOf(records, path))
  }

  predicate HasPath(records: seq<Record>, path: string) {
    exists r :: r in records && r.path == path
  }

  /** One merged file for each path that occurs. */
  ghost predicate IsMerge(records: seq<Record>, files: seq<FileReport>) {
    && Distinct(files)
    && (forall f :: f in files ==> HasPath(records, f.path) && f == MergedFile(records, f.path))
    && forall path :: HasPath(records, path) ==> MergedFile(records, path) in files
  }

  function RecordsOf(profile: string, files: seq<FileReport>): (r: seq<Record>)
    ensures |r| == |files| && forall i :: 0 <= i < |r| ==> r[i] == Record(profile, files[i].path, files[i].status)
  {
    seq(|files|, i requires 0 <= i < |files| => Record(profile, files[i].path, files[i].status))
  }

  /** What all profiles saw, in the order in which they are merged. */
  function AllRecords(reports: seq<ProfileReport>): seq<Record> {
    if reports == [] then []
    else
      var last := reports[|reports| - 1];
      AllRecords(reports[..|reports| - 1]) + RecordsOf(last.profile, last.report.files)
  }

  predicate DistinctPaths(files: seq<FileReport>) {
    forall i, j :: 0 <= i < j < |files| ==> files[i].path != files[j].path
  }

  lemma {:induction false} AllRecordsElements(reports: seq<ProfileReport>, r: Record)
    ensures r in AllRecords(reports) <==>
      exists p, f :: p in reports && f in p.report.files && r == Record(p.profile, f.path, f.status)
  {
    if reports != [] {
      var front, last := reports[..|reports| - 1], reports[|reports| - 1];
      assert reports == front + [last];
      var own := RecordsOf(last.profile, last.report.files);
      AllRecordsElements(front, r);
      if r in own {
        var i :| 0 <= i < |own| && own[i] == r;
        assert last in reports && last.report.files[i] in last.report.files;
      }
      if p, f :| p in reports && f in p.report.files && r == Record(p.profile, f.path, f.status) {
        if p in front {
          assert r in AllRecords(front);
        } else {
          var i :| 0 <= i < |last.report.files| && last.report.files[i] == f;
          assert own[i] == r;
        }
      }
    }
  }

  /** Adding one record changes the merged file of its path and no other. */
  lemma MergeGrows(records: seq<Record>, r: Record, path: string)
    ensures HasPath(records + [r], path) <==> HasPath(records, path) || r.path == path
    ensures MergedFile(records + [r], path) ==
      if r.path != path then MergedFile(records, path)
      else FileReport(path, MergeFileStatus(JoinOf(records, path), r.status),
                      TargetsOf(records, path)[r.profile := r.status])
  {
    var longer := records + [r];
    assert longer[..|longer| - 1] == records && longer[|longer| - 1] == r;
    if x :| x in records && x.path == path {
      assert x in longer;
    }
    assert r in longer;
  }

  lemma {:induction false} WithoutPath(records: seq<Record>, path: string)
    requires !HasPath(records, path)
    ensures JoinOf(records, path) == Unreachable && TargetsOf(records, path) == map[]
  {
    if records != [] {
      assert records[|records| - 1] in records;
      WithoutPath(records[..|records| - 1], path);
    }
  }

  lemma NewFileMerged(records: seq<Record>, files: seq<FileReport>, r: Record)
    requires IsMerge(records, files) && forall f :: f in files ==> f.path != r.path
    ensures IsMerge(records + [r], files + [FileReport(r.path, r.status, map[r.profile := r.status])])
  {
    var longer, added := records + [r], files + [FileReport(r.path, r.status, map[r.profile := r.status])];
    assert !HasPath(records, r.path) by {
      assert MergedFile(records, r.path) !in files;
    }
    WithoutPath(records, r.path);
    MergeGrows(records, r, r.path);
    assert MergedFile(longer, r.path) == added[|files|];
    forall path
      ensures HasPath(longer, path) ==> MergedFile(longer, path) in added
      ensures path != r.path ==> MergedFile(longer, path) == MergedFile(records, path)
      ensures HasPath(longer, path) <==> HasPath(records, path) || r.path == path
    {
      MergeGrows(records, r, path);
    }
  }

  lemma OldFileMerged(records: seq<Record>, files: seq<FileReport>, r: Record, k: nat)
    requires IsMerge(records, files) && k < |files| && files[k].path == r.path
    ensures IsMerge(records + [r],
      files[k := FileReport(r.path, MergeFileStatus(files[k].status, r.status),
                            files[k].targetStatuses[r.profile := r.status])])
  {
    var longer := records + [r];
    var updated := FileReport(r.path, MergeFileStatus(files[k].status, r.status),
                              files[k].targetStatuses[r.profile := r.status]);
    var changed := files[k := updated];
    assert files[k] in files;
    MergeGrows(records, r, r.path);
    assert MergedFile(longer, r.path) == updated;
    forall i | 0 <= i < |files| && i != k
      ensures files[i].path != r.path
    {
      assert files[i] in files && files[i] == MergedFile(records, files[i].path);
      assert files[k] == MergedFile(records, files[k].path);
    }
    forall f | f in changed
      ensures HasPath(longer, f.path) && f == MergedFile(longer, f.path)
    {
      var i :| 0 <= i < |changed| && changed[i] == f;
      assert i != k ==> files[i] in files;
      MergeGrows(records, r, f.path);
    }
    forall path | HasPath(longer, path)
      ensures MergedFile(longer, path) in changed
    {
      MergeGrows(records, r, path);
      if path == r.path {
        assert changed[k] == updated;
      } else {
        var i :| 0 <= i < |files| && files[i] == MergedFile(records, path);
        assert changed[i] == files[i];
      }
    }
    DistinctUpdate(files, k, updated);
  }

  lemma DistinctUpdate(files: seq<FileReport>, k: nat, updated: FileReport)
    requires Distinct(files) && k < |files| && forall i :: 0 <= i < |files| && i != k ==> files[i].path != updated.path
    ensures Distinct(files[k := updated])
  {
  }

  // ----- merging the files -----

  method FindFile(files: seq<FileReport>, path: string) returns (k: nat)
    ensures k <= |files| && (k < |files| ==> files[k].path == path)
    ensures forall i :: 0 <= i < k ==> files[i].path != path
  {
    k := 0;
    while k < |files| && files[k].path != path
      invariant k <= |files| && forall i :: 0 <= i < k ==> files[i].path != path
    {
      k := k + 1;
    }
  }

  method TagProfileReport(files: seq<FileReport>, profile: string) returns (tagged: seq<FileReport>)
    ensures |tagged| == |files| && forall i :: 0 <= i < |files| ==>
      tagged[i] == FileReport(files[i].path, files[i].status, map[profile := files[i].status])
  {
    tagged := [];
    for i := 0 to |files|
      invariant |tagged| == i
      invariant forall k :: 0 <= k < i ==>
        tagged[k] == FileReport(files[k].path, files[k].status, map[profile := files[k].status])
    {
      tagged := tagged + [FileReport(files[i].path, files[i].status, map[profile := files[i].status])];
    }
  }

  lemma RecordsStep(records: seq<Record>, profile: string, files: seq<FileReport>, i: nat)
    requires i < |files|
    ensures records + RecordsOf(profile, files[..i + 1])
         == (records + RecordsOf(profile, files[..i])) + [Record(profile, files[i].path, files[i].status)]
  {
    assert RecordsOf(profile, files[..i + 1])
        == RecordsOf(profile, files[..i]) + [Record(profile, files[i].path, files[i].status)];
  }

  /** Merging file `i` is adding its record. */
  lemma MergeStep(records: seq<Record>, merged: seq<FileReport>, file: FileReport, profile: string, k: nat)
    requires IsMerge(records, merged) && file.targetStatuses == map[profile := file.status]
    requires k <= |merged| && (k < |merged| ==> merged[k].path == file.path)
    requires forall i :: 0 <= i < k ==> merged[i].path != file.path
    ensures IsMerge(records + [Record(profile, file.path, file.status)], Merged(merged, file, k))
  {
    var r := Record(profile, file.path, file.status);
    if k == |merged| {
      NewFileMerged(records, merged, r);
    } else {
      OldFileMerged(records, merged, r, k);
      assert merged[k].targetStatuses + file.targetStatuses == merged[k].targetStatuses[profile := file.status];
    }
  }

  function Merged(merged: seq<FileReport>, file: FileReport, k: nat): seq<FileReport>
    requires k <= |merged|
  {
    if k == |merged| then merged + [file]
    else
      merged[k := FileReport(merged[k].path, MergeFileStatus(merged[k].status, file.status),
                             merged[k].targetStatuses + file.targetStatuses)]
  }

  method MergeFiles(aggregate: seq<FileReport>, files: seq<FileReport>, profile: string, ghost records: seq<Record>)
    returns (merged: seq<FileReport>)
    requires IsMerge(records, aggregate)
    requires forall i :: 0 <= i < |files| ==> files[i].targetStatuses == map[profile := files[i].status]
    ensures IsMerge(records + RecordsOf(profile, files), merged)
  {
    merged := aggregate;
    assert records + RecordsOf(profile, files[..0]) == records;
    for i := 0 to |files|
      invariant IsMerge(records + RecordsOf(profile, files[..i]), merged)
    {
      RecordsStep(records, profile, files, i);
      var k := FindFile(merged, files[i].path);
      MergeStep(records + RecordsOf(profile, files[..i]), merged, files[i], profile, k);
      merged := Merged(merged, files[i], k);
    }
    assert files[..|files|] == files;
  }

  /** The first report is taken over as it is. */
  lemma {:induction false} FirstReportMerged(files: seq<FileReport>, profile: string)
    requires DistinctPaths(files)
    requires forall i :: 0 <= i < |files| ==> files[i].targetStatuses == map[profile := files[i].status]
    ensures IsMerge(RecordsOf(profile, files), files)
  {
    if files == [] {
      assert RecordsOf(profile, files) == [];
    } else {
      var front, last := files[..|files| - 1], files[|files| - 1];
      FirstReportMerged(front, profile);
      assert RecordsOf(profile, files) == RecordsOf(profile, front) + [Record(profile, last.path, last.status)];
      assert files == front + [last];
      NewFileMerged(RecordsOf(profile, front), front, Record(profile, last.path, last.status));
    }
  }

  predicate PathLeq(a: FileReport, b: FileReport) {
    StrLeq(a.path, b.path)
  }

  lemma PathOrder()
    ensures TotalPreorder(PathLeq)
  {
    StrOrder();
    assert forall a: FileReport, b: FileReport :: StrLeq(a.path, b.path) || StrLeq(b.path, a.path);
  }

  lemma SortKeepsMerge(records: seq<Record>, files: seq<FileReport>)
    requires IsMerge(records, files)
    ensures IsMerge(records, Sort(PathLeq, files)) && SortedBy(PathLeq, Sort(PathLeq, files))
  {
    var sorted := Sort(PathLeq, files);
    PathOrder();
    SortSorted(PathLeq, files);
    SortDistinct(PathLeq, files);
    forall f
      ensures f in sorted <==> f in files
    {
      SortElements(PathLeq, files, f);
    }
  }

  /** A sorted merge is determined by what the profiles saw. */
  lemma MergeUnique(a: seq<Record>, b: seq<Record>, x: seq<FileReport>, y: seq<FileReport>)
    requires IsMerge(a, x) && IsMerge(b, y) && SortedBy(PathLeq, x) && SortedBy(PathLeq, y)
    requires forall path :: HasPath(a, path) <==> HasPath(b, path)
    requires forall path :: HasPath(a, path) ==> MergedFile(a, path) == MergedFile(b, path)
    ensures x == y
  {
    forall f
      ensures f in x <==> f in y
    {
    }
    DistinctCounts(x);
    DistinctCounts(y);
    forall f
      ensures multiset(x)[f] == multiset(y)[f]
    {
      assert f in x <==> f in multiset(x);
      assert f in y <==> f in multiset(y);
    }
    assert multiset(x) == multiset(y);
    forall f, g | f in x && g in x && PathLeq(f, g) && PathLeq(g, f)
      ensures f == g
    {
      StrLeqAntisymmetric(f.path, g.path);
    }
    SortedUnique(PathLeq, x, y);
  }

  // ----- merging the findings -----

  predicate SameFinding(a: Finding, b: Finding) {
    && a.issueId == b.issueId && a.issueType == b.issueType && a.workspace == b.workspace && a.paths == b.paths
    && a.span == b.span && a.symbol == b.symbol && a.dependency == b.dependency
  }

  /** No finding stands twice in the list, whoever made it. */
  ghost predicate NoneSame(findings: seq<Finding>) {
    forall i, j :: 0 <= i < j < |findings| ==> !SameFinding(findings[i], findings[j])
  }

  lemma SortKeepsNoneSame(findings: seq<Finding>, order: (Finding, Finding) -> bool)
    requires NoneSame(findings)
    ensures NoneSame(Sort(order, findings))
  {
    var sorted := Sort(order, findings);
    SortDistinct(order, findings);
    forall i, j | 0 <= i < j < |sorted|
      ensures !SameFinding(sorted[i], sorted[j])
    {
      SortElements(order, findings, sorted[i]);
      SortElements(order, findings, sorted[j]);
      var a :| 0 <= a < |findings| && findings[a] == sorted[i];
      var b :| 0 <= b < |findings| && findings[b] == sorted[j];
      assert a < b ==> !SameFinding(findings[a], findings[b]);
      assert b < a ==> !SameFinding(findings[b], findings[a]);
    }
  }

  /** A finding together with the profile that made it. */
  datatype Origin = Origin(profile: string, finding: Finding)

  function OriginsOf(profile: string, findings: seq<Finding>): (r: seq<Origin>)
    ensures |r| == |findings| && forall i :: 0 <= i < |r| ==> r[i] == Origin(profile, findings[i])
  {
    seq(|findings|, i requires 0 <= i < |findings| => Origin(profile, findings[i]))
  }

  function AllOrigins(reports: seq<ProfileReport>): seq<Origin> {
    if reports == [] then []
    else
      var last := reports[|reports| - 1];
      AllOrigins(reports[..|reports| - 1]) + OriginsOf(last.profile, last.report.findings)
  }

  /** Everything but the profiles of a finding comes from one profile's report. */
  ghost predicate ComesFrom(origins: seq<Origin>, g: Finding) {
    exists o :: o in origins && g == o.finding.(targetProfiles := g.targetProfiles)
  }

  ghost predicate MadeBy(origins: seq<Origin>, g: Finding, profile: string) {
    exists o :: o in origins && o.profile == profile && SameFinding(o.finding, g)
  }

  ghost predicate Shown(findings: seq<Finding>, o: Origin) {
    exists g :: g in findings && SameFinding(o.finding, g) && o.profile in g.targetProfiles
  }

  ghost predicate AllCome(origins: seq<Origin>, findings: seq<Finding>) {
    forall g {:trigger ComesFrom(origins, g)} :: g in findings ==> ComesFrom(origins, g)
  }

  ghost predicate AllMade(origins: seq<Origin>, findings: seq<Finding>) {
    forall g, p {:trigger MadeBy(origins, g, p)} :: g in findings && p in g.targetProfiles ==> MadeBy(origins, g, p)
  }

  ghost predicate AllShown(origins: seq<Origin>, findings: seq<Finding>) {
    forall o {:trigger Shown(findings, o)} :: o in origins ==> Shown(findings, o)
  }

  /** Every finding names only profiles that made it, and no profile's finding is lost. */
  ghost predicate IsFindingMerge(origins: seq<Origin>, findings: seq<Finding>) {
    AllCome(origins, findings) && AllMade(origins, findings) && AllShown(origins, findings)
  }

  function WithProfiles(g: Finding, more: seq<string>): (r: Finding)
    ensures r == g.(targetProfiles := r.targetProfiles)
  {
    g.(targetProfiles := Dedup(Sort(StrLeq, g.targetProfiles + more)))
  }

  lemma ProfilesJoin(g: Finding, more: seq<string>, p: string)
    ensures p in WithProfiles(g, more).targetProfiles <==> p in g.targetProfiles || p in more
  {
    DedupElements(Sort(StrLeq, g.targetProfiles + more), p);
    SortElements(StrLeq, g.targetProfiles + more, p);
  }

  lemma ComesFromMore(origins: seq<Origin>, o: Origin, g: Finding)
    requires ComesFrom(origins, g)
    ensures ComesFrom(origins + [o], g)
  {
    var x :| x in origins && g == x.finding.(targetProfiles := g.targetProfiles);
    assert x in origins + [o];
  }

  lemma MadeByMore(origins: seq<Origin>, o: Origin, g: Finding, p: string)
    requires MadeBy(origins, g, p)
    ensures MadeBy(origins + [o], g, p)
  {
    var x :| x in origins && x.profile == p && SameFinding(x.finding, g);
    assert x in origins + [o];
  }

  lemma ComesFromSelf(origins: seq<Origin>, o: Origin)
    requires o in origins
    ensures ComesFrom(origins, o.finding) && MadeBy(origins, o.finding, o.profile)
  {
    assert o.finding == o.finding.(targetProfiles := o.finding.targetProfiles);
    assert SameFinding(o.finding, o.finding);
  }

  /** Only the profiles of a finding change when its profiles are extended. */
  lemma Relabelled(origins: seq<Origin>, g: Finding, more: seq<string>, p: string)
    ensures ComesFrom(origins, g) ==> ComesFrom(origins, WithProfiles(g, more))
    ensures MadeBy(origins, g, p) ==> MadeBy(origins, WithProfiles(g, more), p)
  {
    var h := WithProfiles(g, more);
    if ComesFrom(origins, g) {
      var x :| x in origins && g == x.finding.(targetProfiles := g.targetProfiles);
      assert h == x.finding.(targetProfiles := h.targetProfiles);
    }
    if MadeBy(origins, g, p) {
      var x :| x in origins && x.profile == p && SameFinding(x.finding, g);
      assert SameFinding(x.finding, h);
    }
  }

  lemma ShownByMore(findings: seq<Finding>, h: Finding, o: Origin)
    requires Shown(findings, o) || (SameFinding(o.finding, h) && o.profile in h.targetProfiles)
    ensures Shown(findings + [h], o)
  {
    if Shown(findings, o) {
      var g :| g in findings && SameFinding(o.finding, g) && o.profile in g.targetProfiles;
      assert g in findings + [h];
    } else {
      assert h in findings + [h];
    }
  }

  lemma ShownByUpdate(findings: seq<Finding>, k: nat, more: seq<string>, o: Origin)
    requires k < |findings|
    requires Shown(findings, o) || (SameFinding(o.finding, findings[k]) && o.profile in more)
    ensures Shown(findings[k := WithProfiles(findings[k], more)], o)
  {
    var h := WithProfiles(findings[k], more);
    var changed := findings[k := h];
    ProfilesJoin(findings[k], more, o.profile);
    assert changed[k] == h && SameFinding(findings[k], h);
    if SameFinding(o.finding, findings[k]) && o.profile in h.targetProfiles {
      assert h in changed && SameFinding(o.finding, h);
    } else {
      var i :| 0 <= i < |findings| && SameFinding(o.finding, findings[i]) && o.profile in findings[i].targetProfiles;
      assert changed[i] in changed;
    }
  }

  lemma NewComes(origins: seq<Origin>, findings: seq<Finding>, o: Origin)
    requires AllCome(origins, findings)
    ensures AllCome(origins + [o], findings + [o.finding])
  {
    forall g | g in findings + [o.finding]
      ensures ComesFrom(origins + [o], g)
    {
      if g in findings {
        ComesFromMore(origins, o, g);
      } else {
        ComesFromSelf(origins + [o], o);
      }
    }
  }

  lemma NewMade(origins: seq<Origin>, findings: seq<Finding>, o: Origin)
    requires AllMade(origins, findings) && o.finding.targetProfiles == [o.profile]
    ensures AllMade(origins + [o], findings + [o.finding])
  {
    forall g, p | g in findings + [o.finding] && p in g.targetProfiles
      ensures MadeBy(origins + [o], g, p)
    {
      if g in findings {
        MadeByMore(origins, o, g, p);
      } else {
        ComesFromSelf(origins + [o], o);
      }
    }
  }

  lemma NewShown(origins: seq<Origin>, findings: seq<Finding>, o: Origin)
    requires AllShown(origins, findings) && o.finding.targetProfiles == [o.profile]
    ensures AllShown(origins + [o], findings + [o.finding])
  {
    forall x | x in origins + [o]
      ensures Shown(findings + [o.finding], x)
    {
      assert x in origins ==> Shown(findings, x);
      ShownByMore(findings, o.finding, x);
    }
  }

  lemma NewFinding(origins: seq<Origin>, findings: seq<Finding>, o: Origin)
    requires IsFindingMerge(origins, findings) && o.finding.targetProfiles == [o.profile]
    ensures IsFindingMerge(origins + [o], findings + [o.finding])
  {
    NewComes(origins, findings, o);
    NewMade(origins, findings, o);
    NewShown(origins, findings, o);
  }

  lemma OldComes(origins: seq<Origin>, findings: seq<Finding>, o: Origin, k: nat, h: Finding)
    requires AllCome(origins, findings) && k < |findings| && h == WithProfiles(findings[k], [o.profile])
    ensures AllCome(origins + [o], findings[k := h])
  {
    forall g | g in findings[k := h]
      ensures ComesFrom(origins + [o], g)
    {
      if g == h {
        assert findings[k] in findings;
        ComesFromMore(origins, o, findings[k]);
        Relabelled(origins + [o], findings[k], [o.profile], o.profile);
      } else {
        assert g in findings;
        ComesFromMore(origins, o, g);
      }
    }
  }

  lemma OldMade(origins: seq<Origin>, findings: seq<Finding>, o: Origin, k: nat, h: Finding)
    requires AllMade(origins, findings) && k < |findings| && h == WithProfiles(findings[k], [o.profile])
    requires SameFinding(findings[k], o.finding)
    ensures AllMade(origins + [o], findings[k := h])
  {
    forall g, p | g in findings[k := h] && p in g.targetProfiles
      ensures MadeBy(origins + [o], g, p)
    {
      if g != h {
        assert g in findings;
        MadeByMore(origins, o, g, p);
      } else if p in findings[k].targetProfiles {
        assert findings[k] in findings;
        MadeByMore(origins, o, findings[k], p);
        Relabelled(origins + [o], findings[k], [o.profile], p);
      } else {
        ProfilesJoin(findings[k], [o.profile], p);
        assert o in origins + [o] && o.profile == p && SameFinding(o.finding, h);
      }
    }
  }

  lemma OldShown(origins: seq<Origin>, findings: seq<Finding>, o: Origin, k: nat, h: Finding)
    requires AllShown(origins, findings) && k < |findings| && h == WithProfiles(findings[k], [o.profile])
    requires SameFinding(findings[k], o.finding)
    ensures AllShown(origins + [o], findings[k := h])
  {
    forall x | x in origins + [o]
      ensures Shown(findings[k := h], x)
    {
      assert x in origins ==> Shown(findings, x);
      ShownByUpdate(findings, k, [o.profile], x);
    }
  }

  lemma OldFinding(origins: seq<Origin>, findings: seq<Finding>, o: Origin, k: nat)
    requires IsFindingMerge(origins, findings) && k < |findings| && SameFinding(findings[k], o.finding)
    ensures IsFindingMerge(origins + [o], findings[k := WithProfiles(findings[k], [o.profile])])
  {
    var h := WithProfiles(findings[k], [o.profile]);
    OldComes(origins, findings, o, k, h);
    OldMade(origins, findings, o, k, h);
    OldShown(origins, findings, o, k, h);
  }

  method TagFindings(findings: seq<Finding>, profile: string) returns (tagged: seq<Finding>)
    ensures |tagged| == |findings|
    ensures forall i :: 0 <= i < |findings| ==> tagged[i] == findings[i].(targetProfiles := [profile])
  {
    tagged := [];
    for i := 0 to |findings|
      invariant |tagged| == i && forall k :: 0 <= k < i ==> tagged[k] == findings[k].(targetProfiles := [profile])
    {
      tagged := tagged + [findings[i].(targetProfiles := [profile])];
    }
  }

  method FindSame(findings: seq<Finding>, finding: Finding) returns (k: nat)
    ensures k <= |findings| && (k < |findings| ==> SameFinding(findings[k], finding))
    ensures forall i :: 0 <= i < k ==> !SameFinding(findings[i], finding)
  {
    k := 0;
    while k < |findings| && !SameFinding(findings[k], finding)
      invariant k <= |findings| && forall i :: 0 <= i < k ==> !SameFinding(findings[i], finding)
    {
      k := k + 1;
    }
  }

  method MergeFindings(aggregate: seq<Finding>, findings: seq<Finding>, profile: string, ghost origins: seq<Origin>)
    returns (merged: seq<Finding>)
    requires IsFindingMerge(origins, aggregate) && forall f :: f in findings ==> f.targetProfiles == [profile]
    ensures IsFindingMerge(origins + OriginsOf(profile, findings), merged)
    ensures NoneSame(aggregate) ==> NoneSame(merged)
  {
    merged := aggregate;
    assert origins + OriginsOf(profile, findings[..0]) == origins;
    for i := 0 to |findings|
      invariant IsFindingMerge(origins + OriginsOf(profile, findings[..i]), merged)
      invariant NoneSame(aggregate) ==> NoneSame(merged)
    {
      OriginsStep(origins, profile, findings, i);
      var k := FindSame(merged, findings[i]);
      if k < |merged| {
        OldFinding(origins + OriginsOf(profile, findings[..i]), merged, Origin(profile, findings[i]), k);
        merged := merged[k := WithProfiles(merged[k], findings[i].targetProfiles)];
      } else {
        NewFinding(origins + OriginsOf(profile, findings[..i]), merged, Origin(profile, findings[i]));
        merged := merged + [findings[i]];
      }
    }
    assert findings[..|findings|] == findings;
  }

  lemma OriginsStep(origins: seq<Origin>, profile: string, findings: seq<Finding>, i: nat)
    requires i < |findings|
    ensures origins + OriginsOf(profile, findings[..i + 1])
         == (origins + OriginsOf(profile, findings[..i])) + [Origin(profile, findings[i])]
  {
    assert OriginsOf(profile, findings[..i + 1]) == OriginsOf(profile, findings[..i]) + [Origin(profile, findings[i])];
  }

  lemma FirstFindingsMerged(findings: seq<Finding>, profile: string)
    requires forall f :: f in findings ==> f.targetProfiles == [profile]
    ensures IsFindingMerge(OriginsOf(profile, findings), findings)
  {
    FirstFindingsMade(findings, profile);
    FirstFindingsShown(findings, profile);
  }

  lemma FirstFindingsMade(findings: seq<Finding>, profile: string)
    requires forall f :: f in findings ==> f.targetProfiles == [profile]
    ensures AllCome(OriginsOf(profile, findings), findings) && AllMade(OriginsOf(profile, findings), findings)
  {
    var origins := OriginsOf(profile, findings);
    forall g, p | g in findings && p == profile
      ensures ComesFrom(origins, g) && MadeBy(origins, g, p)
    {
      var i :| 0 <= i < |findings| && findings[i] == g;
      ComesFromSelf(origins, origins[i]);
    }
  }

  lemma FirstFindingsShown(findings: seq<Finding>, profile: string)
    requires forall f :: f in findings ==> f.targetProfiles == [profile]
    ensures AllShown(OriginsOf(profile, findings), findings)
  {
    var origins := OriginsOf(profile, findings);
    forall o | o in origins
      ensures Shown(findings, o)
    {
      var i :| 0 <= i < |origins| && origins[i] == o;
      assert findings[i] in findings && SameFinding(o.finding, findings[i]);
    }
  }

  lemma SortKeepsFindings(origins: seq<Origin>, findings: seq<Finding>, order: (Finding, Finding) -> bool)
    requires IsFindingMerge(origins, findings)
    ensures IsFindingMerge(origins, Sort(order, findings))
  {
    var sorted := Sort(order, findings);
    forall g | g in sorted
      ensures ComesFrom(origins, g)
    {
      SortElements(order, findings, g);
    }
    forall g, p | g in sorted && p in g.targetProfiles
      ensures MadeBy(origins, g, p)
    {
      SortElements(order, findings, g);
    }
    forall o | o in origins
      ensures Shown(sorted, o)
    {
      assert Shown(findings, o);
      var g :| g in findings && SameFinding(o.finding, g) && o.profile in g.targetProfiles;
      SortElements(order, findings, g);
    }
  }

  // ----- the whole merge -----

  /** Scans label their findings with a profile only when they are merged. */
  function TaggedReports(reports: seq<ProfileReport>): (r: seq<ProfileReport>)
    ensures |r| == |reports|
  {
    seq(|reports|, i requires 0 <= i < |reports| => Tagged(reports[i]))
  }

  function Tagged(p: ProfileReport): ProfileReport {
    var findings := p.report.findings;
    p.(report := p.report.(findings :=
      seq(|findings|, i requires 0 <= i < |findings| => findings[i].(targetProfiles := [p.profile]))))
  }

  lemma TaggedFront(reports: seq<ProfileReport>, i: nat)
    requires i < |reports|
    ensures TaggedReports(reports[..i + 1]) == TaggedReports(reports[..i]) + [Tagged(reports[i])]
    ensures AllRecords(reports[..i + 1])
         == AllRecords(reports[..i]) + RecordsOf(reports[i].profile, reports[i].report.files)
    ensures AllOrigins(TaggedReports(reports[..i + 1]))
         == AllOrigins(TaggedReports(reports[..i])) + OriginsOf(reports[i].profile, Tagged(reports[i]).report.findings)
  {
    var front, longer := reports[..i], reports[..i + 1];
    assert longer[..i] == front && longer[i] == reports[i];
    assert TaggedReports(longer) == TaggedReports(front) + [Tagged(reports[i])];
    assert TaggedReports(longer)[..i] == TaggedReports(front);
  }

  /** The aggregate of the first `n` reports. */
  ghost predicate IsAggregate(reports: seq<ProfileReport>, n: nat, files: seq<FileReport>, findings: seq<Finding>) {
    n <= |reports| && IsMerge(AllRecords(reports[..n]), files)
    && IsFindingMerge(AllOrigins(TaggedReports(reports[..n])), findings)
  }

  /**
   One merged file for each path, with the join of its statuses; findings that name
   exactly profiles that made them, and none of them twice when the first report has
   none twice.  Each scan reports a file once.
   */
  method MergeProfileReports(reports: seq<ProfileReport>, order: (Finding, Finding) -> bool)
    returns (r: Result<ScanReport, Error>)
    requires forall i :: 0 <= i < |reports| ==> DistinctPaths(reports[i].report.files)
    ensures r.Ok? <==> reports != []
    ensures r.Ok? ==>
      IsAggregate(reports, |reports|, r.value.files, r.value.findings) && SortedBy(PathLeq, r.value.files)
    ensures r.Ok? && NoneSame(reports[0].report.findings) ==> NoneSame(r.value.findings)
  {
    if reports == [] {
      return Err(NoEntryRoots);
    }
    var profile := reports[0].profile;
    var files := TagProfileReport(reports[0].report.files, profile);
    var findings := TagFindings(reports[0].report.findings, profile);
    FirstAggregate(reports, files, findings);
    for i := 1 to |reports|
      invariant IsAggregate(reports, i, files, findings)
      invariant NoneSame(reports[0].report.findings) ==> NoneSame(findings)
    {
      profile := reports[i].profile;
      var tagged := TagProfileReport(reports[i].report.files, profile);
      files := MergeFiles(files, tagged, profile, AllRecords(reports[..i]));
      var taggedFindings := TagFindings(reports[i].report.findings, profile);
      findings := MergeFindings(findings, taggedFindings, profile, AllOrigins(TaggedReports(reports[..i])));
      NextAggregate(reports, i, tagged, taggedFindings);
    }
    SortKeepsMerge(AllRecords(reports[..|reports|]), files);
    SortKeepsFindings(AllOrigins(TaggedReports(reports[..|reports|])), findings, order);
    if NoneSame(findings) {
      SortKeepsNoneSame(findings, order);
    }
    return Ok(ScanReport(Sort(PathLeq, files), Sort(order, findings)));
  }

  lemma SameRecords(a: seq<FileReport>, b: seq<FileReport>, profile: string)
    requires |a| == |b| && forall i :: 0 <= i < |a| ==> a[i].path == b[i].path && a[i].status == b[i].status
    ensures RecordsOf(profile, a) == RecordsOf(profile, b)
  {
  }

  lemma NextAggregate(reports: seq<ProfileReport>, i: nat, tagged: seq<FileReport>, findings: seq<Finding>)
    requires i < |reports| && |tagged| == |reports[i].report.files| && |findings| == |reports[i].report.findings|
    requires forall k :: 0 <= k < |tagged| ==>
      tagged[k].path == reports[i].report.files[k].path && tagged[k].status == reports[i].report.files[k].status
    requires forall k :: 0 <= k < |findings| ==>
      findings[k] == reports[i].report.findings[k].(targetProfiles := [reports[i].profile])
    ensures AllRecords(reports[..i + 1]) == AllRecords(reports[..i]) + RecordsOf(reports[i].profile, tagged)
    ensures AllOrigins(TaggedReports(reports[..i + 1]))
         == AllOrigins(TaggedReports(reports[..i])) + OriginsOf(reports[i].profile, findings)
  {
    TaggedFront(reports, i);
    SameRecords(tagged, reports[i].report.files, reports[i].profile);
    assert findings == Tagged(reports[i]).report.findings;
  }

  lemma FirstAggregate(reports: seq<ProfileReport>, tagged: seq<FileReport>, findings: seq<Finding>)
    requires reports != [] && DistinctPaths(reports[0].report.files)
    requires |tagged| == |reports[0].report.files| && |findings| == |reports[0].report.findings|
    requires forall k :: 0 <= k < |tagged| ==>
      var f := reports[0].report.files[k];
      tagged[k] == FileReport(f.path, f.status, map[reports[0].profile := f.status])
    requires forall k :: 0 <= k < |findings| ==>
      findings[k] == reports[0].report.findings[k].(targetProfiles := [reports[0].profile])
    ensures IsAggregate(reports, 1, tagged, findings)
  {
    var profile := reports[0].profile;
    NextAggregate(reports, 0, tagged, findings);
    assert reports[..0] == [] && TaggedReports([]) == [];
    assert [] + RecordsOf(profile, tagged) == RecordsOf(profile, tagged);
    assert [] + OriginsOf(profile, findings) == OriginsOf(profile, findings);
    FirstReportMerged(tagged, reports[0].profile);
    FirstFindingsMerged(findings, reports[0].profile);
  }

  // ----- what the merge means -----

  /** Some profile saw the file in this status. */
  ghost predicate SeenAs(reports: seq<ProfileReport>, path: string, status: FileStatus) {
    exists p, f :: p in reports && f in p.report.files && f.path == path && f.status == status
  }

  lemma SeenIsRecorded(reports: seq<ProfileReport>, path: string, status: FileStatus)
    ensures SeenAs(reports, path, status) <==> SomeSaw(AllRecords(reports), path, status)
  {
    if p, f :| p in reports && f in p.report.files && f.path == path && f.status == status {
      AllRecordsElements(reports, Record(p.profile, path, status));
    }
    if r :| r in AllRecords(reports) && r.path == path && r.status == status {
      AllRecordsElements(reports, r);
    }
  }

  /** The merged status is the join of what the profiles saw. */
  lemma MergedStatusIsJoin(reports: seq<ProfileReport>, files: seq<FileReport>, findings: seq<Finding>, f: FileReport)
    requires IsAggregate(reports, |reports|, files, findings) && f in files
    ensures f.status == Reachable <==> SeenAs(reports, f.path, Reachable)
    ensures f.status == Incomplete <==> SeenAs(reports, f.path, Incomplete) && !SeenAs(reports, f.path, Reachable)
    ensures f.status == Unreachable <==> !SeenAs(reports, f.path, Reachable) && !SeenAs(reports, f.path, Incomplete)
  {
    assert reports[..|reports|] == reports;
    JoinMeans(AllRecords(reports), f.path);
    SeenIsRecorded(reports, f.path, Reachable);
    SeenIsRecorded(reports, f.path, Incomplete);
  }

  predicate DistinctProfiles(reports: seq<ProfileReport>) {
    forall i, j :: 0 <= i < j < |reports| ==> reports[i].profile != reports[j].profile
  }

  lemma {:induction false} NoRecordTwice(reports: seq<ProfileReport>)
    requires DistinctProfiles(reports) && forall i :: 0 <= i < |reports| ==> DistinctPaths(reports[i].report.files)
    ensures NoneTwice(AllRecords(reports))
  {
    if reports != [] {
      var front, last := reports[..|reports| - 1], reports[|reports| - 1];
      NoRecordTwice(front);
      var before, own := AllRecords(front), RecordsOf(last.profile, last.report.files);
      forall r | r in before
        ensures r.profile != last.profile
      {
        AllRecordsElements(front, r);
      }
      OwnRecordsDiffer(last.profile, last.report.files);
      JoinedRecordsDiffer(before, own, last.profile);
    }
  }

  ghost predicate NoneTwice(r: seq<Record>) {
    forall i, j :: 0 <= i < j < |r| && r[i].path == r[j].path ==> r[i].profile != r[j].profile
  }

  lemma OwnRecordsDiffer(profile: string, files: seq<FileReport>)
    requires DistinctPaths(files)
    ensures NoneTwice(RecordsOf(profile, files))
  {
  }

  lemma JoinedRecordsDiffer(before: seq<Record>, own: seq<Record>, profile: string)
    requires NoneTwice(before) && NoneTwice(own)
    requires forall r :: r in before ==> r.profile != profile
    requires forall r :: r in own ==> r.profile == profile
    ensures NoneTwice(before + own)
  {
    var all := before + own;
    forall i, j | 0 <= i < j < |all| && all[i].path == all[j].path
      ensures all[i].profile != all[j].profile
    {
      if i < |before| <= j {
        assert all[i] in before && all[j] in own;
      }
    }
  }

  lemma SameMergedFile(a: seq<Record>, b: seq<Record>, path: string)
    requires forall r :: r in a <==> r in b
    requires NoneTwice(a) && NoneTwice(b)
    ensures HasPath(a, path) <==> HasPath(b, path)
    ensures MergedFile(a, path) == MergedFile(b, path)
  {
    JoinMeans(a, path);
    JoinMeans(b, path);
    forall status: FileStatus
      ensures SomeSaw(a, path, status) <==> SomeSaw(b, path, status)
    {
    }
    assert SomeSaw(a, path, Reachable) <==> SomeSaw(b, path, Reachable);
    assert SomeSaw(a, path, Incomplete) <==> SomeSaw(b, path, Incomplete);
    var x, y := TargetsOf(a, path), TargetsOf(b, path);
    forall profile
      ensures profile in x <==> profile in y
      ensures profile in x && profile in y ==> x[profile] == y[profile]
    {
      TargetsMean(a, path, profile);
      TargetsMean(b, path, profile);
    }
    assert x == y;
  }

  /** The order of the profiles does not matter for any file of the merged report. */
  lemma ProfileOrderIrrelevant(a: seq<ProfileReport>, b: seq<ProfileReport>, x: seq<FileReport>, y: seq<FileReport>,
                               f: seq<Finding>, g: seq<Finding>)
    requires IsAggregate(a, |a|, x, f) && IsAggregate(b, |b|, y, g)
    requires SortedBy(PathLeq, x) && SortedBy(PathLeq, y)
    requires forall p :: p in a <==> p in b
    requires DistinctProfiles(a) && forall i :: 0 <= i < |a| ==> DistinctPaths(a[i].report.files)
    requires DistinctProfiles(b) && forall i :: 0 <= i < |b| ==> DistinctPaths(b[i].report.files)
    ensures x == y
  {
    assert a[..|a|] == a && b[..|b|] == b;
    forall r
      ensures r in AllRecords(a) <==> r in AllRecords(b)
    {
      AllRecordsElements(a, r);
      AllRecordsElements(b, r);
    }
    NoRecordTwice(a);
    NoRecordTwice(b);
    forall path
      ensures HasPath(AllRecords(a), path) <==> HasPath(AllRecords(b), path)
      ensures MergedFile(AllRecords(a), path) == MergedFile(AllRecords(b), path)
    {
      SameMergedFile(AllRecords(a), AllRecords(b), path);
    }
    MergeUnique(AllRecords(a), AllRecords(b), x, y);
  }

  // ----- which files may be deleted -----

  datatype PackageContext = PackageContext(workspaceName: string, world: Option<WorldMode>)

  /** The first context of the workspace decides; a workspace without one is not closed. */
  predicate IsClosedWorld(contexts: seq<PackageContext>, workspace: string) {
    contexts != [] &&
    if contexts[0].workspaceName == workspace then contexts[0].world.UnwrapOr(Closed) == Closed
    else IsClosedWorld(contexts[1..], workspace)
  }

  function Names(s: seq<string>): set<string> {
    set x | x in s
  }

  ghost predicate HasStatus(files: seq<FileReport>, path: string, status: FileStatus) {
    exists f :: f in files && f.path == path && f.status == status
  }

  ghost predicate AllUnreachable(files: seq<FileReport>, paths: seq<string>) {
    forall path :: path in paths ==> HasStatus(files, path, Unreachable)
  }

  predicate IsCandidate(f: Finding) {
    f.issueType == UNUSED_FILES && f.confidence == High
  }

  ghost predicate MayDelete(contexts: seq<PackageContext>, profiles: seq<string>, files: seq<FileReport>, f: Finding) {
    IsClosedWorld(contexts, f.workspace) && Names(f.targetProfiles) == Names(profiles) && AllUnreachable(files, f.paths)
  }

  method StatusTable(files: seq<FileReport>) returns (statuses: map<string, FileStatus>)
    requires DistinctPaths(files)
    ensures forall path, status {:trigger HasStatus(files, path, status)} ::
      path in statuses && statuses[path] == status <==> HasStatus(files, path, status)
  {
    statuses := map[];
    for i := 0 to |files|
      invariant forall path :: path in statuses <==> exists k :: 0 <= k < i && files[k].path == path
      invariant forall k :: 0 <= k < i ==> files[k].path in statuses && statuses[files[k].path] == files[k].status
    {
      statuses := statuses[files[i].path := files[i].status];
    }
  }

  method AreUnreachable(statuses: map<string, FileStatus>, paths: seq<string>) returns (r: bool)
    ensures r <==> forall path :: path in paths ==> path in statuses && statuses[path] == Unreachable
  {
    for i := 0 to |paths|
      invariant forall k :: 0 <= k < i ==> paths[k] in statuses && statuses[paths[k]] == Unreachable
    {
      if paths[i] !in statuses || statuses[paths[i]] != Unreachable {
        return false;
      }
    }
    return true;
  }

  /** Marks exactly the candidates that may be deleted, and changes nothing else. */
  method ApplyFileFixEligibility(contexts: seq<PackageContext>, profiles: seq<string>, report: ScanReport)
    returns (findings: seq<Finding>)
    requires DistinctPaths(report.files)
    ensures |findings| == |report.findings|
    ensures forall i :: 0 <= i < |findings| && !IsCandidate(report.findings[i]) ==> findings[i] == report.findings[i]
    ensures forall i :: 0 <= i < |findings| && IsCandidate(report.findings[i]) ==>
      findings[i] == report.findings[i].(eligibility :=
        if MayDelete(contexts, profiles, report.files, report.findings[i]) then Eligible else PreviewOnly)
  {
    var statuses := StatusTable(report.files);
    findings := [];
    for i := 0 to |report.findings|
      invariant |findings| == i
      invariant forall k :: 0 <= k < i && !IsCandidate(report.findings[k]) ==> findings[k] == report.findings[k]
      invariant forall k :: 0 <= k < i && IsCandidate(report.findings[k]) ==>
        findings[k] == report.findings[k].(eligibility :=
          if MayDelete(contexts, profiles, report.files, report.findings[k]) then Eligible else PreviewOnly)
    {
      var finding := report.findings[i];
      if !IsCandidate(finding) {
        findings := findings + [finding];
        continue;
      }
      var unreachable := AreUnreachable(statuses, finding.paths);
      var eligible :=
        IsClosedWorld(contexts, finding.workspace) && Names(finding.targetProfiles) == Names(profiles) && unreachable;
      assert unreachable <==> AllUnreachable(report.files, finding.paths);
      findings := findings + [finding.(eligibility := if eligible then Eligible else PreviewOnly)];
    }
  }

  /**
   A file that any profile saw reachable or incomplete is never deletable: what becomes
   eligible lies in a closed world, is reported for exactly the selected profiles, and
   names only files that some profile saw and that every profile saw unreachable.
   */
  lemma EligibleIsUnreachableEverywhere(reports: seq<ProfileReport>, files: seq<FileReport>, merged: seq<Finding>,
                                        contexts: seq<PackageContext>, profiles: seq<string>, f: Finding,
                                        p: ProfileReport, g: FileReport)
    requires IsAggregate(reports, |reports|, files, merged) && MayDelete(contexts, profiles, files, f)
    requires p in reports && g in p.report.files && g.path in f.paths
    ensures g.status == Unreachable && IsClosedWorld(contexts, f.workspace)
  {
    var h :| h in files && h.path == g.path && h.status == Unreachable;
    MergedStatusIsJoin(reports, files, merged, h);
    assert SeenAs(reports, g.path, g.status);
  }

  /** When every profile scanned the file, one of them seeing it alive keeps every finding about it from deletion. */
  lemma AliveAnywhereIsKept(reports: seq<ProfileReport>, files: seq<FileReport>, merged: seq<Finding>,
                            contexts: seq<PackageContext>, profiles: seq<string>, f: Finding, path: string)
    requires IsAggregate(reports, |reports|, files, merged) && path in f.paths
    requires SeenAs(reports, path, Reachable) || SeenAs(reports, path, Incomplete)
    ensures !MayDelete(contexts, profiles, files, f)
  {
    var status := if SeenAs(reports, path, Reachable) then Reachable else Incomplete;
    var p, g :| p in reports && g in p.report.files && g.path == path && g.status == status;
    if MayDelete(contexts, profiles, files, f) {
      EligibleIsUnreachableEverywhere(reports, files, merged, contexts, profiles, f, p, g);
    }
  }

  /** Merging makes no finding eligible that no scan made eligible. */
  lemma MergeGrantsNothing(reports: seq<ProfileReport>, files: seq<FileReport>, merged: seq<Finding>, f: Finding)
    requires IsAggregate(reports, |reports|, files, merged) && f in merged && f.eligibility == Eligible
    ensures exists p, g :: p in reports && g in p.report.findings && g.eligibility == Eligible && SameFinding(f, g)
  {
    assert reports[..|reports|] == reports;
    assert ComesFrom(AllOrigins(TaggedReports(reports)), f);
    var o :| o in AllOrigins(TaggedReports(reports)) && f == o.finding.(targetProfiles := f.targetProfiles);
    var p, g := OriginIsReported(reports, o);
    EligibleSource(f, o.finding, g, p.profile);
  }

  lemma EligibleSource(f: Finding, tagged: Finding, g: Finding, profile: string)
    requires f == tagged.(targetProfiles := f.targetProfiles) && tagged == g.(targetProfiles := [profile])
    ensures SameFinding(f, g) && f.eligibility == g.eligibility
  {
  }

  lemma {:induction false} OriginIsReported(reports: seq<ProfileReport>, o: Origin)
    returns (p: ProfileReport, g: Finding)
    requires o in AllOrigins(TaggedReports(reports))
    ensures p in reports && g in p.report.findings && o == Origin(p.profile, g.(targetProfiles := [p.profile]))
  {
    var n := |reports| - 1;
    var front, last := reports[..n], reports[n];
    assert reports[..n + 1] == reports;
    TaggedFront(reports, n);
    if o in AllOrigins(TaggedReports(front)) {
      p, g := OriginIsReported(front, o);
    } else {
      var own := OriginsOf(last.profile, Tagged(last).report.findings);
      var i :| 0 <= i < |own| && own[i] == o;
      p, g := last, last.report.findings[i];
    }
  }
}
