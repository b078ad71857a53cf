/**
 The fix engine of fixes/apply.rs: preview, authorize, verify again, change the files,
 run the package manager, revalidate.  The log records what an apply does to the
 world, in order.
 */
module FixEngines {
  import opened Common
  import opened FixPlans
  import opened SourceEdits

  /** `Special` stands for symbolic links and everything else that is neither file nor directory. */
  datatype Node = Regular(content: Bytes) | Directory | Special

  type Tree = map<string, Node>

  datatype FixError =
    | InvalidPlan(error: PlanError)
    | AuthorizationMismatch
    | UnsafeFileType(path: string)
    | HashMismatch(path: string, expected: Digest, actual: Digest)
    | EditOutOfBounds(path: string, span: SpanError)
    | Io(path: string)

  datatype ChangeKind = ModifyFile | DeleteFile

  datatype PreviewedChange = PreviewedChange(
    path: string, kind: ChangeKind, before: Digest, after: Option<Digest>, original: Bytes, updated: Option<Bytes>)

  /** The digest of the serialized plan followed by the digests of all contents; injective. */
  datatype Fingerprint = FingerprintOf(plan: Plan, digests: seq<Digest>)

  datatype FixPreview = FixPreview(plan: Plan, fingerprint: Fingerprint, changes: seq<PreviewedChange>)

  datatype Authorization = Authorization(fingerprint: Fingerprint)

  datatype CommandExecution = CommandExecution(command: PackageCommand, success: bool, exitCode: Option<int>,
                                               message: string)

  datatype RevalidationRequest = RevalidationRequest(
    planId: string, changedPaths: seq<string>, packageCommands: seq<CommandExecution>)

  datatype RevalidationOutcome = Passed(notes: seq<string>) | Failed(diagnostics: seq<string>)

  datatype ApplyReport = ApplyReport(
    planId: string, changedPaths: seq<string>, packageCommands: seq<CommandExecution>,
    revalidation: RevalidationOutcome)

  /** Runs a command on the tree; the number of commands before it stands for the executor's own state. */
  type Executor = (Tree, PackageCommand, nat) -> (Tree, CommandExecution)

  type Revalidator = (Tree, RevalidationRequest) -> (Tree, RevalidationOutcome)

  datatype Event =
    | Wrote(path: string, content: Bytes)
    | Removed(path: string)
    | Ran(before: Tree, command: PackageCommand, execution: CommandExecution, after: Tree)
    | Revalidated(request: RevalidationRequest, outcome: RevalidationOutcome)

  // ----- reading and checking inputs -----

  predicate InputIntact(tree: Tree, path: string, digest: Digest) {
    path in tree && tree[path].Regular? && DigestOf(tree[path].content) == digest
  }

  predicate CommandIntact(tree: Tree, c: PackageCommand) {
    && (c.workingDirectory == "." || (c.workingDirectory in tree && tree[c.workingDirectory] == Directory))
    && InputIntact(tree, c.manifestPath, c.manifestContent)
  }

  function ReadRegularFile(tree: Tree, path: string): (r: Result<Bytes, FixError>)
    ensures forall d :: InputIntact(tree, path, d) <==> r.Ok? && DigestOf(r.value) == d
  {
    if path !in tree then Err(Io(path))
    else if !tree[path].Regular? then Err(UnsafeFileType(path))
    else Ok(tree[path].content)
  }

  function VerifyContent(tree: Tree, path: string, expected: Digest): (r: Option<FixError>)
    ensures r.None? <==> InputIntact(tree, path, expected)
  {
    var current := ReadRegularFile(tree, path);
    if current.Err? then Some(current.error)
    else if DigestOf(current.value) != expected then Some(HashMismatch(path, expected, DigestOf(current.value)))
    else None
  }

  function VerifyWorkspaceDirectory(tree: Tree, path: string): Option<FixError> {
    if path == "." then None
    else if path !in tree then Some(Io(path))
    else if tree[path] != Directory then Some(UnsafeFileType(path))
    else None
  }

  function VerifyPackageCommand(tree: Tree, c: PackageCommand): (r: Option<FixError>)
    ensures r.None? <==> CommandIntact(tree, c)
  {
    var problem := VerifyWorkspaceDirectory(tree, c.workingDirectory);
    if problem.Some? then problem else VerifyContent(tree, c.manifestPath, c.manifestContent)
  }

  // ----- previews -----

  /** The previewed change is what the planned change does to its file. */
  ghost predicate Faithful(change: FileChange, c: PreviewedChange) {
    && c.path == change.path && c.before == change.expected == DigestOf(c.original)
    && match change
       case Modify(_, _, edits, _) =>
         && c.kind == ModifyFile && Fits(edits, 0, |c.original|)
         && c.updated == Some(Substitute(c.original, edits, 0)) && c.after == Some(DigestOf(c.updated.value))
       case Delete(_, _, _) => c.kind == DeleteFile && c.updated == None && c.after == None
  }

  function DigestsOf(changes: seq<PreviewedChange>): seq<Digest> {
    if changes == [] then []
    else
      DigestsOf(changes[..|changes| - 1]) + OwnDigests(changes[|changes| - 1])
  }

  function OwnDigests(c: PreviewedChange): seq<Digest> {
    [c.before] + if c.after.Some? then [c.after.value] else []
  }

  /** Holds of every preview the engine makes. */
  ghost predicate WellFormed(v: FixPreview) {
    && ValidPlan(v.plan) && v.fingerprint == FingerprintOf(v.plan, DigestsOf(v.changes))
    && |v.changes| == |v.plan.fileChanges|
    && forall i {:trigger Faithful(v.plan.fileChanges[i], v.changes[i])} ::
         0 <= i < |v.changes| ==> Faithful(v.plan.fileChanges[i], v.changes[i])
  }

  /** Nothing that the preview was based on has changed. */
  ghost predicate InputsIntact(tree: Tree, v: FixPreview) {
    && (forall i :: 0 <= i < |v.changes| ==> InputIntact(tree, v.changes[i].path, v.changes[i].before))
    && forall i :: 0 <= i < |v.plan.packageCommands| ==> CommandIntact(tree, v.plan.packageCommands[i])
  }

  predicate ChangePossible(tree: Tree, change: FileChange) {
    && InputIntact(tree, change.path, change.expected)
    && (change.Modify? && change.edits != [] ==>
          change.edits[|change.edits| - 1].span.end <= |tree[change.path].content|)
  }

  /** A valid plan, all of whose inputs are as analyzed, with every edit inside its file. */
  predicate Previewable(tree: Tree, p: Plan) {
    && ValidPlan(p)
    && (forall i :: 0 <= i < |p.fileChanges| ==> ChangePossible(tree, p.fileChanges[i]))
    && forall i :: 0 <= i < |p.packageCommands| ==> CommandIntact(tree, p.packageCommands[i])
  }

  lemma OwnDigestsDetermine(change: FileChange, a: PreviewedChange, b: PreviewedChange)
    requires Faithful(change, a) && Faithful(change, b)
    ensures |OwnDigests(a)| == |OwnDigests(b)|
    ensures OwnDigests(a) == OwnDigests(b) ==> a == b
  {
    assert OwnDigests(a)[0] == a.before && OwnDigests(b)[0] == b.before;
  }

  lemma SameTails<T>(a: seq<T>, b: seq<T>, x: seq<T>, y: seq<T>)
    requires a + x == b + y && |x| == |y|
    ensures a == b && x == y
  {
    assert a == (a + x)[..|a|] && b == (b + y)[..|b|];
    assert x == (a + x)[|a|..] && y == (b + y)[|b|..];
  }

  lemma {:induction false} DigestsDetermine(changes: seq<FileChange>, a: seq<PreviewedChange>, b: seq<PreviewedChange>)
    requires |a| == |b| == |changes|
    requires forall i {:trigger Faithful(changes[i], a[i])} {:trigger Faithful(changes[i], b[i])} ::
      0 <= i < |changes| ==> Faithful(changes[i], a[i]) && Faithful(changes[i], b[i])
    requires DigestsOf(a) == DigestsOf(b)
    ensures a == b
  {
    if a != [] {
      var n := |a| - 1;
      assert Faithful(changes[n], a[n]) && Faithful(changes[n], b[n]);
      OwnDigestsDetermine(changes[n], a[n], b[n]);
      SameTails(DigestsOf(a[..n]), DigestsOf(b[..n]), OwnDigests(a[n]), OwnDigests(b[n]));
      forall i | 0 <= i < n
        ensures Faithful(changes[..n][i], a[..n][i]) && Faithful(changes[..n][i], b[..n][i])
      {
        assert Faithful(changes[i], a[i]) && Faithful(changes[i], b[i]);
      }
      DigestsDetermine(changes[..n], a[..n], b[..n]);
      assert a == a[..n] + [a[n]] && b == b[..n] + [b[n]];
    }
  }

  /** What is authorized by a fingerprint is one plan with one set of old and new contents. */
  lemma FingerprintBindsPreview(a: FixPreview, b: FixPreview)
    requires WellFormed(a) && WellFormed(b) && a.fingerprint == b.fingerprint
    ensures a == b
  {
    DigestsDetermine(a.plan.fileChanges, a.changes, b.changes);
  }

  // ----- file changes -----

  function Changed(tree: Tree, c: PreviewedChange): Tree
    requires c.kind == ModifyFile ==> c.updated.Some?
  {
    if c.kind == ModifyFile then tree[c.path := Regular(c.updated.value)] else tree - {c.path}
  }

  predicate HasContents(changes: seq<PreviewedChange>) {
    forall i :: 0 <= i < |changes| ==> changes[i].kind == ModifyFile ==> changes[i].updated.Some?
  }

  function AppliedTo(tree: Tree, changes: seq<PreviewedChange>): Tree
    requires HasContents(changes)
  {
    if changes == [] then tree else Changed(AppliedTo(tree, changes[..|changes| - 1]), changes[|changes| - 1])
  }

  function WriteEvent(c: PreviewedChange): Event
    requires c.kind == ModifyFile ==> c.updated.Some?
  {
    if c.kind == ModifyFile then Wrote(c.path, c.updated.value) else Removed(c.path)
  }

  function WriteEvents(changes: seq<PreviewedChange>): seq<Event>
    requires HasContents(changes)
  {
    seq(|changes|, i requires 0 <= i < |changes| => WriteEvent(changes[i]))
  }

  function ChangedPaths(changes: seq<PreviewedChange>): seq<string> {
    seq(|changes|, i requires 0 <= i < |changes| => changes[i].path)
  }

  ghost predicate DistinctPaths(changes: seq<PreviewedChange>) {
    forall i, j :: 0 <= i < j < |changes| ==> changes[i].path != changes[j].path
  }

  lemma WellFormedChanges(v: FixPreview)
    requires WellFormed(v)
    ensures HasContents(v.changes) && DistinctPaths(v.changes)
  {
    forall i | 0 <= i < |v.changes|
      ensures v.changes[i].kind == ModifyFile ==> v.changes[i].updated.Some?
    {
      assert Faithful(v.plan.fileChanges[i], v.changes[i]);
    }
    forall i, j | 0 <= i < j < |v.changes|
      ensures v.changes[i].path != v.changes[j].path
    {
      assert Faithful(v.plan.fileChanges[i], v.changes[i]) && Faithful(v.plan.fileChanges[j], v.changes[j]);
    }
  }

  /** A path that is not planned keeps its node. */
  lemma {:induction false} OtherPathsKept(tree: Tree, changes: seq<PreviewedChange>, path: string)
    requires HasContents(changes) && forall i :: 0 <= i < |changes| ==> changes[i].path != path
    ensures path in AppliedTo(tree, changes) <==> path in tree
    ensures path in tree ==> AppliedTo(tree, changes)[path] == tree[path]
  {
    if changes != [] {
      OtherPathsKept(tree, changes[..|changes| - 1], path);
    }
  }

  /** A planned path ends with exactly its previewed content, or is gone. */
  lemma {:induction false} PlannedPathsChanged(tree: Tree, changes: seq<PreviewedChange>, i: nat)
    requires HasContents(changes) && DistinctPaths(changes) && i < |changes|
    ensures var path := changes[i].path;
            if changes[i].kind == DeleteFile then path !in AppliedTo(tree, changes)
            else path in AppliedTo(tree, changes) && AppliedTo(tree, changes)[path] == Regular(changes[i].updated.value)
  {
    if i < |changes| - 1 {
      PlannedPathsChanged(tree, changes[..|changes| - 1], i);
    }
  }

  /**
   However far the changes got, every planned file holds either its old or its previewed
   content: the first `k` are done and the others are as they were.
   */
  lemma EveryFileOldOrNew(tree: Tree, changes: seq<PreviewedChange>, k: nat, i: nat)
    requires HasContents(changes) && DistinctPaths(changes) && k <= |changes| && i < |changes|
    ensures var path, reached, final := changes[i].path, AppliedTo(tree, changes[..k]), AppliedTo(tree, changes);
            if i < k then path in reached <==> path in final else path in reached <==> path in tree
    ensures var path, reached, final := changes[i].path, AppliedTo(tree, changes[..k]), AppliedTo(tree, changes);
            path in reached ==> reached[path] == if i < k then final[path] else tree[path]
  {
    PlannedPathsChanged(tree, changes, i);
    if i < k {
      PlannedPathsChanged(tree, changes[..k], i);
    } else {
      OtherPathsKept(tree, changes[..k], changes[i].path);
    }
  }

  /** No file change touches a manifest or a workspace directory, so what the commands need is still there. */
  lemma CommandsSurviveChanges(tree: Tree, v: FixPreview, j: nat)
    requires WellFormed(v) && InputsIntact(tree, v) && HasContents(v.changes) && j < |v.plan.packageCommands|
    ensures CommandIntact(AppliedTo(tree, v.changes), v.plan.packageCommands[j])
  {
    var c := v.plan.packageCommands[j];
    assert CommandIntact(tree, c);
    forall i | 0 <= i < |v.changes|
      ensures v.changes[i].path != c.manifestPath
      ensures c.workingDirectory in tree && tree[c.workingDirectory] == Directory ==>
        v.changes[i].path != c.workingDirectory
    {
      assert Faithful(v.plan.fileChanges[i], v.changes[i]);
      assert v.plan.fileChanges[i].path != c.manifestPath;
      assert InputIntact(tree, v.changes[i].path, v.changes[i].before);
    }
    OtherPathsKept(tree, v.changes, c.manifestPath);
    if c.workingDirectory != "." {
      OtherPathsKept(tree, v.changes, c.workingDirectory);
    }
  }

  /** The number of changes before the first one that cannot be written. */
  function Writable(changes: seq<PreviewedChange>, unwritable: set<string>): (k: nat)
    ensures k <= |changes| && forall i :: 0 <= i < k ==> changes[i].path !in unwritable
    ensures k < |changes| ==> changes[k].path in unwritable
  {
    if changes == [] || changes[0].path in unwritable then 0 else 1 + Writable(changes[1..], unwritable)
  }

  /** The first `n` changes, and nothing else, have been made and logged. */
  ghost predicate ChangesMade(n: nat, changes: seq<PreviewedChange>, start: Tree, tree: Tree,
                              before: seq<Event>, log: seq<Event>, paths: seq<string>)
    requires HasContents(changes)
  {
    && n <= |changes| && tree == AppliedTo(start, changes[..n]) && log == before + WriteEvents(changes[..n])
    && paths == ChangedPaths(changes[..n])
  }

  lemma ChangesMadeGrow(n: nat, changes: seq<PreviewedChange>, start: Tree, tree: Tree,
                        before: seq<Event>, log: seq<Event>, paths: seq<string>)
    requires HasContents(changes) && DistinctPaths(changes) && n < |changes|
    requires ChangesMade(n, changes, start, tree, before, log, paths)
    requires InputIntact(start, changes[n].path, changes[n].before)
    ensures InputIntact(tree, changes[n].path, changes[n].before)
    ensures ChangesMade(n + 1, changes, start, Changed(tree, changes[n]), before, log + [WriteEvent(changes[n])],
                        paths + [changes[n].path])
  {
    var shorter, longer := changes[..n], changes[..n + 1];
    assert longer[..n] == shorter;
    OtherPathsKept(start, shorter, changes[n].path);
    assert WriteEvents(longer) == WriteEvents(shorter) + [WriteEvent(changes[n])];
    assert ChangedPaths(longer) == ChangedPaths(shorter) + [changes[n].path];
    assert log + [WriteEvent(changes[n])] == before + WriteEvents(longer);
  }

  // ----- commands -----

  function EndOf(start: Tree, trace: seq<Event>): Tree
    requires forall i :: 0 <= i < |trace| ==> trace[i].Ran?
  {
    if trace == [] then start else trace[|trace| - 1].after
  }

  /** Entry `i` runs the next command on the tree left by its predecessor, whose manifest is still the analyzed one. */
  ghost predicate IsCommandStep(executor: Executor, start: Tree, commands: seq<PackageCommand>, trace: seq<Event>,
                                i: nat)
    requires |trace| <= |commands| && i < |trace| && forall k :: 0 <= k < |trace| ==> trace[k].Ran?
  {
    && trace[i].command == commands[i] && CommandIntact(trace[i].before, commands[i])
    && trace[i].before == (if i == 0 then start else trace[i - 1].after)
    && executor(trace[i].before, commands[i], i) == (trace[i].after, trace[i].execution)
  }

  /** The trace runs a prefix of the commands and goes on only after success. */
  ghost predicate IsCommandRun(executor: Executor, start: Tree, commands: seq<PackageCommand>, trace: seq<Event>) {
    && |trace| <= |commands| && (forall i :: 0 <= i < |trace| ==> trace[i].Ran?)
    && (forall i :: 0 <= i < |trace| ==> IsCommandStep(executor, start, commands, trace, i))
    && forall i :: 0 <= i < |trace| - 1 ==> trace[i].execution.success
  }

  ghost predicate FailedLast(trace: seq<Event>) {
    trace != [] && trace[|trace| - 1].Ran? && !trace[|trace| - 1].execution.success
  }

  function Executions(trace: seq<Event>): seq<CommandExecution>
    requires forall i :: 0 <= i < |trace| ==> trace[i].Ran?
  {
    seq(|trace|, i requires 0 <= i < |trace| => trace[i].execution)
  }

  /** What the command loop keeps. */
  ghost predicate CommandsRan(executor: Executor, start: Tree, commands: seq<PackageCommand>, trace: seq<Event>,
                              tree: Tree, before: seq<Event>, log: seq<Event>, results: seq<CommandExecution>) {
    && IsCommandRun(executor, start, commands, trace) && tree == EndOf(start, trace)
    && log == before + trace && results == Executions(trace)
  }

  lemma CommandsRanGrow(executor: Executor, start: Tree, commands: seq<PackageCommand>, trace: seq<Event>,
                        tree: Tree, before: seq<Event>, log: seq<Event>, results: seq<CommandExecution>, e: Event)
    requires CommandsRan(executor, start, commands, trace, tree, before, log, results)
    requires !FailedLast(trace) && |trace| < |commands| && CommandIntact(tree, commands[|trace|])
    requires var ran := executor(tree, commands[|trace|], |trace|); e == Ran(tree, commands[|trace|], ran.1, ran.0)
    ensures CommandsRan(executor, start, commands, trace + [e], e.after, before, log + [e], results + [e.execution])
  {
    var longer := trace + [e];
    forall i | 0 <= i < |longer|
      ensures IsCommandStep(executor, start, commands, longer, i)
    {
      if i < |trace| {
        assert IsCommandStep(executor, start, commands, trace, i);
      }
    }
    assert Executions(longer) == Executions(trace) + [e.execution];
    assert log + [e] == before + longer;
  }

  // ----- the whole apply -----

  ghost predicate Authorized(v: FixPreview, authorization: Authorization) {
    authorization.fingerprint == v.fingerprint
  }

  /** The commands part of the log of an apply that got past the file changes. */
  function CommandLog(v: FixPreview, log: seq<Event>, reported: bool): seq<Event>
    requires |v.changes| + (if reported then 1 else 0) <= |log|
  {
    log[|v.changes|..|log| - if reported then 1 else 0]
  }

  /** After the file changes: the commands, and then exactly one revalidation or a changed manifest. */
  ghost predicate Completed(v: FixPreview, executor: Executor, revalidator: Revalidator,
                            start: Tree, after: Tree, log: seq<Event>, r: Result<ApplyReport, FixError>)
    requires WellFormed(v)
  {
    WellFormedChanges(v);
    var commands := v.plan.packageCommands;
    && |v.changes| + (if r.Ok? then 1 else 0) <= |log| && log[..|v.changes|] == WriteEvents(v.changes)
    && var trace := CommandLog(v, log, r.Ok?);
    && IsCommandRun(executor, start, commands, trace)
    && if r.Ok? then
         && (|trace| == |commands| || FailedLast(trace))
         && var request := RevalidationRequest(v.plan.planId, ChangedPaths(v.changes), Executions(trace));
         && var (final, outcome) := revalidator(EndOf(start, trace), request);
         && log[|log| - 1] == Revalidated(request, outcome) && after == final
         && r.value == ApplyReport(v.plan.planId, ChangedPaths(v.changes), Executions(trace), outcome)
       else
         && |trace| < |commands| && !FailedLast(trace) && after == EndOf(start, trace)
         && Some(r.error) == VerifyPackageCommand(after, commands[|trace|])
  }

  /** All that an apply may do, given the tree before it and the paths that cannot be written. */
  ghost predicate Outcome(v: FixPreview, authorization: Authorization, executor: Executor, revalidator: Revalidator,
                          unwritable: set<string>, before: Tree, after: Tree, log: seq<Event>,
                          r: Result<ApplyReport, FixError>)
    requires WellFormed(v)
  {
    WellFormedChanges(v);
    if !Authorized(v, authorization) then r == Err(AuthorizationMismatch) && after == before && log == []
    else if !InputsIntact(before, v) then r.Err? && after == before && log == []
    else if Writable(v.changes, unwritable) < |v.changes| then
      var k := Writable(v.changes, unwritable);
      r == Err(Io(v.changes[k].path)) && after == AppliedTo(before, v.changes[..k]) &&
        log == WriteEvents(v.changes[..k])
    else Completed(v, executor, revalidator, AppliedTo(before, v.changes), after, log, r)
  }

  lemma CompletedRevalidates(v: FixPreview, executor: Executor, revalidator: Revalidator,
                             start: Tree, after: Tree, log: seq<Event>, r: Result<ApplyReport, FixError>, i: nat)
    requires WellFormed(v) && Completed(v, executor, revalidator, start, after, log, r) && i < |log|
    ensures log[i].Revalidated? <==> r.Ok? && i == |log| - 1
  {
    WellFormedChanges(v);
    var trace := CommandLog(v, log, r.Ok?);
    if i < |v.changes| {
      assert log[i] == log[..|v.changes|][i] == WriteEvent(v.changes[i]);
    } else if i - |v.changes| < |trace| {
      assert log[i] == trace[i - |v.changes|];
    }
  }

  /** A report means that exactly one revalidation ran, after everything else; an error means none did. */
  lemma ReportMeansOneRevalidation(v: FixPreview, authorization: Authorization, executor: Executor,
                                   revalidator: Revalidator, unwritable: set<string>, before: Tree, after: Tree,
                                   log: seq<Event>, r: Result<ApplyReport, FixError>, i: nat)
    requires WellFormed(v) && Outcome(v, authorization, executor, revalidator, unwritable, before, after, log, r)
    requires i < |log|
    ensures log[i].Revalidated? <==> r.Ok? && i == |log| - 1
  {
    WellFormedChanges(v);
    if Authorized(v, authorization) && InputsIntact(before, v) && Writable(v.changes, unwritable) == |v.changes| {
      CompletedRevalidates(v, executor, revalidator, AppliedTo(before, v.changes), after, log, r, i);
    }
  }

  /**
   Between the verification and the first command nothing can go wrong but a write:
   when every path can be written and there are commands, the first one runs.
   */
  lemma FirstCommandRuns(v: FixPreview, authorization: Authorization, executor: Executor,
                         revalidator: Revalidator, unwritable: set<string>, before: Tree, after: Tree,
                         log: seq<Event>, r: Result<ApplyReport, FixError>)
    requires WellFormed(v) && Outcome(v, authorization, executor, revalidator, unwritable, before, after, log, r)
    requires Authorized(v, authorization) && InputsIntact(before, v)
    requires forall i :: 0 <= i < |v.changes| ==> v.changes[i].path !in unwritable
    requires v.plan.packageCommands != []
    ensures HasContents(v.changes) && |log| > |v.changes|
    ensures var start := AppliedTo(before, v.changes);
            var ran := executor(start, v.plan.packageCommands[0], 0);
            log[|v.changes|] == Ran(start, v.plan.packageCommands[0], ran.1, ran.0)
  {
    WellFormedChanges(v);
    CommandsSurviveChanges(before, v, 0);
    var trace := CommandLog(v, log, r.Ok?);
    if trace != [] {
      assert IsCommandStep(executor, AppliedTo(before, v.changes), v.plan.packageCommands, trace, 0);
      assert log[|v.changes|] == trace[0];
    }
  }

  // ----- which applies end in a report -----

  /** The tree that command `j` meets when all commands before it have run. */
  function TreeBefore(executor: Executor, start: Tree, commands: seq<PackageCommand>, j: nat): Tree
    requires j <= |commands|
  {
    if j == 0 then start else executor(TreeBefore(executor, start, commands, j - 1), commands[j - 1], j - 1).0
  }

  predicate Succeeds(executor: Executor, start: Tree, commands: seq<PackageCommand>, j: nat)
    requires j < |commands|
  {
    executor(TreeBefore(executor, start, commands, j), commands[j], j).1.success
  }

  /** No command before it fails. */
  predicate IsTurn(executor: Executor, start: Tree, commands: seq<PackageCommand>, j: nat)
    requires j < |commands|
  {
    forall i :: 0 <= i < j ==> Succeeds(executor, start, commands, i)
  }

  /** Every command whose turn comes finds its workspace and its analyzed manifest. */
  ghost predicate EachFindsItsManifest(executor: Executor, start: Tree, commands: seq<PackageCommand>) {
    forall j: nat :: j < |commands| && IsTurn(executor, start, commands, j) ==>
      CommandIntact(TreeBefore(executor, start, commands, j), commands[j])
  }

  lemma {:induction false} TraceFollows(executor: Executor, start: Tree, commands: seq<PackageCommand>,
                                        trace: seq<Event>, i: nat)
    requires IsCommandRun(executor, start, commands, trace) && i < |trace|
    ensures trace[i].before == TreeBefore(executor, start, commands, i)
    ensures trace[i].after == TreeBefore(executor, start, commands, i + 1)
    ensures trace[i].execution.success == Succeeds(executor, start, commands, i)
  {
    assert IsCommandStep(executor, start, commands, trace, i);
    if i > 0 {
      TraceFollows(executor, start, commands, trace, i - 1);
    }
  }

  lemma TraceEnds(executor: Executor, start: Tree, commands: seq<PackageCommand>, trace: seq<Event>)
    requires IsCommandRun(executor, start, commands, trace)
    ensures EndOf(start, trace) == TreeBefore(executor, start, commands, |trace|)
    ensures forall j: nat :: j < |trace| ==> CommandIntact(TreeBefore(executor, start, commands, j), commands[j])
    ensures forall j: nat :: j < |trace| - 1 ==> Succeeds(executor, start, commands, j)
    ensures trace != [] ==> (FailedLast(trace) <==> !Succeeds(executor, start, commands, |trace| - 1))
  {
    forall j: nat | j < |trace|
      ensures trace[j].before == TreeBefore(executor, start, commands, j)
      ensures trace[j].after == TreeBefore(executor, start, commands, j + 1)
      ensures trace[j].execution.success == Succeeds(executor, start, commands, j)
      ensures CommandIntact(TreeBefore(executor, start, commands, j), commands[j])
    {
      TraceFollows(executor, start, commands, trace, j);
      assert IsCommandStep(executor, start, commands, trace, j);
    }
  }

  /** A run that went through all commands, or ended in a failure, gave every command its turn. */
  lemma TurnsAreInTrace(executor: Executor, start: Tree, commands: seq<PackageCommand>, trace: seq<Event>, j: nat)
    requires IsCommandRun(executor, start, commands, trace) && (|trace| == |commands| || FailedLast(trace))
    requires j < |commands| && IsTurn(executor, start, commands, j)
    ensures j < |trace|
  {
    TraceEnds(executor, start, commands, trace);
    assert FailedLast(trace) ==> |trace| - 1 >= 0 && !Succeeds(executor, start, commands, |trace| - 1);
  }

  lemma FullRunFindsManifests(executor: Executor, start: Tree, commands: seq<PackageCommand>, trace: seq<Event>)
    requires IsCommandRun(executor, start, commands, trace) && (|trace| == |commands| || FailedLast(trace))
    ensures EachFindsItsManifest(executor, start, commands)
  {
    TraceEnds(executor, start, commands, trace);
    forall j: nat | j < |commands| && IsTurn(executor, start, commands, j)
      ensures CommandIntact(TreeBefore(executor, start, commands, j), commands[j])
    {
      TurnsAreInTrace(executor, start, commands, trace, j);
    }
  }

  lemma TurnBehindTrace(executor: Executor, start: Tree, commands: seq<PackageCommand>, trace: seq<Event>)
    requires IsCommandRun(executor, start, commands, trace) && |trace| < |commands| && !FailedLast(trace)
    ensures IsTurn(executor, start, commands, |trace|)
  {
    forall i | 0 <= i < |trace|
      ensures Succeeds(executor, start, commands, i)
    {
      TraceFollows(executor, start, commands, trace, i);
      assert IsCommandStep(executor, start, commands, trace, i);
    }
  }

  lemma StoppedRunMissesManifest(executor: Executor, start: Tree, commands: seq<PackageCommand>, n: nat)
    requires n < |commands| && IsTurn(executor, start, commands, n)
    requires !CommandIntact(TreeBefore(executor, start, commands, n), commands[n])
    ensures !EachFindsItsManifest(executor, start, commands)
  {
  }

  lemma CompletedReports(v: FixPreview, executor: Executor, revalidator: Revalidator,
                         start: Tree, after: Tree, log: seq<Event>, r: Result<ApplyReport, FixError>)
    requires WellFormed(v) && Completed(v, executor, revalidator, start, after, log, r)
    ensures r.Ok? <==> EachFindsItsManifest(executor, start, v.plan.packageCommands)
  {
    var commands, trace := v.plan.packageCommands, CommandLog(v, log, r.Ok?);
    if r.Ok? {
      FullRunFindsManifests(executor, start, commands, trace);
    } else {
      TraceEnds(executor, start, commands, trace);
      TurnBehindTrace(executor, start, commands, trace);
      StoppedRunMissesManifest(executor, start, commands, |trace|);
    }
  }

  /**
   Once an authorized apply has verified its inputs and can write its files, it ends in a
   report exactly when every command whose turn comes finds its manifest.
   */
  lemma ReportsExactlyWhenManifestsLast(v: FixPreview, authorization: Authorization, executor: Executor,
                                        revalidator: Revalidator, unwritable: set<string>, before: Tree, after: Tree,
                                        log: seq<Event>, r: Result<ApplyReport, FixError>)
    requires WellFormed(v) && Outcome(v, authorization, executor, revalidator, unwritable, before, after, log, r)
    requires Authorized(v, authorization) && InputsIntact(before, v)
    requires forall i :: 0 <= i < |v.changes| ==> v.changes[i].path !in unwritable
    ensures HasContents(v.changes)
    ensures r.Ok? <==> EachFindsItsManifest(executor, AppliedTo(before, v.changes), v.plan.packageCommands)
  {
    WellFormedChanges(v);
    CompletedReports(v, executor, revalidator, AppliedTo(before, v.changes), after, log, r);
  }

  /** No command changes the manifest or the workspace directory of a later one. */
  ghost predicate MindsItsOwn(executor: Executor, commands: seq<PackageCommand>) {
    forall tree: Tree, i: nat, j: nat, path {:trigger executor(tree, commands[i], i), commands[j], path in tree} ::
      i < j < |commands| && (path == commands[j].manifestPath || path == commands[j].workingDirectory) ==>
        var after := executor(tree, commands[i], i).0;
        (path in after <==> path in tree) && (path in tree ==> after[path] == tree[path])
  }

  lemma {:induction false} ManifestLasts(executor: Executor, start: Tree, commands: seq<PackageCommand>, i: nat, j: nat)
    requires MindsItsOwn(executor, commands) && i <= j < |commands| && CommandIntact(start, commands[j])
    ensures CommandIntact(TreeBefore(executor, start, commands, i), commands[j])
  {
    if i > 0 {
      var tree := TreeBefore(executor, start, commands, i - 1);
      ManifestLasts(executor, start, commands, i - 1, j);
      assert commands[j].manifestPath in tree;
      assert commands[j].workingDirectory in tree || commands[j].workingDirectory == ".";
    }
  }

  /** An executor that leaves the inputs of later commands alone always yields a report. */
  lemma ConsiderateExecutorReports(v: FixPreview, authorization: Authorization, executor: Executor,
                                   revalidator: Revalidator, unwritable: set<string>, before: Tree, after: Tree,
                                   log: seq<Event>, r: Result<ApplyReport, FixError>)
    requires WellFormed(v) && Outcome(v, authorization, executor, revalidator, unwritable, before, after, log, r)
    requires Authorized(v, authorization) && InputsIntact(before, v)
    requires forall i :: 0 <= i < |v.changes| ==> v.changes[i].path !in unwritable
    requires MindsItsOwn(executor, v.plan.packageCommands)
    ensures r.Ok?
  {
    WellFormedChanges(v);
    var start, commands := AppliedTo(before, v.changes), v.plan.packageCommands;
    forall j: nat | j < |commands|
      ensures CommandIntact(TreeBefore(executor, start, commands, j), commands[j])
    {
      CommandsSurviveChanges(before, v, j);
      ManifestLasts(executor, start, commands, j, j);
    }
    ReportsExactlyWhenManifestsLast(v, authorization, executor, revalidator, unwritable, before, after, log, r);
  }

  // ----- an apply that ends without a report -----

  /** The file "a" is deleted, then a command runs in the root and one in "w". */
  const TWO_COMMANDS: Plan := Plan("p", "s", [Delete("a", DigestOf([]), "r")], [CommandIn("."), CommandIn("w")])

  function CommandIn(workspace: string): PackageCommand {
    PackageCommand(workspace, ManifestIn(workspace), DigestOf([]), true)
  }

  const DELETE_PREVIEW: FixPreview := FixPreview(
    TWO_COMMANDS, FingerprintOf(TWO_COMMANDS, [DigestOf([])]),
    [PreviewedChange("a", DeleteFile, DigestOf([]), None, [], None)])

  const TWO_WORKSPACES: Tree := map[
    "a" := Regular([]), ManifestIn(".") := Regular([]), "w" := Directory, ManifestIn("w") := Regular([])]

  /** Whatever it is asked to run, it rewrites the manifest in "w" and succeeds. */
  function Rewriting(tree: Tree, command: PackageCommand, n: nat): (Tree, CommandExecution) {
    (tree[ManifestIn("w") := Regular([1])], CommandExecution(command, true, None, ""))
  }

  lemma DistinctNames()
    ensures "a" != ManifestIn(".") && "a" != ManifestIn("w") && ManifestIn(".") != ManifestIn("w")
    ensures "w" !in {"a", ManifestIn("."), ManifestIn("w")}
  {
    assert "a"[0] == 'a' && ManifestIn(".")[0] == 'p' && ManifestIn("w")[0] == 'w' && |ManifestIn("w")| > |"w"|;
  }

  lemma NoLockfile()
    ensures !IsLockfile("a")
  {
    FileNameIsLastComponent("", "a");
    assert forall f :: f in LOCKFILES ==> |f| > 1;
    assert |"a"| == 1;
  }

  lemma ReasonIsValid()
    ensures ValidReason("r")
  {
    assert !IsWhitespace("r"[0]);
  }

  lemma DeletionIsValid()
    ensures ValidChanges(TWO_COMMANDS.fileChanges)
  {
    NoLockfile();
    ReasonIsValid();
  }

  lemma CommandsAreValid()
    ensures ValidCommands(TWO_COMMANDS.packageCommands, TWO_COMMANDS.fileChanges)
  {
    DistinctNames();
  }

  lemma DeletePreviewIsWellFormed()
    ensures WellFormed(DELETE_PREVIEW)
  {
    var v := DELETE_PREVIEW;
    DeletionIsValid();
    CommandsAreValid();
    assert DigestsOf(v.changes[..0]) == [] && DigestsOf(v.changes) == [DigestOf([])];
    assert Faithful(v.plan.fileChanges[0], v.changes[0]);
  }

  lemma DeletePreviewIsIntact()
    ensures InputsIntact(TWO_WORKSPACES, DELETE_PREVIEW)
  {
    var tree, commands := TWO_WORKSPACES, TWO_COMMANDS.packageCommands;
    DistinctNames();
    assert InputIntact(tree, "a", DigestOf([]));
    assert CommandIntact(tree, commands[0]) && CommandIntact(tree, commands[1]);
  }

  /**
   The first command succeeds and rewrites the manifest of the second.  The apply ends in
   an error after it deleted a file and ran a command, and without a revalidation.
   */
  lemma ErrorWithoutRevalidation(revalidator: Revalidator, after: Tree, log: seq<Event>,
                                 r: Result<ApplyReport, FixError>)
    ensures WellFormed(DELETE_PREVIEW) && InputsIntact(TWO_WORKSPACES, DELETE_PREVIEW)
    ensures Outcome(DELETE_PREVIEW, Authorization(DELETE_PREVIEW.fingerprint), Rewriting, revalidator, {},
                    TWO_WORKSPACES, after, log, r)
      ==> && r.Err? && "a" !in after && |log| >= 2 && log[0] == Removed("a") && log[1].Ran?
          && forall i :: 0 <= i < |log| ==> !log[i].Revalidated?
  {
    var v, authorization, before := DELETE_PREVIEW, Authorization(DELETE_PREVIEW.fingerprint), TWO_WORKSPACES;
    DeletePreviewIsWellFormed();
    DeletePreviewIsIntact();
    WellFormedChanges(v);
    if Outcome(v, authorization, Rewriting, revalidator, {}, before, after, log, r) {
      RewritingStops(AppliedTo(before, v.changes));
      ReportsExactlyWhenManifestsLast(v, authorization, Rewriting, revalidator, {}, before, after, log, r);
      FirstCommandRuns(v, authorization, Rewriting, revalidator, {}, before, after, log, r);
      forall i: nat | i < |log|
        ensures !log[i].Revalidated?
      {
        ReportMeansOneRevalidation(v, authorization, Rewriting, revalidator, {}, before, after, log, r, i);
      }
      var trace := CommandLog(v, log, false);
      assert log[0] == log[..1][0] == WriteEvents(v.changes)[0];
      TraceEnds(Rewriting, AppliedTo(before, v.changes), v.plan.packageCommands, trace);
      RewritingKeepsGone(AppliedTo(before, v.changes), |trace|);
    }
  }

  lemma RewritingStops(start: Tree)
    ensures !EachFindsItsManifest(Rewriting, start, TWO_COMMANDS.packageCommands)
  {
    var commands := TWO_COMMANDS.packageCommands;
    assert TreeBefore(Rewriting, start, commands, 0) == start && Succeeds(Rewriting, start, commands, 0);
    assert IsTurn(Rewriting, start, commands, 1);
    assert TreeBefore(Rewriting, start, commands, 1)[ManifestIn("w")] == Regular([1]);
  }

  lemma {:induction false} RewritingKeepsGone(start: Tree, n: nat)
    requires "a" !in start && n <= 2
    ensures "a" !in TreeBefore(Rewriting, start, TWO_COMMANDS.packageCommands, n)
  {
    DistinctNames();
    if n > 0 {
      RewritingKeepsGone(start, n - 1);
    }
  }

  lemma RefusedOutcome(v: FixPreview, authorization: Authorization, executor: Executor, revalidator: Revalidator,
                       unwritable: set<string>, before: Tree, error: FixError)
    requires WellFormed(v) && (!Authorized(v, authorization) || !InputsIntact(before, v))
    requires !Authorized(v, authorization) ==> error == AuthorizationMismatch
    ensures Outcome(v, authorization, executor, revalidator, unwritable, before, before, [], Err(error))
  {
  }

  lemma UnwritableOutcome(v: FixPreview, authorization: Authorization, executor: Executor, revalidator: Revalidator,
                          unwritable: set<string>, before: Tree)
    requires WellFormed(v) && Authorized(v, authorization) && InputsIntact(before, v) && HasContents(v.changes)
    requires Writable(v.changes, unwritable) < |v.changes|
    ensures var k := Writable(v.changes, unwritable);
            Outcome(v, authorization, executor, revalidator, unwritable, before, AppliedTo(before, v.changes[..k]),
                    WriteEvents(v.changes[..k]), Err(Io(v.changes[k].path)))
  {
  }

  lemma StoppedOutcome(v: FixPreview, authorization: Authorization, executor: Executor, revalidator: Revalidator,
                       unwritable: set<string>, before: Tree, reached: Tree, trace: seq<Event>, error: FixError)
    requires WellFormed(v) && Authorized(v, authorization) && InputsIntact(before, v) && HasContents(v.changes)
    requires Writable(v.changes, unwritable) == |v.changes|
    requires IsCommandRun(executor, AppliedTo(before, v.changes), v.plan.packageCommands, trace)
    requires reached == EndOf(AppliedTo(before, v.changes), trace)
    requires |trace| < |v.plan.packageCommands| && !FailedLast(trace)
    requires Some(error) == VerifyPackageCommand(reached, v.plan.packageCommands[|trace|])
    ensures Outcome(v, authorization, executor, revalidator, unwritable, before, reached,
                    WriteEvents(v.changes) + trace, Err(error))
  {
    var log := WriteEvents(v.changes) + trace;
    assert log[..|v.changes|] == WriteEvents(v.changes) && CommandLog(v, log, false) == trace;
  }

  lemma ReportOutcome(v: FixPreview, authorization: Authorization, executor: Executor, revalidator: Revalidator,
                      unwritable: set<string>, before: Tree, trace: seq<Event>, request: RevalidationRequest,
                      after: Tree, outcome: RevalidationOutcome)
    requires WellFormed(v) && Authorized(v, authorization) && InputsIntact(before, v) && HasContents(v.changes)
    requires Writable(v.changes, unwritable) == |v.changes|
    requires IsCommandRun(executor, AppliedTo(before, v.changes), v.plan.packageCommands, trace)
    requires |trace| == |v.plan.packageCommands| || FailedLast(trace)
    requires request == RevalidationRequest(v.plan.planId, ChangedPaths(v.changes), Executions(trace))
    requires revalidator(EndOf(AppliedTo(before, v.changes), trace), request) == (after, outcome)
    ensures Outcome(v, authorization, executor, revalidator, unwritable, before, after,
                    WriteEvents(v.changes) + trace + [Revalidated(request, outcome)],
                    Ok(ApplyReport(v.plan.planId, request.changedPaths, request.packageCommands, outcome)))
  {
    var log := WriteEvents(v.changes) + trace + [Revalidated(request, outcome)];
    assert log[..|v.changes|] == WriteEvents(v.changes) && CommandLog(v, log, true) == trace;
  }

  class FixEngine {
    const unwritable: set<string>
    var tree: Tree
    ghost var log: seq<Event>

    constructor (tree: Tree, unwritable: set<string>)
      ensures this.tree == tree && this.unwritable == unwritable && log == []
    {
      this.tree, this.unwritable, log := tree, unwritable, [];
    }

    method PreviewFileChange(change: FileChange) returns (r: Result<PreviewedChange, FixError>)
      requires ValidChange(change)
      ensures r.Ok? <==> ChangePossible(tree, change)
      ensures r.Ok? ==> Faithful(change, r.value) && tree[change.path] == Regular(r.value.original)
    {
      var content := ReadRegularFile(tree, change.path);
      if content.Err? {
        return Err(content.error);
      }
      var original := content.value;
      var before := DigestOf(original);
      if before != change.expected {
        return Err(HashMismatch(change.path, change.expected, before));
      }
      match change {
        case Modify(path, _, edits, _) =>
          var updated := ApplyEdits(original, edits);
          if updated.Err? {
            return Err(EditOutOfBounds(path, updated.error));
          }
          return Ok(PreviewedChange(path, ModifyFile, before, Some(DigestOf(updated.value)), original,
                                    Some(updated.value)));
        case Delete(path, _, _) =>
          return Ok(PreviewedChange(path, DeleteFile, before, None, original, None));
      }
    }

    /**
     Succeeds exactly when the plan is valid and possible on the present tree, and then
     shows what the plan does to each file.  Nothing is changed.
     */
    method Preview(plan: FixPlan) returns (r: Result<FixPreview, FixError>)
      ensures r.Ok? <==> Previewable(tree, plan.Value())
      ensures r.Ok? ==> r.value.plan == plan.Value() && WellFormed(r.value) && InputsIntact(tree, r.value)
    {
      var invalid := plan.Validate();
      if invalid.Some? {
        return Err(InvalidPlan(invalid.value));
      }
      var p := plan.Value();
      for i := 0 to |p.packageCommands|
        invariant forall k :: 0 <= k < i ==> CommandIntact(tree, p.packageCommands[k])
      {
        var problem := VerifyPackageCommand(tree, p.packageCommands[i]);
        if problem.Some? {
          return Err(problem.value);
        }
      }
      var changes: seq<PreviewedChange> := [];
      for i := 0 to |p.fileChanges|
        invariant |changes| == i
        invariant forall k :: 0 <= k < i ==>
          && ChangePossible(tree, p.fileChanges[k]) && Faithful(p.fileChanges[k], changes[k])
          && InputIntact(tree, changes[k].path, changes[k].before)
      {
        var change := PreviewFileChange(p.fileChanges[i]);
        if change.Err? {
          return Err(change.error);
        }
        changes := changes + [change.value];
      }
      var digests: seq<Digest> := [];
      for i := 0 to |changes|
        invariant digests == DigestsOf(changes[..i])
      {
        assert changes[..i + 1][..i] == changes[..i];
        digests := digests + [changes[i].before];
        if changes[i].after.Some? {
          digests := digests + [changes[i].after.value];
        }
      }
      assert changes[..|changes|] == changes;
      return Ok(FixPreview(p, FingerprintOf(p, digests), changes));
    }

    method VerifyPreviewInputs(v: FixPreview) returns (r: Option<FixError>)
      ensures r.None? <==> InputsIntact(tree, v)
    {
      for i := 0 to |v.changes|
        invariant forall k :: 0 <= k < i ==> InputIntact(tree, v.changes[k].path, v.changes[k].before)
      {
        r := VerifyContent(tree, v.changes[i].path, v.changes[i].before);
        if r.Some? {
          return;
        }
      }
      for i := 0 to |v.plan.packageCommands|
        invariant forall k :: 0 <= k < i ==> CommandIntact(tree, v.plan.packageCommands[k])
      {
        r := VerifyPackageCommand(tree, v.plan.packageCommands[i]);
        if r.Some? {
          return;
        }
      }
      return None;
    }

    method ApplyFileChange(c: PreviewedChange) returns (r: Option<FixError>)
      requires c.kind == ModifyFile ==> c.updated.Some?
      modifies this
      ensures r.None? <==> InputIntact(old(tree), c.path, c.before) && c.path !in unwritable
      ensures r.None? ==> tree == Changed(old(tree), c) && log == old(log) + [WriteEvent(c)]
      ensures r.Some? ==> tree == old(tree) && log == old(log)
      ensures InputIntact(old(tree), c.path, c.before) && r.Some? ==> r == Some(Io(c.path))
    {
      r := VerifyContent(tree, c.path, c.before);
      if r.Some? {
        return;
      }
      if c.path in unwritable {
        return Some(Io(c.path));
      }
      tree := if c.kind == ModifyFile then tree[c.path := Regular(c.updated.value)] else tree - {c.path};
      log := log + [WriteEvent(c)];
    }

    method ApplyFileChanges(v: FixPreview) returns (changedPaths: seq<string>, r: Option<FixError>)
      requires WellFormed(v) && InputsIntact(tree, v) && HasContents(v.changes) && DistinctPaths(v.changes)
      modifies this
      ensures r.None? <==> Writable(v.changes, unwritable) == |v.changes|
      ensures r.None? ==> tree == AppliedTo(old(tree), v.changes) && log == old(log) + WriteEvents(v.changes)
      ensures r.None? ==> changedPaths == ChangedPaths(v.changes)
      ensures r.Some? ==>
        var k := Writable(v.changes, unwritable);
        && r == Some(Io(v.changes[k].path)) && tree == AppliedTo(old(tree), v.changes[..k])
        && log == old(log) + WriteEvents(v.changes[..k])
    {
      changedPaths := [];
      for i := 0 to |v.changes|
        invariant i <= Writable(v.changes, unwritable)
        invariant ChangesMade(i, v.changes, old(tree), tree, old(log), log, changedPaths)
      {
        ChangesMadeGrow(i, v.changes, old(tree), tree, old(log), log, changedPaths);
        r := ApplyFileChange(v.changes[i]);
        if r.Some? {
          return;
        }
        changedPaths := changedPaths + [v.changes[i].path];
      }
      assert v.changes[..|v.changes|] == v.changes;
      r := None;
    }

    method RunCommands(commands: seq<PackageCommand>, executor: Executor)
      returns (results: seq<CommandExecution>, r: Option<FixError>, ghost trace: seq<Event>)
      modifies this
      ensures CommandsRan(executor, old(tree), commands, trace, tree, old(log), log, results)
      ensures r.None? ==> |trace| == |commands| || FailedLast(trace)
      ensures r.Some? ==>
        |trace| < |commands| && !FailedLast(trace) && r == VerifyPackageCommand(tree, commands[|trace|])
    {
      trace := [];
      results := [];
      for i := 0 to |commands|
        invariant |trace| == i && !FailedLast(trace)
        invariant CommandsRan(executor, old(tree), commands, trace, tree, old(log), log, results)
      {
        r := VerifyPackageCommand(tree, commands[i]);
        if r.Some? {
          return;
        }
        var (after, result) := executor(tree, commands[i], i);
        ghost var e := Ran(tree, commands[i], result, after);
        CommandsRanGrow(executor, old(tree), commands, trace, tree, old(log), log, results, e);
        trace := trace + [e];
        log := log + [e];
        tree := after;
        results := results + [result];
        if !result.success {
          break;
        }
      }
      r := None;
    }

    /** Does no more and no less than `Outcome` says. */
    method Apply(v: FixPreview, authorization: Authorization, executor: Executor, revalidator: Revalidator)
      returns (r: Result<ApplyReport, FixError>, ghost happened: seq<Event>)
      requires WellFormed(v)
      modifies this
      ensures log == old(log) + happened
      ensures Outcome(v, authorization, executor, revalidator, unwritable, old(tree), tree, happened, r)
    {
      happened := [];
      WellFormedChanges(v);
      ghost var start, past := tree, log;
      if authorization.fingerprint != v.fingerprint {
        r := Err(AuthorizationMismatch);
        RefusedOutcome(v, authorization, executor, revalidator, unwritable, start, AuthorizationMismatch);
        return;
      }
      var problem := VerifyPreviewInputs(v);
      if problem.Some? {
        r := Err(problem.value);
        RefusedOutcome(v, authorization, executor, revalidator, unwritable, start, problem.value);
        return;
      }
      var changedPaths;
      changedPaths, problem := ApplyFileChanges(v);
      if problem.Some? {
        r := Err(problem.value);
        happened := WriteEvents(v.changes[..Writable(v.changes, unwritable)]);
        UnwritableOutcome(v, authorization, executor, revalidator, unwritable, start);
        return;
      }
      var results;
      ghost var trace;
      results, problem, trace := RunCommands(v.plan.packageCommands, executor);
      happened := WriteEvents(v.changes) + trace;
      Reassociate(past, WriteEvents(v.changes), trace);
      if problem.Some? {
        r := Err(problem.value);
        StoppedOutcome(v, authorization, executor, revalidator, unwritable, start, tree, trace, problem.value);
        return;
      }
      var request := RevalidationRequest(v.plan.planId, changedPaths, results);
      var (after, outcome) := revalidator(tree, request);
      r := Ok(ApplyReport(v.plan.planId, changedPaths, results, outcome));
      ReportOutcome(v, authorization, executor, revalidator, unwritable, start, trace, request, after, outcome);
      Reassociate(past, happened, [Revalidated(request, outcome)]);
      happened := happened + [Revalidated(request, outcome)];
      log := log + [Revalidated(request, outcome)];
      tree := after;
    }
  }
}
