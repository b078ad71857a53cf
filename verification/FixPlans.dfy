/**
 Fix plans, fixes/plan.rs: how a plan is built, and the check it passes before
 anything is previewed.
 */
module FixPlans {
  import opened Common
  import opened Sorting
  import opened SourceEdits
  import opened Strings

  /** The digest is injective: it determines the content. */
  datatype Digest = DigestOf(content: Bytes)

  datatype FileChange =
    | Modify(path: string, expected: Digest, edits: seq<SourceEdit>, reason: string)
    | Delete(path: string, expected: Digest, reason: string)

  /** `typed` says that the removals, the program and the arguments agree with each other. */
  datatype PackageCommand = PackageCommand(
    workingDirectory: string, manifestPath: string, manifestContent: Digest, typed: bool)

  datatype Plan = Plan(
    planId: string, summary: string, fileChanges: seq<FileChange>, packageCommands: seq<PackageCommand>)

  datatype PlanError =
    | InvalidIdentity
    | LockfileEdit(path: string)
    | EmptyEdits(path: string)
    | OverlappingEdits(path: string)
    | DuplicateFileChange(path: string)
    | InvalidReason
    | InvalidPackageCommand
    | DuplicatePackageCommand(path: string)
    | ConflictingManifestChange(path: string)

  const LOCKFILES: set<string> := {
    "package-lock.json", "npm-shrinkwrap.json", "pnpm-lock.yaml", "yarn.lock", "bun.lock", "bun.lockb"
  }

  /** What follows the last slash. */
  function FileName(path: string): string {
    if path == [] || path[|path| - 1] == '/' then []
    else FileName(path[..|path| - 1]) + [path[|path| - 1]]
  }

  lemma {:induction false} FileNameIsLastComponent(directory: string, name: string)
    requires '/' !in name
    ensures FileName(name) == name && FileName(directory + "/" + name) == name
  {
    var path := directory + "/" + name;
    if name != [] {
      var n := |name| - 1;
      assert name == name[..n] + [name[n]];
      assert path[..|path| - 1] == directory + "/" + name[..n];
      FileNameIsLastComponent(directory, name[..n]);
    }
  }

  predicate IsLockfile(path: string) {
    FileName(path) in LOCKFILES
  }

  predicate ValidReason(reason: string) {
    && (exists i :: 0 <= i < |reason| && !IsWhitespace(reason[i])) && |reason| <= 4096
    && forall i :: 0 <= i < |reason| ==> !IsControl(reason[i])
  }

  predicate ValidIdentity(planId: string, summary: string) {
    && 0 < |planId| <= 256 && (forall i :: 0 <= i < |planId| ==> !IsWhitespace(planId[i]))
    && 0 < |summary| <= 4096
  }

  function ManifestIn(workingDirectory: string): string {
    if workingDirectory == "." then "package.json" else workingDirectory + "/package.json"
  }

  predicate ValidCommand(c: PackageCommand) {
    c.typed && c.manifestPath == ManifestIn(c.workingDirectory)
  }

  /** One change is in order by itself. */
  predicate ValidChange(c: FileChange) {
    !IsLockfile(c.path) && ValidReason(c.reason) && (c.Modify? ==> c.edits != [] && NonOverlapping(c.edits))
  }

  /** Every file is changed once. */
  predicate ValidChanges(changes: seq<FileChange>) {
    && (forall i :: 0 <= i < |changes| ==> ValidChange(changes[i]))
    && forall i, j :: 0 <= i < j < |changes| ==> changes[i].path != changes[j].path
  }

  /** Every manifest of the first `n` commands belongs to one of them, and to no file change. */
  predicate ValidUpTo(n: nat, commands: seq<PackageCommand>, changes: seq<FileChange>)
    requires n <= |commands|
  {
    && (forall i :: 0 <= i < n ==> ValidCommand(commands[i]))
    && (forall i, j :: 0 <= i < j < n ==> commands[i].manifestPath != commands[j].manifestPath)
    && forall i, j :: 0 <= i < n && 0 <= j < |changes| ==> commands[i].manifestPath != changes[j].path
  }

  predicate ValidCommands(commands: seq<PackageCommand>, changes: seq<FileChange>) {
    ValidUpTo(|commands|, commands, changes)
  }

  predicate ValidPlan(p: Plan) {
    ValidIdentity(p.planId, p.summary) && ValidChanges(p.fileChanges) && ValidCommands(p.packageCommands, p.fileChanges)
  }

  /** An error names something that is really wrong with the plan. */
  ghost predicate IsDefect(p: Plan, error: PlanError) {
    var changes, commands := p.fileChanges, p.packageCommands;
    match error
    case InvalidIdentity => !ValidIdentity(p.planId, p.summary)
    case LockfileEdit(path) => IsLockfile(path) && exists i :: 0 <= i < |changes| && changes[i].path == path
    case EmptyEdits(path) =>
      exists i :: 0 <= i < |changes| && changes[i].path == path && changes[i].Modify? && changes[i].edits == []
    case OverlappingEdits(path) =>
      exists i :: 0 <= i < |changes| && changes[i].path == path && changes[i].Modify? &&
        !NonOverlapping(changes[i].edits)
    case DuplicateFileChange(path) =>
      exists i, j :: 0 <= i < j < |changes| && changes[i].path == path && changes[j].path == path
    case InvalidReason => exists i :: 0 <= i < |changes| && !ValidReason(changes[i].reason)
    case InvalidPackageCommand => exists i :: 0 <= i < |commands| && !ValidCommand(commands[i])
    case DuplicatePackageCommand(path) =>
      exists i, j :: 0 <= i < j < |commands| && commands[i].manifestPath == path && commands[j].manifestPath == path
    case ConflictingManifestChange(path) =>
      && (exists i :: 0 <= i < |commands| && commands[i].manifestPath == path)
      && exists j :: 0 <= j < |changes| && changes[j].path == path
  }

  function PathsOf(changes: seq<FileChange>): (r: seq<string>)
    ensures |r| == |changes| && forall i :: 0 <= i < |r| ==> r[i] == changes[i].path
  {
    seq(|changes|, i requires 0 <= i < |changes| => changes[i].path)
  }

  /** Sorted paths without equal neighbours are distinct, in whatever order they came. */
  lemma NeighboursDifferMeansDistinct(paths: seq<string>)
    requires forall i :: 0 <= i < |paths| - 1 ==> Sort(StrLeq, paths)[i] != Sort(StrLeq, paths)[i + 1]
    ensures Distinct(paths)
  {
    var sorted := Sort(StrLeq, paths);
    StrOrder();
    SortSorted(StrLeq, paths);
    forall i, j | 0 <= i < j < |sorted|
      ensures sorted[i] != sorted[j]
    {
      assert StrLeq(sorted[i], sorted[i + 1]) && (i + 1 < j ==> StrLeq(sorted[i + 1], sorted[j]));
      if sorted[i] == sorted[j] {
        StrLeqAntisymmetric(sorted[i], sorted[i + 1]);
      }
    }
    DistinctCounts(sorted);
    CountsDistinct(paths);
  }

  /** Equal neighbours among the sorted paths are equal paths of two changes. */
  lemma EqualNeighboursRepeat(paths: seq<string>, k: nat)
    requires k < |paths| - 1 && Sort(StrLeq, paths)[k] == Sort(StrLeq, paths)[k + 1]
    ensures exists i, j :: 0 <= i < j < |paths| && paths[i] == paths[j] == Sort(StrLeq, paths)[k]
  {
    var sorted := Sort(StrLeq, paths);
    EqualNeighboursCountTwice(sorted, k);
    CountedTwiceRepeats(paths, sorted[k]);
  }

  /** The first `n` sorted paths are no lockfiles, and none equals its neighbour. */
  ghost predicate PathLoop(n: nat, sorted: seq<string>) {
    && n <= |sorted| && (forall i :: 0 <= i < n ==> !IsLockfile(sorted[i]))
    && forall i :: 0 <= i < n - 1 ==> sorted[i] != sorted[i + 1]
  }

  lemma PathLoopStep(n: nat, sorted: seq<string>)
    requires PathLoop(n, sorted) && n < |sorted|
    ensures !IsLockfile(sorted[n]) && (n > 0 ==> sorted[n - 1] != sorted[n]) ==> PathLoop(n + 1, sorted)
  {
  }

  lemma PathLoopEnds(changes: seq<FileChange>)
    requires PathLoop(|changes|, Sort(StrLeq, PathsOf(changes)))
    ensures forall i :: 0 <= i < |changes| ==> !IsLockfile(changes[i].path)
    ensures forall i, j :: 0 <= i < j < |changes| ==> changes[i].path != changes[j].path
  {
    var paths := PathsOf(changes);
    NeighboursDifferMeansDistinct(paths);
    forall i | 0 <= i < |changes|
      ensures !IsLockfile(changes[i].path)
    {
      SortElements(StrLeq, paths, paths[i]);
      assert paths[i] in Sort(StrLeq, paths);
    }
    forall i, j | 0 <= i < j < |changes|
      ensures changes[i].path != changes[j].path
    {
      assert paths[i] != paths[j];
    }
  }

  /** The first `n` commands are in order, and `manifests` holds their manifests. */
  ghost predicate CommandLoop(n: nat, commands: seq<PackageCommand>, changes: seq<FileChange>, manifests: set<string>) {
    n <= |commands| && ValidUpTo(n, commands, changes) && manifests == set i | 0 <= i < n :: commands[i].manifestPath
  }

  lemma CommandLoopStep(n: nat, p: Plan, manifests: set<string>)
    requires CommandLoop(n, p.packageCommands, p.fileChanges, manifests) && n < |p.packageCommands|
    ensures var commands, changes := p.packageCommands, p.fileChanges;
            var c, paths := commands[n], set i | 0 <= i < |changes| :: changes[i].path;
            if !ValidCommand(c) then IsDefect(p, InvalidPackageCommand) && !ValidCommands(commands, changes)
            else if c.manifestPath in manifests then
              IsDefect(p, DuplicatePackageCommand(c.manifestPath)) && !ValidCommands(commands, changes)
            else if c.manifestPath in paths then
              IsDefect(p, ConflictingManifestChange(c.manifestPath)) && !ValidCommands(commands, changes)
            else CommandLoop(n + 1, commands, changes, manifests + {c.manifestPath})
  {
    var commands, changes := p.packageCommands, p.fileChanges;
    var c, paths := commands[n], set i | 0 <= i < |changes| :: changes[i].path;
    assert c.manifestPath in paths ==> exists j :: 0 <= j < |changes| && changes[j].path == c.manifestPath;
    if c.manifestPath !in manifests && c.manifestPath !in paths && ValidCommand(c) {
      forall i, j | 0 <= i < j < n + 1
        ensures commands[i].manifestPath != commands[j].manifestPath
      {
        assert commands[i].manifestPath in manifests || i == n;
      }
      forall j | 0 <= j < |changes|
        ensures c.manifestPath != changes[j].path
      {
        assert changes[j].path in paths;
      }
    }
  }

  class FixPlan {
    const planId: string
    const summary: string
    var fileChanges: seq<FileChange>
    var packageCommands: seq<PackageCommand>

    /** A new plan has a valid identity or is not made at all. */
    static method Create(planId: string, summary: string) returns (r: Result<FixPlan, PlanError>)
      ensures r.Ok? <==> ValidIdentity(planId, summary)
      ensures r.Ok? ==> fresh(r.value) && r.value.Value() == Plan(planId, summary, [], []) && r.value.Built()
      ensures r.Err? ==> r.error == InvalidIdentity
    {
      if !ValidIdentity(planId, summary) {
        return Err(InvalidIdentity);
      }
      var plan := new FixPlan(planId, summary);
      return Ok(plan);
    }

    constructor (planId: string, summary: string)
      ensures Value() == Plan(planId, summary, [], [])
    {
      this.planId, this.summary := planId, summary;
      fileChanges, packageCommands := [], [];
    }

    function Value(): Plan
      reads this
    {
      Plan(planId, summary, fileChanges, packageCommands)
    }

    /** Holds of every plan made and extended by the methods below. */
    ghost predicate Built()
      reads this
    {
      ValidIdentity(planId, summary) && ValidChanges(fileChanges)
    }

    method RejectDuplicatePath(path: string) returns (duplicate: bool)
      ensures duplicate <==> exists i :: 0 <= i < |fileChanges| && fileChanges[i].path == path
    {
      duplicate := false;
      for i := 0 to |fileChanges|
        invariant !duplicate && forall k :: 0 <= k < i ==> fileChanges[k].path != path
      {
        if fileChanges[i].path == path {
          return true;
        }
      }
    }

    /**
     Accepts exactly pairwise disjoint edits, in any order, of a file that is neither
     a lockfile nor planned already, and stores them sorted.
     */
    method AddSourceEdits(expected: Digest, path: string, edits: seq<SourceEdit>, reason: string)
      returns (r: Option<PlanError>)
      modifies this`fileChanges
      ensures r.None? <==>
        && !IsLockfile(path) && edits != [] && AllApart(edits) && ValidReason(reason)
        && forall i :: 0 <= i < |old(fileChanges)| ==> old(fileChanges)[i].path != path
      ensures r.None? ==> fileChanges == old(fileChanges) + [Modify(path, expected, Sort(EditLeq, edits), reason)]
      ensures r.Some? ==> fileChanges == old(fileChanges)
      ensures old(Built()) ==> Built()
    {
      AcceptedMeansApart(edits);
      if IsLockfile(path) {
        return Some(LockfileEdit(path));
      }
      if edits == [] {
        return Some(EmptyEdits(path));
      }
      var sorted := Sort(EditLeq, edits);
      if !NonOverlapping(sorted) {
        return Some(OverlappingEdits(path));
      }
      var duplicate := RejectDuplicatePath(path);
      if duplicate {
        return Some(DuplicateFileChange(path));
      }
      if !ValidReason(reason) {
        return Some(InvalidReason);
      }
      fileChanges := fileChanges + [Modify(path, expected, sorted, reason)];
      return None;
    }

    method AddFileDeletion(expected: Digest, path: string, reason: string) returns (r: Option<PlanError>)
      modifies this`fileChanges
      ensures r.None? <==>
        && !IsLockfile(path) && ValidReason(reason)
        && forall i :: 0 <= i < |old(fileChanges)| ==> old(fileChanges)[i].path != path
      ensures r.None? ==> fileChanges == old(fileChanges) + [Delete(path, expected, reason)]
      ensures r.Some? ==> fileChanges == old(fileChanges)
      ensures old(Built()) ==> Built()
    {
      if IsLockfile(path) {
        return Some(LockfileEdit(path));
      }
      var duplicate := RejectDuplicatePath(path);
      if duplicate {
        return Some(DuplicateFileChange(path));
      }
      if !ValidReason(reason) {
        return Some(InvalidReason);
      }
      fileChanges := fileChanges + [Delete(path, expected, reason)];
      return None;
    }

    method AddPackageCommand(command: PackageCommand)
      modifies this`packageCommands
      ensures packageCommands == old(packageCommands) + [command]
      ensures old(Built()) ==> Built()
    {
      packageCommands := packageCommands + [command];
    }

    method ValidatePaths() returns (r: Option<PlanError>)
      ensures r.None? <==>
        && (forall i :: 0 <= i < |fileChanges| ==> !IsLockfile(fileChanges[i].path))
        && forall i, j :: 0 <= i < j < |fileChanges| ==> fileChanges[i].path != fileChanges[j].path
      ensures r.Some? ==> IsDefect(Value(), r.value)
    {
      var paths := PathsOf(fileChanges);
      var sorted := Sort(StrLeq, paths);
      for k := 0 to |sorted|
        invariant PathLoop(k, sorted)
      {
        SortElements(StrLeq, paths, sorted[k]);
        PathLoopStep(k, sorted);
        if IsLockfile(sorted[k]) {
          return Some(LockfileEdit(sorted[k]));
        }
        if k > 0 && sorted[k - 1] == sorted[k] {
          EqualNeighboursRepeat(paths, k - 1);
          return Some(DuplicateFileChange(sorted[k]));
        }
      }
      PathLoopEnds(fileChanges);
      return None;
    }

    method ValidateChanges() returns (r: Option<PlanError>)
      ensures r.None? <==> forall i :: 0 <= i < |fileChanges| ==>
        && ValidReason(fileChanges[i].reason)
        && (fileChanges[i].Modify? ==> fileChanges[i].edits != [] && NonOverlapping(fileChanges[i].edits))
      ensures r.Some? ==> IsDefect(Value(), r.value)
    {
      for k := 0 to |fileChanges|
        invariant forall i :: 0 <= i < k ==>
          && ValidReason(fileChanges[i].reason)
          && (fileChanges[i].Modify? ==> fileChanges[i].edits != [] && NonOverlapping(fileChanges[i].edits))
      {
        var change := fileChanges[k];
        if !ValidReason(change.reason) {
          return Some(InvalidReason);
        }
        if change.Modify? {
          if change.edits == [] {
            return Some(EmptyEdits(change.path));
          }
          if !NonOverlapping(change.edits) {
            return Some(OverlappingEdits(change.path));
          }
        }
      }
      return None;
    }

    method ValidateCommands() returns (r: Option<PlanError>)
      ensures r.None? <==> ValidCommands(packageCommands, fileChanges)
      ensures r.Some? ==> IsDefect(Value(), r.value)
    {
      var filePaths := set i | 0 <= i < |fileChanges| :: fileChanges[i].path;
      var manifests: set<string> := {};
      for k := 0 to |packageCommands|
        invariant CommandLoop(k, packageCommands, fileChanges, manifests)
      {
        var command := packageCommands[k];
        CommandLoopStep(k, Value(), manifests);
        if !ValidCommand(command) {
          return Some(InvalidPackageCommand);
        }
        if command.manifestPath in manifests {
          return Some(DuplicatePackageCommand(command.manifestPath));
        }
        manifests := manifests + {command.manifestPath};
        if command.manifestPath in filePaths {
          return Some(ConflictingManifestChange(command.manifestPath));
        }
      }
      return None;
    }

    /** Accepts exactly the valid plans; a refusal names a real defect. */
    method Validate() returns (r: Option<PlanError>)
      ensures r.None? <==> ValidPlan(Value())
      ensures r.Some? ==> IsDefect(Value(), r.value)
      // A plan that was built by adding changes can only be refused for its commands.
      ensures Built() && r.Some? ==>
        r.value.InvalidPackageCommand? || r.value.DuplicatePackageCommand? || r.value.ConflictingManifestChange?
    {
      if !ValidIdentity(planId, summary) {
        return Some(InvalidIdentity);
      }
      r := ValidatePaths();
      if r.Some? {
        return;
      }
      r := ValidateChanges();
      if r.Some? {
        return;
      }
      r := ValidateCommands();
    }
  }
}
