/** What a plan must be like, and what its log says, stated on fields and names alone. */
module FixLaws {
  import opened Common
  import opened FixEngines
  import opened FixPlans
  import opened SourceEdits

  // ----- lockfiles -----

  predicate IsLockfileName(name: string) {
    || name == "package-lock.json" || name == "npm-shrinkwrap.json" || name == "pnpm-lock.yaml"
    || name == "yarn.lock" || name == "bun.lock" || name == "bun.lockb"
  }

  lemma {:induction false} LastSlash(path: string)
    ensures '/' !in FileName(path)
    ensures path == FileName(path) || exists directory :: path == directory + "/" + FileName(path)
    decreases |path|
  {
    if path != "" {
      var front, c := path[..|path| - 1], path[|path| - 1];
      assert path == front + [c];
      if c == '/' {
        assert path == front + "/" + "";
      } else {
        LastSlash(front);
        if front != FileName(front) {
          var directory :| front == directory + "/" + FileName(front);
          assert path == directory + "/" + FileName(path);
        }
      }
    }
  }

  /** The path is the name, or ends in it behind a slash. */
  ghost predicate EndsIn(path: string, name: string) {
    path == name || exists directory :: path == directory + "/" + name
  }

  lemma FileNameIs(path: string, name: string)
    requires '/' !in name
    ensures FileName(path) == name <==> EndsIn(path, name)
  {
    LastSlash(path);
    if path == name {
      FileNameIsLastComponent("", name);
    } else if directory :| path == directory + "/" + name {
      FileNameIsLastComponent(directory, name);
    }
  }

  lemma LockfileNames(name: string)
    ensures name in LOCKFILES <==> IsLockfileName(name)
    ensures IsLockfileName(name) ==> '/' !in name
  {
  }

  /** A lockfile is one of six names, in whatever directory. */
  lemma LockfilesByName(path: string)
    ensures IsLockfile(path) <==> exists name :: IsLockfileName(name) && EndsIn(path, name)
  {
    LockfileNames(FileName(path));
    LastSlash(path);
    FileNameIs(path, FileName(path));
    if name :| IsLockfileName(name) && EndsIn(path, name) {
      LockfileNames(name);
      FileNameIs(path, name);
    }
  }

  // ----- the fields of a plan -----

  /** A reason says something in at most 4096 characters, none of them a control character. */
  lemma ReasonByCharacters(reason: string)
    ensures ValidReason(reason) <==>
              && |reason| <= 4096 && !(forall i :: 0 <= i < |reason| ==> IsWhitespace(reason[i]))
              && !(exists i :: 0 <= i < |reason| && IsControl(reason[i]))
  {
  }

  /** An identity is 1 to 256 characters without white space, and a summary 1 to 4096 characters. */
  lemma IdentityByCharacters(planId: string, summary: string)
    ensures ValidIdentity(planId, summary) <==>
              && planId != "" && |planId| < 257 && !(exists i :: 0 <= i < |planId| && IsWhitespace(planId[i]))
              && summary != "" && |summary| < 4097
  {
  }

  /** A command is typed, and its manifest is the package.json of its working directory. */
  lemma CommandByFields(c: PackageCommand)
    ensures ValidCommand(c) <==>
              && c.typed
              && (c.workingDirectory == "." ==> c.manifestPath == "package.json")
              && (c.workingDirectory != "." ==> c.manifestPath == c.workingDirectory + "/package.json")
  {
  }

  /** One file change that is in order: no lockfile, a reason, and for a modification edits that lie apart in order. */
  ghost predicate IsSound(c: FileChange) {
    && !(exists name :: IsLockfileName(name) && EndsIn(c.path, name)) && ValidReason(c.reason)
    && (c.Modify? ==>
          && c.edits != []
          && (forall i :: 0 <= i < |c.edits| ==> c.edits[i].span.start <= c.edits[i].span.end)
          && forall i, j :: 0 <= i < j < |c.edits| ==>
               c.edits[i].span.start < c.edits[j].span.start && c.edits[i].span.end <= c.edits[j].span.start)
  }

  lemma SoundChange(c: FileChange)
    ensures ValidChange(c) <==> IsSound(c)
  {
    LockfilesByName(c.path);
    if c.Modify? && NonOverlapping(c.edits) {
      forall i, j | 0 <= i < j < |c.edits|
        ensures c.edits[i].span.start < c.edits[j].span.start && c.edits[i].span.end <= c.edits[j].span.start
      {
        EarlierEndsFirst(c.edits, i, j);
      }
    }
  }

  /**
   A plan is valid exactly when its identity and each of its changes and commands is in
   order, and no path or manifest occurs twice among all of them.
   */
  lemma PlanByFields(p: Plan)
    ensures var changes, commands := p.fileChanges, p.packageCommands;
            ValidPlan(p) <==>
              && ValidIdentity(p.planId, p.summary)
              && (forall c :: c in changes ==> IsSound(c)) && (forall c :: c in commands ==> ValidCommand(c))
              && (forall i, j :: 0 <= i < j < |changes| ==> changes[i].path != changes[j].path)
              && (forall i, j :: 0 <= i < j < |commands| ==> commands[i].manifestPath != commands[j].manifestPath)
              && forall c, m :: c in changes && m in commands ==> m.manifestPath != c.path
  {
    forall c
      ensures ValidChange(c) <==> IsSound(c)
    {
      SoundChange(c);
    }
    PlanParts(p);
  }

  lemma PlanParts(p: Plan)
    ensures var changes, commands := p.fileChanges, p.packageCommands;
            ValidPlan(p) <==>
              && ValidIdentity(p.planId, p.summary)
              && (forall c :: c in changes ==> ValidChange(c)) && (forall c :: c in commands ==> ValidCommand(c))
              && (forall i, j :: 0 <= i < j < |changes| ==> changes[i].path != changes[j].path)
              && (forall i, j :: 0 <= i < j < |commands| ==> commands[i].manifestPath != commands[j].manifestPath)
              && forall c, m :: c in changes && m in commands ==> m.manifestPath != c.path
  {
  }

  // ----- inputs -----

  /** A file that is as it was analyzed. */
  predicate IsAsAnalyzed(tree: Tree, path: string, digest: Digest) {
    path in tree && tree[path].Regular? && digest == DigestOf(tree[path].content)
  }

  /** The file of the change is as it was analyzed, and every edit lies inside it. */
  predicate CanBeMade(tree: Tree, c: FileChange) {
    && IsAsAnalyzed(tree, c.path, c.expected)
    && (c.Modify? ==> forall e :: e in c.edits ==> e.span.end <= |tree[c.path].content|)
  }

  /** The manifest of the command is as it was analyzed, and its workspace is a directory. */
  predicate CanBeRun(tree: Tree, c: PackageCommand) {
    && IsAsAnalyzed(tree, c.manifestPath, c.manifestContent)
    && (c.workingDirectory == "." || (c.workingDirectory in tree && tree[c.workingDirectory] == Directory))
  }

  lemma PossibleByFields(tree: Tree, c: FileChange)
    requires ValidChange(c)
    ensures ChangePossible(tree, c) <==> CanBeMade(tree, c)
  {
    if c.Modify? && IsAsAnalyzed(tree, c.path, c.expected) {
      LastEndsLast(c.edits, |tree[c.path].content|);
    }
  }

  lemma LastEndsLast(edits: seq<SourceEdit>, length: nat)
    requires edits != [] && NonOverlapping(edits)
    ensures edits[|edits| - 1].span.end <= length <==> forall e :: e in edits ==> e.span.end <= length
  {
    var last := |edits| - 1;
    forall i | 0 <= i < last
      ensures edits[i].span.end <= edits[last].span.end
    {
      EarlierEndsFirst(edits, i, last);
    }
    assert edits[last] in edits;
  }

  lemma PreviewParts(tree: Tree, p: Plan)
    ensures Previewable(tree, p) <==>
              && ValidPlan(p)
              && (forall c :: c in p.fileChanges ==> ChangePossible(tree, c))
              && (forall c :: c in p.packageCommands ==> CanBeRun(tree, c))
  {
    forall c: PackageCommand
      ensures CommandIntact(tree, c) <==> CanBeRun(tree, c)
    {
    }
  }

  /**
   A plan can be previewed exactly when it is valid, every file and manifest is as it was
   analyzed, every edit lies inside its file, and every workspace is a directory.
   */
  lemma PreviewableByFields(tree: Tree, p: Plan)
    ensures Previewable(tree, p) <==>
              && ValidPlan(p)
              && (forall c :: c in p.fileChanges ==> CanBeMade(tree, c))
              && (forall c :: c in p.packageCommands ==> CanBeRun(tree, c))
  {
    PreviewParts(tree, p);
    if ValidPlan(p) {
      forall c | c in p.fileChanges
        ensures ChangePossible(tree, c) <==> CanBeMade(tree, c)
      {
        var i :| 0 <= i < |p.fileChanges| && p.fileChanges[i] == c;
        PossibleByFields(tree, c);
      }
    }
  }

  /** What a preview is authorized by covers the old and the new digest of every change. */
  lemma {:induction false} BothDigestsCovered(changes: seq<PreviewedChange>, i: nat)
    requires i < |changes|
    ensures changes[i].before in DigestsOf(changes)
    ensures changes[i].after.Some? ==> changes[i].after.value in DigestsOf(changes)
    decreases |changes|
  {
    var n := |changes| - 1;
    if i < n {
      BothDigestsCovered(changes[..n], i);
    } else {
      var own := OwnDigests(changes[n]);
      assert own[0] == changes[n].before && (changes[n].after.Some? ==> own[1] == changes[n].after.value);
    }
  }

  // ----- the log -----

  /** What an entry of the log did to the files. */
  function Replayed(tree: Tree, event: Event): Tree {
    match event
    case Wrote(path, content) => tree[path := Regular(content)]
    case Removed(path) => tree - {path}
    case Ran(before, command, execution, after) => after
    case Revalidated(request, outcome) => tree
  }

  function ReplayedAll(tree: Tree, log: seq<Event>): Tree {
    if log == [] then tree else Replayed(ReplayedAll(tree, log[..|log| - 1]), log[|log| - 1])
  }

  /** Replaying the log of the file changes gives the tree they leave. */
  lemma {:induction false} LogReplays(tree: Tree, changes: seq<PreviewedChange>)
    requires HasContents(changes)
    ensures ReplayedAll(tree, WriteEvents(changes)) == AppliedTo(tree, changes)
    decreases |changes|
  {
    if changes != [] {
      var n := |changes| - 1;
      var log := WriteEvents(changes);
      assert log[..n] == WriteEvents(changes[..n]);
      LogReplays(tree, changes[..n]);
    }
  }
}
