/**
 Which package a finding belongs to, application/project.rs and discovery/workspace.rs,
 and what the closed world of that package says about the files that may be deleted.
 */
module ProjectContexts {
  import opened Common
  import opened ProfileMerge
  import opened Reports
  import opened TargetProfiles

  // ----- the package of a path -----

  /** The names between the slashes; empty ones do not count. */
  function Components(path: string): seq<string> {
    ComponentsFrom(path, "")
  }

  function ComponentsFrom(rest: string, name: string): seq<string> {
    if rest == "" then Ended(name)
    else if rest[0] == '/' then Ended(name) + ComponentsFrom(rest[1..], "")
    else ComponentsFrom(rest[1..], name + [rest[0]])
  }

  function Ended(name: string): seq<string> {
    if name == "" then [] else [name]
  }

  /** The path lies in the directory. */
  predicate Contains(root: string, path: string) {
    Components(root) <= Components(path)
  }

  /** Of the packages that contain the path, the last one with the most components. */
  function PackageForPath(packages: seq<string>, path: string): (r: Option<string>)
    ensures r.Some? ==> r.value in packages && Contains(r.value, path)
    ensures forall p :: p in packages && Contains(p, path) ==> r.Some? && |Components(p)| <= |Components(r.value)|
  {
    if packages == [] then None
    else
      var n := |packages| - 1;
      var best := PackageForPath(packages[..n], path);
      assert packages == packages[..n] + [packages[n]];
      if Contains(packages[n], path) && (best.None? || |Components(best.value)| <= |Components(packages[n])|) then
        Some(packages[n])
      else best
  }

  /** The package of a path is the innermost one: every package around the path is around that package. */
  lemma InnermostPackage(packages: seq<string>, path: string, root: string)
    requires root in packages && Contains(root, path)
    ensures var r := PackageForPath(packages, path); r.Some? && Contains(root, r.value)
  {
    var r := PackageForPath(packages, path).value;
    var a, b, all := Components(root), Components(r), Components(path);
    assert a == all[..|a|] && b == all[..|b|];
  }

  /** The name under which reports show the package. */
  function WorkspaceOf(packages: seq<string>, path: string): string {
    match PackageForPath(packages, path)
    case None => "."
    case Some(root) => if root == "" then "." else root
  }

  // ----- assigning findings to packages -----

  /** The first path decides for all. */
  function Assigned(packages: seq<string>, profiles: seq<string>, f: Finding): Finding {
    f.(workspace := if f.paths == [] then f.workspace else WorkspaceOf(packages, f.paths[0]),
       targetProfiles := if f.targetProfiles == ["default"] then profiles else f.targetProfiles)
  }

  method AssignProjectContext(packages: seq<string>, profiles: seq<string>, findings: seq<Finding>)
    returns (placed: seq<Finding>)
    ensures |placed| == |findings|
    ensures forall i :: 0 <= i < |findings| ==> placed[i] == Assigned(packages, profiles, findings[i])
  {
    placed := [];
    for i := 0 to |findings|
      invariant |placed| == i
      invariant forall k :: 0 <= k < i ==> placed[k] == Assigned(packages, profiles, findings[k])
    {
      var finding := findings[i];
      if finding.paths != [] {
        finding := finding.(workspace := WorkspaceOf(packages, finding.paths[0]));
      }
      if |finding.targetProfiles| == 1 && finding.targetProfiles[0] == "default" {
        finding := finding.(targetProfiles := profiles);
      }
      placed := placed + [finding];
    }
  }

  // ----- what the closed world covers -----

  predicate IsInClosedWorld(contexts: seq<PackageContext>, packages: seq<string>, path: string) {
    IsClosedWorld(contexts, WorkspaceOf(packages, path))
  }

  /** All that counts for a deletion but the world: the profiles, and what they saw. */
  ghost predicate IsUnusedEverywhere(profiles: seq<string>, files: seq<FileReport>, f: Finding) {
    Names(f.targetProfiles) == Names(profiles) && AllUnreachable(files, f.paths)
  }

  /**
   A file that does not lie in a closed world may be deleted exactly when it is reported
   together with others, the first of them lies in a closed world, and all of them are
   unused everywhere.
   */
  lemma OpenFileIsDeletable(contexts: seq<PackageContext>, packages: seq<string>, profiles: seq<string>,
                            files: seq<FileReport>, raw: Finding, path: string)
    requires path in raw.paths && !IsInClosedWorld(contexts, packages, path)
    ensures var f := Assigned(packages, profiles, raw);
            MayDelete(contexts, profiles, files, f) <==>
              path != f.paths[0] && IsInClosedWorld(contexts, packages, f.paths[0]) &&
                IsUnusedEverywhere(profiles, files, f)
  {
  }

  /** When all files of a finding belong to the package of the first, all that may be deleted lies in a closed world. */
  lemma OnePackageIsCovered(contexts: seq<PackageContext>, packages: seq<string>, profiles: seq<string>,
                            files: seq<FileReport>, raw: Finding, path: string)
    requires path in raw.paths && MayDelete(contexts, profiles, files, Assigned(packages, profiles, raw))
    requires forall p :: p in raw.paths ==> PackageForPath(packages, p) == PackageForPath(packages, raw.paths[0])
    ensures IsInClosedWorld(contexts, packages, path)
  {
    assert PackageForPath(packages, path) == PackageForPath(packages, raw.paths[0]);
  }

  // ----- a cycle across two packages -----

  const TWO_PACKAGES: seq<string> := ["a", "b"]

  /** Package "a" is closed and package "b" is open. */
  const TWO_CONTEXTS: seq<PackageContext> := [PackageContext("a", Some(Closed)), PackageContext("b", Some(Open))]

  const CYCLE_FILES: seq<FileReport> := [FileReport("a/x", Unreachable, map[]), FileReport("b/y", Unreachable, map[])]

  function CycleFinding(paths: seq<string>): Finding {
    Finding("", UNUSED_FILES, "", paths, None, None, None, ["default"], High, NotAvailable)
  }

  lemma OneName(c: char)
    requires c != '/'
    ensures Components([c]) == [[c]]
  {
    assert [c][1..] == "" && "" + [c] == [c];
    assert ComponentsFrom("", [c]) == [[c]];
  }

  lemma TwoNames(c: char, d: char)
    requires c != '/' && d != '/'
    ensures Components([c, '/', d]) == [[c], [d]]
  {
    var rest := ['/', d];
    assert [c, '/', d][1..] == rest && "" + [c] == [c];
    assert rest[1..] == [d];
    OneName(d);
    assert ComponentsFrom(rest, [c]) == [[c]] + Components([d]);
  }

  lemma CyclePackages()
    ensures WorkspaceOf(TWO_PACKAGES, "a/x") == "a" && WorkspaceOf(TWO_PACKAGES, "b/y") == "b"
  {
    OneName('a');
    OneName('b');
    TwoNames('a', 'x');
    TwoNames('b', 'y');
    assert "a/x" == ['a', '/', 'x'] && "b/y" == ['b', '/', 'y'] && "a" == ['a'] && "b" == ['b'];
    assert TWO_PACKAGES[..1] == ["a"] && TWO_PACKAGES[..1][..0] == [];
  }

  /** Two unused files that import each other: the file of the open package may be deleted with the other one. */
  lemma CycleAcrossPackages()
    ensures var f := Assigned(TWO_PACKAGES, ["p"], CycleFinding(["a/x", "b/y"]));
            IsCandidate(f) && MayDelete(TWO_CONTEXTS, ["p"], CYCLE_FILES, f)
    ensures !IsInClosedWorld(TWO_CONTEXTS, TWO_PACKAGES, "b/y")
    ensures var g := Assigned(TWO_PACKAGES, ["p"], CycleFinding(["b/y"]));
            IsCandidate(g) && !MayDelete(TWO_CONTEXTS, ["p"], CYCLE_FILES, g)
  {
    CyclePackages();
    assert "a"[0] != "b"[0];
    assert CYCLE_FILES[0].path == "a/x" && CYCLE_FILES[1].path == "b/y";
  }
}
