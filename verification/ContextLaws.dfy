/** Paths, packages and the findings that belong to them, stated without the model's functions. */
module ContextLaws {
  import opened Common
  import opened ProjectContexts
  import opened Reports

  // ----- the components of a path -----

  /** A name without a slash is its own only component, and an empty path has none. */
  lemma {:induction false} NameIsComponent(name: string)
    requires '/' !in name
    ensures Components(name) == if name == "" then [] else [name]
  {
    SpelledComponent(name, "");
    assert "" + name == name;
  }

  lemma {:induction false} SpelledComponent(rest: string, name: string)
    requires '/' !in rest
    ensures ComponentsFrom(rest, name) == if name + rest == "" then [] else [name + rest]
    decreases |rest|
  {
    if rest == "" {
      assert name + rest == name;
    } else {
      SpelledComponent(rest[1..], name + [rest[0]]);
      assert name + rest == (name + [rest[0]]) + rest[1..];
    }
  }

  /** A slash separates components; with the lemma above this determines the components of every path. */
  lemma ComponentsJoin(directory: string, path: string)
    ensures Components(directory + "/" + path) == Components(directory) + Components(path)
  {
    ComponentsJoinFrom(directory, path, "");
  }

  lemma {:induction false} ComponentsJoinFrom(directory: string, path: string, name: string)
    ensures ComponentsFrom(directory + "/" + path, name) == ComponentsFrom(directory, name) + Components(path)
    decreases |directory|
  {
    var whole := directory + "/" + path;
    if directory == "" {
      assert whole == "/" + path && whole[1..] == path;
    } else {
      var rest := directory[1..];
      assert whole == [directory[0]] + (rest + "/" + path) && whole[1..] == rest + "/" + path;
      if directory[0] == '/' {
        ComponentsJoinFrom(rest, path, "");
        Reassociate(Ended(name), ComponentsFrom(rest, ""), Components(path));
      } else {
        ComponentsJoinFrom(rest, path, name + [directory[0]]);
      }
    }
  }

  // ----- the package of a path -----

  lemma LastDecides(packages: seq<string>, path: string)
    requires packages != [] && Contains(packages[|packages| - 1], path)
    requires forall p :: p in packages && Contains(p, path) ==>
      |Components(p)| <= |Components(packages[|packages| - 1])|
    ensures PackageForPath(packages, path) == Some(packages[|packages| - 1])
  {
    var n := |packages| - 1;
    assert packages == packages[..n] + [packages[n]];
  }

  lemma EarlierDecides(packages: seq<string>, path: string, root: string)
    requires packages != [] && PackageForPath(packages[..|packages| - 1], path) == Some(root)
    requires Contains(packages[|packages| - 1], path) ==>
      |Components(packages[|packages| - 1])| < |Components(root)|
    ensures PackageForPath(packages, path) == Some(root)
  {
  }

  /** Of the packages that contain the path the deepest decides, and of equally deep ones the last. */
  lemma {:induction false} DeepestAndLast(packages: seq<string>, path: string, i: nat)
    requires i < |packages| && Contains(packages[i], path)
    requires forall p :: p in packages && Contains(p, path) ==> |Components(p)| <= |Components(packages[i])|
    requires forall p :: p in packages[i + 1..] && Contains(p, path) ==> |Components(p)| < |Components(packages[i])|
    ensures PackageForPath(packages, path) == Some(packages[i])
    decreases |packages|
  {
    var n := |packages| - 1;
    if i == n {
      LastDecides(packages, path);
    } else {
      var front := packages[..n];
      assert packages[i + 1..] == front[i + 1..] + [packages[n]];
      DeepestAndLast(front, path, i);
      EarlierDecides(packages, path, packages[i]);
    }
  }

  /** The root package and paths outside all packages are shown as `.`, other packages by their directory. */
  lemma WorkspaceByPackage(packages: seq<string>, path: string)
    ensures PackageForPath(packages, path) in {None, Some("")} ==> WorkspaceOf(packages, path) == "."
    ensures forall root :: PackageForPath(packages, path) == Some(root) && root != "" ==>
              WorkspaceOf(packages, path) == root
  {
  }

  /** A finding goes to the package of its first path, and a default label to the selected profiles. */
  lemma AssignedByFields(packages: seq<string>, profiles: seq<string>, f: Finding)
    ensures var g := Assigned(packages, profiles, f);
            && (f.paths == [] ==> g.workspace == f.workspace)
            && (f.paths != [] ==> g.workspace == WorkspaceOf(packages, f.paths[0]))
            && (f.targetProfiles == ["default"] ==> g.targetProfiles == profiles)
            && (f.targetProfiles != ["default"] ==> g.targetProfiles == f.targetProfiles)
            && g == f.(workspace := g.workspace, targetProfiles := g.targetProfiles)
  {
  }
}
