/**
 From the names of a program to the dead groups of its report: the results about
 application/scan.rs and analysis/symbols.rs put together.
 */
module SymbolSafety {
  import opened Common
  import opened DeadSymbols
  import opened ExportLinks
  import opened Facts
  import opened NamespaceReexports
  import opened Paths
  import opened SymbolLiveness

  /** The input that a scan hands to the symbol analysis. */
  ghost predicate IsScanInput(p: Program, input: Input) {
    && input.files == p.facts
    && (forall l :: l in input.links <==> IsLink(p, l))
    && forall x: Target :: SymbolRoot(x.0, x.1) in input.explicitRoots <==> IsReexportRoot(p, input.openWorldFiles, x)
  }

  /** The symbol is a member of no reported group. */
  ghost predicate IsSpared(groups: seq<DeadSymbolGroup>, key: SymbolKey) {
    forall g :: g in groups ==> key !in g.members
  }

  /** Members of reported groups are live in no lane. */
  lemma MembersAreDead(input: Input, live: LiveSet, keys: seq<SymbolKey>, g: DeadSymbolGroup)
    requires var dead := DeadNodes(input, live, keys);
             IsDeadGroup(Induced(SymbolGraph(input, keys), dead), keys, dead, g)
    ensures forall key, u :: key in g.members ==> (key, u) !in live
  {
    forall key, u: UsageKind | key in g.members
      ensures (key, u) !in live
    {
      var i :| i in DeadNodes(input, live, keys) && i < |keys| && keys[i] == key;
      assert IsDead(input, live, key) && (u.Runtime? || u.Type?);
    }
  }

  lemma LiveIsSpared(input: Input, live: LiveSet, keys: seq<SymbolKey>, groups: seq<DeadSymbolGroup>, x: Target)
    requires AreDeadGroups(SymbolGraph(input, keys), keys, DeadNodes(input, live, keys), groups) && x in live
    ensures IsSpared(groups, x.0)
  {
    assert x == (x.0, x.1);
    forall g | g in groups
      ensures x.0 !in g.members
    {
      MembersAreDead(input, live, keys, g);
    }
  }

  /** Whatever a name of a reachable public file resolves to is live, and reported in no dead group. */
  lemma PublicNamesSurvive(p: Program, input: Input, live: LiveSet, keys: seq<SymbolKey>, groups: seq<DeadSymbolGroup>,
                           f: nat, name: string, x: Target)
    requires WellFormed(p) && StarsBindNothing(p) && ForwardsBindNothing(p)
    requires IsScanInput(p, input) && IsLiveness(input, live)
    requires AreDeadGroups(SymbolGraph(input, keys), keys, DeadNodes(input, live, keys), groups)
    requires f < |p.facts| && FileFlag(input.reachableFiles, f) && FileFlag(input.openWorldFiles, f)
    requires Resolves(p, (f, name), x) && Declares(input.files, x.0)
    ensures x in live && IsSpared(groups, x.0)
  {
    PublicNamesAreRooted(p, input.openWorldFiles, f, name, x);
    assert IsRoot(input, x.0, x.1);
    LiveIsSpared(input, live, keys, groups, x);
  }

  /** So is whatever it is meant to carry, where its namespaces are covered. */
  lemma CoveredNamesSurvive(p: Program, input: Input, live: LiveSet, keys: seq<SymbolKey>, groups: seq<DeadSymbolGroup>,
                            f: nat, name: string, x: Target)
    requires WellFormed(p) && StarsBindNothing(p) && ForwardsBindNothing(p)
    requires IsScanInput(p, input) && IsLiveness(input, live)
    requires AreDeadGroups(SymbolGraph(input, keys), keys, DeadNodes(input, live, keys), groups)
    requires f < |p.facts| && FileFlag(input.reachableFiles, f) && FileFlag(input.openWorldFiles, f)
    requires NamespacesCovered(p, (f, name)) && Carries(p, (f, name), x) && Declares(input.files, x.0)
    ensures x in live && IsSpared(groups, x.0)
  {
    CoveredResolves(p, (f, name), x);
    PublicNamesSurvive(p, input, live, keys, groups, f, name, x);
  }

  /**
   When code that runs with a reachable file mentions an import, all that the importing
   code may reach through it is live, and reported in no dead group.
   */
  lemma ExecutedImportsSurvive(p: Program, input: Input, live: LiveSet, keys: seq<SymbolKey>,
                               groups: seq<DeadSymbolGroup>,
                               f: nat, r: ReferenceFact, b: ImportBinding, target: nat, name: string, x: Target)
    requires WellFormed(p) && StarsBindNothing(p) && IsScanInput(p, input) && IsLiveness(input, live)
    requires AreDeadGroups(SymbolGraph(input, keys), keys, DeadNodes(input, live, keys), groups)
    requires f < |p.facts| && FileFlag(input.reachableFiles, f)
    requires r in p.facts[f].references && Active(p.facts[f].regions, r.region) && r.target == b.local
    requires b in p.facts[f].imports && MayUse(b, name)
    requires ResolvedTargetFile(p, f, b.source) == Some(target) && Resolves(p, (target, name), x)
    requires Declares(input.files, SymbolKey(f, b.local)) && Declares(input.files, x.0)
    ensures x in live && IsSpared(groups, x.0)
  {
    assert ReferenceRoot(p.facts[f], p.facts[f].references, b.local, r.usage);
    assert IsRoot(input, SymbolKey(f, b.local), r.usage);
    LiveImportKeepsTargets(p, input, live, f, b, target, name, x, r.usage);
    LiveIsSpared(input, live, keys, groups, x);
  }
}
