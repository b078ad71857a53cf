/**
 What application/scan.rs makes of `export * as name`.  The parser emits it as a
 re-export with a source and no imported name, and the resolver then asks the target for
 `name` itself.  Beside that stands the resolution the statement means, in which the
 name carries everything the target exports; both agree exactly under the condition below.
 */
module NamespaceReexports {
  import opened Common
  import opened ExportLinks
  import opened Facts
  import opened Paths
  import opened SymbolLiveness

  predicate IsNamespaceReexport(b: ExportBinding) {
    b.kind == ReExport && b.source.Some? && b.imported.None?
  }

  /** The query names a namespace re-export of its file, whose target is `target`. */
  ghost predicate OpensNamespace(p: Program, q: Query, target: nat) {
    q.0 < |p.facts| && exists b :: b in p.facts[q.0].exports && IsNamespaceReexport(b) && b.exported == q.1
                                   && ResolvedTargetFile(p, q.0, b.source.value) == Some(target)
  }

  // ----- the intended resolution -----

  /** One binding passes the query on; a namespace re-export to every name its target exports. */
  ghost predicate PassesOn(p: Program, q: Query, b: ExportBinding, r: Query) {
    if IsNamespaceReexport(b) then
      b.exported == q.1 && ResolvedTargetFile(p, q.0, b.source.value) == Some(r.0) && Exports(p, r.0, r.1)
    else Forward(p, q, b) == Some(r)
  }

  ghost predicate Intends(p: Program, q: Query, r: Query) {
    q.0 < |p.facts| && exists b :: b in p.facts[q.0].exports && PassesOn(p, q, b, r)
  }

  ghost predicate IntendsIn(p: Program, q: Query, r: Query, steps: nat)
    decreases steps
  {
    if steps == 0 then q == r
    else exists m :: IntendsIn(p, q, m, steps - 1) && Intends(p, m, r)
  }

  ghost predicate IntendedLeads(p: Program, q: Query, r: Query) {
    exists steps: nat :: IntendsIn(p, q, r, steps)
  }

  /** A local binding that the query is meant to carry. */
  ghost predicate Carries(p: Program, q: Query, x: Target) {
    exists r :: IntendedLeads(p, q, r) && x in Locals(p, r)
  }

  lemma IntendedSelf(p: Program, q: Query)
    ensures IntendedLeads(p, q, q)
  {
    assert IntendsIn(p, q, q, 0);
  }

  lemma IntendedOn(p: Program, q: Query, m: Query, r: Query)
    requires IntendedLeads(p, q, m) && Intends(p, m, r)
    ensures IntendedLeads(p, q, r)
  {
    var steps: nat :| IntendsIn(p, q, m, steps);
    assert IntendsIn(p, q, r, steps + 1);
  }

  lemma {:induction false} IntendedThrough(p: Program, q: Query, m: Query, r: Query, steps: nat)
    requires IntendedLeads(p, q, m) && IntendsIn(p, m, r, steps)
    ensures IntendedLeads(p, q, r)
    decreases steps
  {
    if steps > 0 {
      var last: Query :| IntendsIn(p, m, last, steps - 1) && Intends(p, last, r);
      IntendedThrough(p, q, m, last, steps - 1);
      IntendedOn(p, q, last, r);
    }
  }

  /** Passing on first and carrying then is carrying. */
  lemma CarriesFirst(p: Program, q: Query, m: Query, x: Target)
    requires Intends(p, q, m) && Carries(p, m, x)
    ensures Carries(p, q, x)
  {
    var r :| IntendedLeads(p, m, r) && x in Locals(p, r);
    var steps: nat :| IntendsIn(p, m, r, steps);
    IntendedSelf(p, q);
    IntendedOn(p, q, q, m);
    IntendedThrough(p, q, m, r, steps);
  }

  // ----- nothing is resolved that is not meant -----

  /** What the resolver finds was meant, since it only asks for a name where it finds one. */
  lemma {:induction false} ResolvedIsMeant(p: Program, q: Query, r: Query, steps: nat, x: Target)
    requires WellFormed(p) && StarsBindNothing(p) && ForwardsIn(p, q, r, steps) && x in Locals(p, r)
    ensures Carries(p, q, x)
    decreases steps
  {
    if steps == 0 {
      IntendedSelf(p, q);
    } else {
      var m := StepForward(p, q, r, steps);
      ResolvedIsMeant(p, m, r, steps - 1, x);
      var b :| b in p.facts[q.0].exports && Forward(p, q, b) == Some(m);
      if IsNamespaceReexport(b) {
        assert Leads(p, m, r) && Resolves(p, m, x);
        ResolvedNamesAreExported(p, m.0, m.1, x);
      }
      assert PassesOn(p, q, b, m);
      CarriesFirst(p, q, m, x);
    }
  }

  /** The first of several steps. */
  lemma {:induction false} StepForward(p: Program, q: Query, r: Query, steps: nat) returns (m: Query)
    requires steps > 0 && ForwardsIn(p, q, r, steps)
    ensures Forwards(p, q, m) && ForwardsIn(p, m, r, steps - 1)
    decreases steps
  {
    var last: Query :| ForwardsIn(p, q, last, steps - 1) && Forwards(p, last, r);
    if steps == 1 {
      m := r;
    } else {
      m := StepForward(p, q, last, steps - 1);
      assert ForwardsIn(p, m, r, steps - 1);
    }
  }

  lemma ResolvesIsCarried(p: Program, q: Query, x: Target)
    requires WellFormed(p) && StarsBindNothing(p) && Resolves(p, q, x)
    ensures Carries(p, q, x)
  {
    var r :| Leads(p, q, r) && x in Locals(p, r);
    var steps: nat :| ForwardsIn(p, q, r, steps);
    ResolvedIsMeant(p, q, r, steps, x);
  }

  // ----- when both agree -----

  /** The query opens a namespace on its way, and then goes on as the resolver does. */
  ghost predicate ThroughNamespace(p: Program, q: Query, r: Query) {
    exists m, target: nat, name ::
      IntendedLeads(p, q, m) && OpensNamespace(p, m, target) && Exports(p, target, name) && Leads(p, (target, name), r)
  }

  /** Every intended way either is the resolver's or has a last namespace on it. */
  lemma {:induction false} LastNamespace(p: Program, q: Query, r: Query, steps: nat)
    requires IntendsIn(p, q, r, steps)
    ensures Leads(p, q, r) || ThroughNamespace(p, q, r)
    decreases steps
  {
    if steps == 0 {
      LeadsSelf(p, q);
    } else {
      var last: Query :| IntendsIn(p, q, last, steps - 1) && Intends(p, last, r);
      LastNamespace(p, q, last, steps - 1);
      var b :| b in p.facts[last.0].exports && PassesOn(p, last, b, r);
      if IsNamespaceReexport(b) {
        assert IntendedLeads(p, q, last) && OpensNamespace(p, last, r.0);
        LeadsSelf(p, r);
        assert Leads(p, (r.0, r.1), r);
      } else {
        assert Forwards(p, last, r);
        if Leads(p, q, last) {
          LeadsOn(p, q, last, r);
        } else {
          var m, target: nat, name :|
            IntendedLeads(p, q, m) && OpensNamespace(p, m, target) && Exports(p, target, name) &&
              Leads(p, (target, name), last);
          LeadsOn(p, (target, name), last, r);
        }
      }
    }
  }

  /**
   Every namespace that the query can open has nothing to add: what the names of its
   target resolve to, the resolver finds for the query anyhow.
   */
  ghost predicate NamespacesCovered(p: Program, q: Query) {
    forall m, target: nat, name, x ::
      IntendedLeads(p, q, m) && OpensNamespace(p, m, target) && Exports(p, target, name) &&
        Resolves(p, (target, name), x)
      ==> Resolves(p, q, x)
  }

  /** A name carries what it resolves to exactly when every namespace it can open is covered. */
  lemma ResolutionAgrees(p: Program, q: Query)
    requires WellFormed(p) && StarsBindNothing(p)
    ensures (forall x :: Carries(p, q, x) <==> Resolves(p, q, x)) <==> NamespacesCovered(p, q)
  {
    forall x | Resolves(p, q, x)
      ensures Carries(p, q, x)
    {
      ResolvesIsCarried(p, q, x);
    }
    if NamespacesCovered(p, q) {
      forall x | Carries(p, q, x)
        ensures Resolves(p, q, x)
      {
        CoveredResolves(p, q, x);
      }
    } else {
      var m, target: nat, name, x :|
        IntendedLeads(p, q, m) && OpensNamespace(p, m, target) && Exports(p, target, name)
        && Resolves(p, (target, name), x) && !Resolves(p, q, x);
      NamespaceCarries(p, q, m, target, name, x);
    }
  }

  lemma CoveredResolves(p: Program, q: Query, x: Target)
    requires NamespacesCovered(p, q) && Carries(p, q, x)
    ensures Resolves(p, q, x)
  {
    var r :| IntendedLeads(p, q, r) && x in Locals(p, r);
    var steps: nat :| IntendsIn(p, q, r, steps);
    LastNamespace(p, q, r, steps);
    if !Leads(p, q, r) {
      var m, target: nat, name :|
        IntendedLeads(p, q, m) && OpensNamespace(p, m, target) && Exports(p, target, name) &&
          Leads(p, (target, name), r);
      assert Resolves(p, (target, name), x);
    }
  }

  lemma NamespaceCarries(p: Program, q: Query, m: Query, target: nat, name: string, x: Target)
    requires WellFormed(p) && StarsBindNothing(p)
    requires IntendedLeads(p, q, m) && OpensNamespace(p, m, target) && Exports(p, target, name) &&
      Resolves(p, (target, name), x)
    ensures Carries(p, q, x)
  {
    var b :| b in p.facts[m.0].exports && IsNamespaceReexport(b) && b.exported == m.1
             && ResolvedTargetFile(p, m.0, b.source.value) == Some(target);
    assert PassesOn(p, m, b, (target, name));
    IntendedOn(p, q, m, (target, name));
    ResolvesIsCarried(p, (target, name), x);
    var r :| IntendedLeads(p, (target, name), r) && x in Locals(p, r);
    var steps: nat :| IntendsIn(p, (target, name), r, steps);
    IntendedThrough(p, q, (target, name), r, steps);
  }

  /** In particular they agree where no namespace re-export is met. */
  lemma AgreesWithoutNamespaces(p: Program, q: Query)
    requires WellFormed(p) && StarsBindNothing(p)
    requires forall m, target: nat :: IntendedLeads(p, q, m) ==> !OpensNamespace(p, m, target)
    ensures forall x :: Carries(p, q, x) <==> Resolves(p, q, x)
  {
    ResolutionAgrees(p, q);
  }

  /** Every namespace that some file exports is covered for its own name. */
  ghost predicate AllNamespacesCovered(p: Program) {
    forall m, target: nat, name, x ::
      OpensNamespace(p, m, target) && Exports(p, target, name) && Resolves(p, (target, name), x) ==> Resolves(p, m, x)
  }

  /** The first of several intended steps. */
  lemma {:induction false} StepIntended(p: Program, q: Query, r: Query, steps: nat) returns (m: Query)
    requires steps > 0 && IntendsIn(p, q, r, steps)
    ensures Intends(p, q, m) && IntendsIn(p, m, r, steps - 1)
    decreases steps
  {
    var last: Query :| IntendsIn(p, q, last, steps - 1) && Intends(p, last, r);
    if steps == 1 {
      m := r;
    } else {
      m := StepIntended(p, q, last, steps - 1);
      assert IntendsIn(p, m, r, steps - 1);
    }
  }

  lemma ResolvesFirst(p: Program, q: Query, m: Query, x: Target)
    requires Forwards(p, q, m) && Resolves(p, m, x)
    ensures Resolves(p, q, x)
  {
    var r :| Leads(p, m, r) && x in Locals(p, r);
    LeadsFirst(p, q, m, r);
  }

  lemma LeadsFirst(p: Program, q: Query, m: Query, r: Query)
    requires Forwards(p, q, m) && Leads(p, m, r)
    ensures Leads(p, q, r)
  {
    var steps: nat :| ForwardsIn(p, m, r, steps);
    LeadsSelf(p, q);
    LeadsOn(p, q, q, m);
    LeadsThroughSteps(p, q, m, r, steps);
  }

  lemma {:induction false} LeadsThroughSteps(p: Program, q: Query, m: Query, r: Query, steps: nat)
    requires Leads(p, q, m) && ForwardsIn(p, m, r, steps)
    ensures Leads(p, q, r)
    decreases steps
  {
    if steps > 0 {
      var last: Query :| ForwardsIn(p, m, last, steps - 1) && Forwards(p, last, r);
      LeadsThroughSteps(p, q, m, last, steps - 1);
      LeadsOn(p, q, last, r);
    }
  }

  /** When every namespace is covered, each intended step may be taken back. */
  lemma {:induction false} MeantIsResolved(p: Program, q: Query, r: Query, steps: nat, x: Target)
    requires AllNamespacesCovered(p) && IntendsIn(p, q, r, steps) && x in Locals(p, r)
    ensures Resolves(p, q, x)
    decreases steps
  {
    if steps == 0 {
      LeadsSelf(p, q);
    } else {
      var m := StepIntended(p, q, r, steps);
      MeantIsResolved(p, m, r, steps - 1, x);
      var b :| b in p.facts[q.0].exports && PassesOn(p, q, b, m);
      if IsNamespaceReexport(b) {
        assert OpensNamespace(p, q, m.0) && Exports(p, m.0, m.1) && Resolves(p, (m.0, m.1), x);
      } else {
        assert Forwards(p, q, m);
        ResolvesFirst(p, q, m, x);
      }
    }
  }

  /** All names of a program resolve to what they are meant to carry exactly when all its namespaces are covered. */
  lemma ProgramAgrees(p: Program)
    requires WellFormed(p) && StarsBindNothing(p)
    ensures (forall q, x :: Carries(p, q, x) <==> Resolves(p, q, x)) <==> AllNamespacesCovered(p)
  {
    if AllNamespacesCovered(p) {
      forall q, x
        ensures Carries(p, q, x) <==> Resolves(p, q, x)
      {
        if Resolves(p, q, x) {
          ResolvesIsCarried(p, q, x);
        }
        if Carries(p, q, x) {
          var r :| IntendedLeads(p, q, r) && x in Locals(p, r);
          var steps: nat :| IntendsIn(p, q, r, steps);
          MeantIsResolved(p, q, r, steps, x);
        }
      }
    } else {
      var m, target: nat, name, x :|
        OpensNamespace(p, m, target) && Exports(p, target, name) && Resolves(p, (target, name), x) &&
          !Resolves(p, m, x);
      IntendedSelf(p, m);
      NamespaceCarries(p, m, m, target, name, x);
    }
  }

  /** File `f` imports under `name` from `target`. */
  ghost predicate Imports(p: Program, f: nat, b: ImportBinding, target: nat, name: string) {
    && f < |p.facts| && b in p.facts[f].imports && ResolvedTargetFile(p, f, b.source) == Some(target)
    && LooksUp(p, b, target, name)
  }

  /** A link the import means: to everything its names carry. */
  ghost predicate IsMeantLink(p: Program, link: Link) {
    exists f: nat, b, target: nat, name ::
      Imports(p, f, b, target, name) && link.source == SymbolKey(f, b.local) && link.sourceUsage == Lane(b.typeOnly)
      && Carries(p, (target, name), (link.target, link.targetUsage))
  }

  /** Where all imported names are covered, the links are exactly the meant ones. */
  lemma LinksAgree(p: Program, link: Link)
    requires WellFormed(p) && StarsBindNothing(p)
    requires forall f: nat, b, target: nat, name :: Imports(p, f, b, target, name) ==>
      NamespacesCovered(p, (target, name))
    ensures IsLink(p, link) <==> IsMeantLink(p, link)
  {
    if IsLink(p, link) {
      var f: nat, b :| f < |p.facts| && b in p.facts[f].imports && LinkOfBinding(p, f, b, link);
      var target := ResolvedTargetFile(p, f, b.source).value;
      var name :| LooksUp(p, b, target, name) && Resolves(p, (target, name), (link.target, link.targetUsage));
      ResolvesIsCarried(p, (target, name), (link.target, link.targetUsage));
      assert Imports(p, f, b, target, name);
    }
    if IsMeantLink(p, link) {
      var f: nat, b, target: nat, name :|
        Imports(p, f, b, target, name) && link.source == SymbolKey(f, b.local) && link.sourceUsage == Lane(b.typeOnly)
        && Carries(p, (target, name), (link.target, link.targetUsage));
      CoveredResolves(p, (target, name), (link.target, link.targetUsage));
      assert LinkOfBinding(p, f, b, link);
    }
  }

  /** What a covered name of a public file is meant to carry is a root. */
  lemma CoveredPublicNamesAreRooted(p: Program, openWorldFiles: seq<bool>, f: nat, name: string, x: Target)
    requires WellFormed(p) && StarsBindNothing(p) && ForwardsBindNothing(p)
    requires f < |p.facts| && FileFlag(openWorldFiles, f)
    requires NamespacesCovered(p, (f, name)) && Carries(p, (f, name), x)
    ensures IsReexportRoot(p, openWorldFiles, x) ||
            (x.0.file == f && ExportRoot(p.facts[f], p.facts[f].exports, x.0.symbol, x.1))
  {
    CoveredResolves(p, (f, name), x);
    PublicNamesAreRooted(p, openWorldFiles, f, name, x);
  }

  // ----- the case in which they differ -----

  const IMPORTER: FileFacts :=
    FileFacts("m", [], [], [], [ImportBinding("./b", Some("ns"), 1, NamedImport, false)], [], [], [])
  const BARREL: FileFacts := FileFacts("b", [], [], [], [], [NAMESPACE], [], [])
  const LIBRARY: FileFacts := FileFacts("x", [], [], [], [], [LOCAL], [], [])

  /** `export * as ns from "./x"`, as the parser emits it. */
  const NAMESPACE: ExportBinding := ExportBinding("ns", Some("./x"), None, None, ReExport, false)
  const LOCAL: ExportBinding := ExportBinding("f", None, None, Some(0), LocalExport, false)

  /** m imports ns from b, b exports all of x as ns, and x exports f. */
  const BARREL_PROGRAM: Program := Program(
    [IMPORTER, BARREL, LIBRARY],
    [[ImportReport("./b", Resolved, Some("b"))], [ImportReport("./x", Resolved, Some("x"))], []],
    map["m" := 0, "b" := 1, "x" := 2])

  lemma BarrelTargets()
    ensures ResolvedTargetFile(BARREL_PROGRAM, 0, "./b") == Some(1) &&
      ResolvedTargetFile(BARREL_PROGRAM, 1, "./x") == Some(2)
  {
    var p := BARREL_PROGRAM;
    assert FindResolved(p.imports[0], "./b") == Some(p.imports[0][0]);
    assert FindResolved(p.imports[1], "./x") == Some(p.imports[1][0]);
  }

  lemma BarrelForwards(q: Query, r: Query)
    requires Forwards(BARREL_PROGRAM, q, r)
    ensures q == (1, "ns") && r == (2, "ns")
  {
    BarrelTargets();
    var b :| b in BARREL_PROGRAM.facts[q.0].exports && Forward(BARREL_PROGRAM, q, b) == Some(r);
    assert q.0 == 0 || q.0 == 1 || q.0 == 2;
    assert b == NAMESPACE || b == LOCAL;
  }

  /** From the barrel's name the resolver only gets to the same name of the library, which binds nothing. */
  lemma BarrelReaches(r: Query)
    requires Leads(BARREL_PROGRAM, (1, "ns"), r)
    ensures Locals(BARREL_PROGRAM, r) == {}
  {
    var p, s := BARREL_PROGRAM, {(1, "ns"), (2, "ns")};
    var steps: nat :| ForwardsIn(p, (1, "ns"), r, steps);
    forall a, b | Forwards(p, a, b)
      ensures b == (2, "ns")
    {
      BarrelForwards(a, b);
    }
    StaysInside(p, s, (1, "ns"), r, steps);
    assert r.1 == "ns" && "ns"[0] != "f"[0];
    assert forall b :: b in p.facts[r.0].exports ==> b == NAMESPACE || b == LOCAL;
  }

  /** So it resolves to nothing. */
  lemma BarrelResolves(x: Target)
    ensures !Resolves(BARREL_PROGRAM, (1, "ns"), x)
  {
    forall r | Leads(BARREL_PROGRAM, (1, "ns"), r)
      ensures x !in Locals(BARREL_PROGRAM, r)
    {
      BarrelReaches(r);
    }
  }

  /** What the name means is the library's f, which the library does export. */
  lemma BarrelCarries()
    ensures Resolves(BARREL_PROGRAM, (2, "f"), (SymbolKey(2, 0), Runtime))
    ensures Carries(BARREL_PROGRAM, (1, "ns"), (SymbolKey(2, 0), Runtime))
  {
    var p := BARREL_PROGRAM;
    BarrelTargets();
    assert LOCAL in p.facts[2].exports && NAMESPACE in p.facts[1].exports;
    LeadsSelf(p, (2, "f"));
    assert (SymbolKey(2, 0), Runtime) in OwnLocal(2, "f", LOCAL);
    assert NamesItself(p, 2, "f");
    ReachesSelf(StarEdges(p), 2);
    assert PassesOn(p, (1, "ns"), NAMESPACE, (2, "f"));
    IntendedSelf(p, (1, "ns"));
    IntendedOn(p, (1, "ns"), (1, "ns"), (2, "f"));
  }

  lemma BarrelLinks(link: Link)
    ensures !IsLink(BARREL_PROGRAM, link)
  {
    var p := BARREL_PROGRAM;
    BarrelTargets();
    BarrelResolves((link.target, link.targetUsage));
    forall f: nat, b | f < |p.facts| && b in p.facts[f].imports
      ensures !LinkOfBinding(p, f, b, link)
    {
      assert f == 0 && b == IMPORTER.imports[0];
    }
  }

  lemma BarrelRoots(x: Target)
    ensures !IsReexportRoot(BARREL_PROGRAM, [false, true, false], x)
  {
    var p := BARREL_PROGRAM;
    BarrelResolves(x);
    forall f: nat, b | f < |p.facts| && FileFlag([false, true, false], f) && b in p.facts[f].exports
      ensures !RootOfBinding(p, f, b, x)
    {
      assert f == 1 && b == NAMESPACE;
    }
  }

  lemma BarrelMeans()
    ensures IsMeantLink(BARREL_PROGRAM, Link(SymbolKey(0, 1), Runtime, SymbolKey(2, 0), Runtime))
    ensures !NamespacesCovered(BARREL_PROGRAM, (1, "ns"))
  {
    var p := BARREL_PROGRAM;
    BarrelTargets();
    BarrelCarries();
    assert Imports(p, 0, IMPORTER.imports[0], 1, "ns");
    BarrelResolves((SymbolKey(2, 0), Runtime));
    if NamespacesCovered(p, (1, "ns")) {
      CoveredResolves(p, (1, "ns"), (SymbolKey(2, 0), Runtime));
    }
  }

  lemma BarrelIsWellFormed()
    ensures WellFormed(BARREL_PROGRAM) && StarsBindNothing(BARREL_PROGRAM) && ForwardsBindNothing(BARREL_PROGRAM)
  {
  }

  /**
   Code that uses f through ns keeps nothing alive: the program has no link at all, and
   a public barrel roots nothing, although f is exported and meant.
   */
  lemma NamespaceReexportLosesCode(link: Link, x: Target)
    ensures WellFormed(BARREL_PROGRAM) && StarsBindNothing(BARREL_PROGRAM) && ForwardsBindNothing(BARREL_PROGRAM)
    ensures !IsLink(BARREL_PROGRAM, link) && !IsReexportRoot(BARREL_PROGRAM, [false, true, false], x)
    ensures Resolves(BARREL_PROGRAM, (2, "f"), (SymbolKey(2, 0), Runtime))
    ensures IsMeantLink(BARREL_PROGRAM, Link(SymbolKey(0, 1), Runtime, SymbolKey(2, 0), Runtime))
    ensures !NamespacesCovered(BARREL_PROGRAM, (1, "ns"))
  {
    BarrelIsWellFormed();
    BarrelLinks(link);
    BarrelRoots(x);
    BarrelCarries();
    BarrelMeans();
  }
}
