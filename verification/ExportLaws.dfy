/**
 What application/scan.rs makes of exports and imports, stated on the fields of the
 bindings and the import reports alone.
 */
module ExportLaws {
  import opened Common
  import opened ExportLinks
  import opened Facts
  import opened NamespaceReexports
  import opened Paths
  import opened SymbolLiveness

  // ----- import reports -----

  predicate IsResolvedReport(report: ImportReport, specifier: string) {
    report.specifier == specifier && report.status == Resolved
  }

  /** The first resolved report of `f` on this specifier names a known path, that of `g`. */
  ghost predicate ReportsTarget(p: Program, f: nat, specifier: string, g: nat) {
    f < |p.imports| && exists i ::
      && 0 <= i < |p.imports[f]| && IsResolvedReport(p.imports[f][i], specifier)
      && (forall j :: 0 <= j < i ==> !IsResolvedReport(p.imports[f][j], specifier))
      && p.imports[f][i].target.Some? && p.imports[f][i].target.value in p.filesByPath
      && p.filesByPath[p.imports[f][i].target.value] == g
  }

  lemma {:induction false} FirstReport(reports: seq<ImportReport>, specifier: string, i: nat)
    requires i < |reports| && IsResolvedReport(reports[i], specifier)
    requires forall j :: 0 <= j < i ==> !IsResolvedReport(reports[j], specifier)
    ensures FindResolved(reports, specifier) == Some(reports[i])
    decreases i
  {
    if i > 0 {
      assert !IsResolvedReport(reports[0], specifier);
      FirstReport(reports[1..], specifier, i - 1);
    }
  }

  lemma {:induction false} FoundIsFirst(reports: seq<ImportReport>, specifier: string) returns (i: nat)
    requires FindResolved(reports, specifier).Some?
    ensures i < |reports| && IsResolvedReport(reports[i], specifier)
    ensures forall j :: 0 <= j < i ==> !IsResolvedReport(reports[j], specifier)
    decreases |reports|
  {
    if IsResolvedReport(reports[0], specifier) {
      i := 0;
    } else {
      var k := FoundIsFirst(reports[1..], specifier);
      i := k + 1;
      assert forall j :: 0 < j < i ==> reports[j] == reports[1..][j - 1];
    }
  }

  /** A specifier leads to the file that its first resolved report names. */
  lemma {:induction false} TargetIsReported(p: Program, f: nat, specifier: string, g: nat)
    ensures ResolvedTargetFile(p, f, specifier) == Some(g) <==> ReportsTarget(p, f, specifier, g)
  {
    if f < |p.imports| {
      var reports := p.imports[f];
      if i :| 0 <= i < |reports| && IsResolvedReport(reports[i], specifier) &&
              forall j :: 0 <= j < i ==> !IsResolvedReport(reports[j], specifier) {
        FirstReport(reports, specifier, i);
        forall k | 0 <= k < |reports| && IsResolvedReport(reports[k], specifier) &&
                   forall j :: 0 <= j < k ==> !IsResolvedReport(reports[j], specifier)
          ensures k == i
        {
        }
      }
      if FindResolved(reports, specifier).Some? {
        var i := FoundIsFirst(reports, specifier);
        FirstReport(reports, specifier, i);
      }
    }
  }

  // ----- what a name resolves to -----

  /** Under the name, the binding gives its own local symbol. */
  predicate GivesLocal(f: nat, name: string, b: ExportBinding, x: Target) {
    && b.local.Some? && (b.kind == StarExport || b.exported == name)
    && x.0 == SymbolKey(f, b.local.value) && x.1 == (if b.typeOnly then Type else Runtime)
  }

  /** Under the name, the binding asks `g` for `asked`: a star for the same name, any other for the imported one. */
  ghost predicate Asks(p: Program, f: nat, name: string, b: ExportBinding, g: nat, asked: string) {
    && b.source.Some? && ReportsTarget(p, f, b.source.value, g)
    && if b.kind == StarExport then asked == name
       else b.exported == name && asked == (if b.imported.Some? then b.imported.value else name)
  }

  lemma ForwardAsks(p: Program, f: nat, name: string, b: ExportBinding, g: nat, asked: string)
    ensures Forward(p, (f, name), b) == Some((g, asked)) <==> Asks(p, f, name, b, g, asked)
  {
    if b.source.Some? {
      TargetIsReported(p, f, b.source.value, g);
    }
  }

  lemma LocalIsGiven(f: nat, name: string, b: ExportBinding, x: Target)
    ensures x in OwnLocal(f, name, b) <==> GivesLocal(f, name, b, x)
  {
  }

  /** `export { n as m } from` finds under `m` what the target has under `n`. */
  lemma RenamedReexportResolves(p: Program, f: nat, b: ExportBinding, n: string, g: nat, x: Target)
    requires f < |p.facts| && b in p.facts[f].exports && b.kind != StarExport && b.imported == Some(n)
    requires b.source.Some? && ReportsTarget(p, f, b.source.value, g) && Resolves(p, (g, n), x)
    ensures Resolves(p, (f, b.exported), x)
  {
    assert Asks(p, f, b.exported, b, g, n);
    AskedResolves(p, f, b.exported, b, g, n, x);
  }

  /** `export * from` finds under every name what the target has under it. */
  lemma StarReexportResolves(p: Program, f: nat, b: ExportBinding, name: string, g: nat, x: Target)
    requires f < |p.facts| && b in p.facts[f].exports && b.kind == StarExport
    requires b.source.Some? && ReportsTarget(p, f, b.source.value, g) && Resolves(p, (g, name), x)
    ensures Resolves(p, (f, name), x)
  {
    assert Asks(p, f, name, b, g, name);
    AskedResolves(p, f, name, b, g, name, x);
  }

  lemma AskedResolves(p: Program, f: nat, name: string, b: ExportBinding, g: nat, asked: string, x: Target)
    requires f < |p.facts| && b in p.facts[f].exports && Asks(p, f, name, b, g, asked)
    requires Resolves(p, (g, asked), x)
    ensures Resolves(p, (f, name), x)
  {
    var q, m := (f, name), (g, asked);
    ForwardAsks(p, f, name, b, g, asked);
    assert Forwards(p, q, m);
    LeadsSelf(p, q);
    LeadsOn(p, q, q, m);
    var r: Query :| Leads(p, m, r) && x in Locals(p, r);
    var steps: nat :| ForwardsIn(p, m, r, steps);
    LeadsThrough(p, q, m, r, steps);
  }

  lemma GivenResolves(p: Program, f: nat, name: string, b: ExportBinding, x: Target)
    requires f < |p.facts| && b in p.facts[f].exports && GivesLocal(f, name, b, x)
    ensures Resolves(p, (f, name), x)
  {
    LocalIsGiven(f, name, b, x);
    LeadsSelf(p, (f, name));
    assert x in Locals(p, (f, name));
  }

  /** Whatever a name resolves to is a local symbol of one binding, or comes through one binding. */
  lemma ResolvesByBinding(p: Program, f: nat, name: string, x: Target) returns (b: ExportBinding, g: nat, asked: string)
    requires Resolves(p, (f, name), x)
    ensures f < |p.facts| && b in p.facts[f].exports
    ensures GivesLocal(f, name, b, x) || (Asks(p, f, name, b, g, asked) && Resolves(p, (g, asked), x))
  {
    var q := (f, name);
    var r: Query :| Leads(p, q, r) && x in Locals(p, r);
    if r == q {
      b :| b in p.facts[f].exports && x in OwnLocal(f, name, b);
      LocalIsGiven(f, name, b, x);
      g, asked := f, name;
    } else {
      var steps: nat :| ForwardsIn(p, q, r, steps);
      var m := FirstForward(p, q, r, steps);
      b :| b in p.facts[f].exports && Forward(p, q, b) == Some(m);
      g, asked := m.0, m.1;
      ForwardAsks(p, f, name, b, g, asked);
    }
  }

  /** Pairs of a query and a target that hold every local symbol and that every binding passes on. */
  ghost predicate ClosedUnderBindings(p: Program, s: iset<(Query, Target)>) {
    && (forall f: nat, name, b, x :: f < |p.facts| && b in p.facts[f].exports && GivesLocal(f, name, b, x) ==>
          ((f, name), x) in s)
    && (forall f: nat, name, b, g: nat, asked, x ::
          f < |p.facts| && b in p.facts[f].exports && Asks(p, f, name, b, g, asked) && ((g, asked), x) in s ==>
          ((f, name), x) in s)
  }

  lemma {:induction false} ChainInside(p: Program, s: iset<(Query, Target)>, q: Query, r: Query, x: Target, steps: nat)
    requires ClosedUnderBindings(p, s) && ForwardsIn(p, q, r, steps) && (r, x) in s
    ensures (q, x) in s
    decreases steps
  {
    if steps > 0 {
      var m: Query :| ForwardsIn(p, q, m, steps - 1) && Forwards(p, m, r);
      var b :| b in p.facts[m.0].exports && Forward(p, m, b) == Some(r);
      ForwardAsks(p, m.0, m.1, b, r.0, r.1);
      assert ((r.0, r.1), x) in s && Asks(p, m.0, m.1, b, r.0, r.1);
      ChainInside(p, s, q, m, x, steps - 1);
    }
  }

  /** Names resolve to nothing but what the bindings give and pass on. */
  lemma ResolvesLeast(p: Program, s: iset<(Query, Target)>, q: Query, x: Target)
    requires ClosedUnderBindings(p, s) && Resolves(p, q, x)
    ensures (q, x) in s
  {
    var r: Query :| Leads(p, q, r) && x in Locals(p, r);
    var b :| b in p.facts[r.0].exports && x in OwnLocal(r.0, r.1, b);
    LocalIsGiven(r.0, r.1, b, x);
    assert (r, x) in s;
    var steps: nat :| ForwardsIn(p, q, r, steps);
    ChainInside(p, s, q, r, x, steps);
  }

  // ----- exported names -----

  lemma {:induction false} FirstEdge(edges: Edges, p: seq<nat>) returns (c: nat)
    requires IsPath(edges, p) && p[0] != p[|p| - 1]
    ensures (p[0], c) in edges && Reaches(edges, c, p[|p| - 1])
    decreases |p|
  {
    var shorter, last := p[..|p| - 1], p[|p| - 1];
    if shorter[|shorter| - 1] == p[0] {
      c := last;
      ReachesSelf(edges, last);
    } else {
      c := FirstEdge(edges, shorter);
      ReachesStep(edges, c, shorter[|shorter| - 1], last);
    }
  }

  /** A file exports the names of its bindings but for stars, and what the target of a star exports. */
  lemma ExportsByBinding(p: Program, f: nat, name: string)
    requires WellFormed(p) && f < |p.facts|
    ensures Exports(p, f, name) <==>
            || (exists b :: b in p.facts[f].exports && b.kind != StarExport && b.exported == name)
            || (exists b, g: nat :: b in p.facts[f].exports && b.kind == StarExport && b.source.Some?
                                    && ReportsTarget(p, f, b.source.value, g) && Exports(p, g, name))
  {
    var edges := StarEdges(p);
    if b :| b in p.facts[f].exports && b.kind != StarExport && b.exported == name {
      ReachesSelf(edges, f);
      assert NamesItself(p, f, name);
    }
    if b, g: nat :| b in p.facts[f].exports && b.kind == StarExport && b.source.Some?
                    && ReportsTarget(p, f, b.source.value, g) && Exports(p, g, name) {
      TargetIsReported(p, f, b.source.value, g);
      assert StarEdge(p, f, g);
      var h :| Reaches(edges, g, h) && NamesItself(p, h, name);
      StepReaches(edges, f, g, h);
    }
    if Exports(p, f, name) {
      var h :| Reaches(edges, f, h) && NamesItself(p, h, name);
      if f != h {
        var path :| Connects(edges, path, f, h);
        var g := FirstEdge(edges, path);
        assert StarEdge(p, f, g);
        var b :| b in p.facts[f].exports && b.kind == StarExport && b.source.Some?
                 && ResolvedTargetFile(p, f, b.source.value) == Some(g);
        TargetIsReported(p, f, b.source.value, g);
        assert Reaches(edges, g, h) && Exports(p, g, name);
      }
    }
  }

  // ----- links -----

  /** The names for which an import looks into its target: `default`, its own name, or everything. */
  ghost predicate LooksFor(p: Program, b: ImportBinding, g: nat, name: string) {
    && (b.kind == DefaultImport ==> name == "default")
    && (b.kind == NamedImport ==> b.imported == Some(name))
    && (b.kind == NamespaceImport || b.kind == CommonJsImport ==> Exports(p, g, name))
  }

  /** A link starts at the local symbol of an import, and ends at what the import finds in its target. */
  lemma LinkByBinding(p: Program, link: Link)
    ensures IsLink(p, link) <==>
              exists f: nat, b, g, name :: f < |p.facts| && b in p.facts[f].imports
                && ReportsTarget(p, f, b.source, g) && LooksFor(p, b, g, name)
                && Resolves(p, (g, name), (link.target, link.targetUsage))
                && link.source == SymbolKey(f, b.local) && link.sourceUsage == (if b.typeOnly then Type else Runtime)
  {
    if f: nat, b :| f < |p.facts| && b in p.facts[f].imports && LinkOfBinding(p, f, b, link) {
      var g := ResolvedTargetFile(p, f, b.source).value;
      TargetIsReported(p, f, b.source, g);
      var name :| LooksUp(p, b, g, name) && Resolves(p, (g, name), (link.target, link.targetUsage));
      assert LooksFor(p, b, g, name);
    }
    if f: nat, b, g, name :|
      f < |p.facts| && b in p.facts[f].imports && ReportsTarget(p, f, b.source, g) && LooksFor(p, b, g, name)
      && Resolves(p, (g, name), (link.target, link.targetUsage))
      && link.source == SymbolKey(f, b.local) && link.sourceUsage == (if b.typeOnly then Type else Runtime) {
      TargetIsReported(p, f, b.source, g);
      assert LooksUp(p, b, g, name);
      assert LinkOfBinding(p, f, b, link);
    }
  }

  /** A re-export is looked up under its own name, a star under every name its target exports. */
  ghost predicate IsLookedUp(p: Program, f: nat, b: ExportBinding, name: string) {
    && b.local.None?
    && (b.kind != StarExport ==> name == b.exported)
    && (b.kind == StarExport ==>
          b.source.Some? && exists g: nat :: ReportsTarget(p, f, b.source.value, g) && Exports(p, g, name))
  }

  lemma NamesByBinding(p: Program, f: nat, b: ExportBinding, name: string)
    ensures ReexportName(p, f, b, name) <==> IsLookedUp(p, f, b, name)
  {
    if b.source.Some? {
      forall g: nat
        ensures ResolvedTargetFile(p, f, b.source.value) == Some(g) <==> ReportsTarget(p, f, b.source.value, g)
      {
        TargetIsReported(p, f, b.source.value, g);
      }
    }
  }

  /** A public file roots exactly what the names of its re-exports resolve to. */
  lemma RootByBinding(p: Program, openWorldFiles: seq<bool>, x: Target)
    ensures IsReexportRoot(p, openWorldFiles, x) <==>
              exists f: nat, b, name ::
                && f < |p.facts| && f < |openWorldFiles| && openWorldFiles[f] && b in p.facts[f].exports
                && IsLookedUp(p, f, b, name) && Resolves(p, (f, name), x)
  {
    if f: nat, b, name :|
      && f < |p.facts| && f < |openWorldFiles| && openWorldFiles[f] && b in p.facts[f].exports
      && IsLookedUp(p, f, b, name) && Resolves(p, (f, name), x) {
      NamesByBinding(p, f, b, name);
      assert RootOfBinding(p, f, b, x);
    }
    if f: nat, b :|
      && f < |p.facts| && FileFlag(openWorldFiles, f) && b in p.facts[f].exports && RootOfBinding(p, f, b, x) {
      var name :| ReexportName(p, f, b, name) && Resolves(p, (f, name), x);
      NamesByBinding(p, f, b, name);
    }
  }

  // ----- namespaces -----

  /** A namespace re-export is meant for every name its target exports, any other binding for the one it asks for. */
  lemma MeantByFields(p: Program, f: nat, name: string, b: ExportBinding, g: nat, asked: string)
    ensures b.kind == ReExport && b.imported.None? && b.source.Some? ==>
              (PassesOn(p, (f, name), b, (g, asked)) <==>
               b.exported == name && ReportsTarget(p, f, b.source.value, g) && Exports(p, g, asked))
    ensures b.kind != ReExport || b.imported.Some? || b.source.None? ==>
              (PassesOn(p, (f, name), b, (g, asked)) <==> Asks(p, f, name, b, g, asked))
  {
    ForwardAsks(p, f, name, b, g, asked);
    if b.source.Some? {
      TargetIsReported(p, f, b.source.value, g);
    }
  }
}
