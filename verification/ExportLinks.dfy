/**
 How application/scan.rs follows exports through re-exports, and the links between
 symbols that it derives from imports.
 */
module ExportLinks {
  import opened Common
  import opened Facts
  import opened Paths
  import opened SymbolLiveness

  datatype ResolutionStatus = Resolved | External | Deferred | Unresolved | Unsupported

  datatype ImportReport = ImportReport(specifier: string, status: ResolutionStatus, target: Option<string>)

  datatype Program = Program(facts: seq<FileFacts>, imports: seq<seq<ImportReport>>, filesByPath: map<string, nat>)

  ghost predicate WellFormed(p: Program) {
    forall path :: path in p.filesByPath ==> p.filesByPath[path] < |p.facts|
  }

  function FindResolved(reports: seq<ImportReport>, specifier: string): Option<ImportReport> {
    if reports == [] then None
    else if reports[0].specifier == specifier && reports[0].status == Resolved then Some(reports[0])
    else FindResolved(reports[1..], specifier)
  }

  /** The file that a specifier of `sourceFile` was resolved to, by its first resolved report. */
  function ResolvedTargetFile(p: Program, sourceFile: nat, specifier: string): (r: Option<nat>)
    ensures WellFormed(p) && r.Some? ==> r.value < |p.facts|
  {
    if sourceFile >= |p.imports| then None
    else
      var report := FindResolved(p.imports[sourceFile], specifier);
      if report.None? || report.value.target.None? || report.value.target.value !in p.filesByPath then None
      else Some(p.filesByPath[report.value.target.value])
  }

  // ----- what an export resolves to -----

  /** A name looked up in a file. */
  type Query = (nat, string)

  type Target = (SymbolKey, UsageKind)

  function Lane(typeOnly: bool): UsageKind {
    if typeOnly then Type else Runtime
  }

  predicate Answers(binding: ExportBinding, name: string) {
    binding.exported == name || binding.kind == StarExport
  }

  /** Where a binding passes the query on to. */
  function Forward(p: Program, q: Query, binding: ExportBinding): (r: Option<Query>)
    ensures WellFormed(p) && r.Some? ==> r.value.0 < |p.facts|
  {
    if !Answers(binding, q.1) || binding.source.None? then None
    else
      var target := ResolvedTargetFile(p, q.0, binding.source.value);
      if target.None? then None
      else
        var imported := if binding.kind == StarExport || binding.imported.None? then q.1 else binding.imported.value;
        Some((target.value, imported))
  }

  ghost predicate Forwards(p: Program, q: Query, r: Query) {
    q.0 < |p.facts| && exists b :: b in p.facts[q.0].exports && Forward(p, q, b) == Some(r)
  }

  /** What a single binding binds locally under this name. */
  function OwnLocal(file: nat, name: string, b: ExportBinding): set<Target> {
    if Answers(b, name) && b.local.Some? then {(SymbolKey(file, b.local.value), Lane(b.typeOnly))} else {}
  }

  ghost function LocalsOf(file: nat, name: string, bindings: seq<ExportBinding>): (r: set<Target>)
    ensures forall x :: x in r <==> exists b :: b in bindings && x in OwnLocal(file, name, b)
  {
    set b, x | b in bindings && x in OwnLocal(file, name, b) :: x
  }

  ghost function Locals(p: Program, q: Query): set<Target> {
    if q.0 < |p.facts| then LocalsOf(q.0, q.1, p.facts[q.0].exports) else {}
  }

  ghost predicate ForwardsIn(p: Program, q: Query, r: Query, steps: nat)
    decreases steps
  {
    if steps == 0 then q == r
    else exists m :: ForwardsIn(p, q, m, steps - 1) && Forwards(p, m, r)
  }

  ghost predicate Leads(p: Program, q: Query, r: Query) {
    exists steps: nat :: ForwardsIn(p, q, r, steps)
  }

  /** A local binding that some chain of named and star re-exports leads to. */
  ghost predicate Resolves(p: Program, q: Query, x: Target) {
    exists r :: Leads(p, q, r) && x in Locals(p, r)
  }

  lemma LeadsSelf(p: Program, q: Query)
    ensures Leads(p, q, q)
  {
    assert ForwardsIn(p, q, q, 0);
  }

  lemma LeadsOn(p: Program, q: Query, m: Query, r: Query)
    requires Leads(p, q, m) && Forwards(p, m, r)
    ensures Leads(p, q, r)
  {
    var steps: nat :| ForwardsIn(p, q, m, steps);
    assert ForwardsIn(p, q, r, steps + 1);
  }

  lemma {:induction false} LeadsThrough(p: Program, q: Query, m: Query, r: Query, steps: nat)
    requires Leads(p, q, m) && ForwardsIn(p, m, r, steps)
    ensures Leads(p, q, r)
    decreases steps
  {
    if steps > 0 {
      var x :| ForwardsIn(p, m, x, steps - 1) && Forwards(p, x, r);
      LeadsThrough(p, q, m, x, steps - 1);
      LeadsOn(p, q, x, r);
    }
  }

  lemma {:induction false} StaysInside(p: Program, s: set<Query>, q: Query, r: Query, steps: nat)
    requires q in s && ForwardsIn(p, q, r, steps)
    requires forall a, b :: a in s && Forwards(p, a, b) ==> b in s
    ensures r in s
    decreases steps
  {
    if steps > 0 {
      var x :| ForwardsIn(p, q, x, steps - 1) && Forwards(p, x, r);
      StaysInside(p, s, q, x, steps - 1);
    }
  }

  // ----- the search -----

  /** The queries that can come up while looking for `name`. */
  ghost function Universe(p: Program, name: string): (r: set<Query>)
    ensures forall f: nat :: f < |p.facts| ==> (f, name) in r
  {
    var names := {name} + set f, b | 0 <= f < |p.facts| && b in p.facts[f].exports && b.imported.Some? ::
      b.imported.value;
    set f: nat, n | f < |p.facts| && n in names :: (f, n)
  }

  lemma UniverseClosed(p: Program, name: string, q: Query, b: ExportBinding)
    requires WellFormed(p) && q in Universe(p, name) && q.0 < |p.facts| && b in p.facts[q.0].exports
    ensures Forward(p, q, b).Some? ==> Forward(p, q, b).value in Universe(p, name)
  {
  }

  /** Everything that the added queries forward to has been visited. */
  ghost predicate Expanded(p: Program, added: set<Query>, visited: set<Query>) {
    forall q, r :: q in added && Forwards(p, q, r) ==> r in visited
  }

  ghost function AllLocals(p: Program, queries: set<Query>): (r: set<Target>)
    ensures forall x :: x in r <==> exists q :: q in queries && x in Locals(p, q)
  {
    set q, x | q in queries && x in Locals(p, q) :: x
  }

  lemma AllLocalsUnion(p: Program, a: set<Query>, b: set<Query>)
    ensures AllLocals(p, a + b) == AllLocals(p, a) + AllLocals(p, b)
  {
  }

  lemma AllLocalsOne(p: Program, q: Query)
    ensures AllLocals(p, {q}) == Locals(p, q)
  {
  }

  lemma LocalsPush(file: nat, name: string, bindings: seq<ExportBinding>, i: nat)
    requires i < |bindings|
    ensures LocalsOf(file, name, bindings[..i + 1]) ==
            LocalsOf(file, name, bindings[..i]) + OwnLocal(file, name, bindings[i])
  {
    assert bindings[..i + 1] == bindings[..i] + [bindings[i]];
    assert bindings[i] in bindings[..i + 1];
    assert forall b :: b in bindings[..i + 1] <==> b in bindings[..i] || b == bindings[i];
  }

  /** What one call adds: queries that `q` leads to, fully expanded, with their local bindings. */
  ghost predicate Adds(p: Program, q: Query, visited0: set<Query>, visited: set<Query>, targets: set<Target>) {
    && visited0 <= visited
    && Expanded(p, visited - visited0, visited)
    && (forall r :: r in visited - visited0 ==> Leads(p, q, r))
    && targets == AllLocals(p, visited - visited0)
  }

  /** What the loop over the bindings of `q` keeps; `below` was added by its recursive calls. */
  ghost predicate Collecting(p: Program, q: Query, visited0: set<Query>, below: set<Query>, i: nat,
                             targets: set<Target>)
    requires q.0 < |p.facts| && i <= |p.facts[q.0].exports|
  {
    var visited := visited0 + {q} + below;
    var bindings := p.facts[q.0].exports;
    && below !! visited0 + {q}
    && Expanded(p, below, visited)
    && (forall r :: r in below ==> Leads(p, q, r))
    && (forall k :: 0 <= k < i && Forward(p, q, bindings[k]).Some? ==> Forward(p, q, bindings[k]).value in visited)
    && targets == AllLocals(p, below) + LocalsOf(q.0, q.1, bindings[..i])
  }

  lemma LeadsBelow(p: Program, q: Query, m: Query, added: set<Query>)
    requires Forwards(p, q, m) && forall r :: r in added ==> Leads(p, m, r)
    ensures forall r :: r in added ==> Leads(p, q, r)
  {
    LeadsSelf(p, q);
    LeadsOn(p, q, q, m);
    forall r | r in added
      ensures Leads(p, q, r)
    {
      var steps: nat :| ForwardsIn(p, m, r, steps);
      LeadsThrough(p, q, m, r, steps);
    }
  }

  lemma CollectStep(p: Program, q: Query, visited0: set<Query>, below: set<Query>, i: nat, targets: set<Target>,
                    m: Query, visited: set<Query>, found: set<Target>)
    requires q.0 < |p.facts| && i < |p.facts[q.0].exports|
    requires Collecting(p, q, visited0, below, i, targets)
    requires Forward(p, q, p.facts[q.0].exports[i]) == Some(m) && m in visited
    requires Adds(p, m, visited0 + {q} + below, visited, found)
    ensures visited == visited0 + {q} + (below + (visited - (visited0 + {q} + below)))
    ensures Collecting(p, q, visited0, below + (visited - (visited0 + {q} + below)), i + 1,
                       targets + OwnLocal(q.0, q.1, p.facts[q.0].exports[i]) + found)
  {
    var bindings := p.facts[q.0].exports;
    var added := visited - (visited0 + {q} + below);
    assert bindings[i] in bindings;
    LeadsBelow(p, q, m, added);
    AllLocalsUnion(p, below, added);
    LocalsPush(q.0, q.1, bindings, i);
    assert visited == visited0 + {q} + (below + added);
  }

  lemma CollectSkip(p: Program, q: Query, visited0: set<Query>, below: set<Query>, i: nat, targets: set<Target>)
    requires q.0 < |p.facts| && i < |p.facts[q.0].exports|
    requires Collecting(p, q, visited0, below, i, targets)
    requires Forward(p, q, p.facts[q.0].exports[i]).None?
    ensures Collecting(p, q, visited0, below, i + 1, targets + OwnLocal(q.0, q.1, p.facts[q.0].exports[i]))
  {
    LocalsPush(q.0, q.1, p.facts[q.0].exports, i);
  }

  lemma CollectEnd(p: Program, q: Query, visited0: set<Query>, below: set<Query>, targets: set<Target>)
    requires q.0 < |p.facts| && q !in visited0
    requires Collecting(p, q, visited0, below, |p.facts[q.0].exports|, targets)
    ensures Adds(p, q, visited0, visited0 + {q} + below, targets)
  {
    var bindings := p.facts[q.0].exports;
    assert bindings[..|bindings|] == bindings;
    assert visited0 + {q} + below - visited0 == {q} + below;
    forall r | Forwards(p, q, r)
      ensures r in visited0 + {q} + below
    {
      var b :| b in bindings && Forward(p, q, b) == Some(r);
      var k :| 0 <= k < |bindings| && bindings[k] == b;
    }
    AllLocalsUnion(p, {q}, below);
    AllLocalsOne(p, q);
    LeadsSelf(p, q);
  }

  /**
   One visited set is shared by all branches, and a query that was visited before
   answers nothing: the result is what the newly visited queries bind locally.
   */
  method ResolveExportTargets(p: Program, file: nat, name: string, visited0: set<Query>, ghost universe: set<Query>)
    returns (targets: set<Target>, visited: set<Query>)
    requires WellFormed(p) && file < |p.facts| && (file, name) in universe && visited0 <= universe
    requires forall q, b :: q in universe && q.0 < |p.facts| && b in p.facts[q.0].exports && Forward(p, q, b).Some? ==>
               Forward(p, q, b).value in universe
    ensures (file, name) in visited && visited <= universe
    ensures Adds(p, (file, name), visited0, visited, targets)
    decreases universe - visited0
  {
    if (file, name) in visited0 {
      assert visited0 - visited0 == {};
      return {}, visited0;
    }
    visited := visited0 + {(file, name)};
    targets := {};
    var bindings := p.facts[file].exports;
    ghost var below: set<Query> := {};
    for i := 0 to |bindings|
      invariant visited == visited0 + {(file, name)} + below && visited <= universe
      invariant Collecting(p, (file, name), visited0, below, i, targets)
    {
      var binding := bindings[i];
      assert binding in bindings;
      var next := Forward(p, (file, name), binding);
      if next.None? {
        CollectSkip(p, (file, name), visited0, below, i, targets);
      }
      if !Answers(binding, name) {
        assert targets + OwnLocal(file, name, binding) == targets;
        continue;
      }
      ghost var sofar := targets;
      targets := targets + OwnLocal(file, name, binding);
      if next.None? {
        continue;
      }
      ghost var before := visited;
      var found;
      found, visited := ResolveExportTargets(p, next.value.0, next.value.1, visited, universe);
      CollectStep(p, (file, name), visited0, below, i, sofar, next.value, visited, found);
      below := below + (visited - before);
      targets := targets + found;
    }
    CollectEnd(p, (file, name), visited0, below, targets);
  }

  /** From an empty visited set the answer is exactly what the query resolves to. */
  method ResolveExport(p: Program, file: nat, name: string) returns (targets: set<Target>)
    requires WellFormed(p) && file < |p.facts|
    ensures forall x :: x in targets <==> Resolves(p, (file, name), x)
  {
    forall q, b | q in Universe(p, name) && q.0 < |p.facts| && b in p.facts[q.0].exports && Forward(p, q, b).Some?
      ensures Forward(p, q, b).value in Universe(p, name)
    {
      UniverseClosed(p, name, q, b);
    }
    var visited;
    targets, visited := ResolveExportTargets(p, file, name, {}, Universe(p, name));
    forall x
      ensures x in targets <==> Resolves(p, (file, name), x)
    {
      if q :| Leads(p, (file, name), q) && x in Locals(p, q) {
        var steps: nat :| ForwardsIn(p, (file, name), q, steps);
        StaysInside(p, visited, (file, name), q, steps);
        assert q in visited - {};
      }
    }
  }

  // ----- the names a file exports -----

  /** `f` re-exports everything of `g`. */
  ghost predicate StarEdge(p: Program, f: nat, g: nat) {
    f < |p.facts| && exists b :: b in p.facts[f].exports && b.kind == StarExport && b.source.Some?
                                 && ResolvedTargetFile(p, f, b.source.value) == Some(g)
  }

  ghost function StarEdges(p: Program): (r: Edges)
    ensures WellFormed(p) ==> forall f: nat, g: nat :: (f, g) in r <==> StarEdge(p, f, g)
  {
    set f: nat, g: nat | f < |p.facts| && g < |p.facts| && StarEdge(p, f, g) :: (f, g)
  }

  ghost predicate NamesItself(p: Program, f: nat, name: string) {
    f < |p.facts| && exists b :: b in p.facts[f].exports && b.kind != StarExport && b.exported == name
  }

  /** A file that is reached by star exports gives the name itself. */
  ghost predicate Exports(p: Program, f: nat, name: string) {
    exists g :: Reaches(StarEdges(p), f, g) && NamesItself(p, g, name)
  }

  ghost function NamesOf(p: Program, files: set<nat>): set<string> {
    set f, b | f in files && f < |p.facts| && b in p.facts[f].exports && b.kind != StarExport :: b.exported
  }

  lemma NamesOfGrows(p: Program, files: set<nat>, f: nat, more: set<string>)
    requires f < |p.facts| && forall name :: name in more <==> NamesItself(p, f, name)
    ensures NamesOf(p, files + {f}) == NamesOf(p, files) + more
  {
  }

  lemma NamesOfReached(p: Program, file: nat, files: set<nat>)
    requires forall g :: g in files <==> Reached(StarEdges(p), [file], g)
    ensures forall name :: name in NamesOf(p, files) <==> Exports(p, file, name)
  {
    forall name
      ensures name in NamesOf(p, files) <==> Exports(p, file, name)
    {
      assert file in [file];
      if f, b :| f in files && f < |p.facts| && b in p.facts[f].exports && b.kind != StarExport && b.exported == name {
        assert Reached(StarEdges(p), [file], f) && NamesItself(p, f, name);
      }
      if g :| Reaches(StarEdges(p), file, g) && NamesItself(p, g, name) {
        assert Reached(StarEdges(p), [file], g);
      }
    }
  }

  ghost predicate NamedBy(bindings: seq<ExportBinding>, name: string) {
    exists b :: b in bindings && b.kind != StarExport && b.exported == name
  }

  /** The names and the star targets of one file's exports. */
  method ScanExports(p: Program, current: nat) returns (names: set<string>, targets: seq<nat>)
    requires WellFormed(p) && current < |p.facts|
    ensures forall name :: name in names <==> NamesItself(p, current, name)
    ensures forall g :: g in targets <==> StarEdge(p, current, g)
  {
    names, targets := {}, [];
    var bindings := p.facts[current].exports;
    for i := 0 to |bindings|
      invariant forall name :: name in names <==> NamedBy(bindings[..i], name)
      invariant forall g :: g in targets <==>
        exists b :: b in bindings[..i] && b.kind == StarExport && b.source.Some?
                    && ResolvedTargetFile(p, current, b.source.value) == Some(g)
    {
      var binding := bindings[i];
      assert bindings[..i + 1] == bindings[..i] + [binding];
      assert binding in bindings[..i + 1];
      assert forall b :: b in bindings[..i + 1] <==> b in bindings[..i] || b == binding;
      if binding.kind == StarExport {
        if binding.source.Some? {
          var target := ResolvedTargetFile(p, current, binding.source.value);
          if target.Some? {
            targets := targets + [target.value];
          }
        }
      } else {
        names := names + {binding.exported};
      }
    }
    assert bindings[..|bindings|] == bindings;
  }

  method ExportedNames(p: Program, file: nat) returns (names: set<string>)
    requires WellFormed(p) && file < |p.facts|
    ensures forall name :: name in names <==> Exports(p, file, name)
  {
    ghost var edges := StarEdges(p);
    names := {};
    var pending := [file];
    var visited: set<nat> := {};
    ghost var all := Marked(seq(|p.facts|, _ => true));
    while pending != []
      invariant visited <= all && forall f :: f in pending ==> f in all
      invariant file in visited || file in pending
      invariant forall s :: Seeds(edges, [file], s) ==> visited <= s && forall f :: f in pending ==> f in s
      invariant forall f, g :: f in visited && (f, g) in edges ==> g in visited || g in pending
      invariant names == NamesOf(p, visited)
      decreases all - visited, |pending|
    {
      var current := pending[|pending| - 1];
      assert current in pending && pending == pending[..|pending| - 1] + [current];
      pending := pending[..|pending| - 1];
      if current in visited {
        continue;
      }
      var more, targets := ScanExports(p, current);
      NamesOfGrows(p, visited, current, more);
      visited := visited + {current};
      names := names + more;
      assert forall s :: Seeds(edges, [file], s) ==> current in s;
      assert forall g :: g in targets ==> (current, g) in edges;
      pending := pending + targets;
    }
    LeastSeedIsReached(edges, [file], visited, |p.facts|);
    NamesOfReached(p, file, visited);
  }

  // ----- namespace imports lose nothing -----

  /** Star exports carry no local binding, as the parser emits them. */
  ghost predicate StarsBindNothing(p: Program) {
    forall f, b :: 0 <= f < |p.facts| && b in p.facts[f].exports && b.kind == StarExport ==> b.local.None?
  }

  /** As long as a query has only followed stars it keeps its name; otherwise some file on the way names it. */
  lemma {:induction false} StarsKeepName(p: Program, f: nat, name: string, r: Query, steps: nat)
    requires WellFormed(p) && ForwardsIn(p, (f, name), r, steps)
    ensures (Reaches(StarEdges(p), f, r.0) && r.1 == name) || Exports(p, f, name)
    decreases steps
  {
    if steps == 0 {
      ReachesSelf(StarEdges(p), f);
    } else {
      var m: Query :| ForwardsIn(p, (f, name), m, steps - 1) && Forwards(p, m, r);
      StarsKeepName(p, f, name, m, steps - 1);
      var b :| b in p.facts[m.0].exports && Forward(p, m, b) == Some(r);
      if b.kind != StarExport {
        assert NamesItself(p, m.0, m.1);
      } else if Reaches(StarEdges(p), f, m.0) {
        assert StarEdge(p, m.0, r.0);
        ReachesStep(StarEdges(p), f, m.0, r.0);
      }
    }
  }

  /** Every name that resolves to anything is among the exported names. */
  lemma ResolvedNamesAreExported(p: Program, f: nat, name: string, x: Target)
    requires WellFormed(p) && StarsBindNothing(p) && Resolves(p, (f, name), x)
    ensures Exports(p, f, name)
  {
    var r: Query :| Leads(p, (f, name), r) && x in Locals(p, r);
    var steps: nat :| ForwardsIn(p, (f, name), r, steps);
    StarsKeepName(p, f, name, r, steps);
    var b :| b in p.facts[r.0].exports && x in OwnLocal(r.0, r.1, b);
    assert b.kind != StarExport && NamesItself(p, r.0, r.1);
  }

  // ----- links -----

  /** The names under which an import binding looks into its target file. */
  ghost predicate LooksUp(p: Program, binding: ImportBinding, target: nat, name: string) {
    match binding.kind
    case DefaultImport => name == "default"
    case NamedImport => binding.imported == Some(name)
    case NamespaceImport => Exports(p, target, name)
    case CommonJsImport => Exports(p, target, name)
  }

  ghost predicate LinkOfBinding(p: Program, source: nat, binding: ImportBinding, link: Link) {
    var target := ResolvedTargetFile(p, source, binding.source);
    && target.Some?
    && link.source == SymbolKey(source, binding.local) && link.sourceUsage == Lane(binding.typeOnly)
    && exists name :: LooksUp(p, binding, target.value, name)
                      && Resolves(p, (target.value, name), (link.target, link.targetUsage))
  }

  /** An import binding leads to what one of its names resolves to. */
  ghost predicate IsLink(p: Program, link: Link) {
    exists f: nat, b :: f < |p.facts| && b in p.facts[f].imports && LinkOfBinding(p, f, b, link)
  }

  method TargetNames(p: Program, binding: ImportBinding, target: nat) returns (names: set<string>)
    requires WellFormed(p) && target < |p.facts|
    ensures forall name :: name in names <==> LooksUp(p, binding, target, name)
  {
    match binding.kind {
      case DefaultImport => names := {"default"};
      case NamedImport => names := if binding.imported.Some? then {binding.imported.value} else {};
      case NamespaceImport => names := ExportedNames(p, target);
      case CommonJsImport => names := ExportedNames(p, target);
    }
  }

  method LinksOfBinding(p: Program, source: nat, binding: ImportBinding) returns (links: set<Link>)
    requires WellFormed(p) && source < |p.facts|
    ensures forall l :: l in links <==> LinkOfBinding(p, source, binding, l)
  {
    links := {};
    var target := ResolvedTargetFile(p, source, binding.source);
    if target.None? {
      return;
    }
    var key, usage := SymbolKey(source, binding.local), Lane(binding.typeOnly);
    var names := TargetNames(p, binding, target.value);
    var rest := names;
    while rest != {}
      invariant rest <= names
      invariant forall l :: l in links <==>
        l.source == key && l.sourceUsage == usage
        && exists name :: name in names - rest && Resolves(p, (target.value, name), (l.target, l.targetUsage))
      decreases rest
    {
      var name :| name in rest;
      var found := ResolveExport(p, target.value, name);
      links := links + set x | x in found :: Link(key, usage, x.0, x.1);
      ghost var before := names - rest;
      rest := rest - {name};
      assert names - rest == before + {name};
    }
  }

  method BuildSymbolLinks(p: Program) returns (links: set<Link>)
    requires WellFormed(p)
    ensures forall l :: l in links <==> IsLink(p, l)
  {
    links := {};
    for f := 0 to |p.facts|
      invariant forall l :: l in links <==>
        exists g: nat, b :: g < f && b in p.facts[g].imports && LinkOfBinding(p, g, b, l)
    {
      var bindings := p.facts[f].imports;
      ghost var before := links;
      for i := 0 to |bindings|
        invariant forall l :: l in links <==>
          l in before || exists b :: b in bindings[..i] && LinkOfBinding(p, f, b, l)
      {
        assert bindings[..i + 1] == bindings[..i] + [bindings[i]];
        assert forall b :: b in bindings[..i + 1] <==> b in bindings[..i] || b == bindings[i];
        var more := LinksOfBinding(p, f, bindings[i]);
        links := links + more;
      }
      assert bindings[..|bindings|] == bindings;
    }
  }

  // ----- roots of public files -----

  ghost predicate ReexportName(p: Program, file: nat, b: ExportBinding, name: string) {
    && b.local.None?
    && if b.kind == StarExport then
         b.source.Some? && ResolvedTargetFile(p, file, b.source.value).Some?
         && Exports(p, ResolvedTargetFile(p, file, b.source.value).value, name)
       else name == b.exported
  }

  ghost predicate RootOfBinding(p: Program, file: nat, b: ExportBinding, x: Target) {
    exists name :: ReexportName(p, file, b, name) && Resolves(p, (file, name), x)
  }

  ghost predicate IsReexportRoot(p: Program, openWorldFiles: seq<bool>, x: Target) {
    exists f: nat, b :: f < |p.facts| && FileFlag(openWorldFiles, f) && b in p.facts[f].exports &&
      RootOfBinding(p, f, b, x)
  }

  method RootsOfBinding(p: Program, file: nat, b: ExportBinding) returns (roots: set<Target>)
    requires WellFormed(p) && file < |p.facts|
    ensures forall x :: x in roots <==> RootOfBinding(p, file, b, x)
  {
    roots := {};
    if b.local.Some? {
      return;
    }
    var names: set<string> := {};
    if b.kind == StarExport {
      var target := if b.source.Some? then ResolvedTargetFile(p, file, b.source.value) else None;
      if target.Some? {
        names := ExportedNames(p, target.value);
      }
    } else {
      names := {b.exported};
    }
    assert forall name :: name in names <==> ReexportName(p, file, b, name);
    var rest := names;
    while rest != {}
      invariant rest <= names
      invariant forall x :: x in roots <==> exists name :: name in names - rest && Resolves(p, (file, name), x)
      decreases rest
    {
      var name :| name in rest;
      var found := ResolveExport(p, file, name);
      roots := roots + found;
      ghost var before := names - rest;
      rest := rest - {name};
      assert names - rest == before + {name};
    }
  }

  method OpenWorldReexportRoots(p: Program, openWorldFiles: seq<bool>) returns (roots: set<Target>)
    requires WellFormed(p) && |openWorldFiles| <= |p.facts|
    ensures forall x :: x in roots <==> IsReexportRoot(p, openWorldFiles, x)
  {
    roots := {};
    for f := 0 to |openWorldFiles|
      invariant forall x :: x in roots <==>
        exists g: nat, b :: g < f && FileFlag(openWorldFiles, g) && b in p.facts[g].exports && RootOfBinding(p, g, b, x)
    {
      if !openWorldFiles[f] {
        continue;
      }
      var bindings := p.facts[f].exports;
      ghost var before := roots;
      for i := 0 to |bindings|
        invariant forall x :: x in roots <==>
          x in before || exists b :: b in bindings[..i] && RootOfBinding(p, f, b, x)
      {
        assert bindings[..i + 1] == bindings[..i] + [bindings[i]];
        assert forall b :: b in bindings[..i + 1] <==> b in bindings[..i] || b == bindings[i];
        var more := RootsOfBinding(p, f, bindings[i]);
        roots := roots + more;
      }
      assert bindings[..|bindings|] == bindings;
    }
  }

  // ----- consequences -----

  /**
   A namespace import is linked to every symbol that any name of its target file
   resolves to, whether or not the importing code spells that name out.
   */
  lemma NamespaceImportsLoseNothing(p: Program, f: nat, b: ImportBinding, target: nat, name: string, x: Target)
    requires WellFormed(p) && StarsBindNothing(p)
    requires f < |p.facts| && b in p.facts[f].imports && (b.kind == NamespaceImport || b.kind == CommonJsImport)
    requires ResolvedTargetFile(p, f, b.source) == Some(target) && Resolves(p, (target, name), x)
    ensures IsLink(p, Link(SymbolKey(f, b.local), Lane(b.typeOnly), x.0, x.1))
  {
    ResolvedNamesAreExported(p, target, name, x);
    var link := Link(SymbolKey(f, b.local), Lane(b.typeOnly), x.0, x.1);
    assert LinkOfBinding(p, f, b, link);
  }

  /** What the importing code may reach through the binding: its own name, or any name of the target file. */
  predicate MayUse(b: ImportBinding, name: string) {
    match b.kind
    case DefaultImport => name == "default"
    case NamedImport => b.imported == Some(name)
    case NamespaceImport => true
    case CommonJsImport => true
  }

  /**
   While an import binding is live in any lane, so is every declared symbol that a name
   reachable through it resolves to, in the lane in which it is exported.
   */
  lemma LiveImportKeepsTargets(p: Program, input: Input, live: LiveSet, f: nat, b: ImportBinding, target: nat,
                               name: string, x: Target, w: UsageKind)
    requires WellFormed(p) && StarsBindNothing(p) && (forall l :: IsLink(p, l) ==> l in input.links)
    requires f < |p.facts| && b in p.facts[f].imports && MayUse(b, name)
    requires ResolvedTargetFile(p, f, b.source) == Some(target) && Resolves(p, (target, name), x)
    requires IsLiveness(input, live) && (SymbolKey(f, b.local), w) in live
    requires Declares(input.files, SymbolKey(f, b.local)) && Declares(input.files, x.0)
    ensures x in live
  {
    var link := Link(SymbolKey(f, b.local), Lane(b.typeOnly), x.0, x.1);
    if b.kind == NamespaceImport || b.kind == CommonJsImport {
      NamespaceImportsLoseNothing(p, f, b, target, name, x);
    }
    assert LooksUp(p, b, target, name) ==> LinkOfBinding(p, f, b, link);
    assert IsLink(p, link);
    assert LinkEdge(input.links, link.source, link.target, link.targetUsage);
    assert SymbolEdge(input, link.source, link.target, link.targetUsage);
  }

  /** A binding that passes queries on binds nothing itself. */
  ghost predicate ForwardsBindNothing(p: Program) {
    forall f, b :: 0 <= f < |p.facts| && b in p.facts[f].exports && b.source.Some? ==> b.local.None?
  }

  /** A query either is answered on the spot or passes through one of the file's own bindings. */
  lemma {:induction false} FirstForward(p: Program, q: Query, r: Query, steps: nat) returns (m: Query)
    requires ForwardsIn(p, q, r, steps) && q != r
    ensures Forwards(p, q, m) && Leads(p, m, r)
    decreases steps
  {
    var last: Query :| ForwardsIn(p, q, last, steps - 1) && Forwards(p, last, r);
    if q == last {
      m := r;
      LeadsSelf(p, m);
    } else {
      m := FirstForward(p, q, last, steps - 1);
      LeadsOn(p, m, last, r);
    }
  }

  /**
   Whatever a name of a public file resolves to is a root: either the file exports
   the local binding itself, or one of its re-exports roots it explicitly.
   */
  lemma PublicNamesAreRooted(p: Program, openWorldFiles: seq<bool>, f: nat, name: string, x: Target)
    requires WellFormed(p) && StarsBindNothing(p) && ForwardsBindNothing(p)
    requires f < |p.facts| && FileFlag(openWorldFiles, f) && Resolves(p, (f, name), x)
    ensures IsReexportRoot(p, openWorldFiles, x) ||
            (x.0.file == f && ExportRoot(p.facts[f], p.facts[f].exports, x.0.symbol, x.1))
  {
    var r: Query :| Leads(p, (f, name), r) && x in Locals(p, r);
    if r == (f, name) {
      var b :| b in p.facts[f].exports && x in OwnLocal(f, name, b);
      assert ExportLane(p.facts[f], b, x.0.symbol, x.1);
    } else {
      var steps: nat :| ForwardsIn(p, (f, name), r, steps);
      var m := FirstForward(p, (f, name), r, steps);
      var b :| b in p.facts[f].exports && Forward(p, (f, name), b) == Some(m);
      assert Resolves(p, m, x);
      if b.kind == StarExport {
        ResolvedNamesAreExported(p, m.0, name, x);
      }
      assert RootOfBinding(p, f, b, x) by {
        assert ReexportName(p, f, b, name);
      }
    }
  }
}
