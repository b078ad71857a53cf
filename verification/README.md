# Orphanode, modelled and proved in Dafny

Orphanode decides which files and symbols of a JavaScript project are dead, and can then delete
them. This project models the code behind that decision and behind the deletion, and proves what
the decision means. `dafny verify dfyconfig.toml` checks everything.

The modules follow the program:

- **Graphs.** `Paths` is one theory of paths, reachability and induced subgraphs. `StrongComponents`
  proves the two passes of Kosaraju's algorithm with explicit stacks; `FileGraphs` (domain/graph.rs)
  and `DeadSymbols` (analysis/symbols.rs) both use it. `Evidence` (domain/evidence.rs) proves that
  breadth-first search returns the lexicographically least of all shortest paths; `ExplainPaths`
  (application/explain.rs) proves the one over import chains.
- **Symbols.** `Facts` holds the per-file facts. `SymbolLiveness` proves the two-lane worklist to be
  the least fixpoint of roots and edges; `DeadSymbols` groups what is left. `ExportLinks`
  (application/scan.rs) follows names through named and star re-exports, and `NamespaceReexports`
  compares that with what `export * as name` means. `SymbolSafety` leads from there to the report.
- **Files.** `Reports`, `UnusedFiles` (application/scan.rs), `ProfileMerge` and `ProjectContexts`
  (application/project.rs) and `FileDeletion` lead from module edges to the files that may be deleted.
- **Cache.** `CacheNames`, `CacheStore` and `CacheProtocol` (cache/store.rs) model the cache as a
  directory that can be abandoned between any two file operations. A ghost history records the
  directory after each one.
- **Fixes.** `SourceEdits`, `FixPlans` and `FixEngines` (fixes/plan.rs, fixes/apply.rs) cover plan
  validation, splicing, and the sequence of preview, authorization, verification, file changes,
  commands and revalidation. A ghost log records the events of an apply.
- **Text and configuration.** `ScriptTokens` (discovery/scripts.rs), with a writer and its way back in
  `ScriptRoundTrip`, `Jsonc`, `JsoncTwice` and `TargetMaps`
  (discovery/configuration.rs, application/project.rs), `TargetProfiles` (domain/target.rs) over the
  chain theory of `ParentChains`, and `Wildcards` (plugins/builtins.rs).
- `Common`, `Strings` and `Sorting` hold what several modules need.
- **Laws.** `ExportLaws`, `SymbolLaws`, `FileLaws`, `MergeLaws`, `ContextLaws`, `CacheLaws`, `FixLaws` and
  `TargetLaws` say what the definitions that a method and its specification share amount to: on the fields
  of bindings, reports, findings, files and plans, without the names of those definitions.

Code that changes things step by step is a class or a method with loops, proved against a predicate
or function that says what the result means. Where a loop keeps many facts at once they are gathered
in one predicate, and a lemma beside it makes the step.

Modelling assumptions: digests are injective, and damage to the cache computes none; encoding and
decoding of stored data are faithful; characters have width one; project paths are canonical, so
distinct paths name distinct files; a cache has one committer at a time, with increasing tokens.

What the proofs bring to light about the code:

- Normalizing JSON with comments is not idempotent. `JsoncTwice.NormalizingTwice` says on which
  sources a second run changes something; `JsoncTwice.DoubleCommaNeedsTwoRuns` gives one.
- A block comment in front of a leading byte order mark keeps the mark from being trimmed, so this is
  the one place where inserting a comment shows (`Jsonc.CommentBeforeMarkShows`).
- When a package command rewrites the manifest of a later one, an apply ends in an error after files
  were changed, and without a revalidation (`FixEngines.ErrorWithoutRevalidation`). It does so exactly
  when a command finds its manifest or workspace changed (`FixEngines.ReportsExactlyWhenManifestsLast`),
  and never before the first command (`FixEngines.FirstCommandRuns`).
- A re-export without an imported name looks the exported name itself up in its target, so the target
  of `export * as name` is asked for `name` and code used only through the namespace counts as dead
  (`NamespaceReexports.NamespaceReexportLosesCode`). `NamespaceReexports.ResolutionAgrees` says for
  which names the resolver finds what is meant, `NamespaceReexports.ProgramAgrees` for which programs.
- The closed world is that of the package of a finding's first file, so a file of an open package may
  be deleted together with one of a closed package (`ProjectContexts.CycleAcrossPackages`);
  `ProjectContexts.OpenFileIsDeletable` says exactly when.

## Model

| member | source | states |
|---|---|---|
| `FileGraphs.FileGraph.constructor` | crates/orphanode/src/domain/graph.rs:13-17 | A new graph has the given number of files and no edge |
| `FileGraphs.FileGraph.AddEdge` | crates/orphanode/src/domain/graph.rs:19-21 | Adds exactly one edge to the edge set; a repeated edge changes nothing |
| `FileGraphs.FileGraph.Finish` | crates/orphanode/src/domain/graph.rs:23-28 | Keeps the edge set and leaves every row ascending without repetition |
| `FileGraphs.FileGraph.ReachableFromMany` | crates/orphanode/src/domain/graph.rs:36-56 | A file is flagged exactly when some root reaches it by a path |
| `FileGraphs.FileGraph.Reversed` | crates/orphanode/src/domain/graph.rs:126-137 | Row y of the result lists x exactly when the graph has the edge (x, y) |
| `StrongComponents.FinishFrom` | crates/orphanode/src/domain/graph.rs:103-120 | Depth-first search with explicit (node, next) frames keeps the finish-order invariant: each node finishes after exactly its new descendants, and nothing that finished earlier leads into them |
| `StrongComponents.FinishingOrder` | crates/orphanode/src/domain/graph.rs:94-124 | Lists exactly the included files, each once, in an order in which Kosaraju's argument holds |
| `StrongComponents.CollectComponent` | crates/orphanode/src/domain/graph.rs:72-84 | Collects a set closed under unassigned predecessors that stays within every such set containing its start |
| `StrongComponents.Sweep` | crates/orphanode/src/domain/graph.rs:62-88 | Sweeping a finish order backwards over reversed edges yields exactly the classes of mutual reachability |
| `StrongComponents.Components` | crates/orphanode/src/analysis/symbols.rs:416-471 | For rows and their reversal, the two passes split the included nodes into the classes of mutual reachability |
| `FileGraphs.FileGraph.ComponentsWithin` | crates/orphanode/src/domain/graph.rs:59-92 | Two included files share a component exactly when each reaches the other inside the mask; components cover the mask, are ascending, and are ordered by their first file |
| `FileGraphs.ComponentListUnique` | crates/orphanode/src/domain/graph.rs:59-92 | The edges and the mask admit only one such component list |
| `FileGraphs.Build` | crates/orphanode/src/domain/graph.rs:12-28 | Adding edges in any order and finishing gives a graph with exactly those edges and canonical rows |
| `FileGraphs.FinishedUnique` | crates/orphanode/src/domain/graph.rs:23-28 | Two finished graphs with the same edges have identical rows |
| `FileGraphs.InsertionOrderIrrelevant` | crates/orphanode/src/domain/graph.rs:19-92 | Insertion order and repeated insertions leave no trace in the components |
| `Evidence.EvidenceGraph.AddNode` | crates/orphanode/src/domain/evidence.rs:52-72 | Appends a node whose id is its position and keeps all edges |
| `Evidence.EvidenceGraph.AddEdge` | crates/orphanode/src/domain/evidence.rs:79-88 | Adds exactly one edge and keeps rows ascending and without repetition |
| `Evidence.EvidenceGraph.Start` | crates/orphanode/src/domain/evidence.rs:101-112 | The queue starts with the known sources in ascending order, each once |
| `Evidence.ExpandRow` | crates/orphanode/src/domain/evidence.rs:118-124 | Expanding a node discovers its unseen targets, each by the least path there is to it |
| `Evidence.EvidenceGraph.Search` | crates/orphanode/src/domain/evidence.rs:114-125 | The search ends with the target discovered or with nothing left to expand, keeping for every discovered node its least path and its parent |
| `Evidence.EvidenceGraph.Walk` | crates/orphanode/src/domain/evidence.rs:130-136 | The predecessor walk ends and returns exactly the path by which the target was discovered |
| `Evidence.EvidenceGraph.ShortestPath` | crates/orphanode/src/domain/evidence.rs:96-140 | Empty exactly when no listed source reaches the target; otherwise the least explanation: shortest first, then lexicographically smallest by id |
| `Evidence.LeastExplanationExists` | crates/orphanode/src/domain/evidence.rs:96-140 | Whenever there is an explanation there is a least one |
| `Evidence.LeastExplanationUnique` | crates/orphanode/src/domain/evidence.rs:96-140 | There is only one least explanation, so the answer is canonical |
| `ExplainPaths.BuildOutgoing` | crates/orphanode/src/application/explain.rs:184-196 | The rows list exactly the resolved imports of the files in the report |
| `ExplainPaths.EnqueueEntries` | crates/orphanode/src/application/explain.rs:198-204 | Every entry is queued once, without a predecessor |
| `ExplainPaths.ExpandRow` | crates/orphanode/src/application/explain.rs:209-214 | Expanding a file enqueues its imports that were not met yet, each at the least distance there is to it |
| `ExplainPaths.WalkBack` | crates/orphanode/src/application/explain.rs:220-227 | The walk along the optional predecessors ends and gives a shortest chain |
| `ExplainPaths.ShortestFilePath` | crates/orphanode/src/application/explain.rs:183-228 | Empty if and only if no chain of resolved imports leads from an entry to the file; otherwise a shortest such chain |
| `SymbolLiveness.NumberSymbols` | crates/orphanode/src/analysis/symbols.rs:94-105 | Numbers the declared symbols without gap or repetition |
| `SymbolLiveness.AddReferences` | crates/orphanode/src/analysis/symbols.rs:107-131 | Row by row, the edges of references owned by a symbol are added and no others |
| `SymbolLiveness.BuildOutgoing` | crates/orphanode/src/analysis/symbols.rs:107-148 | The rows hold exactly the edges of owned references and of resolved links between declared symbols |
| `SymbolLiveness.EagerChildren` | crates/orphanode/src/analysis/symbols.rs:357-372 | Row p lists exactly the eager regions whose parent is p |
| `SymbolLiveness.ActiveEagerRegions` | crates/orphanode/src/analysis/symbols.rs:357-386 | A region is active exactly when a chain of eager regions leads to it from the module region |
| `SymbolLaws.ActiveByRegion` | crates/orphanode/src/analysis/symbols.rs:357-386 | Region 0 is active, and any other exactly when it is an eager child of an active one |
| `SymbolLiveness.MarkNodeReachable` | crates/orphanode/src/analysis/symbols.rs:334-345 | Flags one (node, lane) pair and queues it exactly when it was not flagged before |
| `SymbolLiveness.MarkReachable` | crates/orphanode/src/analysis/symbols.rs:322-332 | Marks a key in a lane, and nothing when no file declares it |
| `SymbolLiveness.MarkReferences` | crates/orphanode/src/analysis/symbols.rs:166-188 | Marks exactly the targets of references in active regions of one reachable file |
| `SymbolLiveness.MarkExports` | crates/orphanode/src/analysis/symbols.rs:190-229 | Marks exactly the exported locals of a public file, in each lane in which they can be consumed |
| `SymbolLiveness.MarkRoots` | crates/orphanode/src/analysis/symbols.rs:150-230 | Exactly the roots are marked and queued |
| `SymbolLiveness.MarkTargets` | crates/orphanode/src/analysis/symbols.rs:237-239 | Marks the targets of one node in the lanes their edges declare; only new pairs join the queue |
| `SymbolLiveness.Propagate` | crates/orphanode/src/analysis/symbols.rs:232-240 | The worklist ends with the least set of (node, lane) pairs that holds the roots and follows every edge from either lane |
| `SymbolLiveness.MarkLive` | crates/orphanode/src/analysis/symbols.rs:150-240 | The flags are the liveness: the least fixpoint of roots and edges |
| `SymbolLiveness.LivenessUnique` | crates/orphanode/src/analysis/symbols.rs:150-240 | There is only one liveness |
| `SymbolLiveness.LivenessIsFixpoint` | crates/orphanode/src/analysis/symbols.rs:150-240 | A symbol is live in a lane exactly when it is a root there or an edge into that lane comes from a symbol live in either lane |
| `SymbolLiveness.LivenessMonotone` | crates/orphanode/src/analysis/symbols.rs:150-240 | More links, explicit roots or public files only make more symbols live |
| `SymbolLaws.EdgeByFields` | crates/orphanode/src/analysis/symbols.rs:107-148 | On the references and links alone: when one declared symbol keeps another alive, and in which lane |
| `SymbolLaws.RootByFields` | crates/orphanode/src/analysis/symbols.rs:150-230 | On the fields alone: a declared symbol is a root in a lane exactly when it is listed as one, or its file is reached and running code refers to it there or the public file gives it to the outside there |
| `DeadSymbols.IncomingEdges` | crates/orphanode/src/analysis/symbols.rs:438-452 | The reversed rows hold exactly the edges between candidates |
| `DeadSymbols.CyclicClass` | crates/orphanode/src/analysis/symbols.rs:473-476 | A member of a class reaches itself by a nonempty path exactly when the class has two members or a self edge |
| `DeadSymbols.NameGroup` | crates/orphanode/src/analysis/symbols.rs:472-480 | Names one component: its keys in order, and cyclic exactly when a member leads back to itself |
| `DeadSymbols.DeadStronglyConnectedComponents` | crates/orphanode/src/analysis/symbols.rs:411-484 | The groups are exactly the strongly connected classes of the graph inside the candidates, sorted, with the right cyclic flags |
| `DeadSymbols.FileStates` | crates/orphanode/src/analysis/symbols.rs:242-306 | Each file reports for each symbol exactly the lanes in which it is live, and its two completeness flags, which `SymbolLaws.CompletenessByGuards` reads off the guards |
| `DeadSymbols.AnalyzeSymbols` | crates/orphanode/src/analysis/symbols.rs:93-309 | Whole analysis: reported lanes are the liveness, and the groups are the classes of exactly the dead reportable declarations, which `SymbolLaws.ReportedByFields` describes on the fields |
| `DeadSymbols.DeadGroupsUntouched` | crates/orphanode/src/analysis/symbols.rs:266-277 | No symbol that is live in any lane has an edge into a dead group |
| `DeadSymbols.DeadShrinks` | crates/orphanode/src/analysis/symbols.rs:266-277 | More links, explicit roots or public files never make another symbol dead |
| `SymbolLaws.CompletenessByGuards` | crates/orphanode/src/analysis/symbols.rs:242-264 | On the guards alone: the declarations of a reached file are complete exactly without direct eval and dynamic scopes, its exports exactly without computed and opaque CommonJS exports |
| `SymbolLaws.StatesByFields` | crates/orphanode/src/analysis/symbols.rs:279-306 | Every symbol of a file is reported under its id, as live in exactly the lanes in which it is |
| `SymbolLaws.ReportedByFields` | crates/orphanode/src/analysis/symbols.rs:266-277 | On the fields alone: a declared symbol is reported exactly when its file is reached and has neither of these two guards, it is live in no lane, and it is no ambient declaration, no parameter property and of none of four kinds |
| `SymbolLaws.GuardedFilesAreSpared` | crates/orphanode/src/analysis/symbols.rs:246-277 | No symbol of a reached file with direct eval or a dynamic scope is in a reported group, and the file says that its declarations are incomplete |
| `ExportLinks.ResolveExportTargets` | crates/orphanode/src/application/scan.rs:1428-1478 | With a visited set shared by siblings: the newly visited queries are closed under forwarding up to earlier ones, and the result is exactly what they bind locally; terminates on cyclic re-exports |
| `ExportLinks.ResolveExport` | crates/orphanode/src/application/scan.rs:1428-1478 | From an empty visited set the answer is exactly the local bindings of all (file, name) states that re-exports lead to |
| `ExportLinks.ScanExports` | crates/orphanode/src/application/scan.rs:1412-1423 | The names one file exports itself and the files it star-exports |
| `ExportLinks.ExportedNames` | crates/orphanode/src/application/scan.rs:1399-1426 | Exactly the names that the file itself, or any file it reaches through star exports, gives by a binding other than a star |
| `ExportLinks.ResolvedNamesAreExported` | crates/orphanode/src/application/scan.rs:1399-1478 | When star exports bind no local, every name that resolves to anything is among the exported names |
| `ExportLinks.TargetNames` | crates/orphanode/src/application/scan.rs:1355-1363 | The names under which one import binding looks into its target file |
| `ExportLinks.LinksOfBinding` | crates/orphanode/src/application/scan.rs:1345-1384 | The links of one binding are exactly what its names resolve to, from the right lane |
| `ExportLinks.BuildSymbolLinks` | crates/orphanode/src/application/scan.rs:1333-1397 | The links are exactly what the import bindings of all files resolve to |
| `ExportLinks.NamespaceImportsLoseNothing` | crates/orphanode/src/application/scan.rs:1343-1478 | A namespace or CommonJS import is linked to every target of every possible name of its file |
| `ExportLinks.LiveImportKeepsTargets` | crates/orphanode/src/application/scan.rs:1333-1478 | While an import binding is live in any lane, every declared symbol that its name resolves to, or for a namespace any name of the target file, is live |
| `ExportLinks.RootsOfBinding` | crates/orphanode/src/application/scan.rs:1525-1551 | The extra roots one re-export of a public file gives |
| `ExportLinks.OpenWorldReexportRoots` | crates/orphanode/src/application/scan.rs:1509-1558 | The explicit roots are exactly what re-exports of public files resolve to |
| `ExportLinks.PublicNamesAreRooted` | crates/orphanode/src/application/scan.rs:1509-1558 | Whatever a name of a public file resolves to is rooted, by the file's own exports or explicitly |
| `NamespaceReexports.ResolvesIsCarried` | crates/orphanode/src/application/scan.rs:1428-1478 | Whatever the resolver finds for a name, the name was meant to carry |
| `NamespaceReexports.LastNamespace` | crates/orphanode/src/application/scan.rs:1428-1478 | Every intended way of a name either is one the resolver takes, or behind the last namespace on it the resolver goes on alone |
| `NamespaceReexports.ResolutionAgrees` | crates/orphanode/src/application/scan.rs:1428-1478 | For every name of every program, the resolver finds exactly what the name is meant to carry if and only if it finds for that name whatever the exported names of the namespaces it can open resolve to |
| `NamespaceReexports.AgreesWithoutNamespaces` | crates/orphanode/src/application/scan.rs:1428-1478 | So it does for every name that meets no re-exported namespace |
| `NamespaceReexports.ProgramAgrees` | crates/orphanode/src/application/scan.rs:1428-1478 | All names of a program resolve to exactly what they are meant to carry if and only if, for every re-exported namespace, its own name resolves to whatever the exported names of its target resolve to |
| `NamespaceReexports.LinksAgree` | crates/orphanode/src/application/scan.rs:1333-1397 | Where that condition holds of all imported names, the links are exactly the meant ones |
| `NamespaceReexports.CoveredPublicNamesAreRooted` | crates/orphanode/src/application/scan.rs:1509-1558 | Where it holds of a name of a public file, everything the name is meant to carry is rooted |
| `NamespaceReexports.NamespaceReexportLosesCode` | crates/orphanode/src/javascript/parse.rs:1150-1186 | With `export * as ns` in a barrel the condition fails: the program has no link and the public barrel no root, though f is exported and meant |
| `ExportLaws.TargetIsReported` | crates/orphanode/src/application/scan.rs:1480-1492 | On the reports alone: a specifier leads to the file whose path the first resolved report on it names, and nowhere without one |
| `ExportLaws.GivenResolves` | crates/orphanode/src/application/scan.rs:1447-1459 | On the binding alone: its own local symbol is found under its exported name, in the lane of the export |
| `ExportLaws.RenamedReexportResolves` | crates/orphanode/src/application/scan.rs:1451-1475 | On the binding alone: what the target has under `n` is found under `m` through `export { n as m } from` |
| `ExportLaws.StarReexportResolves` | crates/orphanode/src/application/scan.rs:1463-1475 | On the binding alone: what the target has under a name is found under the same name through a star |
| `ExportLaws.ResolvesByBinding` | crates/orphanode/src/application/scan.rs:1440-1475 | Conversely, whatever a name resolves to is a local symbol of one binding of its file, or comes through one of them |
| `ExportLaws.ResolvesLeast` | crates/orphanode/src/application/scan.rs:1428-1478 | Names resolve to nothing but that: every relation that holds the local symbols and is closed under the bindings contains the resolution |
| `ExportLaws.ExportsByBinding` | crates/orphanode/src/application/scan.rs:1399-1426 | A file exports the names of its bindings but for stars, and what the targets of its stars export |
| `ExportLaws.LinkByBinding` | crates/orphanode/src/application/scan.rs:1333-1397 | On the bindings alone: where a link starts, in which lane, and which names of the target it may end at |
| `ExportLaws.RootByBinding` | crates/orphanode/src/application/scan.rs:1509-1558 | On the bindings alone: a public file roots what its re-exports resolve to, a star under every name its target exports, another under its own |
| `ExportLaws.MeantByFields` | crates/orphanode/src/javascript/parse.rs:1150-1186 | A namespace re-export is meant for every name its target exports, any other binding for the one name it asks for |
| `SymbolSafety.PublicNamesSurvive` | crates/orphanode/src/application/scan.rs:461-474 | End to end: whatever a name of a reachable public file resolves to is live and in no reported group of dead symbols |
| `SymbolSafety.CoveredNamesSurvive` | crates/orphanode/src/application/scan.rs:461-474 | End to end: so is whatever such a name is meant to carry, where its namespaces are covered |
| `SymbolSafety.ExecutedImportsSurvive` | crates/orphanode/src/application/scan.rs:461-474 | End to end: when code that runs with a reachable file mentions an import, everything reachable through the import is live and in no reported group |
| `UnusedFiles.ClassifyFiles` | crates/orphanode/src/application/scan.rs:1630-1648 | A file is Unreachable exactly when it is not reachable, has no fatal diagnostic, and no reachable file blocks |
| `UnusedFiles.BuildFindings` | crates/orphanode/src/application/scan.rs:1650-1711 | One preview-only finding for each component of the unreachable files; none when a reachable file blocks |
| `UnusedFiles.ScanFiles` | crates/orphanode/src/application/scan.rs:462-490 | From edges and entries: findings name exactly the reported files, one strongly connected component each |
| `UnusedFiles.NothingLiveLeadsToReported` | crates/orphanode/src/application/scan.rs:462-490 | No reachable file has an edge to a reported one |
| `UnusedFiles.EntriesAreNotReported` | crates/orphanode/src/application/scan.rs:462-490 | Entries are never reported |
| `UnusedFiles.ReportedShrinks` | crates/orphanode/src/application/scan.rs:462-490 | Adding edges or entries only shrinks the reported set |
| `UnusedFiles.GroupsCoverReported` | crates/orphanode/src/application/scan.rs:1650-1711 | The groups are disjoint and cover exactly the reported files |
| `FileLaws.ReportedByFields` | crates/orphanode/src/application/scan.rs:462-490 | On the diagnostics alone: a file is reported exactly when no entry leads to it, none of three codes says it was not read, and no file that an entry leads to has a blocking diagnostic |
| `FileLaws.FindingsNamePaths` | crates/orphanode/src/application/scan.rs:1650-1711 | The paths of a finding are those of the files of its component, in order |
| `CacheNames.PadOrder` | crates/orphanode/src/cache/store.rs:590-597 | Zero-padded name order is numeric order |
| `CacheNames.TokenOrder` | crates/orphanode/src/cache/store.rs:590-597 | Name order is (time, process, counter) order for machine-sized numbers |
| `CacheNames.GenerationOrder` | crates/orphanode/src/cache/store.rs:586-597 | So it is for generation and marker names |
| `CacheNames.CommitNamesValid` | crates/orphanode/src/cache/store.rs:558-597 | What a commit creates is listed; its temporary files never are |
| `CacheLaws.GenerationNames` | crates/orphanode/src/cache/store.rs:558-570 | A generation name is `generation-`, a nonempty run of digits and dashes, and `.json` |
| `CacheLaws.MarkerNames` | crates/orphanode/src/cache/store.rs:572-584 | A marker name is `active-`, such a run, and `.txt` |
| `CacheStore.ReadEntries` | crates/orphanode/src/cache/store.rs:359-369 | Accepts exactly the entry lists whose keys are valid and distinct and whose payloads fit |
| `CacheStore.ReadGeneration` | crates/orphanode/src/cache/store.rs:327-370 | Succeeds exactly on readable generations and returns their entries |
| `CacheStore.ListFiles` | crates/orphanode/src/cache/store.rs:527-556 | Lists exactly the valid names, each once, newest first |
| `CacheStore.MarkerTargets` | crates/orphanode/src/cache/store.rs:428-447 | The generations named by the markers, newest marker first, each at its first mention |
| `CacheLaws.TrimmedAtBothEnds` | crates/orphanode/src/cache/store.rs:428-447 | Trimming the text of a marker takes white space, and all of it, from both ends and nowhere else |
| `CacheStore.Load` | crates/orphanode/src/cache/store.rs:197-246 | Returns the entries of the first readable candidate: marked generations first, then the others newest first, cut at the scan limit; the status tells which case it was |
| `CacheLaws.ChosenIsChecked` | crates/orphanode/src/cache/store.rs:327-370 | On the file alone: what a load chooses carries the schema of the settings, its own name and its digest, and fits every limit |
| `CacheStore.LoadIgnoresHidden` | crates/orphanode/src/cache/store.rs:197-246 | Temporary and foreign files do not change a load |
| `CacheStore.GenerationAdded` | crates/orphanode/src/cache/store.rs:197-246 | A new readable generation above all others changes a load at most to that generation |
| `CacheProtocol.PersistentCache.BuildBody` | crates/orphanode/src/cache/store.rs:294-325 | Accepts exactly the entries that fit, and names a check that really fails otherwise |
| `CacheProtocol.AcceptedIsReadable` | crates/orphanode/src/cache/store.rs:294-370 | Whatever a commit accepts is readable again with the same entries |
| `CacheProtocol.PersistentCache.CreateGeneration` | crates/orphanode/src/cache/store.rs:383-420 | Write and rename: the new file appears at once, and no intermediate directory differs visibly |
| `CacheProtocol.PersistentCache.CreateMarker` | crates/orphanode/src/cache/store.rs:383-420 | The same for a marker |
| `CacheProtocol.ActivatedLoads` | crates/orphanode/src/cache/store.rs:197-246 | Once the newest marker names a readable generation, a load returns it |
| `CacheProtocol.DoomedIsShortest` | crates/orphanode/src/cache/store.rs:449-480 | What pruning deletes is the shortest oldest-first prefix that meets both limits |
| `CacheProtocol.PersistentCache.PruneGenerations` | crates/orphanode/src/cache/store.rs:449-480 | Deletes exactly that prefix of the inactive generations; every directory on the way still loads the active one |
| `CacheProtocol.PersistentCache.PruneMarkers` | crates/orphanode/src/cache/store.rs:481-492 | Keeps exactly the newest markers; every directory on the way still loads the active generation |
| `CacheProtocol.PruningMeetsLimits` | crates/orphanode/src/cache/store.rs:449-480 | Pruning after a commit ends within the count and byte limits |
| `CacheLaws.DeletedExactly` | crates/orphanode/src/cache/store.rs:449-480 | On the files alone: a generation other than the active one is deleted if and only if those that are not older than it, with the active one, are too many or their sizes sum to too much |
| `CacheLaws.OnlyGenerationsDeleted` | crates/orphanode/src/cache/store.rs:449-480 | Nothing else is deleted, and what stays is unchanged |
| `CacheLaws.WhatIsLeftFits` | crates/orphanode/src/cache/store.rs:449-480 | The generations that pruning leaves are no more than the limit says, and their sizes sum to no more than the limit says |
| `CacheLaws.CommitLeavesWhatFits` | crates/orphanode/src/cache/store.rs:253-292 | So it is after every accepted commit, and the new generation is among them |
| `CacheLaws.MarkersKeptExactly` | crates/orphanode/src/cache/store.rs:481-492 | A marker stays if and only if fewer newer ones are there than generations may be retained |
| `CacheProtocol.PersistentCache.Commit` | crates/orphanode/src/cache/store.rs:253-292 | A refused commit touches nothing. In an accepted one the directory after every single operation loads the old entries or exactly the new ones, and the new ones once the marker exists; the final directory is stated exactly |
| `CacheProtocol.StageIsSafe` | crates/orphanode/src/cache/store.rs:253-292 | Wherever a commit is cut short, the directory loads the old entries or exactly the new ones, the new ones once the marker exists, and lists nothing else that is new |
| `CacheProtocol.NextTokenIsNewer` | crates/orphanode/src/cache/store.rs:253-292 | After a commit cut short anywhere, leftover temporary files included, every listed name is older than any later token |
| `CacheProtocol.RunStaysOlder` | crates/orphanode/src/cache/store.rs:253-292 | So along any run of commits with increasing tokens, each cut short anywhere, the next commit may start |
| `CacheProtocol.CrashesChain` | crates/orphanode/src/cache/store.rs:197-292 | Each directory of such a run loads what the one before it loads or exactly the entries of the commit between them, and those once its marker exists |
| `CacheProtocol.CommitIsStep` | crates/orphanode/src/cache/store.rs:253-292 | Every directory inside a commit is a step of a run of commits and damage |
| `CacheProtocol.DamageForgesNothing` | crates/orphanode/src/cache/store.rs:294-370 | Damage may do anything but compute a digest; the checksum and the identity test make sure that what is readable after it was committed under that very name |
| `CacheProtocol.StageReads` | crates/orphanode/src/cache/store.rs:253-370 | A commit makes nothing readable but its own generation |
| `CacheProtocol.ReadableWasCommitted` | crates/orphanode/src/cache/store.rs:197-370 | In every run of commits cut short anywhere and of damage to names, sizes, bodies and markers, what is readable was once committed under its name |
| `CacheProtocol.LoadsOnlyCommitted` | crates/orphanode/src/cache/store.rs:197-246 | In every such run a load returns nothing, or entries that were committed under the name of the generation it returns |
| `SourceEdits.AcceptedMeansApart` | crates/orphanode/src/fixes/plan.rs:218-231 | The neighbour check on the sorted edits accepts exactly the pairwise disjoint ones |
| `SourceEdits.PermutationIrrelevant` | crates/orphanode/src/fixes/plan.rs:218-231 | A permutation of the edits is accepted just the same and stored in the same order |
| `SourceEdits.ApplyEdits` | crates/orphanode/src/fixes/apply.rs:415-436 | Right-to-left splicing is the simultaneous substitution; fails exactly when the last edit ends beyond the file |
| `SourceEdits.SubstituteLength` | crates/orphanode/src/fixes/apply.rs:415-436 | The result has the bytes of the original, less those removed, plus those inserted |
| `SourceEdits.UntouchedByteSurvives` | crates/orphanode/src/fixes/apply.rs:415-436 | Every byte outside the spans survives at the place shifted by the edits before it |
| `FixPlans.FileNameIsLastComponent` | crates/orphanode/src/fixes/plan.rs:71-86 | The lockfile test looks at the last path component |
| `FixLaws.LockfilesByName` | crates/orphanode/src/fixes/plan.rs:71-86 | A path is a lockfile exactly when it is, or ends behind a slash in, one of six names |
| `FixPlans.NeighboursDifferMeansDistinct` | crates/orphanode/src/fixes/plan.rs:273-282 | Sorted paths without equal neighbours are distinct in whatever order they came |
| `FixPlans.FixPlan.Create` | crates/orphanode/src/fixes/plan.rs:198-211 | A plan is made exactly for a valid identity, and starts empty |
| `FixPlans.FixPlan.AddSourceEdits` | crates/orphanode/src/fixes/plan.rs:218-241 | Accepts exactly pairwise disjoint edits, in any order, of a fresh path that is no lockfile; keeps the plan valid; a refusal changes nothing |
| `FixPlans.FixPlan.AddFileDeletion` | crates/orphanode/src/fixes/plan.rs:248-265 | Accepts exactly fresh paths that are no lockfile; keeps the plan valid; a refusal changes nothing |
| `FixPlans.FixPlan.AddPackageCommand` | crates/orphanode/src/fixes/plan.rs:267-269 | Appends the command and keeps the file changes valid |
| `FixPlans.FixPlan.ValidatePaths` | crates/orphanode/src/fixes/plan.rs:273-282 | Passes exactly when the paths are distinct and no lockfiles |
| `FixPlans.FixPlan.ValidateChanges` | crates/orphanode/src/fixes/plan.rs:283-291 | Passes exactly when reasons and edits are in order |
| `FixPlans.FixPlan.ValidateCommands` | crates/orphanode/src/fixes/plan.rs:292-313 | Passes exactly when manifests are distinct and belong to no file change |
| `FixPlans.FixPlan.Validate` | crates/orphanode/src/fixes/plan.rs:271-315 | Accepts exactly the valid plans and names a real defect otherwise; a plan built by the adding methods can only be refused for its commands |
| `FixLaws.PlanByFields` | crates/orphanode/src/fixes/plan.rs:271-315 | On the fields alone: a plan is valid exactly when each change and command is in order by itself and no path or manifest occurs twice among all of them |
| `FixEngines.ReadRegularFile` | crates/orphanode/src/fixes/apply.rs:364-378 | Reads regular files only; the digest comparison and the intactness of an input are the same thing |
| `FixEngines.VerifyPackageCommand` | crates/orphanode/src/fixes/apply.rs:318-330 | Passes exactly when the workspace is a directory and the manifest is the analyzed one |
| `FixEngines.FixEngine.PreviewFileChange` | crates/orphanode/src/fixes/apply.rs:264-298 | Succeeds exactly when the file is intact and the edits fit, and shows exactly what the change does |
| `FixEngines.FixEngine.Preview` | crates/orphanode/src/fixes/apply.rs:184-207 | Succeeds exactly when the plan is valid and possible on the present tree; changes nothing |
| `FixLaws.PreviewableByFields` | crates/orphanode/src/fixes/apply.rs:184-207 | On the tree alone: a valid plan can be previewed exactly when every file and manifest is as analyzed, every edit lies inside its file, and every workspace is a directory |
| `FixEngines.FingerprintBindsPreview` | crates/orphanode/src/fixes/apply.rs:194-206 | One fingerprint belongs to one plan with one set of old and new contents |
| `FixEngines.FixEngine.VerifyPreviewInputs` | crates/orphanode/src/fixes/apply.rs:300-316 | Passes exactly when every input is as it was previewed |
| `FixEngines.FixEngine.ApplyFileChange` | crates/orphanode/src/fixes/apply.rs:332-362 | Changes one file to its previewed content, or nothing at all |
| `FixEngines.FixEngine.ApplyFileChanges` | crates/orphanode/src/fixes/apply.rs:230-234 | Makes all previewed changes in order, or stops at the first path that cannot be written with exactly the changes before it made |
| `FixEngines.FixEngine.RunCommands` | crates/orphanode/src/fixes/apply.rs:236-247 | Runs a prefix of the commands, each right after its manifest digest matched, and stops after the first failure |
| `FixEngines.FixEngine.Apply` | crates/orphanode/src/fixes/apply.rs:214-262 | Wrong authorization or a changed input: nothing is touched and nothing runs. Otherwise the tree and the ordered log of writes, commands and revalidation are stated exactly |
| `FixEngines.PlannedPathsChanged` | crates/orphanode/src/fixes/apply.rs:230-234 | A planned path ends with exactly its previewed content, or is gone |
| `FixEngines.OtherPathsKept` | crates/orphanode/src/fixes/apply.rs:230-234 | No other path changes before the first command |
| `FixEngines.EveryFileOldOrNew` | crates/orphanode/src/fixes/apply.rs:230-234 | However far the changes got, each planned file holds its old or its previewed content |
| `FixLaws.LogReplays` | crates/orphanode/src/fixes/apply.rs:230-234 | Replaying the log of the file changes on the old tree gives exactly the tree they leave |
| `FixEngines.CommandsSurviveChanges` | crates/orphanode/src/fixes/plan.rs:292-313 | No file change of a valid plan touches what a command needs, so verification before the changes still holds after them |
| `FixEngines.FirstCommandRuns` | crates/orphanode/src/fixes/apply.rs:225-241 | After a passed verification and writable paths the first command always runs, on the fully changed tree |
| `FixEngines.ReportMeansOneRevalidation` | crates/orphanode/src/fixes/apply.rs:249-261 | A report means exactly one revalidation, as the last event; an error means none |
| `FixEngines.ReportsExactlyWhenManifestsLast` | crates/orphanode/src/fixes/apply.rs:216-261 | With matching authorization, intact inputs and writable paths, an apply ends in a report if and only if every command reached before the first failure finds its workspace and its analyzed manifest in the tree that the commands before it leave |
| `FixEngines.ConsiderateExecutorReports` | crates/orphanode/src/fixes/apply.rs:216-261 | So it always does when no command touches the manifest or the workspace of a later one |
| `FixEngines.ErrorWithoutRevalidation` | crates/orphanode/src/fixes/apply.rs:236-261 | A valid plan of two commands on which an apply deletes a file, runs a command and ends in an error without a revalidation |
| `ScriptTokens.ShellExpansionEnd` | crates/orphanode/src/discovery/scripts.rs:1025-1038 | A backtick or $( reaches behind its first closing mark, or to the end of the script without one; any other marker stands alone |
| `ScriptTokens.TokenizeScript` | crates/orphanode/src/discovery/scripts.rs:120-122 | The class computes the run of the step function to the end |
| `ScriptTokens.ScriptTokenizer.Tokenize` | crates/orphanode/src/discovery/scripts.rs:140-150 | The loop ends; each step consumes at least one character; the result is the finished run |
| `ScriptTokens.StepShaped` | crates/orphanode/src/discovery/scripts.rs:140-313 | Every step keeps tokens ordered and disjoint, nested in ordered, disjoint segments |
| `ScriptTokens.StepAccounted` | crates/orphanode/src/discovery/scripts.rs:140-313 | No step drops text other than what it passes over: a separator or the second half of a doubled operator met outside quotes, or a comment whose # is met outside quotes with no word open |
| `ScriptTokens.TokensAreNested` | crates/orphanode/src/discovery/scripts.rs:120-339 | For every script: nonempty, ordered, disjoint tokens nested in ordered, disjoint, nonempty segments; all other text was passed over by some step of reading as such a separator or comment |
| `ScriptRoundTrip.RoundTrip` | crates/orphanode/src/discovery/scripts.rs:120-339 | For every way of writing words (bare, escaped, in single or double quotes with escapes and expansions, and mixtures), of setting them apart, and of ending segments by operators or comments: the same segments of the same words come back, each word as the text it stands for, and exactly its dynamic text is reported |
| `ScriptRoundTrip.WordsComeBack` | crates/orphanode/src/discovery/scripts.rs:161-275 | Each written word is one token: its value is the decoded text, and its span shows how the word was written |
| `ScriptTokens.StepReports` | crates/orphanode/src/discovery/scripts.rs:161-275 | Each step reports exactly the expansion, glob, redirection, grouping or dangling escape it meets, with the text it reads, and nothing else |
| `ScriptTokens.ReportedExactlyWhenMet` | crates/orphanode/src/discovery/scripts.rs:140-339 | For every script, a span is reported exactly when some step of reading meets it, or when it is the quotation left open at the end |
| `ScriptTokens.ReportsInOrder` | crates/orphanode/src/discovery/scripts.rs:120-339 | The reports come by start, then end, then kind, none of them twice |
| `Jsonc.StripComments` | crates/orphanode/src/discovery/configuration.rs:1181-1235 | The loop with lookahead computes what a reader without lookahead writes, and fails exactly in an open block comment or string |
| `Jsonc.DropTrailingCommas` | crates/orphanode/src/discovery/configuration.rs:1237-1269 | Drops exactly the commas outside strings that a closing bracket follows |
| `Jsonc.NormalizeJsonc` | crates/orphanode/src/discovery/configuration.rs:1181-1270 | Leading byte order marks, comments and trailing commas are removed, in this order |
| `Jsonc.StringsAndLinesKept` | crates/orphanode/src/discovery/configuration.rs:1181-1270 | Every string literal is kept exactly, and so is the number of lines |
| `Jsonc.CommentInsertionInvisible` | crates/orphanode/src/discovery/configuration.rs:1181-1235 | A one-line block comment inserted outside strings and comments, not right after a slash, does not change the output, except between leading byte order marks |
| `Jsonc.CommentBeforeMarkShows` | crates/orphanode/src/discovery/configuration.rs:1183-1183 | The exception is real for every such position: there the comment always changes the output |
| `Jsonc.UnchangedExactlyWhenClean` | crates/orphanode/src/discovery/configuration.rs:1181-1270 | A text stays as it is exactly when strings are closed and it has no leading mark, no comment and no trailing comma |
| `JsoncTwice.SkipsAlike` | crates/orphanode/src/discovery/configuration.rs:1181-1235 | Skipping white space and comments in the source is skipping white space in the output of the first pass |
| `JsoncTwice.DoublesBecomeTrailing` | crates/orphanode/src/discovery/configuration.rs:1237-1269 | The output of the second pass has a trailing comma exactly when its input has a comma, a comma and a closing bracket in a row |
| `JsoncTwice.NormalizingTwice` | crates/orphanode/src/discovery/configuration.rs:1181-1270 | A second run changes the text if and only if in the source, marks trimmed, two commas outside strings stand before a closing bracket with only white space and comments between, or only comments without a line break stand in front of a further mark |
| `JsoncTwice.DoubleCommaNeedsTwoRuns` | crates/orphanode/src/discovery/configuration.rs:1258-1266 | Two commas before a bracket need two runs |
| `ParentChains.ChainUnique` | crates/orphanode/src/domain/target.rs:60-97 | A name has at most one inheritance chain |
| `ParentChains.CycleHasNoChain` | crates/orphanode/src/domain/target.rs:70-72 | A name met again while it is being visited has no finite chain |
| `TargetProfiles.ResolveProfile` | crates/orphanode/src/domain/target.rs:60-97 | Succeeds exactly when the chain is finite and defined; the memoized answer is the chain union with the nearest declared world |
| `TargetProfiles.ResolveTargetProfiles` | crates/orphanode/src/domain/target.rs:43-58 | In any order of the names: succeeds exactly when all chains are finite and defined, and then answers for each name by its own chain |
| `TargetMaps.ValidateTargetChain` | crates/orphanode/src/discovery/configuration.rs:891-920 | Passes exactly when the chain ends in a parentless or built-in target and every inherited name is proper |
| `TargetMaps.ValidateConditions` | crates/orphanode/src/discovery/configuration.rs:883-887 | Passes exactly when every condition has a proper name |
| `TargetMaps.ValidateTargetMap` | crates/orphanode/src/discovery/configuration.rs:874-889 | Accepts exactly the maps whose names are proper and whose chains end; names a real defect otherwise |
| `TargetMaps.ResolveTargetCondition` | crates/orphanode/src/application/project.rs:3515-3565 | Adds exactly the conditions along the profile's chain, and fails exactly when there is no such chain |
| `TargetMaps.ResolveConditionsForTargets` | crates/orphanode/src/application/project.rs:3496-3513 | Depends only on which profiles are listed: succeeds exactly when all resolve, with the union over their chains |
| `TargetMaps.AcceptedMapResolves` | crates/orphanode/src/discovery/configuration.rs:874-943 | Once a map is accepted, every list of its own and built-in profiles resolves |
| `TargetLaws.BuiltinsByName` | crates/orphanode/src/application/project.rs:3515-3565 | Each of the nine built-in targets brings itself, five of them node, and bundler brings browser |
| `TargetLaws.OtherNamesBringNothing` | crates/orphanode/src/discovery/configuration.rs:930-943 | No other name is built in |
| `ProfileMerge.JoinMeans` | crates/orphanode/src/application/project.rs:1561-1569 | The folded status is the join: reachable anywhere, else incomplete anywhere, else unreachable |
| `ProfileMerge.TagProfileReport` | crates/orphanode/src/application/project.rs:1543-1545 | Each file remembers exactly its own profile's status |
| `ProfileMerge.TagFindings` | crates/orphanode/src/application/project.rs:1550-1552 | Each finding is labelled with exactly its profile |
| `ProfileMerge.MergeFiles` | crates/orphanode/src/application/project.rs:1412-1469 | Merging one report keeps one file per path with the joined status and all per-profile statuses |
| `ProfileMerge.MergeFindings` | crates/orphanode/src/application/project.rs:1471-1483 | No finding is lost, a finding is labelled only with profiles that made it, and equal findings of two reports become a single one |
| `ProfileMerge.MergeProfileReports` | crates/orphanode/src/application/project.rs:1398-1540 | Fails exactly without reports; otherwise the sorted merge of all files and findings, no finding twice unless the first report had it twice |
| `ProfileMerge.MergedStatusIsJoin` | crates/orphanode/src/application/project.rs:1398-1569 | A merged file is unreachable exactly when no profile saw it reachable or incomplete |
| `ProfileMerge.ProfileOrderIrrelevant` | crates/orphanode/src/application/project.rs:1398-1540 | The merged files are the same for every order of the profiles |
| `ProfileMerge.ApplyFileFixEligibility` | crates/orphanode/src/application/project.rs:2675-2713 | Marks exactly the high-confidence unused-file findings in a closed world, labelled with exactly the selected profiles, whose files are all unreachable; changes nothing else |
| `ProfileMerge.EligibleIsUnreachableEverywhere` | crates/orphanode/src/application/project.rs:2675-2713 | What becomes eligible names only files that every profile saw unreachable |
| `ProfileMerge.AliveAnywhereIsKept` | crates/orphanode/src/application/project.rs:2675-2713 | A file that any profile saw reachable or incomplete keeps every finding about it from deletion |
| `ProfileMerge.MergeGrantsNothing` | crates/orphanode/src/application/project.rs:1398-1540 | Merging makes no finding eligible that no scan made eligible |
| `MergeLaws.NoFindingLost` | crates/orphanode/src/application/project.rs:1471-1483 | On the fields alone: for whatever a profile reports the merged report has a finding with the same id, type, workspace, paths, span, symbol and dependency that lists the profile |
| `MergeLaws.ListedProfilesReported` | crates/orphanode/src/application/project.rs:1471-1483 | Conversely, every profile that a merged finding lists reported one that agrees with it in these seven fields |
| `MergeLaws.NoneTwiceByFields` | crates/orphanode/src/application/project.rs:1571-1579 | No finding twice means: any two of the merged findings differ in one of these seven fields |
| `MergeLaws.ClosedByContext` | crates/orphanode/src/application/project.rs:2690-2695 | The first context of a workspace decides: the world is closed when it declares none or the closed one |
| `ProjectContexts.InnermostPackage` | crates/orphanode/src/discovery/workspace.rs:119-129 | Every package around a path is around the package that owns it |
| `ContextLaws.ComponentsJoin` | crates/orphanode/src/discovery/workspace.rs:119-129 | A slash separates components: those of a joined path are those of its two halves |
| `ContextLaws.NameIsComponent` | crates/orphanode/src/discovery/workspace.rs:119-129 | A name without a slash is its own only component, and an empty path has none |
| `ContextLaws.DeepestAndLast` | crates/orphanode/src/discovery/workspace.rs:119-129 | Of the packages around a path the deepest owns it, and of equally deep ones the last |
| `ProjectContexts.OpenFileIsDeletable` | crates/orphanode/src/application/project.rs:2652-2713 | A file outside the closed world may be deleted if and only if it is not the first of its finding, the first one lies in the closed world, and all of them are unused in every profile |
| `ProjectContexts.OnePackageIsCovered` | crates/orphanode/src/application/project.rs:2652-2713 | When all files of a finding belong to one package, whatever may be deleted lies in the closed world |
| `ProjectContexts.CycleAcrossPackages` | crates/orphanode/src/application/project.rs:2652-2713 | A cycle of a file in a closed package and one in an open package: both may be deleted, the second alone may not |
| `FileDeletion.DeletableIsDeadInEveryProfile` | crates/orphanode/src/application/project.rs:2675-2713 | End to end: a deletable file is reached from no entry of any profile, and no reachable file blocked any of the scans |
| `FileDeletion.NothingReachableImportsDeletable` | crates/orphanode/src/application/project.rs:2675-2713 | End to end: whatever imports a deletable file is itself unreachable in every profile |
| `Wildcards.TableMeansMatch` | crates/orphanode/src/plugins/builtins.rs:145-166 | The table entry holds exactly when the value can be cut into one fitting piece for each token |
| `Wildcards.WildcardMatches` | crates/orphanode/src/plugins/builtins.rs:145-166 | Two rows decide exactly whether the value matches |

## Left out

- Parsing, module resolution, ignore rules and directory walking: facts, resolved targets and listings are inputs.
- Digest and serialization algorithms, `fsync`, permissions, links inside paths and Windows replacement.
- Child processes, threads, time limits, the TypeScript worker and the plugin host.
- Command line, human, compact and SARIF output, telemetry and error texts.
- Member analysis, fix eligibility of single symbols and confidence ranks: each decides one symbol or finding from its own fields.
- Dependency classification, manifest entry selection, plugin contributions and path-name heuristics: they look at one package, script or path at a time, and their outcome enters here as entries and facts.
- The rest of application/explain.rs: which finding, retention or package an explanation quotes.
- `open_world_files` of application/scan.rs: which files are public is an input.
- Concurrent cache committers: pruning gives no guarantee there.
- Target maps merged from two configuration files: the merged map is not validated again by the source, so validation is stated for one map.
- StrongComponents.Components: the symbol analysis writes the two passes out once more; the model shares one method, in which the second pass also tests the mask that the source has already applied to its reversed rows.
- Evidence.EvidenceGraph.ShortestPath: requires that every edge leads to a node of the graph; the source would fail on an edge to a missing node.
- ExportLinks.BuildSymbolLinks: the links are a set; the sorting and deduplication of the returned list are not modelled.
- ExportLinks.OpenWorldReexportRoots: the roots are a set, without the order of the returned list.
- ExportLinks.ResolvedNamesAreExported: assumes that star exports bind no local, which holds of the facts the parser makes.
- CacheStore.Load: the texts of the collected issues are not modelled, and a missing cache directory is an empty one.
- CacheProtocol.PersistentCache.Commit: creating the directories, the check of the limits at construction and failures of single file operations are left out; a failed operation ends the commit like a crash.
- CacheProtocol.PersistentCache.PruneGenerations: no deletion fails, so no warnings arise.
- CacheProtocol.PersistentCache.PruneMarkers: no deletion fails, so no warnings arise.
- FixPlans.FixPlan.ValidateCommands: whether removals, program and arguments of a command agree is one flag of the command; the flat checks behind it are not modelled.
- FixEngines.FixEngine.Apply: nobody else changes the tree between two steps, except that paths in a fixed set cannot be written; executor and revalidator are arbitrary functions of the tree.
- FixEngines.ReadRegularFile: a link anywhere in the path counts as a special file at the path itself.
- ScriptTokens.TokenizeScript: positions count characters, not bytes.
- TargetProfiles.ResolveTargetProfiles: the profiles are a map; the source lists its values in name order.
- TargetProfiles.ResolveProfile: a profile that is not defined at all is not asked for, since the source only asks for defined names.
- ProfileMerge.MergeProfileReports: entries, imports, exports, retentions, diagnostics, cache counters and the summary counts are left out; the order of the findings is a parameter.
- ProjectContexts.AssignProjectContext: retentions are not modelled, and paths are relative to the workspace; what later passes suppress or filter out of the findings is left out.
- ExplainPaths.ShortestFilePath: which of several shortest chains comes back is not stated; in a merged report the imports of a chain may stem from different profiles.
