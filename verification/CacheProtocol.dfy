/**
 The commit protocol of cache/store.rs on a directory that may be abandoned between
 any two file-system operations.  The ghost field `history` holds the directory after
 each operation, so that a claim about all of it is a claim about every crash.
 */
module CacheProtocol {
  import opened Common
  import opened CacheNames
  import opened CacheStore
  import opened Sorting
  import opened Strings

  datatype CacheCommit = CacheCommit(generation: string, entries: nat, serializedBytes: nat)

  datatype CacheError = EntryTooLarge | TooManyEntries | GenerationTooLarge | DuplicateKey | InvalidKey

  // ----- what has to hold before and after the marker -----

  /** All listed names are older than this token. */
  ghost predicate Older(s: Snapshot, t: Token) {
    && (forall n :: n in s.generations && ValidGenerationName(n) ==> StrLess(n, GenerationName(t)))
    && (forall n :: n in s.active && ValidMarkerName(n) ==> StrLess(n, MarkerName(t)))
  }

  /** The newest marker names this generation, which can be read. */
  ghost predicate Activated(cfg: Settings, s: Snapshot, t: Token) {
    && Readable(cfg, s.generations, GenerationName(t))
    && MarkerName(t) in s.active && MarkerTarget(s.active[MarkerName(t)]) == Some(GenerationName(t))
    && (forall n :: n in s.active && ValidMarkerName(n) ==> n == MarkerName(t) || StrLess(n, MarkerName(t)))
  }

  lemma {:induction false} TargetsStart(active: Directory, markers: seq<string>, target: string)
    requires markers != [] && markers[0] in active && MarkerTarget(active[markers[0]]) == Some(target)
    ensures TargetsOf(active, markers) != [] && TargetsOf(active, markers)[0] == target
  {
    if |markers| == 1 {
      assert markers[..0] == [] && markers[|markers| - 1] == markers[0];
      assert TargetsOf(active, markers[..0]) == [];
    } else {
      TargetsStart(active, markers[..|markers| - 1], target);
    }
  }

  lemma ListingStart(names: set<string>, top: string)
    requires top in names && forall n :: n in names ==> n == top || StrLess(n, top)
    ensures Listing(names) != [] && Listing(names)[0] == top
  {
    var list := Listing(names);
    assert top in list;
    var i :| 0 <= i < |list| && list[i] == top;
    assert list[0] in names;
    if i > 0 {
      StrLessTrans(top, list[0], top);
      StrLessIrreflexive(top);
    }
  }

  /** From the moment the marker exists, a load returns the generation it names. */
  lemma ActivatedLoads(cfg: Settings, s: Snapshot, t: Token)
    requires cfg.limits.Valid() && Activated(cfg, s, t)
    ensures LoadedEntries(cfg, s) == EntriesOf(s.generations, GenerationName(t))
  {
    CommitNamesValid(t);
    var shown := Shown(s.active, ValidMarkerName);
    ListingStart(shown, MarkerName(t));
    TargetsStart(s.active, Listing(shown), GenerationName(t));
    FirstCandidate(cfg, s, GenerationName(t));
  }

  lemma FirstCandidate(cfg: Settings, s: Snapshot, name: string)
    requires cfg.limits.Valid() && Readable(cfg, s.generations, name)
    requires var targets := TargetsOf(s.active, Listing(Shown(s.active, ValidMarkerName)));
             targets != [] && targets[0] == name
    ensures Chosen(cfg, s) == Some(name)
  {
    var targets := TargetsOf(s.active, Listing(Shown(s.active, ValidMarkerName)));
    var others := Without(Listing(Shown(s.generations, ValidGenerationName)), targets);
    assert (targets + others)[0] == name;
    assert Candidates(cfg, s)[0] == name;
  }

  /** Trimming the text of a fresh marker gives back the generation name. */
  lemma MarkerTextTrims(t: Token)
    ensures Trim(GenerationName(t) + "\n") == GenerationName(t)
  {
    CommitNamesValid(t);
    var name := GenerationName(t);
    var text := name + "\n";
    assert text[0] == name[0] == 'g' && !IsWhitespace('g');
    assert TrimStart(text) == text;
    assert text[|text| - 1] == '\n' && text[..|text| - 1] == name;
    assert name[|name| - 1] == 'n' && !IsWhitespace('n');
    assert TrimEnd(name) == name;
  }

  // ----- pruning -----

  function SizeOf(files: Directory, name: string): nat {
    if name in files then files[name].size else 0
  }

  function TotalSize(files: Directory, names: seq<string>): nat {
    if names == [] then 0 else SizeOf(files, names[0]) + TotalSize(files, names[1..])
  }

  predicate WithinLimits(count: int, total: int, limits: CacheLimits) {
    count <= limits.retainedGenerations && total <= limits.maxTotalBytes
  }

  /** The oldest-first prefix of `names` that is deleted while a limit is exceeded. */
  ghost function Doomed(names: seq<string>, files: Directory, count: int, total: int,
                        limits: CacheLimits): seq<string> {
    if names == [] || WithinLimits(count, total, limits) then []
    else [names[0]] + Doomed(names[1..], files, count - 1, total - SizeOf(files, names[0]), limits)
  }

  /** It is a prefix, every shorter one leaves a limit exceeded, and it meets both unless nothing is left. */
  lemma {:induction false} DoomedIsShortest(names: seq<string>, files: Directory, count: int, total: int,
                                            limits: CacheLimits)
    ensures var d := Doomed(names, files, count, total, limits);
            && d <= names
            && (forall k :: 0 <= k < |d| ==> !WithinLimits(count - k, total - TotalSize(files, names[..k]), limits))
            && (d == names || WithinLimits(count - |d|, total - TotalSize(files, d), limits))
  {
    if names != [] && !WithinLimits(count, total, limits) {
      var size := SizeOf(files, names[0]);
      DoomedIsShortest(names[1..], files, count - 1, total - size, limits);
      var d := Doomed(names, files, count, total, limits);
      assert d[1..] == Doomed(names[1..], files, count - 1, total - size, limits);
      forall k | 0 <= k < |d|
        ensures !WithinLimits(count - k, total - TotalSize(files, names[..k]), limits)
      {
        if k > 0 {
          assert names[..k][1..] == names[1..][..k - 1];
        }
      }
    }
  }

  /** The listed names other than `keep`, oldest first. */
  ghost function Others(names: seq<string>, keep: string): seq<string> {
    if names == [] then []
    else
      var last := names[|names| - 1];
      (if last == keep then [] else [last]) + Others(names[..|names| - 1], keep)
  }

  lemma {:induction false} OthersAre(names: seq<string>, keep: string)
    ensures forall n :: n in Others(names, keep) <==> n in names && n != keep
  {
    if names != [] {
      OthersAre(names[..|names| - 1], keep);
      assert names == names[..|names| - 1] + [names[|names| - 1]];
    }
  }

  function SaturatingSub(a: nat, b: nat): nat {
    if a > b then a - b else 0
  }

  /** The snapshots added since `before`. */
  ghost predicate Since(before: seq<Snapshot>, history: seq<Snapshot>) {
    before <= history
  }

  /** Every file of `a` is in `b`, unchanged. */
  ghost predicate SubDirectory(a: Directory, b: Directory) {
    forall n :: n in a ==> n in b && a[n] == b[n]
  }

  ghost predicate Within(s: Snapshot, base: Snapshot) {
    SubDirectory(s.generations, base.generations) && SubDirectory(s.active, base.active)
  }

  /**
   From snapshot `from` on, the newest marker names a readable generation with these
   entries, and no file is there that `base` does not hold.
   */
  ghost predicate AllActivated(cfg: Settings, history: seq<Snapshot>, from: nat, t: Token, entries: Entries,
                               base: Snapshot) {
    forall k :: from <= k < |history| ==>
      && Activated(cfg, history[k], t) && EntriesOf(history[k].generations, GenerationName(t)) == entries
      && Within(history[k], base)
  }

  lemma ActivatedGrows(cfg: Settings, before: seq<Snapshot>, history: seq<Snapshot>, s: Snapshot, t: Token,
                       entries: Entries, base: Snapshot)
    requires Since(before, history) && AllActivated(cfg, history, |before|, t, entries, base)
    requires Activated(cfg, s, t) && EntriesOf(s.generations, GenerationName(t)) == entries
    requires Within(s, base)
    ensures Since(before, history + [s]) && AllActivated(cfg, history + [s], |before|, t, entries, base)
  {
  }

  ghost function Members(names: seq<string>): set<string> {
    set n | n in names
  }

  /** What pruning leaves of the listed generations. */
  ghost function Pruned(files: Directory, keep: string, limits: CacheLimits): Directory {
    var names := Listing(Shown(files, ValidGenerationName));
    files - Members(Doomed(Others(names, keep), files, |names|, TotalSize(files, names), limits))
  }

  /** The loop has handled names[i..] and deleted `removed`; what is still to be deleted follows from the counters. */
  ghost predicate Pruning(files: Directory, names: seq<string>, i: nat, keep: string, removed: seq<string>,
                          retained: nat, total: nat, limits: CacheLimits) {
    && i <= |names| && Distinct(names) && (forall n :: n in names ==> n in files)
    && Doomed(Others(names, keep), files, |names|, TotalSize(files, names), limits)
         == removed + Doomed(Others(names[..i], keep), files, retained, total, limits)
    && (forall n :: n in names[..i] ==> n !in removed) && keep !in removed
    && retained >= i && total >= TotalSize(files, names[..i])
  }

  lemma PruningStarts(files: Directory, keep: string, limits: CacheLimits)
    ensures var names := Listing(Shown(files, ValidGenerationName));
            Pruning(files, names, |names|, keep, [], |names|, TotalSize(files, names), limits)
    ensures files - Members([]) == files
  {
    var names := Listing(Shown(files, ValidGenerationName));
    ListingDistinct(Shown(files, ValidGenerationName));
    AllStillToCome(files, names, keep, limits);
    assert Members([]) == {};
  }

  lemma AllStillToCome(files: Directory, names: seq<string>, keep: string, limits: CacheLimits)
    requires Distinct(names) && forall n :: n in names ==> n in files
    ensures Pruning(files, names, |names|, keep, [], |names|, TotalSize(files, names), limits)
  {
    var doomed := Doomed(Others(names, keep), files, |names|, TotalSize(files, names), limits);
    assert names[..|names|] == names && [] + doomed == doomed;
  }

  lemma PruningEnds(files: Directory, keep: string, removed: seq<string>, retained: nat, total: nat,
                    limits: CacheLimits)
    requires Pruning(files, Listing(Shown(files, ValidGenerationName)), 0, keep, removed, retained, total, limits)
    ensures files - Members(removed) == Pruned(files, keep, limits)
  {
    var names := Listing(Shown(files, ValidGenerationName));
    assert names[..0] == [] && Others([], keep) == [];
    assert removed + [] == removed;
  }

  lemma RemovedGrows(files: Directory, removed: seq<string>, name: string)
    ensures files - Members(removed) - {name} == files - Members(removed + [name])
  {
    assert Members(removed + [name]) == Members(removed) + {name};
  }

  lemma {:induction false} TotalSizeSnoc(files: Directory, names: seq<string>, last: string)
    ensures TotalSize(files, names + [last]) == TotalSize(files, names) + SizeOf(files, last)
  {
    if names == [] {
      assert [] + [last] == [last];
    } else {
      assert (names + [last])[1..] == names[1..] + [last];
      TotalSizeSnoc(files, names[1..], last);
    }
  }

  lemma PruningStep(files: Directory, names: seq<string>, i: nat, keep: string, removed: seq<string>,
                    retained: nat, total: nat, limits: CacheLimits)
    requires i < |names| && Pruning(files, names, i + 1, keep, removed, retained, total, limits)
    ensures names[i] !in removed && names[i] in files
    ensures names[i] == keep || WithinLimits(retained, total, limits) ==>
      Pruning(files, names, i, keep, removed, retained, total, limits)
    ensures names[i] != keep && !WithinLimits(retained, total, limits) ==>
      Pruning(files, names, i, keep, removed + [names[i]], SaturatingSub(retained, 1),
              SaturatingSub(total, SizeOf(files, names[i])), limits)
  {
    var front, name := names[..i], names[i];
    assert names[..i + 1] == front + [name] && (front + [name])[..i] == front;
    assert name in names[..i + 1];
    TotalSizeSnoc(files, front, name);
    forall n | n in front
      ensures n in names[..i + 1] && n != name
    {
      var k :| 0 <= k < i && front[k] == n;
      assert names[k] != names[i];
    }
    var rest := Others(front, keep);
    assert Others(names[..i + 1], keep) == (if name == keep then [] else [name]) + rest;
    if name == keep {
      assert [] + rest == rest;
    } else if !WithinLimits(retained, total, limits) {
      assert ([name] + rest)[1..] == rest;
      var size := SizeOf(files, name);
      var d := Doomed(rest, files, retained - 1, total - size, limits);
      assert removed + ([name] + d) == removed + [name] + d;
    } else {
      assert Doomed(rest, files, retained, total, limits) == [];
      assert Doomed([name] + rest, files, retained, total, limits) == [];
    }
  }

  /** Deleting another generation does not disturb the active one. */
  lemma StaysActivated(cfg: Settings, before: Snapshot, after: Snapshot, t: Token, name: string)
    requires Activated(cfg, before, t) && name != GenerationName(t)
    requires after == before.(generations := before.generations - {name})
    ensures Activated(cfg, after, t)
    ensures EntriesOf(after.generations, GenerationName(t)) == EntriesOf(before.generations, GenerationName(t))
  {
  }

  /** All that the pruning loop keeps, about the directory and about every snapshot since it started. */
  ghost predicate PruneLoop(cfg: Settings, files: Directory, i: nat, removed: seq<string>, retained: nat, total: nat,
                            before: seq<Snapshot>, history: seq<Snapshot>, s: Snapshot, t: Token) {
    var keep := GenerationName(t);
    var entries := EntriesOf(files, keep);
    && Pruning(files, Listing(Shown(files, ValidGenerationName)), i, keep, removed, retained, total, cfg.limits)
    && s.generations == files - Members(removed)
    && Activated(cfg, s, t) && EntriesOf(s.generations, keep) == entries
    && Since(before, history) && AllActivated(cfg, history, |before|, t, entries, Snapshot(files, s.active))
  }

  lemma PruneLoopStep(cfg: Settings, files: Directory, i: nat, removed: seq<string>, retained: nat, total: nat,
                      before: seq<Snapshot>, history: seq<Snapshot>, s: Snapshot, t: Token)
    requires var names := Listing(Shown(files, ValidGenerationName)); i < |names|
    requires PruneLoop(cfg, files, i + 1, removed, retained, total, before, history, s, t)
    ensures var name := Listing(Shown(files, ValidGenerationName))[i];
            if name == GenerationName(t) || WithinLimits(retained, total, cfg.limits) then
              PruneLoop(cfg, files, i, removed, retained, total, before, history, s, t)
            else
              var after := s.(generations := s.generations - {name});
              PruneLoop(cfg, files, i, removed + [name], SaturatingSub(retained, 1),
                        SaturatingSub(total, SizeOf(s.generations, name)), before, history + [after], after, t)
  {
    var names := Listing(Shown(files, ValidGenerationName));
    var name := names[i];
    PruningStep(files, names, i, GenerationName(t), removed, retained, total, cfg.limits);
    if name != GenerationName(t) && !WithinLimits(retained, total, cfg.limits) {
      var after := s.(generations := s.generations - {name});
      assert SizeOf(s.generations, name) == SizeOf(files, name);
      StaysActivated(cfg, s, after, t, name);
      RemovedGrows(files, removed, name);
      ActivatedGrows(cfg, before, history, after, t, EntriesOf(files, GenerationName(t)), Snapshot(files, s.active));
    }
  }

  /** All that the marker loop keeps after deleting markers[from..i]. */
  ghost predicate MarkerLoop(cfg: Settings, files: Directory, markers: seq<string>, from: nat, i: nat,
                             before: seq<Snapshot>, history: seq<Snapshot>, s: Snapshot, t: Token) {
    && 0 < from <= i <= |markers| && (forall k :: 0 < k < |markers| ==> markers[k] != MarkerName(t))
    && s.active == files - Members(markers[from..i]) && Activated(cfg, s, t)
    && Since(before, history)
    && AllActivated(cfg, history, |before|, t, EntriesOf(s.generations, GenerationName(t)),
                    Snapshot(s.generations, files))
  }

  lemma MarkerLoopStarts(cfg: Settings, from: nat, history: seq<Snapshot>, s: Snapshot, t: Token)
    requires Activated(cfg, s, t)
    requires 0 < from <= |Listing(Shown(s.active, ValidMarkerName))|
    ensures MarkerLoop(cfg, s.active, Listing(Shown(s.active, ValidMarkerName)), from, from, history, history, s, t)
  {
    CommitNamesValid(t);
    ListingStart(Shown(s.active, ValidMarkerName), MarkerName(t));
    var markers := Listing(Shown(s.active, ValidMarkerName));
    forall k | 0 < k < |markers|
      ensures markers[k] != MarkerName(t)
    {
      StrLessIrreflexive(markers[0]);
    }
    assert markers[from..from] == [] && Members([]) == {};
  }

  /** What pruning leaves of the markers: the newest few of those listed. */
  ghost function PrunedMarkers(files: Directory, limits: CacheLimits): Directory {
    var markers := Listing(Shown(files, ValidMarkerName));
    if |markers| <= limits.retainedGenerations then files else files - Members(markers[limits.retainedGenerations..])
  }

  lemma MarkerLoopStep(cfg: Settings, files: Directory, markers: seq<string>, from: nat, i: nat,
                       before: seq<Snapshot>, history: seq<Snapshot>, s: Snapshot,
                       longer: seq<Snapshot>, after: Snapshot, t: Token)
    requires i < |markers| && MarkerLoop(cfg, files, markers, from, i, before, history, s, t)
    requires after == Snapshot(s.generations, s.active - {markers[i]}) && longer == history + [after]
    ensures MarkerLoop(cfg, files, markers, from, i + 1, before, longer, after, t)
  {
    assert markers[from..i + 1] == markers[from..i] + [markers[i]];
    RemovedGrows(files, markers[from..i], markers[i]);
    ActivatedGrows(cfg, before, history, after, t, EntriesOf(s.generations, GenerationName(t)),
                   Snapshot(s.generations, files));
  }

  /** Pruning went from the markers in `files` to `s`, with the generation active all the way. */
  ghost predicate AreMarkersPruned(cfg: Settings, files: Directory, before: seq<Snapshot>, history: seq<Snapshot>,
                                   s: Snapshot, t: Token) {
    && s.active == PrunedMarkers(files, cfg.limits) && Since(before, history) && Activated(cfg, s, t)
    && AllActivated(cfg, history, |before|, t, EntriesOf(s.generations, GenerationName(t)),
                    Snapshot(s.generations, files))
  }

  lemma MarkerLoopEnds(cfg: Settings, files: Directory, before: seq<Snapshot>, history: seq<Snapshot>,
                       s: Snapshot, t: Token)
    requires var markers := Listing(Shown(files, ValidMarkerName));
             MarkerLoop(cfg, files, markers, cfg.limits.retainedGenerations, |markers|, before, history, s, t)
    ensures AreMarkersPruned(cfg, files, before, history, s, t)
  {
    var markers, from := Listing(Shown(files, ValidMarkerName)), cfg.limits.retainedGenerations;
    assert markers[from..|markers|] == markers[from..];
    assert |markers| == from ==> files - Members([]) == files;
  }

  lemma MarkerLoopAdvances(cfg: Settings, files: Directory, markers: seq<string>, from: nat, before: seq<Snapshot>,
                           t: Token)
    ensures forall i: nat, h, x :: i < |markers| && MarkerLoop(cfg, files, markers, from, i, before, h, x, t) ==>
      var after := Snapshot(x.generations, x.active - {markers[i]});
      MarkerLoop(cfg, files, markers, from, i + 1, before, h + [after], after, t)
  {
    forall i: nat, h, x | i < |markers| && MarkerLoop(cfg, files, markers, from, i, before, h, x, t)
      ensures var after := Snapshot(x.generations, x.active - {markers[i]});
              MarkerLoop(cfg, files, markers, from, i + 1, before, h + [after], after, t)
    {
      var after := Snapshot(x.generations, x.active - {markers[i]});
      MarkerLoopStep(cfg, files, markers, from, i, before, h, x, h + [after], after, t);
    }
  }

  lemma MarkerLoopFinishes(cfg: Settings, files: Directory, before: seq<Snapshot>, t: Token)
    ensures var markers, from := Listing(Shown(files, ValidMarkerName)), cfg.limits.retainedGenerations;
            forall h, x :: MarkerLoop(cfg, files, markers, from, |markers|, before, h, x, t) ==>
              AreMarkersPruned(cfg, files, before, h, x, t)
  {
    var markers, from := Listing(Shown(files, ValidMarkerName)), cfg.limits.retainedGenerations;
    forall h, x | MarkerLoop(cfg, files, markers, from, |markers|, before, h, x, t)
      ensures AreMarkersPruned(cfg, files, before, h, x, t)
    {
      MarkerLoopEnds(cfg, files, before, h, x, t);
    }
  }

  /** What the loop that deletes markers keeps, as a condition on its position, the history and the directory. */
  lemma MarkerLoopKeeps(cfg: Settings, history: seq<Snapshot>, s: Snapshot, t: Token)
    returns (keeps: (nat, seq<Snapshot>, Snapshot) -> bool)
    requires cfg.limits.Valid() && Activated(cfg, s, t)
    requires cfg.limits.retainedGenerations <= |Listing(Shown(s.active, ValidMarkerName))|
    ensures keeps(cfg.limits.retainedGenerations, history, s)
    ensures var markers := Listing(Shown(s.active, ValidMarkerName));
            && (forall i: nat, h, x :: i < |markers| && keeps(i, h, x) ==>
                  var after := Snapshot(x.generations, x.active - {markers[i]}); keeps(i + 1, h + [after], after))
            && forall h, x :: keeps(|markers|, h, x) ==> AreMarkersPruned(cfg, s.active, history, h, x, t)
  {
    var markers, from := Listing(Shown(s.active, ValidMarkerName)), cfg.limits.retainedGenerations;
    keeps := (i: nat, h: seq<Snapshot>, x: Snapshot) =>
      MarkerLoop(cfg, s.active, markers, from, i, history, h, x, t);
    MarkerLoopStarts(cfg, from, history, s, t);
    MarkerLoopAdvances(cfg, s.active, markers, from, history, t);
    MarkerLoopFinishes(cfg, s.active, history, t);
  }

  /** Two snapshots that look like `start`, then one that is `end`. */
  ghost predicate HiddenThen(before: seq<Snapshot>, history: seq<Snapshot>, start: Snapshot, end: Snapshot) {
    && |history| == |before| + 3 && before <= history
    && SameVisible(start, history[|before|]) && SameVisible(start, history[|before| + 1])
    && history[|before| + 2] == end
  }

  /** The error names a check that the entries really fail, and the first failing entry decides. */
  ghost predicate RefusedFor(cfg: Settings, entries: seq<CacheEntry>, error: CacheError) {
    if error == TooManyEntries then |entries| > cfg.limits.maxEntries
    else
      exists i :: 0 <= i < |entries| && EntriesFit(cfg, entries[..i]) &&
        match error
        case InvalidKey => !cfg.validKey(entries[i].key)
        case EntryTooLarge => |entries[i].payload| > cfg.limits.maxEntryBytes
        case DuplicateKey => exists j :: 0 <= j < i && entries[j].key == entries[i].key
        case _ => false
  }

  function MarkerFile(t: Token): FileData {
    var text := GenerationName(t) + "\n";
    FileData(|text|, Text(text))
  }

  function NewFile(cfg: Settings, t: Token, entries: seq<CacheEntry>): FileData {
    var body := CacheBody(cfg.schema, GenerationName(t), entries);
    var envelope := CacheEnvelope(DigestOf(body), body);
    FileData(cfg.encodedSize(envelope), Encoded(envelope))
  }

  /** The entries pass every check and their encoding is small enough. */
  ghost predicate Accepts(cfg: Settings, t: Token, entries: seq<CacheEntry>) {
    EntriesFit(cfg, entries) && NewFile(cfg, t, entries).size <= cfg.limits.maxGenerationBytes
  }

  /** Whatever a commit accepts, a read under the same settings accepts again, with the same entries. */
  lemma AcceptedIsReadable(cfg: Settings, t: Token, entries: seq<CacheEntry>, generations: Directory)
    requires Accepts(cfg, t, entries)
    ensures var after := generations[GenerationName(t) := NewFile(cfg, t, entries)];
            Readable(cfg, after, GenerationName(t)) && EntriesOf(after, GenerationName(t)) == EntryMap(entries)
  {
    CommitNamesValid(t);
  }

  /** The directory once the new generation is in place. */
  ghost function Written(cfg: Settings, start: Snapshot, t: Token, entries: seq<CacheEntry>): Snapshot {
    start.(generations := start.generations[GenerationName(t) := NewFile(cfg, t, entries)])
  }

  /** The directory once the new marker is in place, too. */
  ghost function Marked(cfg: Settings, start: Snapshot, t: Token, entries: seq<CacheEntry>): Snapshot {
    var written := Written(cfg, start, t, entries);
    written.(active := start.active[MarkerName(t) := MarkerFile(t)])
  }

  /** Files have been pruned, but neither the new generation nor its marker. */
  ghost predicate IsPruned(s: Snapshot, marked: Snapshot, t: Token) {
    && (forall n :: n in s.generations && ValidGenerationName(n) ==>
          n in marked.generations && s.generations[n] == marked.generations[n])
    && (forall n :: n in s.active && ValidMarkerName(n) ==> n in marked.active && s.active[n] == marked.active[n])
    && GenerationName(t) in s.generations && MarkerName(t) in s.active
  }

  /**
   The files a commit may leave when it is cut short: the old listing, the old listing
   with the new generation, or both and the new marker, less what was pruned.  Files
   that no listing shows may hold anything.
   */
  ghost predicate IsStage(cfg: Settings, start: Snapshot, t: Token, entries: seq<CacheEntry>, s: Snapshot) {
    || SameVisible(start, s)
    || SameVisible(Written(cfg, start, t, entries), s)
    || IsPruned(s, Marked(cfg, start, t, entries), t)
  }

  /** What is listed was listed before, or is the new generation with its entries, or its marker. */
  ghost predicate OnlyAdds(start: Snapshot, s: Snapshot, t: Token, entries: Entries) {
    && (forall n :: n in s.generations && ValidGenerationName(n) ==>
          if n == GenerationName(t) then EntriesOf(s.generations, n) == entries
          else n in start.generations && s.generations[n] == start.generations[n])
    && forall n :: n in s.active && ValidMarkerName(n) ==> n in start.active || n == MarkerName(t)
  }

  /** A crash here leaves the old entries or exactly the new ones, and the new ones once the marker exists. */
  ghost predicate SafeSnapshot(cfg: Settings, start: Snapshot, s: Snapshot, t: Token, entries: Entries) {
    && OnlyAdds(start, s, t, entries)
    && (LoadedEntries(cfg, s) == LoadedEntries(cfg, start) || LoadedEntries(cfg, s) == entries)
    && (MarkerName(t) in s.active ==> LoadedEntries(cfg, s) == entries)
  }

  lemma NothingNewYet(start: Snapshot, t: Token)
    requires Older(start, t)
    ensures GenerationName(t) !in start.generations && MarkerName(t) !in start.active
  {
    CommitNamesValid(t);
    StrLessIrreflexive(GenerationName(t));
    StrLessIrreflexive(MarkerName(t));
  }

  lemma HiddenOnlyAdds(start: Snapshot, s: Snapshot, hidden: Snapshot, t: Token, entries: Entries)
    requires SameVisible(s, hidden) && OnlyAdds(start, s, t, entries)
    ensures OnlyAdds(start, hidden, t, entries)
  {
  }

  lemma HiddenIsSafe(cfg: Settings, start: Snapshot, s: Snapshot, hidden: Snapshot, t: Token, entries: Entries)
    requires SameVisible(s, hidden) && SafeSnapshot(cfg, start, s, t, entries)
    ensures SafeSnapshot(cfg, start, hidden, t, entries)
  {
    HiddenOnlyAdds(start, s, hidden, t, entries);
    LoadIgnoresHidden(cfg, s, hidden);
    CommitNamesValid(t);
    assert MarkerName(t) in hidden.active ==> MarkerName(t) in s.active;
  }

  lemma WrittenIsSafe(cfg: Settings, start: Snapshot, t: Token, entries: seq<CacheEntry>)
    requires Older(start, t) && Accepts(cfg, t, entries)
    ensures SafeSnapshot(cfg, start, Written(cfg, start, t, entries), t, EntryMap(entries))
  {
    CommitNamesValid(t);
    NothingNewYet(start, t);
    AcceptedIsReadable(cfg, t, entries, start.generations);
    GenerationAdded(cfg, start, Written(cfg, start, t, entries), GenerationName(t), NewFile(cfg, t, entries));
  }

  lemma PrunedIsActivated(cfg: Settings, start: Snapshot, t: Token, entries: seq<CacheEntry>, s: Snapshot)
    requires Older(start, t) && Accepts(cfg, t, entries) && IsPruned(s, Marked(cfg, start, t, entries), t)
    ensures Activated(cfg, s, t) && EntriesOf(s.generations, GenerationName(t)) == EntryMap(entries)
  {
    CommitNamesValid(t);
    MarkerTextTrims(t);
    AcceptedIsReadable(cfg, t, entries, start.generations);
    assert s.generations[GenerationName(t)] == NewFile(cfg, t, entries) && s.active[MarkerName(t)] == MarkerFile(t);
  }

  /** Wherever a commit is cut short, its directory is safe. */
  lemma StageIsSafe(cfg: Settings, start: Snapshot, t: Token, entries: seq<CacheEntry>, s: Snapshot)
    requires cfg.limits.Valid() && Older(start, t) && Accepts(cfg, t, entries) && IsStage(cfg, start, t, entries, s)
    ensures SafeSnapshot(cfg, start, s, t, EntryMap(entries))
  {
    NothingNewYet(start, t);
    if SameVisible(start, s) {
      HiddenIsSafe(cfg, start, start, s, t, EntryMap(entries));
    } else if SameVisible(Written(cfg, start, t, entries), s) {
      WrittenIsSafe(cfg, start, t, entries);
      HiddenIsSafe(cfg, start, Written(cfg, start, t, entries), s, t, EntryMap(entries));
    } else {
      PrunedIsActivated(cfg, start, t, entries, s);
      ActivatedLoads(cfg, s, t);
    }
  }

  /** After a commit all listed names are older than any later token. */
  lemma NextTokenIsNewer(s: Snapshot, t: Token, next: Token, after: Snapshot)
    requires Older(s, t) && Fits(t) && Fits(next) && TokenLess(t, next)
    requires forall n :: n in after.generations && ValidGenerationName(n) ==>
      n in s.generations || n == GenerationName(t)
    requires forall n :: n in after.active && ValidMarkerName(n) ==> n in s.active || n == MarkerName(t)
    ensures Older(after, next)
  {
    GenerationOrder(t, next);
    forall n | n in after.generations && ValidGenerationName(n)
      ensures StrLess(n, GenerationName(next))
    {
      if n != GenerationName(t) {
        StrLessTrans(n, GenerationName(t), GenerationName(next));
      }
    }
    forall n | n in after.active && ValidMarkerName(n)
      ensures StrLess(n, MarkerName(next))
    {
      if n != MarkerName(t) {
        StrLessTrans(n, MarkerName(t), MarkerName(next));
      }
    }
  }

  // ----- what pruning achieves -----

  lemma TotalSizeCons(files: Directory, first: string, rest: seq<string>)
    ensures TotalSize(files, [first] + rest) == SizeOf(files, first) + TotalSize(files, rest)
  {
    assert ([first] + rest)[1..] == rest;
  }

  lemma {:induction false} OthersCount(names: seq<string>, files: Directory, keep: string)
    requires Distinct(names)
    ensures |Others(names, keep)| == if keep in names then |names| - 1 else |names|
    ensures TotalSize(files, Others(names, keep)) + (if keep in names then SizeOf(files, keep) else 0)
            == TotalSize(files, names)
  {
    if names != [] {
      var front, last := names[..|names| - 1], names[|names| - 1];
      assert names == front + [last] && last !in front;
      OthersCount(front, files, keep);
      TotalSizeSnoc(files, front, last);
      TotalSizeCons(files, last, Others(front, keep));
      assert last == keep ==> [] + Others(front, keep) == Others(front, keep);
    }
  }

  lemma DoomedMeetsLimits(others: seq<string>, files: Directory, kept: nat, limits: CacheLimits)
    requires limits.Valid() && kept <= limits.maxGenerationBytes
    ensures var count, total := |others| + 1, TotalSize(files, others) + kept;
            var doomed := Doomed(others, files, count, total, limits);
            doomed <= others && WithinLimits(count - |doomed|, total - TotalSize(files, doomed), limits)
  {
    DoomedIsShortest(others, files, |others| + 1, TotalSize(files, others) + kept, limits);
  }

  /** Deleting the doomed names meets both limits and spares the kept one. */
  ghost predicate MeetsLimits(names: seq<string>, files: Directory, keep: string, limits: CacheLimits) {
    var doomed := Doomed(Others(names, keep), files, |names|, TotalSize(files, names), limits);
    && doomed <= Others(names, keep) && keep !in doomed
    && WithinLimits(|names| - |doomed|, TotalSize(files, names) - TotalSize(files, doomed), limits)
  }

  lemma PruningMeetsLimitsOn(names: seq<string>, files: Directory, keep: string, limits: CacheLimits)
    requires limits.Valid() && Distinct(names) && keep in names && keep in files
    requires files[keep].size <= limits.maxGenerationBytes
    ensures MeetsLimits(names, files, keep, limits)
  {
    OthersCount(names, files, keep);
    OthersAre(names, keep);
    DoomedMeetsLimits(Others(names, keep), files, files[keep].size, limits);
  }

  lemma ListingDistinct(names: set<string>)
    ensures Distinct(Listing(names))
  {
    var list := Listing(names);
    forall i, j | 0 <= i < j < |list|
      ensures list[i] != list[j]
    {
      StrLessIrreflexive(list[i]);
    }
  }

  /** Pruning after a commit always ends within both limits. */
  lemma PruningMeetsLimits(files: Directory, keep: string, limits: CacheLimits)
    requires limits.Valid() && keep in files && ValidGenerationName(keep)
    requires files[keep].size <= limits.maxGenerationBytes
    ensures MeetsLimits(Listing(Shown(files, ValidGenerationName)), files, keep, limits)
  {
    var shown := Shown(files, ValidGenerationName);
    ListingDistinct(shown);
    assert keep in shown;
    PruningMeetsLimitsOn(Listing(shown), files, keep, limits);
  }

  /** Every snapshot added since `before` is a stage of the commit. */
  ghost predicate StagesSince(cfg: Settings, before: seq<Snapshot>, history: seq<Snapshot>,
                              start: Snapshot, t: Token, entries: seq<CacheEntry>) {
    Since(before, history) &&
    forall k :: |before| <= k < |history| ==> IsStage(cfg, start, t, entries, history[k])
  }

  /** Every snapshot added since `before` is safe. */
  ghost predicate SafeSince(cfg: Settings, before: seq<Snapshot>, history: seq<Snapshot>,
                            start: Snapshot, t: Token, entries: Entries) {
    Since(before, history) &&
    forall k :: |before| <= k < |history| ==> SafeSnapshot(cfg, start, history[k], t, entries)
  }

  lemma StagesOfCreation(cfg: Settings, before: seq<Snapshot>, history: seq<Snapshot>, start: Snapshot,
                         from: Snapshot, to: Snapshot, t: Token, entries: seq<CacheEntry>)
    requires HiddenThen(before, history, from, to)
    requires from == start || from == Written(cfg, start, t, entries)
    requires IsStage(cfg, start, t, entries, to)
    ensures StagesSince(cfg, before, history, start, t, entries)
  {
    forall k | |before| <= k < |history|
      ensures IsStage(cfg, start, t, entries, history[k])
    {
      assert k == |before| || k == |before| + 1 || history[k] == to;
    }
  }

  lemma StagesOfPruning(cfg: Settings, before: seq<Snapshot>, history: seq<Snapshot>, start: Snapshot, base: Snapshot,
                        t: Token, entries: seq<CacheEntry>, loaded: Entries)
    requires Since(before, history) && AllActivated(cfg, history, |before|, t, loaded, base)
    requires Within(base, Marked(cfg, start, t, entries))
    ensures StagesSince(cfg, before, history, start, t, entries)
  {
    forall k | |before| <= k < |history|
      ensures IsStage(cfg, start, t, entries, history[k])
    {
      assert Activated(cfg, history[k], t) && Within(history[k], base);
      assert IsPruned(history[k], Marked(cfg, start, t, entries), t);
    }
  }

  lemma StagesJoin(cfg: Settings, h0: seq<Snapshot>, h1: seq<Snapshot>, h2: seq<Snapshot>,
                   start: Snapshot, t: Token, entries: seq<CacheEntry>)
    requires StagesSince(cfg, h0, h1, start, t, entries) && StagesSince(cfg, h1, h2, start, t, entries)
    ensures StagesSince(cfg, h0, h2, start, t, entries)
  {
    forall k | |h0| <= k < |h2|
      ensures IsStage(cfg, start, t, entries, h2[k])
    {
      if k < |h1| {
        assert h2[k] == h1[k];
      }
    }
  }

  lemma StagesAreSafe(cfg: Settings, before: seq<Snapshot>, history: seq<Snapshot>, start: Snapshot,
                      t: Token, entries: seq<CacheEntry>)
    requires cfg.limits.Valid() && Older(start, t) && Accepts(cfg, t, entries)
    requires StagesSince(cfg, before, history, start, t, entries)
    ensures SafeSince(cfg, before, history, start, t, EntryMap(entries))
  {
    forall k | |before| <= k < |history|
      ensures SafeSnapshot(cfg, start, history[k], t, EntryMap(entries))
    {
      StageIsSafe(cfg, start, t, entries, history[k]);
    }
  }

  lemma MovedIntoPlace(files: Directory, hidden: string, name: string, partial: FileData, file: FileData)
    requires hidden !in files && hidden != name
    ensures (files[hidden := partial][hidden := file] - {hidden})[name := file] == files[name := file]
  {
  }

  /** Writing a temporary generation file and renaming it. */
  lemma GenerationHidden(past: seq<Snapshot>, start: Snapshot, temporary: Token, name: string, partial: FileData,
                         file: FileData)
    requires TemporaryName(temporary) !in start.generations && ValidGenerationName(name)
    ensures var hidden := TemporaryName(temporary);
            var s1 := Snapshot(start.generations[hidden := partial], start.active);
            var s2 := Snapshot(s1.generations[hidden := file], start.active);
            var s3 := Snapshot((s2.generations - {hidden})[name := file], start.active);
            && s3.generations == start.generations[name := file]
            && HiddenThen(past, past + [s1] + [s2] + [s3], start, s3)
  {
    CommitNamesValid(temporary);
    var hidden := TemporaryName(temporary);
    MovedIntoPlace(start.generations, hidden, name, partial, file);
  }

  lemma MarkerHidden(past: seq<Snapshot>, start: Snapshot, temporary: Token, name: string, partial: FileData,
                     file: FileData)
    requires TemporaryName(temporary) !in start.active && ValidMarkerName(name)
    ensures var hidden := TemporaryName(temporary);
            var s1 := Snapshot(start.generations, start.active[hidden := partial]);
            var s2 := Snapshot(start.generations, s1.active[hidden := file]);
            var s3 := Snapshot(start.generations, (s2.active - {hidden})[name := file]);
            && s3.active == start.active[name := file]
            && HiddenThen(past, past + [s1] + [s2] + [s3], start, s3)
  {
    CommitNamesValid(temporary);
    var hidden := TemporaryName(temporary);
    MovedIntoPlace(start.active, hidden, name, partial, file);
  }

  class PersistentCache {
    const config: Settings
    var generations: Directory
    var active: Directory
    ghost var history: seq<Snapshot>

    constructor (config: Settings, generations: Directory, active: Directory)
      requires config.limits.Valid()
      ensures this.config == config && this.generations == generations && this.active == active && history == []
    {
      this.config, this.generations, this.active := config, generations, active;
      history := [];
    }

    ghost function Now(): Snapshot
      reads this
    {
      Snapshot(generations, active)
    }

    method RemoveGeneration(name: string)
      modifies this
      ensures generations == old(generations) - {name} && active == old(active)
      ensures history == old(history) + [Now()]
    {
      generations := generations - {name};
      history := history + [Now()];
    }

    method RemoveMarker(name: string)
      modifies this
      ensures active == old(active) - {name} && generations == old(generations)
      ensures history == old(history) + [Now()]
    {
      active := active - {name};
      history := history + [Now()];
    }

    method SumSizes(names: seq<string>) returns (total: nat)
      ensures total == TotalSize(generations, names)
    {
      total := 0;
      for i := |names| downto 0
        invariant total == TotalSize(generations, names[i..])
      {
        total := total + SizeOf(generations, names[i]);
      }
    }

    /** Deletes old generations, oldest first, while there are too many or they are too big. */
    method PruneGenerations(activeGeneration: string, ghost t: Token)
      requires activeGeneration == GenerationName(t) && Activated(config, Now(), t)
      modifies this
      ensures active == old(active) && generations == Pruned(old(generations), activeGeneration, config.limits)
      ensures Since(old(history), history) && Activated(config, Now(), t)
      ensures AllActivated(config, history, |old(history)|, t, EntriesOf(old(generations), activeGeneration),
                           old(Now()))
      ensures EntriesOf(generations, activeGeneration) == EntriesOf(old(generations), activeGeneration)
    {
      var names := ListFiles(generations, ValidGenerationName);
      var totalBytes: nat := SumSizes(names);
      var retained: nat := |names|;
      ghost var files := generations;
      ghost var removed: seq<string> := [];
      PruningStarts(files, activeGeneration, config.limits);
      for i := |names| downto 0
        invariant active == old(active) && Now() == Snapshot(generations, active)
        invariant PruneLoop(config, files, i, removed, retained, totalBytes, old(history), history, Now(), t)
      {
        PruneLoopStep(config, files, i, removed, retained, totalBytes, old(history), history, Now(), t);
        var name := names[i];
        if name == activeGeneration {
          continue;
        }
        if !(retained > config.limits.retainedGenerations || totalBytes > config.limits.maxTotalBytes) {
          continue;
        }
        var size := SizeOf(generations, name);
        RemoveGeneration(name);
        removed := removed + [name];
        retained := SaturatingSub(retained, 1);
        totalBytes := SaturatingSub(totalBytes, size);
      }
      PruningEnds(files, activeGeneration, removed, retained, totalBytes, config.limits);
    }

    /** Deletes the listed markers from `from` on, keeping whatever every single deletion keeps. */
    method RemoveMarkers(markers: seq<string>, from: nat, ghost keeps: (nat, seq<Snapshot>, Snapshot) -> bool)
      requires from <= |markers| && keeps(from, history, Now())
      requires forall i: nat, h, s :: i < |markers| && keeps(i, h, s) ==>
        var after := Snapshot(s.generations, s.active - {markers[i]}); keeps(i + 1, h + [after], after)
      modifies this
      ensures generations == old(generations) && keeps(|markers|, history, Now())
    {
      for i := from to |markers|
        invariant generations == old(generations) && keeps(i, history, Now())
      {
        ghost var past, s := history, Now();
        RemoveMarker(markers[i]);
        assert Now() == Snapshot(s.generations, s.active - {markers[i]});
      }
    }

    /** Deletes all markers but the newest few. */
    method PruneMarkers(ghost t: Token)
      requires config.limits.Valid() && Activated(config, Now(), t)
      modifies this
      ensures generations == old(generations)
      ensures active == PrunedMarkers(old(active), config.limits)
      ensures Since(old(history), history) && Activated(config, Now(), t)
      ensures AllActivated(config, history, |old(history)|, t, EntriesOf(generations, GenerationName(t)), old(Now()))
    {
      var markers := ListFiles(active, ValidMarkerName);
      if config.limits.retainedGenerations <= |markers| {
        ghost var keeps := MarkerLoopKeeps(config, history, Now(), t);
        RemoveMarkers(markers, config.limits.retainedGenerations, keeps);
      }
    }

    /**
     Writes a temporary file and renames it: three operations, of which only the last
     shows.  What a crash leaves half written in the temporary file is arbitrary.
     */
    method CreateGeneration(temporary: Token, name: string, file: FileData)
      requires TemporaryName(temporary) !in generations && ValidGenerationName(name)
      modifies this
      ensures generations == old(generations)[name := file] && active == old(active)
      ensures HiddenThen(old(history), history, old(Now()), Now())
    {
      var hidden := TemporaryName(temporary);
      ghost var past, start := history, Now();
      var partial: FileData := *;
      GenerationHidden(past, start, temporary, name, partial, file);
      generations := generations[hidden := partial];
      history := history + [Now()];
      generations := generations[hidden := file];
      history := history + [Now()];
      generations := (generations - {hidden})[name := file];
      history := history + [Now()];
    }

    method CreateMarker(temporary: Token, name: string, file: FileData)
      requires TemporaryName(temporary) !in active && ValidMarkerName(name)
      modifies this
      ensures active == old(active)[name := file] && generations == old(generations)
      ensures HiddenThen(old(history), history, old(Now()), Now())
    {
      var hidden := TemporaryName(temporary);
      ghost var past, start := history, Now();
      var partial: FileData := *;
      MarkerHidden(past, start, temporary, name, partial, file);
      active := active[hidden := partial];
      history := history + [Now()];
      active := active[hidden := file];
      history := history + [Now()];
      active := (active - {hidden})[name := file];
      history := history + [Now()];
    }

    method BuildBody(generation: string, entries: seq<CacheEntry>) returns (r: Result<CacheBody, CacheError>)
      ensures r.Ok? <==> EntriesFit(config, entries)
      ensures r.Ok? ==> r.value == CacheBody(config.schema, generation, entries)
      ensures r.Err? ==> RefusedFor(config, entries, r.error)
    {
      if |entries| > config.limits.maxEntries {
        return Err(TooManyEntries);
      }
      var keys: set<CacheKey> := {};
      for i := 0 to |entries|
        invariant EntriesFit(config, entries[..i])
        invariant forall k :: k in keys <==> exists j :: 0 <= j < i && entries[j].key == k
      {
        var entry := entries[i];
        assert entry in entries;
        assert entries[..i + 1] == entries[..i] + [entry];
        if !config.validKey(entry.key) {
          return Err(InvalidKey);
        }
        if |entry.payload| > config.limits.maxEntryBytes {
          return Err(EntryTooLarge);
        }
        if entry.key in keys {
          return Err(DuplicateKey);
        }
        keys := keys + {entry.key};
      }
      assert entries[..|entries|] == entries;
      r := Ok(CacheBody(config.schema, generation, entries));
    }

    /** Writes a new generation, activates it, and prunes; a refused commit touches nothing. */
    method Commit(entries: seq<CacheEntry>, t: Token, forGeneration: Token, forMarker: Token)
      returns (r: Result<CacheCommit, CacheError>)
      requires config.limits.Valid() && Older(Now(), t)
      requires TemporaryName(forGeneration) !in generations && TemporaryName(forMarker) !in active
      modifies this
      ensures r.Ok? <==> Accepts(config, t, entries)
      ensures r.Err? ==> Now() == old(Now()) && history == old(history)
      ensures r.Err? ==> RefusedFor(config, entries, r.error) || r.error == GenerationTooLarge
      ensures r.Ok? ==> r.value == CacheCommit(GenerationName(t), |entries|, NewFile(config, t, entries).size)
      ensures r.Ok? ==> Activated(config, Now(), t)
      ensures r.Ok? ==> StagesSince(config, old(history), history, old(Now()), t, entries)
      ensures r.Ok? ==> SafeSince(config, old(history), history, old(Now()), t, EntryMap(entries))
      ensures r.Ok? ==> LoadedEntries(config, Now()) == EntryMap(entries)
      ensures r.Ok? ==>
        generations == Pruned(old(generations)[GenerationName(t) := NewFile(config, t, entries)],
                              GenerationName(t), config.limits)
      ensures r.Ok? ==> active == PrunedMarkers(old(active)[MarkerName(t) := MarkerFile(t)], config.limits)
    {
      var generation := GenerationName(t);
      var body := BuildBody(generation, entries);
      if body.Err? {
        return Err(body.error);
      }
      var envelope := CacheEnvelope(DigestOf(body.value), body.value);
      var size := config.encodedSize(envelope);
      if size > config.limits.maxGenerationBytes {
        return Err(GenerationTooLarge);
      }
      ghost var start, h0 := Now(), history;
      CommitNamesValid(t);
      CreateGeneration(forGeneration, generation, FileData(size, Encoded(envelope)));
      ghost var h1 := history;
      StagesOfCreation(config, h0, h1, start, start, Written(config, start, t, entries), t, entries);
      CreateMarker(forMarker, MarkerName(t), MarkerFile(t));
      ghost var h2 := history;
      ghost var marked := Marked(config, start, t, entries);
      StagesOfCreation(config, h1, h2, start, Written(config, start, t, entries), marked, t, entries);
      StagesJoin(config, h0, h1, h2, start, t, entries);
      PrunedIsActivated(config, start, t, entries, marked);
      PruneGenerations(generation, t);
      ghost var h3 := history;
      StagesOfPruning(config, h2, h3, start, marked, t, entries, EntryMap(entries));
      StagesJoin(config, h0, h2, h3, start, t, entries);
      ghost var pruned := Now();
      PruneMarkers(t);
      StagesOfPruning(config, h3, history, start, pruned, t, entries, EntryMap(entries));
      StagesJoin(config, h0, h3, history, start, t, entries);
      StagesAreSafe(config, h0, history, start, t, entries);
      ActivatedLoads(config, Now(), t);
      r := Ok(CacheCommit(generation, |entries|, size));
    }
  }

  // ----- commits cut short, one after the other -----

  datatype Attempt = Attempt(t: Token, entries: seq<CacheEntry>)

  /** A commit that would be accepted, cut short or not. */
  ghost predicate IsAttempt(cfg: Settings, s: Snapshot, attempt: Attempt, after: Snapshot) {
    Fits(attempt.t) && Accepts(cfg, attempt.t, attempt.entries) && IsStage(cfg, s, attempt.t, attempt.entries, after)
  }

  /** states[i + 1] is what attempt `i` makes of states[i]; tokens increase. */
  ghost predicate IsCommitRun(cfg: Settings, states: seq<Snapshot>, attempts: seq<Attempt>) {
    && |states| == |attempts| + 1
    && (forall i :: 0 <= i < |attempts| ==> IsAttempt(cfg, states[i], attempts[i], states[i + 1]))
    && (forall i :: 0 <= i < |attempts| - 1 ==> TokenLess(attempts[i].t, attempts[i + 1].t))
    && (attempts != [] ==> Older(states[0], attempts[0].t))
  }

  lemma AttemptStaysOlder(cfg: Settings, s: Snapshot, attempt: Attempt, after: Snapshot, next: Token)
    requires cfg.limits.Valid() && Older(s, attempt.t) && IsAttempt(cfg, s, attempt, after)
    requires Fits(next) && TokenLess(attempt.t, next)
    ensures Older(after, next)
  {
    StageIsSafe(cfg, s, attempt.t, attempt.entries, after);
    NextTokenIsNewer(s, attempt.t, next, after);
  }

  /** Before every attempt all listed names are older than its token, whatever the crashes before it left. */
  lemma {:induction false} RunStaysOlder(cfg: Settings, states: seq<Snapshot>, attempts: seq<Attempt>, i: nat)
    requires cfg.limits.Valid() && IsCommitRun(cfg, states, attempts) && i < |attempts|
    ensures Older(states[i], attempts[i].t)
  {
    if i > 0 {
      var k := i - 1;
      RunStaysOlder(cfg, states, attempts, k);
      assert IsAttempt(cfg, states[k], attempts[k], states[k + 1]) &&
        IsAttempt(cfg, states[i], attempts[i], states[i + 1]);
      AttemptStaysOlder(cfg, states[k], attempts[k], states[i], attempts[i].t);
    }
  }

  /**
   However many commits are cut short wherever, each leaves its directory loading what
   the one before it loaded or exactly its own entries, and its own once its marker exists.
   */
  lemma CrashesChain(cfg: Settings, states: seq<Snapshot>, attempts: seq<Attempt>, i: nat)
    requires cfg.limits.Valid() && IsCommitRun(cfg, states, attempts) && i < |attempts|
    ensures LoadedEntries(cfg, states[i + 1]) == LoadedEntries(cfg, states[i])
         || LoadedEntries(cfg, states[i + 1]) == EntryMap(attempts[i].entries)
    ensures MarkerName(attempts[i].t) in states[i + 1].active ==>
      LoadedEntries(cfg, states[i + 1]) == EntryMap(attempts[i].entries)
  {
    RunStaysOlder(cfg, states, attempts, i);
    assert IsAttempt(cfg, states[i], attempts[i], states[i + 1]);
    StageIsSafe(cfg, states[i], attempts[i].t, attempts[i].entries, states[i + 1]);
  }

  // ----- commits and damage -----

  /** A commit that may have been cut short, or damage to any file. */
  datatype Event = Committing(t: Token, entries: seq<CacheEntry>) | Damage

  /** The commit computed this checksum for its own body. */
  ghost predicate Computed(cfg: Settings, event: Event, checksum: Digest) {
    event.Committing? && checksum == DigestOf(CacheBody(cfg.schema, GenerationName(event.t), event.entries))
  }

  /**
   Damage computes no digests: a stored checksum fits the body it stands on only if some
   commit computed it.  Names, sizes, bodies, schemas and markers may be anything.
   */
  ghost predicate Unforged(cfg: Settings, past: seq<Event>, s: Snapshot) {
    forall n :: n in s.generations && s.generations[n].contents.Encoded? ==>
      var envelope := s.generations[n].contents.envelope;
      envelope.bodyChecksum == DigestOf(envelope.body) ==>
        exists e :: e in past && Computed(cfg, e, envelope.bodyChecksum)
  }

  ghost predicate Step(cfg: Settings, past: seq<Event>, s: Snapshot, event: Event, after: Snapshot) {
    match event
    case Committing(t, entries) => Accepts(cfg, t, entries) && IsStage(cfg, s, t, entries, after)
    case Damage => Unforged(cfg, past, after)
  }

  /** A run from an empty cache: states[i] becomes states[i + 1] by events[i]. */
  ghost predicate IsRun(cfg: Settings, states: seq<Snapshot>, events: seq<Event>) {
    && |states| == |events| + 1 && states[0].generations == map[]
    && forall i :: 0 <= i < |events| ==> Step(cfg, events[..i], states[i], events[i], states[i + 1])
  }

  /** These entries were committed under this very name. */
  ghost predicate WasCommitted(cfg: Settings, events: seq<Event>, name: string, entries: Entries) {
    exists e :: e in events && e.Committing? && GenerationName(e.t) == name
                && EntriesFit(cfg, e.entries) && EntryMap(e.entries) == entries
  }

  /** What can be read after damage is what some commit wrote, under the name that commit gave it. */
  lemma DamageForgesNothing(cfg: Settings, past: seq<Event>, s: Snapshot, name: string)
    requires Unforged(cfg, past, s) && Readable(cfg, s.generations, name)
    ensures WasCommitted(cfg, past, name, EntriesOf(s.generations, name))
  {
    var envelope := s.generations[name].contents.envelope;
    var e :| e in past && Computed(cfg, e, envelope.bodyChecksum);
    assert envelope.body == CacheBody(cfg.schema, GenerationName(e.t), e.entries);
  }

  /** A commit makes nothing readable but its own generation. */
  lemma StageReads(cfg: Settings, start: Snapshot, t: Token, entries: seq<CacheEntry>, s: Snapshot, name: string)
    requires Accepts(cfg, t, entries) && IsStage(cfg, start, t, entries, s) && Readable(cfg, s.generations, name)
    ensures (Readable(cfg, start.generations, name)
             && EntriesOf(start.generations, name) == EntriesOf(s.generations, name))
         || (name == GenerationName(t) && EntriesOf(s.generations, name) == EntryMap(entries))
  {
    AcceptedIsReadable(cfg, t, entries, start.generations);
  }

  lemma {:induction false} ReadableWasCommitted(cfg: Settings, states: seq<Snapshot>, events: seq<Event>, name: string)
    requires IsRun(cfg, states, events) && Readable(cfg, states[|events|].generations, name)
    ensures WasCommitted(cfg, events, name, EntriesOf(states[|events|].generations, name))
  {
    if events != [] {
      var n := |events| - 1;
      var past, s, event, after := events[..n], states[n], events[n], states[n + 1];
      assert Step(cfg, past, s, event, after);
      assert event in events && forall e :: e in past ==> e in events;
      if event.Damage? {
        DamageForgesNothing(cfg, past, after, name);
      } else {
        StageReads(cfg, s, event.t, event.entries, after, name);
        if Readable(cfg, s.generations, name) && EntriesOf(s.generations, name) == EntriesOf(after.generations, name) {
          RunPrefix(cfg, states, events, n);
          ReadableWasCommitted(cfg, states[..n + 1], past, name);
        }
      }
    }
  }

  lemma RunPrefix(cfg: Settings, states: seq<Snapshot>, events: seq<Event>, n: nat)
    requires IsRun(cfg, states, events) && n <= |events|
    ensures IsRun(cfg, states[..n + 1], events[..n])
  {
    forall i | 0 <= i < n
      ensures Step(cfg, events[..n][..i], states[..n + 1][i], events[..n][i], states[..n + 1][i + 1])
    {
      assert events[..n][..i] == events[..i];
      assert Step(cfg, events[..i], states[i], events[i], states[i + 1]);
    }
  }

  /**
   However commits are cut short and files damaged, a load returns nothing, or what was
   once committed under the name of the generation it returns.
   */
  lemma LoadsOnlyCommitted(cfg: Settings, states: seq<Snapshot>, events: seq<Event>)
    requires IsRun(cfg, states, events)
    ensures var s := states[|events|];
            match Chosen(cfg, s)
            case None => LoadedEntries(cfg, s) == map[]
            case Some(name) => WasCommitted(cfg, events, name, LoadedEntries(cfg, s))
  {
    var s := states[|events|];
    if Chosen(cfg, s).Some? {
      ReadableWasCommitted(cfg, states, events, Chosen(cfg, s).value);
    }
  }

  /** Every snapshot of a commit is a step of such a run. */
  lemma CommitIsStep(cfg: Settings, past: seq<Event>, before: seq<Snapshot>, history: seq<Snapshot>, start: Snapshot,
                     t: Token, entries: seq<CacheEntry>, k: nat)
    requires Accepts(cfg, t, entries) && StagesSince(cfg, before, history, start, t, entries)
    requires |before| <= k < |history|
    ensures Step(cfg, past, start, Committing(t, entries), history[k])
  {
    assert IsStage(cfg, start, t, entries, history[k]);
  }
}
