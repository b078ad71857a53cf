/**
 What a cache directory means: how cache/store.rs reads a generation, in which
 order it tries the candidates, and what a load therefore returns.
 */
module CacheStore {
  import opened Common
  import opened CacheNames
  import opened Sorting
  import opened Strings

  // ----- files -----

  datatype CacheSchema = CacheSchema(schemaVersion: nat, toolVersion: string, parserVersion: string)

  datatype CacheKey = CacheKey(config: string, profile: string, file: string, content: string, contexts: seq<string>)

  datatype CacheEntry = CacheEntry(key: CacheKey, payload: seq<bv8>)

  type Entries = map<CacheKey, seq<bv8>>

  datatype CacheBody = CacheBody(schema: CacheSchema, generation: string, entries: seq<CacheEntry>)

  /** An injective digest of a body. */
  datatype Digest = DigestOf(body: CacheBody)

  datatype CacheEnvelope = CacheEnvelope(bodyChecksum: Digest, body: CacheBody)

  /** Decoding finds an envelope, a text, or nothing that can be used. */
  datatype Contents = Encoded(envelope: CacheEnvelope) | Text(text: string) | Damaged

  datatype FileData = FileData(size: nat, contents: Contents)

  type Directory = map<string, FileData>

  datatype Snapshot = Snapshot(generations: Directory, active: Directory)

  datatype CacheLimits = CacheLimits(
    maxEntries: nat, maxEntryBytes: nat, maxGenerationBytes: nat, maxTotalBytes: nat,
    retainedGenerations: nat, maxGenerationFilesToScan: nat)
  {
    predicate Valid() {
      && maxEntries > 0 && maxEntryBytes > 0 && maxGenerationBytes > 0
      && maxTotalBytes >= maxGenerationBytes
      && retainedGenerations > 0 && maxGenerationFilesToScan > 0
    }
  }

  /** `validKey` is the key validation, `encodedSize` the length of an encoded envelope. */
  datatype Settings = Settings(
    schema: CacheSchema, limits: CacheLimits, validKey: CacheKey -> bool, encodedSize: CacheEnvelope -> nat)

  // ----- reading one generation -----

  ghost predicate EntriesFit(cfg: Settings, entries: seq<CacheEntry>) {
    && |entries| <= cfg.limits.maxEntries
    && (forall e :: e in entries ==> cfg.validKey(e.key) && |e.payload| <= cfg.limits.maxEntryBytes)
    && (forall i, j :: 0 <= i < j < |entries| ==> entries[i].key != entries[j].key)
  }

  /** Every check of a read succeeds on this file under this name. */
  ghost predicate Readable(cfg: Settings, generations: Directory, name: string) {
    && ValidGenerationName(name) && name in generations
    && var file := generations[name];
    && file.size <= cfg.limits.maxGenerationBytes && file.contents.Encoded?
    && var CacheEnvelope(checksum, body) := file.contents.envelope;
    && body.schema == cfg.schema && body.generation == name && checksum == DigestOf(body)
    && EntriesFit(cfg, body.entries)
  }

  ghost function EntryMap(entries: seq<CacheEntry>): Entries
    requires forall i, j :: 0 <= i < j < |entries| ==> entries[i].key != entries[j].key
  {
    if entries == [] then map[]
    else
      var last := entries[|entries| - 1];
      EntryMap(entries[..|entries| - 1])[last.key := last.payload]
  }

  lemma {:induction false} EntryMapKeys(entries: seq<CacheEntry>)
    requires forall i, j :: 0 <= i < j < |entries| ==> entries[i].key != entries[j].key
    ensures forall k :: k in EntryMap(entries) <==> exists i :: 0 <= i < |entries| && entries[i].key == k
    ensures forall i :: 0 <= i < |entries| ==> EntryMap(entries)[entries[i].key] == entries[i].payload
  {
    if entries != [] {
      EntryMapKeys(entries[..|entries| - 1]);
    }
  }

  ghost function EntriesOf(generations: Directory, name: string): Entries {
    if name in generations && generations[name].contents.Encoded? then
      var entries := generations[name].contents.envelope.body.entries;
      if forall i, j :: 0 <= i < j < |entries| ==> entries[i].key != entries[j].key then EntryMap(entries) else map[]
    else map[]
  }

  datatype ReadIssue =
    | InvalidName | CannotOpen | OverByteLimit | Undecodable | IncompatibleSchema | WrongIdentity
    | OverEntryLimit | WrongChecksum | InvalidKeyIn | OverEntryBytes | DuplicateKeyIn

  lemma EntriesPush(cfg: Settings, entries: seq<CacheEntry>, i: nat)
    requires i < |entries| && i < cfg.limits.maxEntries && EntriesFit(cfg, entries[..i])
    requires cfg.validKey(entries[i].key) && |entries[i].payload| <= cfg.limits.maxEntryBytes
    requires entries[i].key !in EntryMap(entries[..i])
    ensures EntriesFit(cfg, entries[..i + 1])
    ensures EntryMap(entries[..i + 1]) == EntryMap(entries[..i])[entries[i].key := entries[i].payload]
  {
    var before := entries[..i];
    EntryMapKeys(before);
    assert entries[..i + 1] == before + [entries[i]];
    forall k | 0 <= k < i
      ensures before[k].key != entries[i].key
    {
      assert before[k].key in EntryMap(before);
    }
    assert entries[..i + 1][..i] == before;
  }

  /** The first entry that a check refuses decides; a listed key may not come back. */
  method ReadEntries(cfg: Settings, entries: seq<CacheEntry>) returns (r: Result<Entries, ReadIssue>)
    requires |entries| <= cfg.limits.maxEntries
    ensures r.Ok? <==> EntriesFit(cfg, entries)
    ensures r.Ok? ==> r.value == EntryMap(entries)
  {
    var loaded: Entries := map[];
    for i := 0 to |entries|
      invariant EntriesFit(cfg, entries[..i]) && loaded == EntryMap(entries[..i])
    {
      var entry := entries[i];
      assert entry in entries;
      if !cfg.validKey(entry.key) {
        return Err(InvalidKeyIn);
      }
      if |entry.payload| > cfg.limits.maxEntryBytes {
        return Err(OverEntryBytes);
      }
      if entry.key in loaded {
        EntryMapKeys(entries[..i]);
        return Err(DuplicateKeyIn);
      }
      EntriesPush(cfg, entries, i);
      loaded := loaded[entry.key := entry.payload];
    }
    assert entries[..|entries|] == entries;
    r := Ok(loaded);
  }

  method ReadGeneration(cfg: Settings, generations: Directory, name: string) returns (r: Result<Entries, ReadIssue>)
    ensures r.Ok? <==> Readable(cfg, generations, name)
    ensures r.Ok? ==> r.value == EntriesOf(generations, name)
  {
    if !ValidGenerationName(name) {
      return Err(InvalidName);
    }
    if name !in generations {
      return Err(CannotOpen);
    }
    var file := generations[name];
    if file.size > cfg.limits.maxGenerationBytes {
      return Err(OverByteLimit);
    }
    if !file.contents.Encoded? {
      return Err(Undecodable);
    }
    var CacheEnvelope(checksum, body) := file.contents.envelope;
    if body.schema != cfg.schema {
      return Err(IncompatibleSchema);
    }
    if body.generation != name {
      return Err(WrongIdentity);
    }
    if |body.entries| > cfg.limits.maxEntries {
      return Err(OverEntryLimit);
    }
    if checksum != DigestOf(body) {
      return Err(WrongChecksum);
    }
    r := ReadEntries(cfg, body.entries);
  }

  // ----- listing a directory -----

  predicate Descending(a: string, b: string) {
    a == b || StrLess(b, a)
  }

  lemma DescendingOrder()
    ensures TotalPreorder(Descending)
  {
    forall a, b
      ensures Descending(a, b) || Descending(b, a)
    {
      StrLessTotal(a, b);
    }
    forall a, b, c | Descending(a, b) && Descending(b, c)
      ensures Descending(a, c)
    {
      if a != b && b != c {
        StrLessTrans(c, b, a);
      }
    }
  }

  /** The names in descending order, each once. */
  ghost predicate IsListing(list: seq<string>, names: set<string>) {
    && (forall i, j :: 0 <= i < j < |list| ==> StrLess(list[j], list[i]))
    && (forall n :: n in list <==> n in names)
  }

  lemma {:induction false} LargestExists(names: set<string>)
    requires names != {}
    ensures exists m :: m in names && forall x :: x in names ==> x == m || StrLess(x, m)
  {
    var n :| n in names;
    if names == {n} {
      assert forall x :: x in names ==> x == n;
    } else {
      LargestExists(names - {n});
      var m :| m in names - {n} && forall x :: x in names - {n} ==> x == m || StrLess(x, m);
      StrLessTotal(m, n);
      var top := if StrLess(m, n) then n else m;
      forall x | x in names
        ensures x == top || StrLess(x, top)
      {
        if x != n && x != m && top == n {
          StrLessTrans(x, m, n);
        }
      }
    }
  }

  ghost function Largest(names: set<string>): (m: string)
    requires names != {}
    ensures m in names && forall x :: x in names ==> x == m || StrLess(x, m)
  {
    LargestExists(names);
    var m :| m in names && forall x :: x in names ==> x == m || StrLess(x, m);
    m
  }

  ghost function Listing(names: set<string>): (list: seq<string>)
    ensures IsListing(list, names)
  {
    if names == {} then []
    else
      var m := Largest(names);
      var rest := Listing(names - {m});
      assert forall i :: 0 <= i < |rest| ==> rest[i] in names - {m};
      [m] + rest
  }

  lemma {:induction false} ListingUnique(a: seq<string>, b: seq<string>, names: set<string>)
    requires IsListing(a, names) && IsListing(b, names)
    ensures a == b
  {
    assert b != [] ==> b[0] in a;
    if a != [] {
      assert a[0] in b && b != [] && b[0] in a;
      var i :| 0 <= i < |b| && b[i] == a[0];
      var j :| 0 <= j < |a| && a[j] == b[0];
      if i > 0 && j > 0 {
        StrLessTrans(a[0], b[0], a[0]);
        StrLessIrreflexive(a[0]);
      }
      assert a[0] == b[0];
      TailListing(a, names);
      TailListing(b, names);
      ListingUnique(a[1..], b[1..], names - {a[0]});
    }
  }

  lemma TailListing(a: seq<string>, names: set<string>)
    requires IsListing(a, names) && a != []
    ensures IsListing(a[1..], names - {a[0]})
  {
    forall k | 1 <= k < |a|
      ensures a[k] != a[0]
    {
      StrLessIrreflexive(a[0]);
    }
    assert forall n :: n in a <==> n == a[0] || n in a[1..];
  }

  /** A name above all others comes first. */
  lemma ListingAbove(names: set<string>, top: string)
    requires forall n :: n in names ==> StrLess(n, top)
    ensures Listing(names + {top}) == [top] + Listing(names)
  {
    var list := Listing(names);
    assert forall i :: 0 <= i < |list| ==> list[i] in names;
    ListingUnique(Listing(names + {top}), [top] + list, names + {top});
  }

  ghost function Shown(directory: Directory, shows: string -> bool): (r: set<string>)
    ensures forall n :: n in r <==> n in directory && shows(n)
  {
    set n | n in directory && shows(n)
  }

  method ListFiles(directory: Directory, shows: string -> bool) returns (names: seq<string>)
    ensures names == Listing(Shown(directory, shows))
  {
    names := [];
    var rest := directory.Keys;
    while rest != {}
      invariant rest <= directory.Keys
      invariant Distinct(names)
      invariant forall n :: n in names <==> n in directory.Keys - rest && shows(n)
      decreases rest
    {
      var name :| name in rest;
      rest := rest - {name};
      if shows(name) {
        names := names + [name];
      }
    }
    ghost var found := names;
    DescendingOrder();
    SortSorted(Descending, found);
    SortDistinct(Descending, found);
    names := Sort(Descending, names);
    forall n
      ensures n in names <==> n in found
    {
      SortElements(Descending, found, n);
    }
    forall i, j | 0 <= i < j < |names|
      ensures StrLess(names[j], names[i])
    {
      assert Descending(names[i], names[j]);
    }
    ListingUnique(names, Listing(Shown(directory, shows)), Shown(directory, shows));
  }

  // ----- which generations a load tries -----

  function TrimStart(s: string): string {
    if s != [] && IsWhitespace(s[0]) then TrimStart(s[1..]) else s
  }

  function TrimEnd(s: string): string {
    if s != [] && IsWhitespace(s[|s| - 1]) then TrimEnd(s[..|s| - 1]) else s
  }

  function Trim(s: string): string {
    TrimEnd(TrimStart(s))
  }

  const MAX_MARKER_BYTES: nat := 512

  /** The generation that a marker file names, if it is short enough, readable, and names one. */
  function MarkerTarget(file: FileData): Option<string> {
    if file.size > MAX_MARKER_BYTES || !file.contents.Text? then None
    else
      var target := Trim(file.contents.text);
      if ValidGenerationName(target) then Some(target) else None
  }

  /** The targets of the listed markers, each at its first mention. */
  ghost function TargetsOf(active: Directory, markers: seq<string>): seq<string> {
    if markers == [] then []
    else
      var last := markers[|markers| - 1];
      var before := TargetsOf(active, markers[..|markers| - 1]);
      var target := if last in active then MarkerTarget(active[last]) else None;
      if target.Some? && target.value !in before then before + [target.value] else before
  }

  lemma TargetsPush(active: Directory, markers: seq<string>, i: nat)
    requires i < |markers| && markers[i] in active
    ensures var before := TargetsOf(active, markers[..i]);
            var target := MarkerTarget(active[markers[i]]);
            TargetsOf(active, markers[..i + 1]) ==
              if target.Some? && target.value !in before then before + [target.value] else before
  {
    assert markers[..i + 1][..i] == markers[..i];
  }

  method MarkerTargets(active: Directory) returns (targets: seq<string>)
    ensures targets == TargetsOf(active, Listing(Shown(active, ValidMarkerName)))
  {
    var markers := ListFiles(active, ValidMarkerName);
    targets := [];
    for i := 0 to |markers|
      invariant targets == TargetsOf(active, markers[..i])
    {
      assert markers[i] in markers;
      TargetsPush(active, markers, i);
      var target := MarkerTarget(active[markers[i]]);
      if target.Some? && target.value !in targets {
        targets := targets + [target.value];
      }
    }
    WholeTargets(active, markers);
  }

  lemma WholeTargets(active: Directory, markers: seq<string>)
    ensures TargetsOf(active, markers[..|markers|]) == TargetsOf(active, markers)
  {
    assert markers[..|markers|] == markers;
  }

  function Without(list: seq<string>, marked: seq<string>): seq<string> {
    if list == [] then []
    else if list[0] in marked then Without(list[1..], marked)
    else [list[0]] + Without(list[1..], marked)
  }

  function Take(list: seq<string>, n: nat): seq<string> {
    if |list| <= n then list else list[..n]
  }

  /** Marked generations first, newest marker first; then the others, newest first. */
  ghost function Candidates(cfg: Settings, s: Snapshot): seq<string> {
    var targets := TargetsOf(s.active, Listing(Shown(s.active, ValidMarkerName)));
    var others := Without(Listing(Shown(s.generations, ValidGenerationName)), targets);
    Take(targets + others, cfg.limits.maxGenerationFilesToScan)
  }

  ghost function FirstReadable(cfg: Settings, generations: Directory, list: seq<string>): (r: Option<string>)
    ensures r.Some? ==> r.value in list && Readable(cfg, generations, r.value)
  {
    if list == [] then None
    else if Readable(cfg, generations, list[0]) then Some(list[0])
    else FirstReadable(cfg, generations, list[1..])
  }

  ghost function Chosen(cfg: Settings, s: Snapshot): Option<string> {
    FirstReadable(cfg, s.generations, Candidates(cfg, s))
  }

  /** What a load of this directory gives its caller. */
  ghost function LoadedEntries(cfg: Settings, s: Snapshot): Entries {
    if Chosen(cfg, s).Some? then EntriesOf(s.generations, Chosen(cfg, s).value) else map[]
  }

  datatype CacheLoadStatus =
    | Empty
    | Active(generation: string)
    | Recovered(generation: string, ignored: seq<(string, ReadIssue)>)
    | Reset(ignored: seq<(string, ReadIssue)>)

  datatype CacheSnapshot = CacheSnapshot(generation: Option<string>, entries: Entries, status: CacheLoadStatus)

  method Load(cfg: Settings, s: Snapshot) returns (r: CacheSnapshot)
    ensures r.entries == LoadedEntries(cfg, s) && r.generation == Chosen(cfg, s)
    ensures r.status.Empty? <==> Candidates(cfg, s) == []
    ensures r.status.Active? <==> Candidates(cfg, s) != [] && r.generation == Some(Candidates(cfg, s)[0])
    ensures r.status.Reset? <==> Candidates(cfg, s) != [] && r.generation.None?
  {
    var generationNames := ListFiles(s.generations, ValidGenerationName);
    var targets := MarkerTargets(s.active);
    var candidates := Take(targets + Without(generationNames, targets), cfg.limits.maxGenerationFilesToScan);
    if candidates == [] {
      return CacheSnapshot(None, map[], Empty);
    }
    var issues: seq<(string, ReadIssue)> := [];
    for i := 0 to |candidates|
      invariant |issues| == i
      invariant FirstReadable(cfg, s.generations, candidates) == FirstReadable(cfg, s.generations, candidates[i..])
      invariant i > 0 ==> !Readable(cfg, s.generations, candidates[0])
    {
      var generation := candidates[i];
      var entries := ReadGeneration(cfg, s.generations, generation);
      if entries.Ok? {
        var status := if generation == candidates[0] && issues == [] then Active(generation)
          else Recovered(generation, issues);
        return CacheSnapshot(Some(generation), entries.value, status);
      }
      issues := issues + [(generation, entries.error)];
    }
    r := CacheSnapshot(None, map[], Reset(issues));
  }

  // ----- how changes to the directory change a load -----

  ghost predicate SameShown(a: Directory, b: Directory, shows: string -> bool) {
    forall n :: shows(n) ==> ((n in a <==> n in b) && (n in a ==> a[n] == b[n]))
  }

  ghost predicate SameVisible(a: Snapshot, b: Snapshot) {
    SameShown(a.generations, b.generations, ValidGenerationName) && SameShown(a.active, b.active, ValidMarkerName)
  }

  lemma {:induction false} TargetsSame(a: Directory, b: Directory, markers: seq<string>)
    requires SameShown(a, b, ValidMarkerName) && forall m :: m in markers ==> ValidMarkerName(m)
    ensures TargetsOf(a, markers) == TargetsOf(b, markers)
  {
    if markers != [] {
      assert markers[|markers| - 1] in markers;
      TargetsSame(a, b, markers[..|markers| - 1]);
    }
  }

  lemma {:induction false} FirstReadableSame(cfg: Settings, a: Directory, b: Directory, list: seq<string>)
    requires SameShown(a, b, ValidGenerationName)
    ensures FirstReadable(cfg, a, list) == FirstReadable(cfg, b, list)
  {
    if list != [] {
      FirstReadableSame(cfg, a, b, list[1..]);
    }
  }

  /** Files whose names are not valid, such as temporary ones, do not matter. */
  lemma LoadIgnoresHidden(cfg: Settings, a: Snapshot, b: Snapshot)
    requires SameVisible(a, b)
    ensures LoadedEntries(cfg, a) == LoadedEntries(cfg, b)
  {
    assert Shown(a.generations, ValidGenerationName) == Shown(b.generations, ValidGenerationName);
    assert Shown(a.active, ValidMarkerName) == Shown(b.active, ValidMarkerName);
    TargetsSame(a.active, b.active, Listing(Shown(a.active, ValidMarkerName)));
    FirstReadableSame(cfg, a.generations, b.generations, Candidates(cfg, a));
  }

  /** A list with `name` put in somewhere, cut off at the same length, chooses as before or `name`. */
  lemma {:induction false} InsertedChoice(cfg: Settings, generations: Directory, front: seq<string>, back: seq<string>,
                                          name: string, n: nat)
    requires Readable(cfg, generations, name)
    ensures var r := FirstReadable(cfg, generations, Take(front + [name] + back, n));
            r == FirstReadable(cfg, generations, Take(front + back, n)) || r == Some(name)
  {
    var with, without := Take(front + [name] + back, n), Take(front + back, n);
    if n == 0 {
      assert with == [] && without == [];
    } else if front == [] {
      assert with[0] == name;
    } else {
      InsertedChoice(cfg, generations, front[1..], back, name, n - 1);
      assert with[0] == front[0] == without[0];
      assert with[1..] == Take(front[1..] + [name] + back, n - 1);
      assert without[1..] == Take(front[1..] + back, n - 1);
    }
  }

  /** Making `name` readable changes the choice at most to `name`. */
  lemma {:induction false} ReadableChoice(cfg: Settings, a: Directory, b: Directory, name: string, list: seq<string>)
    requires forall n :: n != name ==> ((n in a <==> n in b) && (n in a ==> a[n] == b[n]))
    requires Readable(cfg, b, name)
    ensures var r := FirstReadable(cfg, b, list);
            r == FirstReadable(cfg, a, list) || r == Some(name)
  {
    if list != [] {
      ReadableChoice(cfg, a, b, name, list[1..]);
    }
  }

  /** Adding a readable generation above all others changes a load at most to that generation. */
  lemma GenerationAdded(cfg: Settings, a: Snapshot, b: Snapshot, name: string, file: FileData)
    requires b == a.(generations := a.generations[name := file]) && name !in a.generations
    requires Readable(cfg, b.generations, name)
    requires forall n :: n in a.generations && ValidGenerationName(n) ==> StrLess(n, name)
    ensures LoadedEntries(cfg, b) == LoadedEntries(cfg, a) || LoadedEntries(cfg, b) == EntriesOf(b.generations, name)
  {
    var targets := TargetsOf(a.active, Listing(Shown(a.active, ValidMarkerName)));
    var others := Without(Listing(Shown(a.generations, ValidGenerationName)), targets);
    var n := cfg.limits.maxGenerationFilesToScan;
    CandidatesAdded(cfg, a, b, name);
    ReadableChoice(cfg, a.generations, b.generations, name, Take(targets + others, n));
    InsertedChoice(cfg, b.generations, targets, others, name, n);
    SameEntries(cfg, a, b, name);
  }

  lemma CandidatesAdded(cfg: Settings, a: Snapshot, b: Snapshot, name: string)
    requires b.active == a.active && b.generations.Keys == a.generations.Keys + {name} && ValidGenerationName(name)
    requires forall n :: n in a.generations && ValidGenerationName(n) ==> StrLess(n, name)
    ensures var targets := TargetsOf(a.active, Listing(Shown(a.active, ValidMarkerName)));
            var others := Without(Listing(Shown(a.generations, ValidGenerationName)), targets);
            var n := cfg.limits.maxGenerationFilesToScan;
            && Candidates(cfg, a) == Take(targets + others, n)
            && Candidates(cfg, b) == if name in targets then Take(targets + others, n)
                                     else Take(targets + [name] + others, n)
  {
    var targets := TargetsOf(a.active, Listing(Shown(a.active, ValidMarkerName)));
    var olds := Shown(a.generations, ValidGenerationName);
    var others := Without(Listing(olds), targets);
    ShownAdded(a.generations, b.generations, name);
    ListingAbove(olds, name);
    WithoutFirst(name, Listing(olds), targets);
    Reassociate(targets, [name], others);
  }

  lemma ShownAdded(a: Directory, b: Directory, name: string)
    requires b.Keys == a.Keys + {name} && ValidGenerationName(name)
    ensures Shown(b, ValidGenerationName) == Shown(a, ValidGenerationName) + {name}
  {
  }

  lemma WithoutFirst(name: string, list: seq<string>, marked: seq<string>)
    ensures Without([name] + list, marked) ==
            if name in marked then Without(list, marked) else [name] + Without(list, marked)
  {
    assert ([name] + list)[1..] == list;
  }

  lemma SameEntries(cfg: Settings, a: Snapshot, b: Snapshot, name: string)
    requires forall n :: n != name ==> ((n in a.generations <==> n in b.generations)
                                        && (n in a.generations ==> a.generations[n] == b.generations[n]))
    requires Chosen(cfg, b) == Chosen(cfg, a) || Chosen(cfg, b) == Some(name)
    ensures LoadedEntries(cfg, b) == LoadedEntries(cfg, a) || LoadedEntries(cfg, b) == EntriesOf(b.generations, name)
  {
  }
}
