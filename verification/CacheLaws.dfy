/**
 What cache/store.rs promises of names, limits and markers, and what pruning leaves of a
 directory, stated on the files and their sizes alone.
 */
module CacheLaws {
  import opened CacheNames
  import opened CacheProtocol
  import opened CacheStore
  import opened Common
  import opened Sorting
  import opened Strings

  // ----- names -----

  /** A nonempty run of digits and dashes. */
  predicate IsToken(token: string) {
    token != "" && forall i :: 0 <= i < |token| ==> ('0' <= token[i] && token[i] <= '9') || token[i] == '-'
  }

  /** The name is the token between the two ends. */
  lemma NameBetween(name: string, prefix: string, suffix: string)
    ensures ValidName(name, prefix, suffix) <==> exists token :: IsToken(token) && name == prefix + token + suffix
  {
    if ValidName(name, prefix, suffix) {
      var token := name[|prefix|..|name| - |suffix|];
      assert name == prefix + token + suffix;
      assert forall i :: 0 <= i < |token| ==> token[i] == name[i + |prefix|];
      assert IsToken(token);
    }
    if token :| IsToken(token) && name == prefix + token + suffix {
      assert name[..|prefix|] == prefix && name[|name| - |suffix|..] == suffix;
      assert forall i :: |prefix| <= i < |name| - |suffix| ==> name[i] == token[i - |prefix|];
    }
  }

  lemma GenerationNames(name: string)
    ensures ValidGenerationName(name) <==> exists token :: IsToken(token) && name == "generation-" + token + ".json"
  {
    NameBetween(name, "generation-", ".json");
  }

  lemma MarkerNames(name: string)
    ensures ValidMarkerName(name) <==> exists token :: IsToken(token) && name == "active-" + token + ".txt"
  {
    NameBetween(name, "active-", ".txt");
  }

  /** Of two different tokens exactly one is the older: by time first, then by process, then by counter. */
  lemma OlderByFields(s: Token, t: Token)
    ensures s == t || TokenLess(s, t) || TokenLess(t, s)
    ensures TokenLess(s, t) ==> s != t && !TokenLess(t, s)
    ensures TokenLess(s, t) ==> s.time <= t.time && (s.time == t.time ==> s.process <= t.process)
  {
  }

  // ----- limits -----

  /** A cache opens under limits that allow something, and in all at least one generation of the largest size. */
  lemma LimitsByFields(limits: CacheLimits)
    ensures limits.Valid() <==>
              && limits.maxEntries > 0 && limits.maxEntryBytes > 0 && limits.maxGenerationBytes > 0
              && limits.maxTotalBytes >= limits.maxGenerationBytes
              && limits.retainedGenerations > 0 && limits.maxGenerationFilesToScan > 0
  {
  }

  // ----- markers -----

  predicate IsBlank(s: string) {
    forall i :: 0 <= i < |s| ==> IsWhitespace(s[i])
  }

  lemma {:induction false} StartTrimmed(s: string) returns (blank: string)
    ensures IsBlank(blank) && s == blank + TrimStart(s)
    ensures TrimStart(s) == "" || !IsWhitespace(TrimStart(s)[0])
    decreases |s|
  {
    if s != "" && IsWhitespace(s[0]) {
      var rest := StartTrimmed(s[1..]);
      blank := [s[0]] + rest;
      assert s == [s[0]] + (rest + TrimStart(s[1..]));
    } else {
      blank := "";
    }
  }

  lemma {:induction false} EndTrimmed(s: string) returns (blank: string)
    ensures IsBlank(blank) && s == TrimEnd(s) + blank && TrimEnd(s) <= s
    ensures TrimEnd(s) == "" || !IsWhitespace(TrimEnd(s)[|TrimEnd(s)| - 1])
    decreases |s|
  {
    if s != "" && IsWhitespace(s[|s| - 1]) {
      var front := s[..|s| - 1];
      var rest := EndTrimmed(front);
      blank := rest + [s[|s| - 1]];
      assert s == (TrimEnd(front) + rest) + [s[|s| - 1]];
    } else {
      blank := "";
    }
  }

  /** Trimming takes white space, and all of it, from both ends and nowhere else. */
  lemma TrimmedAtBothEnds(s: string) returns (before: string, behind: string)
    ensures IsBlank(before) && IsBlank(behind) && s == before + Trim(s) + behind
    ensures Trim(s) == "" || (!IsWhitespace(Trim(s)[0]) && !IsWhitespace(Trim(s)[|Trim(s)| - 1]))
  {
    before := StartTrimmed(s);
    behind := EndTrimmed(TrimStart(s));
    assert s == before + (Trim(s) + behind);
  }

  /** A marker counts when it holds at most 512 bytes of text,
    and that text is a generation name between white space. */
  lemma MarkerByFields(file: FileData, name: string)
    ensures MarkerTarget(file) == Some(name) <==>
              && file.size <= 512 && file.contents.Text? && ValidGenerationName(name)
              && Trim(file.contents.text) == name
  {
  }

  /** The listed markers that are newer than this one. */
  ghost function NewerMarkers(files: Directory, name: string): set<string> {
    set n | n in files && ValidMarkerName(n) && StrLess(name, n)
  }

  lemma NewerArePrefix(files: Directory, markers: seq<string>, k: nat)
    requires markers == Listing(Shown(files, ValidMarkerName)) && k < |markers|
    ensures Members(markers[..k]) == NewerMarkers(files, markers[k]) && |Members(markers[..k])| == k
  {
    ListingDistinct(Shown(files, ValidMarkerName));
    forall n
      ensures n in markers[..k] <==> n in NewerMarkers(files, markers[k])
    {
      if n in markers {
        var i :| 0 <= i < |markers| && markers[i] == n;
        NewerStandsBefore(markers, k, i);
      }
    }
    MembersCount(markers[..k]);
  }

  /** In a descending list the elements before `k` are the larger ones. */
  lemma NewerStandsBefore(list: seq<string>, k: nat, i: nat)
    requires k < |list| && i < |list| && forall a, b :: 0 <= a < b < |list| ==> StrLess(list[b], list[a])
    ensures list[i] in list[..k] <==> StrLess(list[k], list[i])
  {
    StrLessIrreflexive(list[k]);
    if i < k {
      assert list[..k][i] == list[i];
    } else {
      if StrLess(list[k], list[i]) && i != k {
        StrLessTrans(list[k], list[i], list[k]);
      }
      forall a | 0 <= a < k
        ensures list[..k][a] != list[i]
      {
        StrLessIrreflexive(list[a]);
      }
    }
  }

  lemma {:induction false} MembersCount(names: seq<string>)
    requires Distinct(names)
    ensures |Members(names)| == |names|
    decreases |names|
  {
    if names == [] {
      assert Members(names) == {};
    } else {
      var front, last := names[..|names| - 1], names[|names| - 1];
      assert names == front + [last] && last !in front;
      MembersCount(front);
      assert Members(names) == Members(front) + {last};
    }
  }

  /** Of the listed markers exactly the newest few stay. */
  lemma MarkersKeptExactly(files: Directory, limits: CacheLimits, name: string)
    requires name in files && ValidMarkerName(name)
    ensures name in PrunedMarkers(files, limits) <==> |NewerMarkers(files, name)| < limits.retainedGenerations
  {
    var markers, keep := Listing(Shown(files, ValidMarkerName)), limits.retainedGenerations;
    ListingDistinct(Shown(files, ValidMarkerName));
    assert name in markers;
    var k :| 0 <= k < |markers| && markers[k] == name;
    NewerArePrefix(files, markers, k);
    if |markers| > keep {
      if k >= keep {
        assert markers[keep..][k - keep] == name;
      } else {
        forall i | 0 <= i < |markers[keep..]|
          ensures markers[keep..][i] != name
        {
          assert markers[keep..][i] == markers[keep + i];
        }
      }
    }
  }

  /** What a load chooses carries the settings' schema, its own name and its digest, and fits every limit. */
  lemma ChosenIsChecked(cfg: Settings, s: Snapshot, name: string)
    requires Chosen(cfg, s) == Some(name)
    ensures name in s.generations && s.generations[name].contents.Encoded?
    ensures s.generations[name].size <= cfg.limits.maxGenerationBytes
    ensures var envelope := s.generations[name].contents.envelope; var body := envelope.body;
            && body.schema == cfg.schema && body.generation == name && envelope.bodyChecksum == DigestOf(body)
            && |body.entries| <= cfg.limits.maxEntries
            && forall i :: 0 <= i < |body.entries| ==>
                 && cfg.validKey(body.entries[i].key) && |body.entries[i].payload| <= cfg.limits.maxEntryBytes
                 && forall j :: 0 <= j < i ==> body.entries[j].key != body.entries[i].key
  {
    assert Readable(cfg, s.generations, name);
  }

  // ----- what pruning leaves -----

  /** The sizes of these files, added up. */
  ghost function Bytes(files: Directory, names: set<string>): nat
    requires forall n :: n in names ==> n in files
  {
    if names == {} then 0
    else
      var n :| n in names;
      files[n].size + Bytes(files, names - {n})
  }

  lemma {:induction false} BytesWithout(files: Directory, names: set<string>, n: string)
    requires n in names && forall m :: m in names ==> m in files
    ensures Bytes(files, names) == files[n].size + Bytes(files, names - {n})
    decreases names
  {
    var m :| m in names && Bytes(files, names) == files[m].size + Bytes(files, names - {m});
    if m != n {
      BytesWithout(files, names - {m}, n);
      BytesWithout(files, names - {n}, m);
      assert names - {m} - {n} == names - {n} - {m};
    }
  }

  lemma {:induction false} BytesOf(files: Directory, more: Directory, names: set<string>)
    requires forall n :: n in names ==> n in files && n in more && files[n] == more[n]
    ensures Bytes(files, names) == Bytes(more, names)
    decreases names
  {
    if names != {} {
      var n :| n in names;
      BytesWithout(files, names, n);
      BytesWithout(more, names, n);
      BytesOf(files, more, names - {n});
    }
  }

  /** The size of a file that is there is its size. */
  lemma SizeIsField(files: Directory, n: string)
    requires n in files
    ensures SizeOf(files, n) == files[n].size
  {
  }

  lemma {:induction false} TotalIsBytes(files: Directory, names: seq<string>)
    requires Distinct(names) && forall n :: n in names ==> n in files
    ensures TotalSize(files, names) == Bytes(files, Members(names)) && |Members(names)| == |names|
    decreases |names|
  {
    if names == [] {
      assert Members(names) == {};
    } else {
      var rest := names[1..];
      assert names == [names[0]] + rest;
      assert names[0] !in rest;
      assert Members(names) - {names[0]} == Members(rest);
      assert Members(names) == Members(rest) + {names[0]};
      TotalIsBytes(files, rest);
      SizeIsField(files, names[0]);
      BytesWithout(files, Members(names), names[0]);
    }
  }

  /** The generations that a listing shows. */
  ghost function Generations(files: Directory): set<string> {
    set n | n in files && ValidGenerationName(n)
  }

  /** The kept generation, and those that are not older than `name`. */
  ghost function NotOlder(files: Directory, keep: string, name: string): set<string> {
    set n | n in files && ValidGenerationName(n) && (n == keep || n == name || StrLess(name, n))
  }

  predicate ExceedsLimits(count: nat, bytes: nat, limits: CacheLimits) {
    count > limits.retainedGenerations || bytes > limits.maxTotalBytes
  }

  lemma {:induction false} OthersAscend(names: seq<string>, keep: string)
    requires forall i, j :: 0 <= i < j < |names| ==> StrLess(names[j], names[i])
    ensures forall i, j :: 0 <= i < j < |Others(names, keep)| ==>
      StrLess(Others(names, keep)[i], Others(names, keep)[j])
    decreases |names|
  {
    if names != [] {
      var front, last := names[..|names| - 1], names[|names| - 1];
      OthersAscend(front, keep);
      OthersAre(front, keep);
      var rest := Others(front, keep);
      forall k | 0 <= k < |rest|
        ensures StrLess(last, rest[k])
      {
        assert rest[k] in front;
      }
    }
  }

  lemma SplitBytes(files: Directory, names: seq<string>, older: seq<string>)
    requires Distinct(names) && Distinct(older) && forall n :: n in names ==> n in files
    requires forall n :: n in older ==> n in names
    ensures var rest := Members(names) - Members(older);
            && |rest| == |names| - |older| && Bytes(files, rest) == TotalSize(files, names) - TotalSize(files, older)
  {
    TotalIsBytes(files, names);
    TotalIsBytes(files, older);
    BytesSplit(files, Members(names), Members(older));
  }

  lemma {:induction false} BytesSplit(files: Directory, names: set<string>, part: set<string>)
    requires part <= names && forall n :: n in names ==> n in files
    ensures Bytes(files, names) == Bytes(files, part) + Bytes(files, names - part)
    ensures |names - part| == |names| - |part|
    decreases part
  {
    if part == {} {
      assert names - part == names;
    } else {
      var n :| n in part;
      BytesWithout(files, names, n);
      BytesWithout(files, part, n);
      BytesSplit(files, names - {n}, part - {n});
      assert names - {n} - (part - {n}) == names - part;
    }
  }

  /** The names older than the other at `j`, but for the kept one, are those before it. */
  lemma OlderArePrefix(files: Directory, keep: string, j: nat)
    requires var others := Others(Listing(Generations(files)), keep); j < |others|
    ensures var names := Listing(Generations(files)); var others := Others(names, keep);
            && Distinct(others[..j]) && (forall n :: n in others[..j] ==> n in names)
            && NotOlder(files, keep, others[j]) == Members(names) - Members(others[..j])
  {
    var names := Listing(Generations(files));
    var others := Others(names, keep);
    OthersAscend(names, keep);
    OthersAre(names, keep);
    forall a, b | 0 <= a < b < |others|
      ensures others[a] != others[b]
    {
      StrLessIrreflexive(others[a]);
    }
    forall n
      ensures n in NotOlder(files, keep, others[j]) <==> n in Members(names) - Members(others[..j])
    {
      if n in names && n != keep {
        assert n in others;
        var k :| 0 <= k < |others| && others[k] == n;
        StandsBefore(others, j, k);
      }
    }
  }

  /** In an ascending list the elements before `j` are the smaller ones. */
  lemma StandsBefore(list: seq<string>, j: nat, k: nat)
    requires j < |list| && k < |list| && forall a, b :: 0 <= a < b < |list| ==> StrLess(list[a], list[b])
    ensures list[k] in list[..j] <==> !(list[k] == list[j] || StrLess(list[j], list[k]))
  {
    StrLessIrreflexive(list[j]);
    if k < j {
      assert list[..j][k] == list[k];
      if StrLess(list[j], list[k]) {
        StrLessTrans(list[j], list[k], list[j]);
      }
    } else {
      forall a | 0 <= a < j
        ensures list[..j][a] != list[k]
      {
        StrLessIrreflexive(list[a]);
      }
    }
  }

  lemma ShownAreGenerations(files: Directory)
    ensures Shown(files, ValidGenerationName) == Generations(files)
  {
  }

  lemma {:induction false} PartOfTotal(files: Directory, names: seq<string>, i: nat, j: nat)
    requires i <= j <= |names|
    ensures TotalSize(files, names[..i]) <= TotalSize(files, names[..j])
    decreases j
  {
    if i < j {
      assert names[..j] == names[..j - 1] + [names[j - 1]];
      TotalSizeSnoc(files, names[..j - 1], names[j - 1]);
      PartOfTotal(files, names, i, j - 1);
    }
  }

  /** The others are deleted up to the first at which both limits hold for what is left. */
  lemma DoomedAt(files: Directory, names: seq<string>, others: seq<string>, limits: CacheLimits, j: nat)
    requires j < |others|
    ensures var total := TotalSize(files, names); var doomed := Doomed(others, files, |names|, total, limits);
            && doomed <= others
            && (j < |doomed| <==> !WithinLimits(|names| - j, total - TotalSize(files, others[..j]), limits))
  {
    var total := TotalSize(files, names);
    DoomedIsShortest(others, files, |names|, total, limits);
    var doomed := Doomed(others, files, |names|, total, limits);
    if j >= |doomed| {
      assert others[..|doomed|] == doomed;
      PartOfTotal(files, others, |doomed|, j);
    }
  }

  lemma NamedOnce(files: Directory, keep: string, others: seq<string>, doomed: seq<string>, j: nat)
    requires others == Others(Listing(Generations(files)), keep) && j < |others| && doomed <= others
    ensures others[j] in doomed <==> j < |doomed|
  {
    OthersAscend(Listing(Generations(files)), keep);
    forall k | 0 <= k < |doomed| && doomed[k] == others[j]
      ensures k == j
    {
      StrLessIrreflexive(others[j]);
    }
  }

  lemma ExceedsMeans(count: nat, bytes: nat, all: int, total: int, limits: CacheLimits)
    requires count == all && bytes == total
    ensures ExceedsLimits(count, bytes, limits) <==> !WithinLimits(all, total, limits)
  {
  }

  lemma DoomedExactly(files: Directory, limits: CacheLimits, names: seq<string>, others: seq<string>, j: nat,
                      older: seq<string>, rest: set<string>)
    requires Distinct(names) && (forall n :: n in names ==> n in files) && j < |others| && older == others[..j]
    requires Distinct(older) && (forall n :: n in older ==> n in names) && rest == Members(names) - Members(older)
    ensures j < |Doomed(others, files, |names|, TotalSize(files, names), limits)| <==>
              ExceedsLimits(|rest|, Bytes(files, rest), limits)
  {
    SplitBytes(files, names, older);
    ExceedsMeans(|rest|, Bytes(files, rest), |names| - j, TotalSize(files, names) - TotalSize(files, older), limits);
    DoomedAt(files, names, others, limits, j);
  }

  /**
   A generation other than the active one is deleted exactly when those that are not older
   than it, with the active one, are too many or too big: their sizes are added up as the
   directory gives them.
   */
  lemma DeletedExactly(files: Directory, keep: string, limits: CacheLimits, name: string)
    requires name in files && ValidGenerationName(name) && name != keep
    ensures var rest := NotOlder(files, keep, name);
            name !in Pruned(files, keep, limits) <==> ExceedsLimits(|rest|, Bytes(files, rest), limits)
  {
    ShownAreGenerations(files);
    var names := Listing(Generations(files));
    var others := Others(names, keep);
    var doomed := Doomed(others, files, |names|, TotalSize(files, names), limits);
    OthersAre(names, keep);
    var j :| 0 <= j < |others| && others[j] == name;
    ListingDistinct(Generations(files));
    OlderArePrefix(files, keep, j);
    DoomedExactly(files, limits, names, others, j, others[..j], NotOlder(files, keep, name));
    DoomedIsShortest(others, files, |names|, TotalSize(files, names), limits);
    NamedOnce(files, keep, others, doomed, j);
    assert name in Members(doomed) <==> name in doomed;
  }

  /** Nothing else is touched, and the active generation stays. */
  lemma OnlyGenerationsDeleted(files: Directory, keep: string, limits: CacheLimits, name: string)
    ensures name in Pruned(files, keep, limits) ==> name in files && Pruned(files, keep, limits)[name] == files[name]
    ensures name in files && (name == keep || !ValidGenerationName(name)) ==> name in Pruned(files, keep, limits)
  {
    ShownAreGenerations(files);
    var names := Listing(Generations(files));
    OthersAre(names, keep);
    DoomedIsShortest(Others(names, keep), files, |names|, TotalSize(files, names), limits);
  }

  /** Pruning leaves no more generations than the limit says, and their sizes sum to no more than the limit says. */
  lemma WhatIsLeftFits(files: Directory, keep: string, limits: CacheLimits)
    requires limits.Valid() && keep in files && ValidGenerationName(keep)
    requires files[keep].size <= limits.maxGenerationBytes
    ensures var left := Pruned(files, keep, limits);
            && |Generations(left)| <= limits.retainedGenerations
            && Bytes(left, Generations(left)) <= limits.maxTotalBytes
  {
    ShownAreGenerations(files);
    PruningMeetsLimits(files, keep, limits);
    var names := Listing(Generations(files));
    ListingDistinct(Generations(files));
    var doomed := Doomed(Others(names, keep), files, |names|, TotalSize(files, names), limits);
    var left := Pruned(files, keep, limits);
    assert Generations(left) == Members(names) - Members(doomed);
    DoomedOnce(files, keep, doomed);
    SplitBytes(files, names, doomed);
    BytesOf(files, left, Generations(left));
  }

  lemma DoomedOnce(files: Directory, keep: string, doomed: seq<string>)
    requires doomed <= Others(Listing(Generations(files)), keep)
    ensures Distinct(doomed) && forall n :: n in doomed ==> n in Listing(Generations(files))
  {
    var names := Listing(Generations(files));
    OthersAscend(names, keep);
    OthersAre(names, keep);
    forall i, j | 0 <= i < j < |doomed|
      ensures doomed[i] != doomed[j]
    {
      StrLessIrreflexive(doomed[i]);
    }
  }

  /** After an accepted commit the generations of the directory fit: the new one is there, with its entries. */
  lemma CommitLeavesWhatFits(cfg: Settings, generations: Directory, t: Token, entries: seq<CacheEntry>)
    requires cfg.limits.Valid() && Accepts(cfg, t, entries)
    ensures var name, file := GenerationName(t), NewFile(cfg, t, entries);
            var left := Pruned(generations[name := file], name, cfg.limits);
            && |Generations(left)| <= cfg.limits.retainedGenerations
            && Bytes(left, Generations(left)) <= cfg.limits.maxTotalBytes
            && name in left && left[name] == file
  {
    CommitNamesValid(t);
    var name, files := GenerationName(t), generations[GenerationName(t) := NewFile(cfg, t, entries)];
    WhatIsLeftFits(files, name, cfg.limits);
    OnlyGenerationsDeleted(files, name, cfg.limits, name);
  }
}
