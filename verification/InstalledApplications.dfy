/** The application catalog: entries that mean the same launch are merged into one. */
module InstalledApplications {
  import opened Text
  import opened Applications

  // ---- Keys ----

  function Backslashes(s: string): (t: string)
    ensures |t| == |s|
  {
    seq(|s|, i requires 0 <= i < |s| => if s[i] == '/' then '\\' else s[i])
  }

  function WithoutSeparators(s: string): (t: string)
    ensures t <= s && (|t| <= 3 || t[|t| - 1] != '\\') && (t == "" <==> s == "")
  {
    if |s| > 3 && s[|s| - 1] == '\\' then WithoutSeparators(s[..|s| - 1]) else s
  }

  /** Directories that differ in case, slashes or trailing separators only have the same key. */
  function DirectoryKey(lower: char -> char, directory: string): (key: string)
    ensures key == "" <==> directory == ""
  {
    Lower(lower, WithoutSeparators(Backslashes(directory)))
  }

  method MakeDirectoryKey(lower: char -> char, directory: string) returns (key: string)
    ensures key == DirectoryKey(lower, directory)
  {
    key := Backslashes(directory);
    while |key| > 3 && key[|key| - 1] == '\\'
      invariant WithoutSeparators(key) == WithoutSeparators(Backslashes(directory))
    {
      key := key[..|key| - 1];
    }
    key := Lower(lower, key);
  }

  predicate IsSeparator(c: char) {
    c == '/' || c == '\\'
  }

  /** The first k characters are the directory without the separators after it; a drive keeps its own. */
  ghost predicate IsStem(directory: string, k: nat) {
    && k <= |directory| && (k == |directory| || k >= 3)
    && (forall i :: k <= i < |directory| ==> IsSeparator(directory[i]))
    && (k <= 3 || !IsSeparator(directory[k - 1]))
  }

  /** Two characters that mean the same in a directory. */
  predicate SameInPath(lower: char -> char, c: char, d: char) {
    (IsSeparator(c) && IsSeparator(d)) || (!IsSeparator(c) && !IsSeparator(d) && lower(c) == lower(d))
  }

  /** Lower-casing leaves separators alone and makes none. */
  ghost predicate KeepsSeparators(lower: char -> char) {
    lower('\\') == '\\' && forall c :: lower(c) == '\\' ==> c == '\\'
  }

  lemma StemLength(s: string)
    ensures IsStem(s, |WithoutSeparators(Backslashes(s))|)
    ensures WithoutSeparators(Backslashes(s)) == Backslashes(s[..|WithoutSeparators(Backslashes(s))|])
  {
    StemOf(s, Backslashes(s));
  }

  lemma {:induction false} StemOf(s: string, t: string)
    requires t <= Backslashes(s)
    requires IsStem(s, |t|) || (|t| > 3 && forall i :: |t| <= i < |s| ==> IsSeparator(s[i]))
    ensures IsStem(s, |WithoutSeparators(t)|) && WithoutSeparators(t) <= Backslashes(s)
    decreases |t|
  {
    if |t| > 3 && t[|t| - 1] == '\\' {
      StemOf(s, t[..|t| - 1]);
    }
  }

  /** Two directories have the same key exactly if they are the same up to case, slashes, and separators at the end. */
  lemma SameDirectoryKey(lower: char -> char, x: string, j: nat, y: string, k: nat)
    requires KeepsSeparators(lower) && IsStem(x, j) && IsStem(y, k)
    ensures DirectoryKey(lower, x) == DirectoryKey(lower, y) <==>
      j == k && forall i :: 0 <= i < j ==> SameInPath(lower, x[i], y[i])
  {
    StemLength(x);
    StemLength(y);
    hide WithoutSeparators;
    StemIsUnique(x, j, |WithoutSeparators(Backslashes(x))|);
    StemIsUnique(y, k, |WithoutSeparators(Backslashes(y))|);
    var a, b := Backslashes(x[..j]), Backslashes(y[..k]);
    assert DirectoryKey(lower, x) == Lower(lower, a) && DirectoryKey(lower, y) == Lower(lower, b);
    hide IsStem, DirectoryKey;
    forall i | 0 <= i < j && i < k ensures lower(a[i]) == lower(b[i]) <==> SameInPath(lower, x[i], y[i]) {
    }
    if Lower(lower, a) == Lower(lower, b) {
      assert j == |Lower(lower, a)| == |Lower(lower, b)| == k;
      forall i | 0 <= i < j ensures SameInPath(lower, x[i], y[i]) {
        assert Lower(lower, a)[i] == Lower(lower, b)[i];
      }
    }
  }

  lemma StemIsUnique(s: string, j: nat, k: nat)
    requires IsStem(s, j) && IsStem(s, k)
    ensures j == k
  {
  }

  /** Arguments can depend on case, so only the target is lower-cased. */
  function KeyOf(lower: char -> char, app: Application): string {
    Lower(lower, Backslashes(if app.IsPackaged() then "app:" + app.aumid else "exe:" + app.path))
      + if app.IsPackaged() then "" else "\n" + app.arguments
  }

  /** Lower-casing keeps the two kinds of keys apart. */
  predicate TellsApart(lower: char -> char) {
    lower('a') != lower('e')
  }

  lemma SameKeySameKind(lower: char -> char, x: Application, y: Application)
    requires TellsApart(lower) && KeyOf(lower, x) == KeyOf(lower, y)
    ensures x.IsPackaged() <==> y.IsPackaged()
  {
    assert KeyOf(lower, x)[0] == lower(if x.IsPackaged() then 'a' else 'e');
    assert KeyOf(lower, y)[0] == lower(if y.IsPackaged() then 'a' else 'e');
  }

  /** The same place but for case and the kind of slash. */
  predicate SamePath(lower: char -> char, x: string, y: string) {
    |x| == |y| && forall i | 0 <= i < |x| :: SameInPath(lower, x[i], y[i])
  }

  lemma LoweredPath(lower: char -> char, x: string, y: string)
    requires KeepsSeparators(lower)
    ensures Lower(lower, Backslashes(x)) == Lower(lower, Backslashes(y)) <==> SamePath(lower, x, y)
  {
    var a, b := Backslashes(x), Backslashes(y);
    SameLowered(lower, a, b);
    hide Lower;
    if SameLetters(lower, a, b) {
      forall i | 0 <= i < |x| ensures SameInPath(lower, x[i], y[i]) {
        assert lower(a[i]) == lower(b[i]);
      }
    }
  }

  /** No line break in a path, and none comes from lower-casing. */
  ghost predicate OneLine(lower: char -> char, path: string) {
    (forall c :: lower(c) == '\n' ==> c == '\n') && '\n' !in path
  }

  /** The text in front of the first line break decides, and so does the text behind it. */
  lemma CutAtBreak(a: string, x: string, b: string, y: string)
    requires '\n' !in a && '\n' !in b
    ensures a + "\n" + x == b + "\n" + y <==> a == b && x == y
  {
    var s, t := a + "\n" + x, b + "\n" + y;
    FirstBreakAt(a, x);
    FirstBreakAt(b, y);
    if s == t {
      assert |a| == |b|;
      assert s[..|a|] == a && t[..|b|] == b && s[|a| + 1..] == x && t[|b| + 1..] == y;
    }
  }

  lemma FirstBreakAt(a: string, x: string)
    requires '\n' !in a
    ensures (a + "\n" + x)[|a|] == '\n' && forall i :: 0 <= i < |a| ==> (a + "\n" + x)[i] != '\n'
  {
  }

  lemma LoweredInOneLine(lower: char -> char, path: string)
    requires OneLine(lower, path)
    ensures '\n' !in Lower(lower, Backslashes(path))
  {
  }

  /** Two applications mean the same launch exactly if they are the same packaged one, or the same program with the same arguments. */
  lemma SameKeyMeans(lower: char -> char, x: Application, y: Application)
    requires TellsApart(lower) && KeepsSeparators(lower) && OneLine(lower, x.path) && OneLine(lower, y.path)
    ensures KeyOf(lower, x) == KeyOf(lower, y) <==>
      if x.aumid != "" then y.aumid != "" && SamePath(lower, x.aumid, y.aumid)
      else y.aumid == "" && SamePath(lower, x.path, y.path) && x.arguments == y.arguments
  {
    if KeyOf(lower, x) == KeyOf(lower, y) {
      SameKeySameKind(lower, x, y);
    }
    if x.aumid != "" && y.aumid != "" {
      LoweredPath(lower, "app:" + x.aumid, "app:" + y.aumid);
      SamePathBehind(lower, "app:", x.aumid, y.aumid);
      assert KeyOf(lower, x) == Lower(lower, Backslashes("app:" + x.aumid));
      assert KeyOf(lower, y) == Lower(lower, Backslashes("app:" + y.aumid));
    } else if x.aumid == "" && y.aumid == "" {
      var a, b := Lower(lower, Backslashes("exe:" + x.path)), Lower(lower, Backslashes("exe:" + y.path));
      LoweredPath(lower, "exe:" + x.path, "exe:" + y.path);
      SamePathBehind(lower, "exe:", x.path, y.path);
      LoweredInOneLine(lower, "exe:" + x.path);
      LoweredInOneLine(lower, "exe:" + y.path);
      assert KeyOf(lower, x) == a + "\n" + x.arguments && KeyOf(lower, y) == b + "\n" + y.arguments;
      hide Lower, Backslashes, SamePath, KeyOf;
      CutAtBreak(a, x.arguments, b, y.arguments);
    }
  }

  lemma SamePathBehind(lower: char -> char, front: string, x: string, y: string)
    ensures SamePath(lower, front + x, front + y) <==> SamePath(lower, x, y)
  {
    if SamePath(lower, front + x, front + y) {
      forall i | 0 <= i < |x| ensures SameInPath(lower, x[i], y[i]) {
        assert (front + x)[|front| + i] == x[i] && (front + y)[|front| + i] == y[i];
        assert SameInPath(lower, (front + x)[|front| + i], (front + y)[|front| + i]);
      }
    }
  }

  // ---- Merging two entries ----

  predicate SameSource(lower: char -> char, x: Source, y: Source) {
    x.kind == y.kind && Lower(lower, x.path) == Lower(lower, y.path)
  }

  lemma SameSourceMeans(lower: char -> char, x: Source, y: Source)
    ensures SameSource(lower, x, y) <==> x.kind == y.kind && SameLetters(lower, x.path, y.path)
  {
    SameLowered(lower, x.path, y.path);
  }

  ghost predicate HasSource(lower: char -> char, sources: seq<Source>, origin: Source) {
    exists j :: 0 <= j < |sources| && SameSource(lower, sources[j], origin)
  }

  /** Nothing is lost, nothing is invented, and what was there keeps its place. */
  ghost predicate MergedSources(lower: char -> char, before: seq<Source>, more: seq<Source>, now: seq<Source>) {
    && before <= now
    && (forall j :: 0 <= j < |more| ==> HasSource(lower, now, more[j]))
    && (forall j :: |before| <= j < |now| ==> now[j] in more)
    && (forall j :: |before| <= j < |now| ==> !HasSource(lower, now[..j], now[j]))
  }

  /** Adds the sources that are not there yet. */
  function Union(lower: char -> char, before: seq<Source>, more: seq<Source>): seq<Source> {
    if more == [] then before
    else
      var front, last := Union(lower, before, more[..|more| - 1]), more[|more| - 1];
      if Known(lower, front, last) then front else front + [last]
  }

  predicate Known(lower: char -> char, sources: seq<Source>, origin: Source) {
    exists j | 0 <= j < |sources| :: SameSource(lower, sources[j], origin)
  }

  lemma {:induction false} UnionMerges(lower: char -> char, before: seq<Source>, more: seq<Source>)
    ensures MergedSources(lower, before, more, Union(lower, before, more))
    decreases |more|
  {
    if more != [] {
      var front, last := Union(lower, before, more[..|more| - 1]), more[|more| - 1];
      var now := Union(lower, before, more);
      UnionMerges(lower, before, more[..|more| - 1]);
      forall j | 0 <= j < |more| ensures HasSource(lower, now, more[j]) {
        if j < |more| - 1 {
          assert HasSource(lower, front, more[..|more| - 1][j]);
          var k :| 0 <= k < |front| && SameSource(lower, front[k], more[j]);
          assert SameSource(lower, now[k], more[j]);
        } else if now != front {
          assert SameSource(lower, now[|now| - 1], last);
        }
      }
      forall j | |before| <= j < |now| ensures now[j] in more && !HasSource(lower, now[..j], now[j]) {
        if j < |front| {
          assert now[..j] == front[..j];
        } else {
          assert now[..j] == front;
        }
      }
    }
  }

  method MergeSources(lower: char -> char, before: seq<Source>, more: seq<Source>) returns (now: seq<Source>)
    ensures now == Union(lower, before, more)
  {
    now := before;
    for i := 0 to |more|
      invariant now == Union(lower, before, more[..i])
    {
      assert more[..i + 1][..i] == more[..i];
      var found := false;
      var j := 0;
      while j < |now| && !found
        invariant 0 <= j <= |now|
        invariant found ==> Known(lower, now, more[i])
        invariant !found ==> forall k :: 0 <= k < j ==> !SameSource(lower, now[k], more[i])
      {
        found := SameSource(lower, now[j], more[i]);
        j := j + 1;
      }
      if !found {
        now := now + [more[i]];
      }
    }
    assert more[..|more|] == more;
  }

  // ---- Adding one entry ----

  /** The two stand for the same launch, or for all one can tell. */
  predicate Mergeable(lower: char -> char, existing: Application, app: Application) {
    || app.IsPackaged() || app.workingDirectory == "" || existing.workingDirectory == ""
    || DirectoryKey(lower, app.workingDirectory) == DirectoryKey(lower, existing.workingDirectory)
  }

  predicate Matches(lower: char -> char, existing: Application, app: Application) {
    KeyOf(lower, existing) == KeyOf(lower, app) && Mergeable(lower, existing, app)
  }

  function Merge(lower: char -> char, existing: Application, app: Application): Application {
    existing.(workingDirectory := if existing.workingDirectory == "" then app.workingDirectory else existing.workingDirectory,
              sources := Union(lower, existing.sources, app.sources))
  }

  /** The first entry to merge with; the number of entries if there is none. */
  function FirstMatch(lower: char -> char, entries: seq<Application>, app: Application): (p: nat)
    ensures p <= |entries| && (p < |entries| ==> Matches(lower, entries[p], app))
    ensures forall q :: 0 <= q < p ==> !Matches(lower, entries[q], app)
    decreases |entries|
  {
    if entries == [] then 0
    else
      var p := FirstMatch(lower, entries[..|entries| - 1], app);
      if p < |entries| - 1 || Matches(lower, entries[p], app) then p else p + 1
  }

  function AddTo(lower: char -> char, entries: seq<Application>, app: Application): seq<Application> {
    var p := FirstMatch(lower, entries, app);
    if p < |entries| then entries[p := Merge(lower, entries[p], app)] else entries + [app]
  }

  lemma FirstMatchKey(lower: char -> char, entries: seq<Application>, app: Application)
    requires FirstMatch(lower, entries, app) < |entries|
    ensures KeyOf(lower, entries[FirstMatch(lower, entries, app)]) == KeyOf(lower, app)
  {
  }

  /** Entries with the same key are different launches, as far as one can tell. */
  ghost predicate Apart(lower: char -> char, x: Application, y: Application) {
    KeyOf(lower, x) == KeyOf(lower, y) ==>
      && !x.IsPackaged() && !y.IsPackaged() && x.workingDirectory != "" && y.workingDirectory != ""
      && DirectoryKey(lower, x.workingDirectory) != DirectoryKey(lower, y.workingDirectory)
  }

  ghost predicate AllApart(lower: char -> char, entries: seq<Application>) {
    forall i, j :: 0 <= i < j < |entries| ==> Apart(lower, entries[i], entries[j])
  }

  lemma AddKeepsApart(lower: char -> char, entries: seq<Application>, app: Application)
    requires TellsApart(lower) && AllApart(lower, entries)
    ensures AllApart(lower, AddTo(lower, entries, app))
  {
    hide KeyOf, DirectoryKey;
    var p, now := FirstMatch(lower, entries, app), AddTo(lower, entries, app);
    forall i, j | 0 <= i < j < |now| ensures Apart(lower, now[i], now[j]) {
      if j < |entries| {
        assert Apart(lower, entries[i], entries[j]);
        if p < |entries| {
          MergeKeepsKey(lower, entries[p], app);
        }
      } else if KeyOf(lower, entries[i]) == KeyOf(lower, app) {
        SameKeySameKind(lower, entries[i], app);
        assert !Matches(lower, entries[i], app);
      }
    }
  }

  lemma MergeKeepsKey(lower: char -> char, existing: Application, app: Application)
    ensures KeyOf(lower, Merge(lower, existing, app)) == KeyOf(lower, existing)
  {
  }

  // ---- Deduplicating a list ----

  function Deduplicated(lower: char -> char, apps: seq<Application>): seq<Application> {
    if apps == [] then []
    else AddTo(lower, Deduplicated(lower, apps[..|apps| - 1]), apps[|apps| - 1])
  }

  lemma {:induction false} DeduplicatedApart(lower: char -> char, apps: seq<Application>)
    requires TellsApart(lower)
    ensures AllApart(lower, Deduplicated(lower, apps))
    decreases |apps|
  {
    if apps != [] {
      DeduplicatedApart(lower, apps[..|apps| - 1]);
      AddKeepsApart(lower, Deduplicated(lower, apps[..|apps| - 1]), apps[|apps| - 1]);
    }
  }

  lemma {:induction false} ApartStays(lower: char -> char, entries: seq<Application>)
    requires AllApart(lower, entries)
    ensures Deduplicated(lower, entries) == entries
    decreases |entries|
  {
    hide KeyOf, DirectoryKey;
    if entries != [] {
      var front, last := entries[..|entries| - 1], entries[|entries| - 1];
      assert AllApart(lower, front) by {
        forall i, j | 0 <= i < j < |front| ensures Apart(lower, front[i], front[j]) {
          assert Apart(lower, entries[i], entries[j]);
        }
      }
      ApartStays(lower, front);
      forall q | 0 <= q < |front| ensures !Matches(lower, front[q], last) {
        assert Apart(lower, entries[q], last);
      }
      assert entries == front + [last];
    }
  }

  lemma DeduplicateTwice(lower: char -> char, apps: seq<Application>)
    requires TellsApart(lower)
    ensures Deduplicated(lower, Deduplicated(lower, apps)) == Deduplicated(lower, apps)
  {
    DeduplicatedApart(lower, apps);
    ApartStays(lower, Deduplicated(lower, apps));
  }

  // ---- Sources ----

  /** The entry launches what the application launches and knows all of its sources. */
  ghost predicate Represents(lower: char -> char, entry: Application, app: Application) {
    && KeyOf(lower, entry) == KeyOf(lower, app)
    && (app.workingDirectory != "" && !app.IsPackaged() ==>
          DirectoryKey(lower, entry.workingDirectory) == DirectoryKey(lower, app.workingDirectory))
    && forall j :: 0 <= j < |app.sources| ==> HasSource(lower, entry.sources, app.sources[j])
  }

  ghost predicate Represented(lower: char -> char, entries: seq<Application>, app: Application) {
    exists i :: 0 <= i < |entries| && Represents(lower, entries[i], app)
  }

  lemma MergeStillRepresents(lower: char -> char, entry: Application, app: Application, other: Application)
    requires Represents(lower, entry, app) && Matches(lower, entry, other)
    ensures Represents(lower, Merge(lower, entry, other), app)
  {
    hide KeyOf, DirectoryKey, Lower;
    var now := Merge(lower, entry, other);
    MergeKeepsKey(lower, entry, other);
    UnionMerges(lower, entry.sources, other.sources);
    forall j | 0 <= j < |app.sources| ensures HasSource(lower, now.sources, app.sources[j]) {
      assert HasSource(lower, entry.sources, app.sources[j]);
      var k :| 0 <= k < |entry.sources| && SameSource(lower, entry.sources[k], app.sources[j]);
      assert now.sources[k] == entry.sources[k];
    }
    KeyOfDirectory(lower, app.workingDirectory);
    KeyOfDirectory(lower, entry.workingDirectory);
  }

  lemma KeyOfDirectory(lower: char -> char, directory: string)
    ensures DirectoryKey(lower, directory) == "" <==> directory == ""
  {
  }

  lemma MergeRepresents(lower: char -> char, entry: Application, app: Application)
    requires Matches(lower, entry, app)
    ensures Represents(lower, Merge(lower, entry, app), app)
  {
    hide KeyOf, DirectoryKey, Lower;
    MergeKeepsKey(lower, entry, app);
    UnionMerges(lower, entry.sources, app.sources);
  }

  /** Every application is still there after deduplication, with all of its sources. */
  lemma {:induction false} NothingIsLost(lower: char -> char, apps: seq<Application>, i: nat)
    requires i < |apps|
    ensures Represented(lower, Deduplicated(lower, apps), apps[i])
    decreases |apps|
  {
    hide KeyOf, DirectoryKey, Represents, Matches, Merge;
    var before, last := Deduplicated(lower, apps[..|apps| - 1]), apps[|apps| - 1];
    var now, p := Deduplicated(lower, apps), FirstMatch(lower, before, last);
    if i < |apps| - 1 {
      NothingIsLost(lower, apps[..|apps| - 1], i);
      var k :| 0 <= k < |before| && Represents(lower, before[k], apps[i]);
      if k == p {
        MergeStillRepresents(lower, before[p], apps[i], last);
      }
      assert Represents(lower, now[k], apps[i]);
    } else if p < |before| {
      MergeRepresents(lower, before[p], last);
      assert Represents(lower, now[p], last);
    } else {
      ItselfRepresents(lower, last);
      assert Represents(lower, now[|before|], last);
    }
  }

  lemma ItselfRepresents(lower: char -> char, app: Application)
    ensures Represents(lower, app, app)
  {
    forall j | 0 <= j < |app.sources| ensures HasSource(lower, app.sources, app.sources[j]) {
      assert SameSource(lower, app.sources[j], app.sources[j]);
    }
  }

  /** The entry is this application, with more sources and perhaps a directory that another one has brought. */
  ghost predicate IsEntryFor(entry: Application, app: Application) {
    && entry.name == app.name && entry.path == app.path && entry.aumid == app.aumid && entry.arguments == app.arguments
    && entry.icon == app.icon && app.sources <= entry.sources
    && (app.workingDirectory != "" ==> entry.workingDirectory == app.workingDirectory)
  }

  /** Every entry is one of the applications, and keeps its name, target, arguments and icon. */
  lemma {:induction false} EntryIsApplication(lower: char -> char, apps: seq<Application>, k: nat)
    requires k < |Deduplicated(lower, apps)|
    ensures exists i :: 0 <= i < |apps| && IsEntryFor(Deduplicated(lower, apps)[k], apps[i])
    decreases |apps|
  {
    hide KeyOf, Matches, Union;
    var front, last := apps[..|apps| - 1], apps[|apps| - 1];
    var before, now := Deduplicated(lower, front), Deduplicated(lower, apps);
    if k < |before| {
      EntryIsApplication(lower, front, k);
      var i :| 0 <= i < |front| && IsEntryFor(before[k], front[i]);
      UnionMerges(lower, before[k].sources, last.sources);
      assert apps[i] == front[i] && IsEntryFor(now[k], apps[i]);
    } else {
      assert IsEntryFor(now[k], apps[|apps| - 1]);
    }
  }

  ghost predicate ComesFrom(lower: char -> char, apps: seq<Application>, entry: Application, source: Source) {
    exists i :: 0 <= i < |apps| && KeyOf(lower, apps[i]) == KeyOf(lower, entry) && source in apps[i].sources
  }

  lemma ComesFromLonger(lower: char -> char, apps: seq<Application>, entry: Application, source: Source)
    requires apps != [] && ComesFrom(lower, apps[..|apps| - 1], entry, source)
    ensures ComesFrom(lower, apps, entry, source)
  {
    var front := apps[..|apps| - 1];
    var i :| 0 <= i < |front| && KeyOf(lower, front[i]) == KeyOf(lower, entry) && source in front[i].sources;
    assert apps[i] == front[i];
  }

  /** Every source of an entry belongs to an application that means the same launch. */
  lemma {:induction false} NothingIsInvented(lower: char -> char, apps: seq<Application>, k: nat, source: Source)
    requires k < |Deduplicated(lower, apps)| && source in Deduplicated(lower, apps)[k].sources
    ensures ComesFrom(lower, apps, Deduplicated(lower, apps)[k], source)
    decreases |apps|
  {
    hide KeyOf, Matches, Union;
    var before, last := Deduplicated(lower, apps[..|apps| - 1]), apps[|apps| - 1];
    var now, p := Deduplicated(lower, apps), FirstMatch(lower, before, last);
    if k < |before| {
      MergeKeepsKey(lower, before[k], last);
      UnionMerges(lower, before[k].sources, last.sources);
      if source in before[k].sources {
        NothingIsInvented(lower, apps[..|apps| - 1], k, source);
        assert KeyOf(lower, now[k]) == KeyOf(lower, before[k]);
        ComesFromLonger(lower, apps, now[k], source);
      } else {
        FirstMatchKey(lower, before, last);
        assert k == p && source in last.sources;
      }
    }
  }

  // ---- Icons ----

  function IconOf(app: Application): multiset<Icon> {
    if app.icon == 0 then multiset{} else multiset{app.icon}
  }

  /** The icon handles that a list of applications owns. */
  function Icons(apps: seq<Application>): multiset<Icon> {
    if apps == [] then multiset{} else Icons(apps[..|apps| - 1]) + IconOf(apps[|apps| - 1])
  }

  lemma {:induction false} IconsUpdate(apps: seq<Application>, p: nat, app: Application)
    requires p < |apps| && app.icon == apps[p].icon
    ensures Icons(apps[p := app]) == Icons(apps)
    decreases |apps|
  {
    if p < |apps| - 1 {
      assert apps[p := app][..|apps| - 1] == apps[..|apps| - 1][p := app];
      IconsUpdate(apps[..|apps| - 1], p, app);
    } else {
      assert apps[p := app][..|apps| - 1] == apps[..|apps| - 1];
    }
  }

  lemma IconsSnoc(apps: seq<Application>, app: Application)
    ensures Icons(apps + [app]) == Icons(apps) + IconOf(app)
  {
    assert (apps + [app])[..|apps|] == apps;
  }

  /** The icon of a new entry is kept with it, and is the spare one otherwise. */
  lemma AddToIcons(lower: char -> char, entries: seq<Application>, app: Application)
    ensures var merged := FirstMatch(lower, entries, app) < |entries|;
            Icons(AddTo(lower, entries, app)) + (if merged then IconOf(app) else multiset{}) == Icons(entries) + IconOf(app)
  {
    var p := FirstMatch(lower, entries, app);
    if p < |entries| {
      IconsUpdate(entries, p, Merge(lower, entries[p], app));
    } else {
      IconsSnoc(entries, app);
    }
  }

  /** The icons that are owned or destroyed afterwards are those from before and the application's own. */
  ghost predicate Balanced(was: seq<Application>, spent: multiset<Icon>, app: Application, now: seq<Application>, destroyed: multiset<Icon>) {
    Icons(now) + destroyed == Icons(was) + spent + IconOf(app)
  }

  lemma AddBalances(lower: char -> char, entries: seq<Application>, app: Application, spent: multiset<Icon>)
    ensures var merged := FirstMatch(lower, entries, app) < |entries|;
            Balanced(entries, spent, app, AddTo(lower, entries, app), spent + if merged then IconOf(app) else multiset{})
  {
    AddToIcons(lower, entries, app);
    var gone := if FirstMatch(lower, entries, app) < |entries| then IconOf(app) else multiset{};
    var now := Icons(AddTo(lower, entries, app));
    hide Icons, IconOf, AddTo;
    assert now + (spent + gone) == spent + (now + gone);
  }

  // ---- The catalog and its index ----

  type CatalogIndex = map<string, seq<nat>>

  function Positions(seen: CatalogIndex, key: string): seq<nat> {
    if key in seen then seen[key] else []
  }

  /** Under each key are the positions of its entries, in ascending order. */
  ghost predicate Indexed(lower: char -> char, entries: seq<Application>, seen: CatalogIndex, key: string) {
    var ps := Positions(seen, key);
    && (forall i, j :: 0 <= i < j < |ps| ==> ps[i] < ps[j])
    && (forall i :: 0 <= i < |ps| ==> ps[i] < |entries| && KeyOf(lower, entries[ps[i]]) == key)
    && (forall p :: 0 <= p < |entries| && KeyOf(lower, entries[p]) == key ==> p in ps)
  }

  ghost predicate AllIndexed(lower: char -> char, entries: seq<Application>, seen: CatalogIndex) {
    forall key :: Indexed(lower, entries, seen, key)
  }

  lemma MergedIndex(lower: char -> char, entries: seq<Application>, seen: CatalogIndex, p: nat, app: Application)
    requires AllIndexed(lower, entries, seen) && p < |entries| && KeyOf(lower, app) == KeyOf(lower, entries[p])
    ensures AllIndexed(lower, entries[p := app], seen)
  {
    hide KeyOf;
    var now := entries[p := app];
    forall key ensures Indexed(lower, now, seen, key) {
      assert Indexed(lower, entries, seen, key);
    }
  }

  lemma LongerOther(lower: char -> char, entries: seq<Application>, seen: CatalogIndex, app: Application, now: CatalogIndex, key: string)
    requires Indexed(lower, entries, seen, key) && key != KeyOf(lower, app) && Positions(now, key) == Positions(seen, key)
    ensures Indexed(lower, entries + [app], now, key)
  {
    hide KeyOf, Positions;
  }

  lemma LongerOwn(lower: char -> char, entries: seq<Application>, seen: CatalogIndex, app: Application, now: CatalogIndex, key: string)
    requires Indexed(lower, entries, seen, key) && key == KeyOf(lower, app)
    requires Positions(now, key) == Positions(seen, key) + [|entries|]
    ensures Indexed(lower, entries + [app], now, key)
  {
    hide KeyOf, Positions;
    var was, ps, all := Positions(seen, key), Positions(now, key), entries + [app];
    forall p | 0 <= p < |all| && KeyOf(lower, all[p]) == key ensures p in ps {
      if p < |entries| {
        assert p in was;
      } else {
        assert ps[|was|] == p;
      }
    }
  }

  lemma LongerIndex(lower: char -> char, entries: seq<Application>, seen: CatalogIndex, app: Application)
    requires AllIndexed(lower, entries, seen)
    ensures var key := KeyOf(lower, app);
            AllIndexed(lower, entries + [app], seen[key := Positions(seen, key) + [|entries|]])
  {
    hide KeyOf;
    var mine := KeyOf(lower, app);
    var now := seen[mine := Positions(seen, mine) + [|entries|]];
    hide Indexed;
    forall key ensures Indexed(lower, entries + [app], now, key) {
      assert Indexed(lower, entries, seen, key);
      if key == mine {
        LongerOwn(lower, entries, seen, app, now, key);
      } else {
        LongerOther(lower, entries, seen, app, now, key);
      }
    }
  }

  /** What is not among the candidates does not match either. */
  lemma NoneBefore(lower: char -> char, entries: seq<Application>, seen: CatalogIndex, app: Application, i: nat)
    requires Indexed(lower, entries, seen, KeyOf(lower, app)) && i <= |Positions(seen, KeyOf(lower, app))|
    requires var ps := Positions(seen, KeyOf(lower, app));
             forall k :: 0 <= k < i ==> !Matches(lower, entries[ps[k]], app)
    ensures var ps := Positions(seen, KeyOf(lower, app));
            forall q :: 0 <= q < (if i < |ps| then ps[i] else |entries|) ==> !Matches(lower, entries[q], app)
  {
    hide KeyOf, Mergeable, Positions;
    var key := KeyOf(lower, app);
    var ps := Positions(seen, key);
    forall q | 0 <= q < (if i < |ps| then ps[i] else |entries|) ensures !Matches(lower, entries[q], app) {
      if KeyOf(lower, entries[q]) == key {
        assert q in ps;
        var k :| 0 <= k < |ps| && ps[k] == q;
      }
    }
  }

  class Catalog {
    const lower: char -> char
    var entries: seq<Application>
    var seen: CatalogIndex
    /** The icon handles that have been destroyed, each as often as that has been done. */
    ghost var destroyed: multiset<Icon>

    ghost predicate Valid()
      reads this
    {
      AllIndexed(lower, entries, seen)
    }

    constructor (lower: char -> char)
      ensures Valid() && entries == [] && destroyed == multiset{} && this.lower == lower
    {
      this.lower := lower;
      entries, seen, destroyed := [], map[], multiset{};
    }

    /** The first of the entries under the key that the application can be merged with. */
    method FindCandidate(app: Application, key: string) returns (p: nat)
      requires Valid() && key == KeyOf(lower, app)
      ensures p == FirstMatch(lower, entries, app)
    {
      var candidates := Positions(seen, key);
      var directory := MakeDirectoryKey(lower, app.workingDirectory);
      assert Indexed(lower, entries, seen, key);
      hide KeyOf, DirectoryKey;
      for i := 0 to |candidates|
        invariant forall k :: 0 <= k < i ==> !Matches(lower, entries[candidates[k]], app)
      {
        var existing := entries[candidates[i]];
        var existingKey := MakeDirectoryKey(lower, existing.workingDirectory);
        KeyOfDirectory(lower, app.workingDirectory);
        if app.IsPackaged() || directory == "" || existing.workingDirectory == "" || directory == existingKey {
          NoneBefore(lower, entries, seen, app, i);
          return candidates[i];
        }
      }
      NoneBefore(lower, entries, seen, app, |candidates|);
      return |entries|;
    }

    /** Adds an application or merges it with an entry; either way it no longer owns an icon. */
    method Add(app: Application) returns (rest: Application)
      requires Valid()
      modifies this`entries, this`seen, this`destroyed
      ensures Valid() && entries == AddTo(lower, old(entries), app) && rest == app.(icon := 0)
      ensures Balanced(old(entries), old(destroyed), app, entries, destroyed)
    {
      var key := KeyOf(lower, app);
      var p := FindCandidate(app, key);
      AddBalances(lower, entries, app, destroyed);
      hide KeyOf, AllIndexed, Mergeable, FirstMatch, Union, IconOf, Balanced, Matches;
      destroyed := destroyed + if p < |entries| then IconOf(app) else multiset{};
      if p < |entries| {
        FirstMatchKey(lower, entries, app);
        var merged := MergeInto(entries[p], app);
        MergeKeepsKey(lower, entries[p], app);
        MergedIndex(lower, entries, seen, p, merged);
        hide Merge;
        entries := entries[p := merged];
      } else {
        LongerIndex(lower, entries, seen, app);
        seen := seen[key := Positions(seen, key) + [|entries|]];
        entries := entries + [app];
      }
      rest := app.(icon := 0);
    }

    method MergeInto(existing: Application, app: Application) returns (merged: Application)
      ensures merged == Merge(lower, existing, app)
    {
      var directory := if existing.workingDirectory == "" && app.workingDirectory != "" then app.workingDirectory
                       else existing.workingDirectory;
      var sources := MergeSources(lower, existing.sources, app.sources);
      merged := existing.(workingDirectory := directory, sources := sources);
    }
  }

  /** Every icon of the applications is owned by an entry or has been destroyed. */
  ghost predicate AccountedFor(entries: seq<Application>, destroyed: multiset<Icon>, apps: seq<Application>) {
    Icons(entries) + destroyed == Icons(apps)
  }

  lemma OneMore(lower: char -> char, apps: seq<Application>, i: nat, was: seq<Application>, spent: multiset<Icon>,
      now: seq<Application>, destroyed: multiset<Icon>)
    requires i < |apps| && was == Deduplicated(lower, apps[..i]) && now == AddTo(lower, was, apps[i])
    requires AccountedFor(was, spent, apps[..i])
    requires Balanced(was, spent, apps[i], now, destroyed)
    ensures now == Deduplicated(lower, apps[..i + 1]) && AccountedFor(now, destroyed, apps[..i + 1])
  {
    hide AddTo;
    assert apps[..i + 1][..i] == apps[..i];
    assert apps[..i + 1] == apps[..i] + [apps[i]];
    IconsSnoc(apps[..i], apps[i]);
  }

  /** Merges what means the same; every icon is owned by one entry afterwards or has been destroyed once. */
  method Deduplicate(lower: char -> char, applications: seq<Application>)
      returns (unique: seq<Application>, ghost destroyed: multiset<Icon>)
    ensures unique == Deduplicated(lower, applications)
    ensures Icons(unique) + destroyed == Icons(applications)
  {
    var catalog := new Catalog(lower);
    for i := 0 to |applications|
      invariant catalog.Valid() && catalog.lower == lower && fresh(catalog)
      invariant catalog.entries == Deduplicated(lower, applications[..i])
      invariant AccountedFor(catalog.entries, catalog.destroyed, applications[..i])
    {
      hide AllIndexed, AddTo, AccountedFor, Deduplicated, Icons, Balanced;
      ghost var was, spent := catalog.entries, catalog.destroyed;
      var rest := catalog.Add(applications[i]);
      OneMore(lower, applications, i, was, spent, catalog.entries, catalog.destroyed);
    }
    assert applications[..|applications|] == applications;
    unique, destroyed := catalog.entries, catalog.destroyed;
  }
}
