/** The filter-driver query of `git_command.rs`: reading git's listing, and the stamped cache. */
module GitFilters {
  import opened Basics
  import opened Text

  type Path = string
  /** Nanoseconds on the system clock. */
  type Time = int

  const RACY_CONFIG_WINDOW: Time := 2_000_000_000
  const FILTER_CACHE_CAPACITY: nat := 64

  /** What the program takes from outside: UTF-8 checking, the home directory and path arithmetic. */
  datatype Host = Host(
    utf8: string -> bool,
    home: Option<Path>,
    join: (Path, string) -> Path,
    parent: Path -> Option<Path>,
    absolute: string -> bool)

  datatype FileStamp = FileStamp(len: nat, modified: Option<Time>, inode: nat)

  /** One setting of a configuration file; a key may stand without a value. */
  datatype Setting = Setting(key: string, value: Option<string>)

  /** One record of the listing: its scope, the file it came from, and the setting. */
  datatype Record = Record(scope: string, origin: string, setting: Setting)

  datatype FilterListing = FilterListing(drivers: set<string>, watched: Option<set<Path>>)

  // ----- reading the listing -----

  /** Git's `-z` output for one setting: the key, then a newline and the value if there is one. */
  function SettingText(s: Setting): (r: string) {
    match s.value
    case None => s.key
    case Some(v) => s.key + "\n" + v
  }

  function ParseSetting(text: string): (r: Setting) {
    var k := IndexOf(text, '\n');
    if k == |text| then Setting(text, None) else Setting(text[..k], Some(text[k + 1..]))
  }

  /** Git's `--show-scope --show-origin -z` output: three NUL-terminated fields a record. */
  function Render(records: seq<Record>): (r: string) {
    if records == [] then []
    else records[0].scope + "\0" + records[0].origin + "\0" + SettingText(records[0].setting) + "\0"
         + Render(records[1..])
  }

  /** Whole triples of fields; a shorter rest is dropped. */
  function Triples(fields: seq<string>): (r: seq<Record>) {
    if |fields| < 3 then []
    else [Record(fields[0], fields[1], ParseSetting(fields[2]))] + Triples(fields[3..])
  }

  function ParseRecords(listing: string): (r: seq<Record>) {
    Triples(SplitOn(listing, '\0'))
  }

  predicate WellFormedRecord(r: Record) {
    && '\0' !in r.scope && '\0' !in r.origin && '\0' !in SettingText(r.setting)
    && '\n' !in r.setting.key
  }

  lemma SettingRoundTrip(s: Setting)
    requires '\n' !in s.key
    ensures ParseSetting(SettingText(s)) == s
  {
    match s.value
    case None => IndexOfNone(s.key, '\n');
    case Some(v) =>
      IndexOfFirst(s.key, v, '\n');
      assert SettingText(s)[..|s.key|] == s.key && SettingText(s)[|s.key| + 1..] == v;
  }

  lemma TriplesOfFour(scope: string, origin: string, text: string, rest: seq<string>)
    ensures Triples([scope] + ([origin] + ([text] + rest)))
         == [Record(scope, origin, ParseSetting(text))] + Triples(rest)
  {
    var fields := [scope] + ([origin] + ([text] + rest));
    assert fields[3..] == rest;
  }

  lemma RenderHead(r: Record, rest: string)
    requires WellFormedRecord(r)
    ensures ParseRecords(r.scope + "\0" + r.origin + "\0" + SettingText(r.setting) + "\0" + rest)
         == [r] + ParseRecords(rest)
  {
    var text := SettingText(r.setting);
    var third := text + "\0" + rest;
    var second := r.origin + "\0" + third;
    var all := r.scope + "\0" + second;
    assert all == r.scope + "\0" + r.origin + "\0" + text + "\0" + rest;
    SplitHead(r.scope, second, '\0');
    SplitHead(r.origin, third, '\0');
    SplitHead(text, rest, '\0');
    TriplesOfFour(r.scope, r.origin, text, SplitOn(rest, '\0'));
    SettingRoundTrip(r.setting);
  }

  /** Whatever git lists is read back record by record, values with newlines included. */
  lemma {:induction false} ListingRoundTrip(records: seq<Record>)
    requires forall r :: r in records ==> WellFormedRecord(r)
    ensures ParseRecords(Render(records)) == records
  {
    if records == [] {
      assert SplitOn("", '\0') == [""];
    } else {
      RenderHead(records[0], Render(records[1..]));
      ListingRoundTrip(records[1..]);
    }
  }

  predicate IsRepositoryScope(scope: string) {
    scope == "local" || scope == "worktree"
  }

  /** `filter.<driver>.<setting>`: the driver may itself contain dots. */
  function DriverOf(key: string): (r: Option<string>) {
    if StartsWith(key, "filter.") then BeforeLast(key[7..], '.') else None
  }

  datatype IncludeTarget = NotAnInclude | File(path: Path) | Uncacheable

  predicate IsConditionalInclude(key: string) {
    && StartsWith(key, "includeif.")
    && EndsWith(key[10..], ".path")
  }

  function Condition(key: string): (r: string)
    requires IsConditionalInclude(key)
  {
    key[10..|key| - 5]
  }

  /** Conditions whose truth depends on more than the watched files. */
  predicate IsUncacheableCondition(condition: string) {
    StartsWith(condition, "onbranch:") || StartsWith(condition, "hasconfig:")
  }

  function IncludeTargetOf(host: Host, setting: Setting, originFile: Path): (r: IncludeTarget) {
    var key := setting.key;
    if key != "include.path" && !IsConditionalInclude(key) then NotAnInclude
    else if key != "include.path" && IsUncacheableCondition(Condition(key)) then Uncacheable
    else if setting.value.None? || !host.utf8(setting.value.value) then Uncacheable
    else
      var path := setting.value.value;
      if StartsWith(path, "~/") then
        if host.home.None? then Uncacheable else File(host.join(host.home.value, path[2..]))
      else if StartsWith(path, "~") || StartsWith(path, "%(") then Uncacheable
      else if host.absolute(path) then File(path)
      else match host.parent(originFile)
        case None => Uncacheable
        case Some(dir) => File(host.join(dir, path))
  }

  /** The file a record came from, when its origin names one under `base`. */
  function OriginFile(host: Host, origin: string, base: Path): (r: Option<Path>) {
    if host.utf8(origin) && StartsWith(origin, "file:") then Some(host.join(base, origin[5..])) else None
  }

  /** The files one record makes the cache watch, or None when it makes the listing uncacheable. */
  function WatchedBy(host: Host, r: Record, base: Path, isFile: Path -> bool): (result: Option<set<Path>>) {
    match OriginFile(host, r.origin, base)
    case None => None
    case Some(file) =>
      if !isFile(file) then None
      else match IncludeTargetOf(host, r.setting, file)
        case Uncacheable => None
        case NotAnInclude => if r.setting.key == "extensions.worktreeconfig" then None else Some({file})
        case File(target) => Some({file, target})
  }

  // ----- what a listing means, said of its records as a whole -----

  ghost function Repository(records: seq<Record>): (r: set<Record>) {
    set r | r in records && IsRepositoryScope(r.scope)
  }

  ghost function Drivers(records: set<Record>): (r: set<string>) {
    set r | r in records && DriverOf(r.setting.key).Some? :: DriverOf(r.setting.key).value
  }

  ghost function Watched(host: Host, records: set<Record>, base: Option<Path>, isFile: Path -> bool)
    : (r: Option<set<Path>>)
  {
    if base.None? || exists r :: r in records && WatchedBy(host, r, base.value, isFile).None? then None
    else Some(set r, p | r in records && p in WatchedBy(host, r, base.value, isFile).value :: p)
  }

  /** None is the error for a setting whose name is not UTF-8. */
  ghost function Listing(host: Host, records: seq<Record>, base: Option<Path>, isFile: Path -> bool)
    : (r: Option<FilterListing>)
  {
    var wanted := Repository(records);
    if exists r :: r in wanted && !host.utf8(r.setting.key) then None
    else Some(FilterListing(Drivers(wanted), Watched(host, wanted, base, isFile)))
  }

  // ----- what the parts of a listing say -----

  /** A setting names a driver exactly when its key is `filter.`, the driver, a dot and a name without one. */
  lemma DriverOfIsExact(key: string, driver: string)
    ensures DriverOf(key) == Some(driver) <==> exists name :: '.' !in name && key == "filter." + driver + "." + name
  {
    if DriverOf(key) == Some(driver) {
      BeforeLastIs(key[7..], '.');
      var name :| '.' !in name && key[7..] == driver + ['.'] + name;
      assert key == "filter." + driver + "." + name;
    }
    if name :| '.' !in name && key == "filter." + driver + "." + name {
      assert key[..7] == "filter." && key[7..] == driver + ['.'] + name;
      BeforeLastAt(driver, '.', name);
    }
  }

  /** The drivers of a listing are those that a local or a worktree setting names; no other scope adds any. */
  lemma DriversAreExact(records: seq<Record>, driver: string)
    ensures driver in Drivers(Repository(records)) <==>
              exists r :: r in records && (r.scope == "local" || r.scope == "worktree")
                          && DriverOf(r.setting.key) == Some(driver)
  {
    if driver in Drivers(Repository(records)) {
      var r :| r in Repository(records) && DriverOf(r.setting.key) == Some(driver);
      assert r in records && (r.scope == "local" || r.scope == "worktree");
    }
    if r :| r in records && (r.scope == "local" || r.scope == "worktree") && DriverOf(r.setting.key) == Some(driver) {
      assert r in Repository(records);
    }
  }

  /** A listing is refused exactly for a local or worktree setting whose name is not UTF-8. */
  lemma RefusalIsExact(host: Host, records: seq<Record>, base: Option<Path>, isFile: Path -> bool)
    ensures Listing(host, records, base, isFile).None? <==>
              exists r :: r in records && (r.scope == "local" || r.scope == "worktree") && !host.utf8(r.setting.key)
  {
    forall r
      ensures r in Repository(records) <==> r in records && (r.scope == "local" || r.scope == "worktree")
    {
    }
  }

  /** The origins that name a file. */
  lemma OriginsAreFiles(host: Host, path: string, base: Path)
    ensures OriginFile(host, "file:" + path, base)
         == if host.utf8("file:" + path) then Some(host.join(base, path)) else None
    ensures !StartsWith(path, "file:") ==> OriginFile(host, path, base) == None
  {
    var origin := "file:" + path;
    assert origin[..5] == "file:" && origin[5..] == path;
  }

  /** A key with a condition between `includeif.` and `.path`. */
  function ConditionalKey(condition: string): (key: string) {
    "includeif." + condition + ".path"
  }

  lemma ConditionIsRead(condition: string)
    ensures IsConditionalInclude(ConditionalKey(condition)) && Condition(ConditionalKey(condition)) == condition
    ensures ConditionalKey(condition) != "include.path"
  {
    var key := ConditionalKey(condition);
    assert key[..10] == "includeif." && key[10..] == condition + ".path";
    assert key[10..][|condition|..] == ".path" && key[10..|key| - 5] == condition;
    assert "include.path"[7] != key[7];
  }

  lemma ConditionalKeys(key: string)
    requires IsConditionalInclude(key)
    ensures key == ConditionalKey(Condition(key))
  {
    assert key == key[..10] + key[10..];
    assert key[10..] == key[10..|key| - 5] + key[|key| - 5..];
  }

  /** What an include's value names: a path in the home directory, an absolute path, or one beside the including file;
      other users' homes, git's own prefixes and values that are missing or not UTF-8 cannot be cached. */
  ghost predicate ValueNames(host: Host, value: Option<string>, originFile: Path, target: IncludeTarget) {
    match value
    case None => target == Uncacheable
    case Some(path) =>
      if !host.utf8(path) then target == Uncacheable
      else if path == "" || (path[0] != '~' && (|path| < 2 || path[..2] != "%(")) then
        (host.absolute(path) ==> target == File(path))
        && (!host.absolute(path) ==>
              target == if host.parent(originFile).Some? then File(host.join(host.parent(originFile).value, path))
                        else Uncacheable)
      else if path[0] == '~' && |path| > 1 && path[1] == '/' && host.home.Some? then
        target == File(host.join(host.home.value, path[2..]))
      else target == Uncacheable
  }

  /** Plain includes and includes on a condition that cannot turn by itself name what their value names; those on a
      branch or on remote configuration cannot be cached; nothing else is an include. */
  lemma IncludesAreExact(host: Host, key: string, value: Option<string>, originFile: Path)
    ensures var target := IncludeTargetOf(host, Setting(key, value), originFile);
            && (key == "include.path" ==> ValueNames(host, value, originFile, target))
            && (forall condition {:trigger ConditionalKey(condition)} :: key == ConditionalKey(condition) ==>
                  if StartsWith(condition, "onbranch:") || StartsWith(condition, "hasconfig:") then
                    target == Uncacheable
                  else ValueNames(host, value, originFile, target))
            && (key != "include.path" && (forall condition :: key != ConditionalKey(condition)) ==>
                  target == NotAnInclude)
  {
    if IsConditionalInclude(key) {
      ConditionalKeys(key);
    }
    forall condition | key == ConditionalKey(condition)
      ensures IsConditionalInclude(key) && Condition(key) == condition && key != "include.path"
    {
      ConditionIsRead(condition);
    }
  }

  /** What a listing can be watched for: every repository record comes from a file that is there, includes what can be
      cached, and does not turn on the worktree's configuration. Then those files and their includes are watched. */
  lemma WatchedIsExact(host: Host, records: seq<Record>, base: Path, isFile: Path -> bool)
    ensures var watched := Watched(host, Repository(records), Some(base), isFile);
            && (watched.Some? <==>
                  forall r :: r in records && (r.scope == "local" || r.scope == "worktree") ==>
                    CanBeWatched(host, r, base, isFile))
            && (watched.Some? ==> forall p :: p in watched.value <==>
                  exists r :: r in records && (r.scope == "local" || r.scope == "worktree")
                              && WatchesFor(host, r, base, p))
  {
    forall r
      ensures WatchedBy(host, r, base, isFile).Some? <==> CanBeWatched(host, r, base, isFile)
    {
      WatchedByIsExact(host, r, base, isFile);
    }
    forall r | WatchedBy(host, r, base, isFile).Some?
      ensures forall p :: p in WatchedBy(host, r, base, isFile).value <==> WatchesFor(host, r, base, p)
    {
      WatchedByIsExact(host, r, base, isFile);
    }
    forall r
      ensures r in Repository(records) <==> r in records && (r.scope == "local" || r.scope == "worktree")
    {
    }
  }

  ghost predicate CanBeWatched(host: Host, r: Record, base: Path, isFile: Path -> bool) {
    && OriginFile(host, r.origin, base).Some?
    && isFile(OriginFile(host, r.origin, base).value)
    && !IncludeTargetOf(host, r.setting, OriginFile(host, r.origin, base).value).Uncacheable?
    && r.setting.key != "extensions.worktreeconfig"
  }

  ghost predicate WatchesFor(host: Host, r: Record, base: Path, p: Path) {
    || OriginFile(host, r.origin, base) == Some(p)
    || (OriginFile(host, r.origin, base).Some?
        && IncludeTargetOf(host, r.setting, OriginFile(host, r.origin, base).value) == File(p))
  }

  lemma WatchedByIsExact(host: Host, r: Record, base: Path, isFile: Path -> bool)
    ensures var watched := WatchedBy(host, r, base, isFile);
            && (watched.Some? <==> CanBeWatched(host, r, base, isFile))
            && (watched.Some? ==> forall p :: p in watched.value <==> WatchesFor(host, r, base, p))
  {
    assert "extensions.worktreeconfig"[0] == 'e';
  }

  lemma RepositoryAppend(records: seq<Record>, r: Record)
    ensures Repository(records + [r])
         == if IsRepositoryScope(r.scope) then Repository(records) + {r} else Repository(records)
  {
    assert forall x :: x in records + [r] <==> x in records || x == r;
  }

  lemma DriversAppend(records: set<Record>, r: Record)
    ensures Drivers(records + {r})
         == Drivers(records) + match DriverOf(r.setting.key) case None => {} case Some(d) => {d}
  {
  }

  lemma WatchedAppend(host: Host, records: set<Record>, r: Record, base: Option<Path>, isFile: Path -> bool)
    ensures Watched(host, records + {r}, base, isFile)
         == if Watched(host, records, base, isFile).None? || WatchedBy(host, r, base.value, isFile).None? then None
            else Some(Watched(host, records, base, isFile).value + WatchedBy(host, r, base.value, isFile).value)
  {
    if base.Some? {
      assert r in records + {r};
      forall x | x in records ensures x in records + {r} {
      }
      var more := Watched(host, records + {r}, base, isFile);
      if Watched(host, records, base, isFile).Some? && WatchedBy(host, r, base.value, isFile).Some? {
        forall x | x in records + {r} ensures WatchedBy(host, x, base.value, isFile).Some? {
        }
        assert more.value == Watched(host, records, base, isFile).value + WatchedBy(host, r, base.value, isFile).value;
      }
    }
  }

  /** One repository record's effect on the watched files. */
  method WatchRecord(host: Host, r: Record, files: set<Path>, base: Path, isFile: Path -> bool)
    returns (watched: Option<set<Path>>)
    ensures watched == match WatchedBy(host, r, base, isFile) case None => None case Some(more) => Some(files + more)
  {
    var originFile := OriginFile(host, r.origin, base);
    if originFile.None? || !isFile(originFile.value) {
      return None;
    }
    var more := files;
    match IncludeTargetOf(host, r.setting, originFile.value) {
      case NotAnInclude =>
      case File(target) => more := more + {target};
      case Uncacheable => return None;
    }
    if r.setting.key == "extensions.worktreeconfig" {
      return None;
    }
    more := more + {originFile.value};
    assert WatchedBy(host, r, base, isFile).Some? ==> more == files + WatchedBy(host, r, base, isFile).value;
    return Some(more);
  }

  /** The empty listing, and one more record at the end of a listing. */
  lemma ListingAppend(host: Host, records: seq<Record>, r: Record, base: Option<Path>, isFile: Path -> bool)
    ensures Drivers(Repository([])) == {}
    ensures Watched(host, Repository([]), base, isFile) == if base.Some? then Some({}) else None
    ensures !IsRepositoryScope(r.scope) ==> Repository(records + [r]) == Repository(records)
    ensures IsRepositoryScope(r.scope) ==>
      var was := Watched(host, Repository(records), base, isFile);
      && Repository(records + [r]) == Repository(records) + {r}
      && Drivers(Repository(records + [r]))
         == Drivers(Repository(records)) + (match DriverOf(r.setting.key) case None => {} case Some(d) => {d})
      && Watched(host, Repository(records + [r]), base, isFile)
         == if was.None? || WatchedBy(host, r, base.value, isFile).None? then None
            else Some(was.value + WatchedBy(host, r, base.value, isFile).value)
  {
    assert Repository([]) == {};
    assert base.Some? ==> Watched(host, {}, base, isFile).value == {};
    RepositoryAppend(records, r);
    DriversAppend(Repository(records), r);
    WatchedAppend(host, Repository(records), r, base, isFile);
  }

  /** The listing loop: one pass over the records, giving up on watching at the first record it cannot watch. */
  method RepositoryFilterListing(host: Host, listing: string, base: Option<Path>, isFile: Path -> bool)
    returns (result: Option<FilterListing>)
    ensures result == Listing(host, ParseRecords(listing), base, isFile)
  {
    var drivers: set<string> := {};
    var watched: Option<set<Path>> := if base.Some? then Some({}) else None;
    var records := ParseRecords(listing);
    ListingAppend(host, [], Record("", "", Setting("", None)), base, isFile);
    assert records[..0] == [];
    for i := 0 to |records|
      invariant forall r :: r in Repository(records[..i]) ==> host.utf8(r.setting.key)
      invariant drivers == Drivers(Repository(records[..i]))
      invariant watched == Watched(host, Repository(records[..i]), base, isFile)
    {
      var r := records[i];
      assert records[..i + 1] == records[..i] + [r];
      ListingAppend(host, records[..i], r, base, isFile);
      if IsRepositoryScope(r.scope) {
        if !host.utf8(r.setting.key) {
          assert r in Repository(records);
          return None;
        }
        var driver := DriverOf(r.setting.key);
        if driver.Some? {
          drivers := drivers + {driver.value};
        }
        if watched.Some? {
          watched := WatchRecord(host, r, watched.value, base.value, isFile);
        }
      }
    }
    assert records[..|records|] == records;
    return Some(FilterListing(drivers, watched));
  }

  // ----- the cache -----

  datatype CachedFilters = CachedFilters(
    localConfig: Path,
    watched: seq<(Path, Option<FileStamp>)>,
    drivers: set<string>)

  type Entries = map<Path, CachedFilters>

  /** A stamp too fresh to prove that the file was not rewritten while git read it. */
  predicate IsRacy(stamp: Option<FileStamp>, queriedAt: Time) {
    stamp.Some? && (stamp.value.modified.None? || stamp.value.modified.value >= queriedAt - RACY_CONFIG_WINDOW)
  }

  predicate StampsHold(watched: seq<(Path, Option<FileStamp>)>, observed: Path -> Option<FileStamp>) {
    forall w :: w in watched ==> observed(w.0) == w.1
  }

  predicate RecordsStamps(watched: seq<(Path, Option<FileStamp>)>, files: set<Path>,
                          observed: Path -> Option<FileStamp>)
  {
    && (forall w :: w in watched ==> w.0 in files)
    && (forall p :: p in files ==> (p, observed(p)) in watched)
    && StampsHold(watched, observed)
  }

  /** The entries after remembering: nothing is stored if a location or a stamp cannot be trusted. */
  ghost predicate Remembers(before: Entries, after: Entries, cwd: Path, localConfig: Option<Path>, watched: set<Path>,
                            drivers: set<string>, queriedAt: Time, observed: Path -> Option<FileStamp>)
  {
    if localConfig.None? || exists p :: p in watched + {localConfig.value} && IsRacy(observed(p), queriedAt) then
      after == before
    else
      var kept := if |before| >= FILTER_CACHE_CAPACITY && cwd !in before then map[] else before;
      && after.Keys == kept.Keys + {cwd}
      && (forall k :: k in kept && k != cwd ==> after[k] == kept[k])
      && after[cwd].localConfig == localConfig.value
      && after[cwd].drivers == drivers
      && RecordsStamps(after[cwd].watched, watched + {localConfig.value}, observed)
  }

  /** The cache never holds more than 64 directories. */
  lemma CacheStaysSmall(before: Entries, after: Entries, cwd: Path, localConfig: Option<Path>, watched: set<Path>,
                        drivers: set<string>, queriedAt: Time, observed: Path -> Option<FileStamp>)
    requires Remembers(before, after, cwd, localConfig, watched, drivers, queriedAt, observed) && |before| <= 64
    ensures |after| <= 64
  {
    if after != before {
      var kept := if |before| >= 64 && cwd !in before then map[] else before;
      assert after.Keys == kept.Keys + {cwd};
      if cwd in before {
        assert after.Keys == before.Keys;
      }
    }
  }

  function LookUp(entries: Entries, cwd: Path, localConfig: Option<Path>, observed: Path -> Option<FileStamp>)
    : (r: Option<set<string>>)
  {
    if localConfig.None? || cwd !in entries then None
    else
      var held := entries[cwd];
      if held.localConfig == localConfig.value && StampsHold(held.watched, observed) then Some(held.drivers) else None
  }

  class FilterCache {
    var entries: Entries

    constructor ()
      ensures entries == map[]
    {
      entries := map[];
    }

    /** `localConfig` and `observed` are what the file system answered when asked. */
    method CachedFilterDrivers(cwd: Path, localConfig: Option<Path>, observed: Path -> Option<FileStamp>)
      returns (drivers: Option<set<string>>)
      ensures drivers == LookUp(entries, cwd, localConfig, observed)
    {
      if localConfig.None? || cwd !in entries {
        return None;
      }
      var held := entries[cwd];
      if held.localConfig != localConfig.value {
        return None;
      }
      for i := 0 to |held.watched|
        invariant forall w :: w in held.watched[..i] ==> observed(w.0) == w.1
      {
        if observed(held.watched[i].0) != held.watched[i].1 {
          return None;
        }
      }
      assert held.watched[..|held.watched|] == held.watched;
      return Some(held.drivers);
    }

    method RememberFilterDrivers(cwd: Path, localConfig: Option<Path>, watched: set<Path>, drivers: set<string>,
                                 queriedAt: Time, observed: Path -> Option<FileStamp>)
      modifies this
      ensures Remembers(old(entries), entries, cwd, localConfig, watched, drivers, queriedAt, observed)
    {
      if localConfig.None? {
        return;
      }
      var files := watched + {localConfig.value};
      var stamps: seq<(Path, Option<FileStamp>)> := [];
      var rest := files;
      while rest != {}
        invariant rest <= files
        invariant RecordsStamps(stamps, files - rest, observed)
        invariant forall p :: p in files - rest ==> !IsRacy(observed(p), queriedAt)
        decreases rest
      {
        var path :| path in rest;
        var stamp := observed(path);
        if IsRacy(stamp, queriedAt) {
          assert path in watched + {localConfig.value};
          return;
        }
        var before := stamps;
        stamps := stamps + [(path, stamp)];
        rest := rest - {path};
        assert forall w :: w in stamps <==> w in before || w == (path, stamp);
      }
      assert files - rest == files;
      if |entries| >= FILTER_CACHE_CAPACITY && cwd !in entries {
        entries := map[];
      }
      entries := entries[cwd := CachedFilters(localConfig.value, stamps, drivers)];
    }

    /** Git's answer read, and remembered when it was an answer and everything it rests on can be watched. */
    method QueryFilterDrivers(host: Host, listing: string, answered: bool, cwd: Option<Path>, base: Option<Path>,
                              isFile: Path -> bool, localConfig: Option<Path>, started: Time,
                              observed: Path -> Option<FileStamp>)
      returns (drivers: Option<set<string>>)
      modifies this
      ensures var read := Listing(host, ParseRecords(listing), base, isFile);
              && (drivers == if read.None? then None else Some(read.value.drivers))
              && (if read.Some? && answered && cwd.Some? && read.value.watched.Some? then
                    Remembers(old(entries), entries, cwd.value, localConfig, read.value.watched.value,
                              read.value.drivers, started, observed)
                  else entries == old(entries))
    {
      var read := RepositoryFilterListing(host, listing, base, isFile);
      if read.None? {
        return None;
      }
      if answered && cwd.Some? && read.value.watched.Some? {
        RememberFilterDrivers(cwd.value, localConfig, read.value.watched.value, read.value.drivers, started, observed);
      }
      return Some(read.value.drivers);
    }
  }

  // ----- neutralizing the drivers of one command -----

  const NEUTRALIZED_FILTER_SETTINGS: seq<(string, string)> :=
    [("clean", ""), ("smudge", ""), ("process", ""), ("required", "false")]

  function NeutralSetting(driver: string, k: nat): (r: (string, string))
    requires k < 4
  {
    ("filter." + driver + "." + NEUTRALIZED_FILTER_SETTINGS[k].0, NEUTRALIZED_FILTER_SETTINGS[k].1)
  }

  type Environment = map<string, string>

  const COUNT_NAME := "GIT_CONFIG_COUNT"

  function KeyName(n: nat): (name: string) {
    "GIT_CONFIG_KEY_" + Decimal(n)
  }

  function ValueName(n: nat): (name: string) {
    "GIT_CONFIG_VALUE_" + Decimal(n)
  }

  function Entered(env: Environment, n: nat, setting: (string, string)): (r: Environment) {
    env[KeyName(n) := setting.0][ValueName(n) := setting.1]
  }

  function Numbered(env: Environment, settings: seq<(string, string)>, first: nat): (r: Environment)
    decreases |settings|
  {
    if settings == [] then env
    else
      var n := |settings| - 1;
      Entered(Numbered(env, settings[..n], first), first + n, settings[n])
  }

  function Overridden(env: Environment, settings: seq<(string, string)>, inherited: nat): (r: Environment) {
    var numbered := Numbered(env, settings, inherited);
    if settings == [] then numbered else numbered[COUNT_NAME := Decimal(inherited + |settings|)]
  }

  lemma NamesDiffer(m: nat, n: nat)
    ensures KeyName(m) != ValueName(n) && KeyName(m) != COUNT_NAME && ValueName(m) != COUNT_NAME
    ensures m != n ==> KeyName(m) != KeyName(n) && ValueName(m) != ValueName(n)
  {
    assert KeyName(m)[11] == 'K' && ValueName(n)[11] == 'V' && ValueName(m)[11] == 'V' && COUNT_NAME[11] == 'C';
    assert KeyName(m)[|"GIT_CONFIG_KEY_"|..] == Decimal(m) && KeyName(n)[|"GIT_CONFIG_KEY_"|..] == Decimal(n);
    assert ValueName(m)[|"GIT_CONFIG_VALUE_"|..] == Decimal(m) && ValueName(n)[|"GIT_CONFIG_VALUE_"|..] == Decimal(n);
  }

  predicate IsNumberedName(name: string, first: nat, count: nat) {
    exists j :: first <= j < first + count && (name == KeyName(j) || name == ValueName(j))
  }

  /** Setting `n` stands under its number. */
  ghost predicate Stands(env: Environment, n: nat, setting: (string, string)) {
    var key, value := KeyName(n), ValueName(n);
    key in env && value in env && env[key] == setting.0 && env[value] == setting.1
  }

  lemma EntryStands(env: Environment, n: nat, setting: (string, string))
    ensures Stands(Entered(env, n, setting), n, setting)
  {
    NamesDiffer(n, n);
  }

  lemma EntryStays(env: Environment, n: nat, setting: (string, string), m: nat, other: (string, string))
    requires Stands(env, m, other) && m != n
    ensures Stands(Entered(env, n, setting), m, other)
  {
    NamesDiffer(m, n);
    NamesDiffer(n, m);
  }

  lemma {:induction false} NumberedStands(env: Environment, settings: seq<(string, string)>, first: nat, j: nat)
    requires j < |settings|
    ensures Stands(Numbered(env, settings, first), first + j, settings[j])
    decreases |settings|
  {
    var n := |settings| - 1;
    var before := Numbered(env, settings[..n], first);
    if j == n {
      EntryStands(before, first + n, settings[n]);
    } else {
      NumberedStands(env, settings[..n], first, j);
      EntryStays(before, first + n, settings[n], first + j, settings[j]);
    }
  }

  lemma {:induction false} NumberedElsewhere(env: Environment, settings: seq<(string, string)>, first: nat,
                                             name: string)
    requires !IsNumberedName(name, first, |settings|)
    ensures var r := Numbered(env, settings, first);
            (name in r <==> name in env) && (name in r ==> r[name] == env[name])
    decreases |settings|
  {
    if settings != [] {
      var n := |settings| - 1;
      assert first <= first + n < first + |settings|;
      NumberedElsewhere(env, settings[..n], first, name);
    }
  }

  /** Every override stands under its own number, counted on from the inherited ones, and git is told how many there
      are; nothing else changes, and without any driver nothing does. */
  lemma OverridesStand(env: Environment, settings: seq<(string, string)>, inherited: nat, name: string, j: nat)
    ensures var r := Overridden(env, settings, inherited);
            && (j < |settings| ==> Stands(r, inherited + j, settings[j]))
            && (settings != [] ==> COUNT_NAME in r && r[COUNT_NAME] == Decimal(inherited + |settings|))
            && (settings == [] ==> r == env)
            && (name != COUNT_NAME && !IsNumberedName(name, inherited, |settings|) ==>
                  (name in r <==> name in env) && (name in r ==> r[name] == env[name]))
  {
    if j < |settings| {
      NumberedStands(env, settings, inherited, j);
      NamesDiffer(inherited + j, inherited + j);
    }
    if !IsNumberedName(name, inherited, |settings|) {
      NumberedElsewhere(env, settings, inherited, name);
    }
  }

  lemma NumberedStep(env: Environment, settings: seq<(string, string)>, more: (string, string), first: nat)
    ensures Numbered(env, settings + [more], first)
         == Entered(Numbered(env, settings, first), first + |settings|, more)
  {
    assert (settings + [more])[..|settings|] == settings;
  }

  function NeutralSettings(driver: string): (settings: seq<(string, string)>)
    ensures |settings| == 4 && forall k: nat :: k < 4 ==> settings[k] == NeutralSetting(driver, k)
  {
    seq(4, k requires 0 <= k < 4 => NeutralSetting(driver, k))
  }

  lemma {:induction false} NumberedOn(env: Environment, a: seq<(string, string)>, b: seq<(string, string)>, first: nat)
    ensures Numbered(Numbered(env, a, first), b, first + |a|) == Numbered(env, a + b, first)
    decreases |b|
  {
    if b == [] {
      assert a + b == a;
    } else {
      var n := |b| - 1;
      NumberedOn(env, a, b[..n], first);
      NumberedStep(env, a + b[..n], b[n], first);
      assert a + b == (a + b[..n]) + [b[n]];
    }
  }

  /** The four overrides of one driver. */
  method NeutralizeDriver(env: Environment, driver: string, first: nat) returns (after: Environment, count: nat)
    ensures after == Numbered(env, NeutralSettings(driver), first) && count == first + 4
  {
    after, count := env, first;
    ghost var settings := NeutralSettings(driver);
    for k := 0 to 4
      invariant after == Numbered(env, settings[..k], first) && count == first + k
    {
      var pair := NeutralSetting(driver, k);
      NumberedStep(env, settings[..k], pair, first);
      assert settings[..k + 1] == settings[..k] + [pair];
      after := after[KeyName(count) := pair.0][ValueName(count) := pair.1];
      count := count + 1;
    }
    assert settings[..4] == settings;
  }

  /** The settings are the neutral ones of these drivers. */
  ghost predicate Neutralizes(settings: seq<(string, string)>, drivers: set<string>) {
    forall pair :: pair in settings <==> exists d, k: nat :: d in drivers && k < 4 && pair == NeutralSetting(d, k)
  }

  lemma NeutralKeyIs(driver: string, k: nat, other: string, name: string)
    requires k < 4 && '.' !in name && NeutralSetting(driver, k).0 == "filter." + other + "." + name
    ensures driver == other && NEUTRALIZED_FILTER_SETTINGS[k].0 == name
  {
    var key, own := "filter." + other + "." + name, NEUTRALIZED_FILTER_SETTINGS[k].0;
    assert own == "clean" || own == "smudge" || own == "process" || own == "required";
    assert '.' !in own;
    assert key[7..] == other + ['.'] + name && key[7..] == driver + ['.'] + own;
    BeforeLastAt(other, '.', name);
    BeforeLastAt(driver, '.', own);
    assert key[7..][|driver| + 1..] == own && key[7..][|other| + 1..] == name;
  }

  /** The overrides leave each driver without any command and not required: that is what they say of each of its four
      settings, and they say nothing else of it. */
  lemma NeutralizedIsInert(settings: seq<(string, string)>, drivers: set<string>, driver: string, name: string)
    requires Neutralizes(settings, drivers) && driver in drivers
    requires name == "clean" || name == "smudge" || name == "process" || name == "required"
    ensures ("filter." + driver + "." + name, if name == "required" then "false" else "") in settings
    ensures forall pair :: pair in settings && pair.0 == "filter." + driver + "." + name ==>
              pair.1 == if name == "required" then "false" else ""
  {
    var k: nat := if name == "clean" then 0 else if name == "smudge" then 1 else if name == "process" then 2 else 3;
    assert NeutralSetting(driver, k) == ("filter." + driver + "." + name, if name == "required" then "false" else "");
    forall pair | pair in settings && pair.0 == "filter." + driver + "." + name
      ensures pair.1 == if name == "required" then "false" else ""
    {
      var d, j: nat :| d in drivers && j < 4 && pair == NeutralSetting(d, j);
      NeutralKeyIs(d, j, driver, name);
    }
  }

  lemma OneMoreDriver(settings: seq<(string, string)>, drivers: set<string>, driver: string)
    requires Neutralizes(settings, drivers)
    ensures Neutralizes(settings + NeutralSettings(driver), drivers + {driver})
  {
    var more := NeutralSettings(driver);
    forall pair
      ensures pair in settings + more <==>
                exists d, k: nat :: d in drivers + {driver} && k < 4 && pair == NeutralSetting(d, k)
    {
      if pair in more {
        var k: nat :| k < 4 && pair == more[k];
        assert pair == NeutralSetting(driver, k);
      }
      if d, k: nat :| d in drivers + {driver} && k < 4 && pair == NeutralSetting(d, k) {
        assert d == driver ==> pair == more[k];
      }
    }
  }

  /** The overrides put into a command's environment, numbered on from the inherited ones: four for every driver
      and nothing else. */
  method NeutralizeDrivers(env: Environment, drivers: set<string>, inherited: nat)
    returns (after: Environment, ghost settings: seq<(string, string)>)
    ensures after == Overridden(env, settings, inherited) && |settings| == 4 * |drivers|
              && Neutralizes(settings, drivers)
  {
    after, settings := env, [];
    var count := inherited;
    var rest := drivers;
    while rest != {}
      invariant rest <= drivers
      invariant after == Numbered(env, settings, inherited)
      invariant count == inherited + |settings| && |settings| == 4 * (|drivers| - |rest|)
      invariant Neutralizes(settings, drivers - rest)
      decreases rest
    {
      var driver :| driver in rest;
      OneMoreDriver(settings, drivers - rest, driver);
      NumberedOn(env, settings, NeutralSettings(driver), inherited);
      after, count := NeutralizeDriver(after, driver, count);
      settings := settings + NeutralSettings(driver);
      assert drivers - rest + {driver} == drivers - (rest - {driver});
      rest := rest - {driver};
    }
    assert drivers - rest == drivers;
    if count > inherited {
      after := after[COUNT_NAME := Decimal(count)];
    }
  }
}
