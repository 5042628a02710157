/**
 Why a filter-cache hit is as good as asking git again.

 The disk is a history: what every path holds at every moment, changing in any way the change law
 allows while a query is still reading. Git's own behaviour is a predicate on what it printed.
 */
module GitCoherence {
  import opened Basics
  import opened GitFilters
  import opened Text

  datatype ConfigFile = Absent | Present(settings: seq<Setting>, stamp: FileStamp)

  type History = (Time, Path) -> ConfigFile

  function StampOf(file: ConfigFile): (r: Option<FileStamp>) {
    match file
    case Absent => None
    case Present(_, stamp) => Some(stamp)
  }

  ghost predicate SameSettings(a: ConfigFile, b: ConfigFile) {
    a.Present? && b.Present? && a.settings == b.settings
  }

  /** A file whose content is not what it was at `t` was modified no more than the window before `t`. */
  ghost predicate ChangeLaw(hist: History) {
    forall p: Path, t: Time, u: Time ::
      t <= u && hist(u, p).Present? && !SameSettings(hist(t, p), hist(u, p)) ==>
        var modified := hist(u, p).stamp.modified;
        modified.None? || modified.value >= t - 2_000_000_000
  }

  /** The parts of git's reading that stay outside, as it is run from one directory: a `gitdir` condition can hold for
      one working tree of a repository and not for another, and each has a configuration of its own. */
  datatype View = View(
    resolvesSpecially: (Path, string) -> Path,
    condition: (Time, string) -> bool,
    turnsOn: Option<string> -> bool,
    worktreeConfig: Path -> Path)

  /**
   Git, and the finding of a repository. `locates` is the local configuration git itself opens from a directory,
   `localConfig` the one the program takes it to be: git walks up from the physical directory, the program along the
   path it was given. `file` tells which paths name the same file.
   */
  datatype Git = Git(
    view: Path -> View,
    locates: (Time, Path) -> Option<Path>,
    localConfig: (Time, Path) -> Option<Path>,
    file: Path -> Path)

  predicate SameFile(git: Git, p: Path, q: Path) {
    git.file(p) == git.file(q)
  }

  /** Whatever its name, a file has one content at a time. */
  ghost predicate OneContent(git: Git, hist: History) {
    forall p, q, t {:trigger SameFile(git, p, q), hist(t, p)} :: SameFile(git, p, q) ==> hist(t, p) == hist(t, q)
  }

  /** Conditions that can be cached do not change with time. */
  ghost predicate StableConditions(git: Git) {
    forall cwd, c, t, u {:trigger git.view(cwd).condition(t, c), git.view(cwd).condition(u, c)} ::
      !IsUncacheableCondition(c) ==> git.view(cwd).condition(t, c) == git.view(cwd).condition(u, c)
  }

  /** The file an include names, by git's rules. */
  function GitResolves(host: Host, view: View, origin: Path, value: string): (r: Path) {
    if StartsWith(value, "~/") && host.home.Some? then host.join(host.home.value, value[2..])
    else if StartsWith(value, "~") || StartsWith(value, "%(") then view.resolvesSpecially(origin, value)
    else if host.absolute(value) then value
    else match host.parent(origin)
      case None => view.resolvesSpecially(origin, value)
      case Some(dir) => host.join(dir, value)
  }

  predicate Follows(host: Host, view: View, at: Time, s: Setting, origin: Path, target: Path) {
    && s.value.Some?
    && (s.key == "include.path" || (IsConditionalInclude(s.key) && view.condition(at, Condition(s.key))))
    && target == GitResolves(host, view, origin, s.value.value)
  }

  /** The keys git was asked for. */
  predicate Queried(key: string) {
    || (StartsWith(key, "filter.")
        && (EndsWith(key[7..], ".clean") || EndsWith(key[7..], ".smudge")
            || EndsWith(key[7..], ".process") || EndsWith(key[7..], ".required")))
    || key == "include.path"
    || IsConditionalInclude(key)
    || key == "core.repositoryformatversion"
    || key == "extensions.worktreeconfig"
  }

  // ----- what a fresh query would report at one moment -----

  ghost predicate Link(host: Host, view: View, hist: History, at: Time, p: Path, q: Path) {
    hist(at, p).Present? && exists s :: s in hist(at, p).settings && Follows(host, view, at, s, p, q)
  }

  ghost predicate Chain(host: Host, view: View, hist: History, at: Time, root: Path, chain: seq<Path>) {
    && |chain| > 0
    && chain[0] == root
    && forall i :: 0 <= i < |chain| - 1 ==> Link(host, view, hist, at, chain[i], chain[i + 1])
  }

  /** `p` is read: `root` itself, or reached from it by includes of any depth. */
  ghost predicate Reads(host: Host, view: View, hist: History, at: Time, root: Path, p: Path) {
    exists chain :: Chain(host, view, hist, at, root, chain) && chain[|chain| - 1] == p
  }

  ghost predicate Sets(hist: History, at: Time, p: Path, s: Setting) {
    hist(at, p).Present? && s in hist(at, p).settings
  }

  predicate Extends(view: View, s: Setting) {
    s.key == "extensions.worktreeconfig" && view.turnsOn(s.value)
  }

  /** The worktree configuration is read as well once a file that is read turns the extension on. */
  ghost predicate ReadsInScope(host: Host, view: View, hist: History, at: Time, root: Path, p: Path) {
    || Reads(host, view, hist, at, root, p)
    || (Reads(host, view, hist, at, view.worktreeConfig(root), p)
        && exists q, s :: Reads(host, view, hist, at, root, q) && Sets(hist, at, q, s) && Extends(view, s))
  }

  ghost predicate Reports(host: Host, view: View, hist: History, at: Time, root: Path, driver: string) {
    exists p, s :: ReadsInScope(host, view, hist, at, root, p) && Sets(hist, at, p, s)
                   && Queried(s.key) && DriverOf(s.key) == Some(driver)
  }

  /** What git, asked from `cwd` at that moment, would report. */
  ghost predicate FreshlyReports(host: Host, git: Git, hist: History, at: Time, cwd: Path, driver: string) {
    git.locates(at, cwd).Some? && Reports(host, git.view(cwd), hist, at, git.locates(at, cwd).value, driver)
  }

  // ----- one query, spread over time -----

  /** A file opened, and the scope git reads it in. */
  datatype Visit = Visit(path: Path, at: Time, scope: string)

  /** A query: when git ran, what it opened and printed and how it spelled each origin, and when each watched file
      was stamped. */
  datatype Query = Query(
    cwd: Path,
    base: Option<Path>,
    started: Time,
    ended: Time,
    locatedAt: Time,
    visits: set<Visit>,
    records: seq<Record>,
    origins: Path -> string,
    isFile: Path -> bool,
    answered: bool,
    rememberedAt: Time,
    stampedAt: Path -> Time)

  ghost predicate Lists(query: Query, v: Visit, s: Setting) {
    exists r :: r in query.records && r.scope == v.scope && r.setting == s && r.origin == query.origins(v.path)
  }

  ghost predicate Opened(query: Query, p: Path, scope: string) {
    exists v :: v in query.visits && v.path == p && v.scope == scope
  }

  /** Git found the local configuration, opened it and every include in force, each at some moment of its run, and the
      worktree's once a local file turned it on; and printed every setting asked for in the files it opened, those
      reached from the local configuration as local and those reached from the worktree's as worktree. */
  ghost predicate GitAnswered(host: Host, git: Git, hist: History, query: Query) {
    && query.started <= query.locatedAt <= query.ended <= query.rememberedAt
    && (forall r :: r in query.records ==> WellFormedRecord(r))
    && (forall v :: v in query.visits ==> query.started <= v.at <= query.ended)
    && (forall v :: v in query.visits ==> v.scope == "local" || v.scope == "worktree")
    && (forall p :: query.ended <= query.stampedAt(p))
    && (query.answered ==> ReadsThrough(host, git, hist, query))
  }

  ghost predicate ReadsThrough(host: Host, git: Git, hist: History, query: Query) {
    var view, located := git.view(query.cwd), git.locates(query.locatedAt, query.cwd);
    && (located.Some? ==> Opened(query, located.value, "local"))
    && (forall v, s :: v in query.visits && Sets(hist, v.at, v.path, s) ==>
          && (Queried(s.key) ==> Lists(query, v, s))
          && (forall target :: Follows(host, view, v.at, s, v.path, target) ==> Opened(query, target, v.scope))
          && (located.Some? && v.scope == "local" && Extends(view, s) ==>
                Opened(query, view.worktreeConfig(located.value), "worktree")))
  }

  /** From the working base, the origins git printed name the files they stand for. */
  ghost predicate OriginsAreNamed(host: Host, query: Query) {
    query.base.Some? ==>
      forall v, r :: v in query.visits && r in query.records && r.origin == query.origins(v.path) ==>
        OriginFile(host, r.origin, query.base.value) == Some(v.path)
  }

  /** The stamps the query saw when it took them. */
  function Stamps(hist: History, query: Query): (r: Path -> Option<FileStamp>) {
    StampsTaken(hist, query.stampedAt)
  }

  function StampsTaken(hist: History, stampedAt: Path -> Time): (r: Path -> Option<FileStamp>) {
    p => StampOf(hist(stampedAt(p), p))
  }

  ghost function Understood(host: Host, query: Query): (r: Option<FilterListing>) {
    Listing(host, ParseRecords(Render(query.records)), query.base, query.isFile)
  }

  /** The cache before and after one query. */
  ghost predicate QueryStep(host: Host, git: Git, hist: History, query: Query, before: Entries, after: Entries) {
    match Understood(host, query)
    case None => after == before
    case Some(listing) =>
      if query.answered && listing.watched.Some? then
        Remembers(before, after, query.cwd, git.localConfig(query.rememberedAt, query.cwd), listing.watched.value,
                  listing.drivers, query.started, Stamps(hist, query))
      else after == before
  }

  // ----- runs -----

  /** A lookup finds the repository at `at` and takes the stamp of each watched file at a moment of its own. */
  datatype Event = Asked(query: Query) | LookedUp(cwd: Path, at: Time, stampedAt: Path -> Time)

  ghost predicate Step(host: Host, git: Git, hist: History, e: Event, before: Entries, after: Entries) {
    match e
    case Asked(query) => QueryStep(host, git, hist, query, before, after)
    case LookedUp(_, _, _) => after == before
  }

  ghost predicate Run(host: Host, git: Git, hist: History, events: seq<Event>, states: seq<Entries>) {
    && |states| == |events| + 1
    && states[0] == map[]
    && forall i :: 0 <= i < |events| ==> Step(host, git, hist, events[i], states[i], states[i + 1])
  }

  /** A lookup takes its stamps after it started. */
  ghost predicate StampsFollow(at: Time, stampedAt: Path -> Time) {
    forall p :: at <= stampedAt(p)
  }

  /** A query is over when a later lookup starts. */
  ghost predicate Precedes(query: Query, at: Time) {
    query.rememberedAt < at && forall p :: query.stampedAt(p) < at
  }

  /** What the theorem takes from the outside world; queries may overlap each other and any change. */
  ghost predicate World(host: Host, git: Git, hist: History, events: seq<Event>) {
    && ChangeLaw(hist)
    && OneContent(git, hist)
    && (forall i :: 0 <= i < |events| && events[i].Asked? ==>
          GitAnswered(host, git, hist, events[i].query) && OriginsAreNamed(host, events[i].query))
    && (forall i :: 0 <= i < |events| && events[i].LookedUp? ==>
          StampsFollow(events[i].at, events[i].stampedAt))
    && (forall i, j :: 0 <= i < j < |events| && events[i].Asked? && events[j].LookedUp? ==>
          Precedes(events[i].query, events[j].at))
  }

  /** What the cache answers a lookup. */
  ghost function Answer(git: Git, hist: History, e: Event, entries: Entries): (r: Option<set<string>>)
    requires e.LookedUp?
  {
    LookUp(entries, e.cwd, git.localConfig(e.at, e.cwd), StampsTaken(hist, e.stampedAt))
  }

  /**
   The exact condition for a hit: should the program find the same local configuration when it remembers an answer
   and when it looks it up, then git found, when it was asked, the configuration it would find at the lookup, and
   that is the file the program watches.
   */
  predicate WellLocated(git: Git, cwd: Path, locatedAt: Time, rememberedAt: Time, at: Time) {
    var watched, located := git.localConfig(rememberedAt, cwd), git.locates(at, cwd);
    watched.Some? && watched == git.localConfig(at, cwd) && located.Some? ==>
      git.locates(locatedAt, cwd) == located && SameFile(git, located.value, watched.value)
  }

  /** `held` is what `query` left behind. */
  ghost predicate Justifies(host: Host, git: Git, hist: History, query: Query, cwd: Path, held: CachedFilters) {
    && query.answered
    && query.cwd == cwd
    && git.localConfig(query.rememberedAt, cwd) == Some(held.localConfig)
    && Understood(host, query).Some?
    && Understood(host, query).value.watched.Some?
    && held.drivers == Understood(host, query).value.drivers
    && var files := Understood(host, query).value.watched.value + {held.localConfig};
       && RecordsStamps(held.watched, files, Stamps(hist, query))
       && forall p :: p in files ==> !IsRacy(Stamps(hist, query)(p), query.started)
  }

  /** In every run, everything the cache holds was left behind by an earlier answered query. */
  lemma {:induction false} EntriesAreJustified(host: Host, git: Git, hist: History, events: seq<Event>,
                                              states: seq<Entries>, n: nat, cwd: Path)
    requires Run(host, git, hist, events, states)
    requires n < |states| && cwd in states[n]
    ensures exists i :: 0 <= i < n && events[i].Asked?
              && Justifies(host, git, hist, events[i].query, cwd, states[n][cwd])
  {
    var e := events[n - 1];
    assert Step(host, git, hist, e, states[n - 1], states[n]);
    if cwd in states[n - 1] && states[n][cwd] == states[n - 1][cwd] {
      EntriesAreJustified(host, git, hist, events, states, n - 1, cwd);
    } else {
      assert Justifies(host, git, hist, e.query, cwd, states[n][cwd]);
    }
  }

  /** An include git follows is one the listing asked for, and unless it is uncacheable the code names the file that
      git opens. */
  lemma FollowedIsWatched(host: Host, view: View, t: Time, s: Setting, origin: Path, target: Path)
    requires Follows(host, view, t, s, origin, target)
    ensures Queried(s.key)
    ensures var included := IncludeTargetOf(host, s, origin);
            included == Uncacheable || included == File(target)
    ensures IncludeTargetOf(host, s, origin).File? && s.key != "include.path" ==>
              !IsUncacheableCondition(Condition(s.key))
  {
  }

  /** The truth of a cacheable include does not change with time. */
  lemma FollowsAtAnyTime(host: Host, view: View, t: Time, u: Time, s: Setting, origin: Path, target: Path)
    requires forall c :: !IsUncacheableCondition(c) ==> view.condition(t, c) == view.condition(u, c)
    requires Follows(host, view, t, s, origin, target)
    requires s.key != "include.path" ==> !IsUncacheableCondition(Condition(s.key))
    ensures Follows(host, view, u, s, origin, target)
  {
  }

  // ----- one hit -----

  /** No file the query saw absent is there when the lookup starts, to be gone again when its stamp is taken. */
  ghost predicate NothingVanishes(hist: History, at: Time, held: CachedFilters) {
    forall w :: w in held.watched && w.1.None? ==> hist(at, w.0).Absent?
  }

  /** The world around one hit: the query behind the entry, and stamps that still hold at `at` or later. */
  ghost predicate Hit(host: Host, git: Git, hist: History, query: Query, held: CachedFilters, at: Time) {
    && ChangeLaw(hist)
    && OneContent(git, hist)
    && StableConditions(git)
    && GitAnswered(host, git, hist, query)
    && OriginsAreNamed(host, query)
    && Justifies(host, git, hist, query, query.cwd, held)
    && query.ended <= at
    && NothingVanishes(hist, at, held)
    && exists stampedAt :: StampsFollow(at, stampedAt) && StampsHold(held.watched, StampsTaken(hist, stampedAt))
  }

  ghost function WatchedFiles(host: Host, git: Git, hist: History, query: Query, held: CachedFilters): (r: set<Path>)
    requires Justifies(host, git, hist, query, query.cwd, held)
  {
    Understood(host, query).value.watched.value + {held.localConfig}
  }

  /** A watched file that is there at the hit held the same settings all through the query. */
  lemma WatchedFileIsUnchanged(host: Host, git: Git, hist: History, query: Query, held: CachedFilters, at: Time,
                               p: Path, t: Time)
    requires Hit(host, git, hist, query, held, at)
    requires p in WatchedFiles(host, git, hist, query, held)
    requires hist(at, p).Present?
    requires query.started <= t <= query.ended
    ensures SameSettings(hist(t, p), hist(at, p))
  {
    var stamp := Stamps(hist, query)(p);
    assert (p, stamp) in held.watched;
    var stampedAt :| StampsFollow(at, stampedAt) && StampsHold(held.watched, StampsTaken(hist, stampedAt));
    var u := stampedAt(p);
    assert StampsTaken(hist, stampedAt)(p) == stamp == StampOf(hist(u, p));
    assert !IsRacy(stamp, query.started);
    assert t <= at <= u && hist(u, p).Present?;
    assert SameSettings(hist(t, p), hist(u, p)) && SameSettings(hist(at, p), hist(u, p));
  }

  lemma RecordIsWatched(host: Host, records: set<Record>, r: Record, base: Option<Path>, isFile: Path -> bool)
    requires r in records && Watched(host, records, base, isFile).Some?
    ensures base.Some?
    ensures WatchedBy(host, r, base.value, isFile).Some?
    ensures WatchedBy(host, r, base.value, isFile).value <= Watched(host, records, base, isFile).value
    ensures DriverOf(r.setting.key).Some? ==> DriverOf(r.setting.key).value in Drivers(records)
  {
  }

  lemma WatchedMeansCacheable(host: Host, r: Record, base: Path, isFile: Path -> bool, p: Path)
    requires WatchedBy(host, r, base, isFile).Some? && OriginFile(host, r.origin, base) == Some(p)
    ensures r.setting.key != "extensions.worktreeconfig"
            || IncludeTargetOf(host, r.setting, p).File?
    ensures !IncludeTargetOf(host, r.setting, p).Uncacheable?
    ensures IncludeTargetOf(host, r.setting, p).File? ==>
              IncludeTargetOf(host, r.setting, p).path in WatchedBy(host, r, base, isFile).value
  {
  }

  lemma UnderstoodIsListed(host: Host, query: Query)
    requires forall r :: r in query.records ==> WellFormedRecord(r)
    requires Understood(host, query).Some?
    ensures var repository := Repository(query.records);
            Understood(host, query).value
            == FilterListing(Drivers(repository), Watched(host, repository, query.base, query.isFile))
  {
    ListingRoundTrip(query.records);
  }

  /** A repository record of a listing that can be watched has its include watched and its driver reported. */
  lemma ListedIsUnderstood(host: Host, query: Query, v: Visit, s: Setting)
    requires forall r :: r in query.records ==> WellFormedRecord(r)
    requires Understood(host, query).Some? && Understood(host, query).value.watched.Some?
    requires OriginsAreNamed(host, query) && v in query.visits && (v.scope == "local" || v.scope == "worktree")
    requires Lists(query, v, s)
    ensures s.key != "extensions.worktreeconfig"
    ensures !IncludeTargetOf(host, s, v.path).Uncacheable?
    ensures IncludeTargetOf(host, s, v.path).File? ==>
              IncludeTargetOf(host, s, v.path).path in Understood(host, query).value.watched.value
    ensures DriverOf(s.key).Some? ==> DriverOf(s.key).value in Understood(host, query).value.drivers
  {
    UnderstoodIsListed(host, query);
    var r :| r in query.records && r.scope == v.scope && r.setting == s && r.origin == query.origins(v.path);
    RecordIsWatched(host, Repository(query.records), r, query.base, query.isFile);
    WatchedMeansCacheable(host, r, query.base.value, query.isFile, v.path);
    WorktreeIsNoInclude(host, s, v.path);
  }

  lemma WorktreeIsNoInclude(host: Host, s: Setting, p: Path)
    ensures s.key == "extensions.worktreeconfig" ==> IncludeTargetOf(host, s, p).NotAnInclude?
  {
    assert "extensions.worktreeconfig"[0] == 'e';
  }

  /** So is a record behind a hit. */
  lemma RecordIsUnderstood(host: Host, git: Git, hist: History, query: Query, held: CachedFilters, at: Time, v: Visit,
                           s: Setting)
    requires Hit(host, git, hist, query, held, at)
    requires v in query.visits && Lists(query, v, s)
    ensures s.key != "extensions.worktreeconfig"
    ensures !IncludeTargetOf(host, s, v.path).Uncacheable?
    ensures IncludeTargetOf(host, s, v.path).File? ==>
              IncludeTargetOf(host, s, v.path).path in WatchedFiles(host, git, hist, query, held)
    ensures DriverOf(s.key).Some? ==> DriverOf(s.key).value in held.drivers
  {
    ListedIsUnderstood(host, query, v, s);
  }

  /** The file git started from, when that is the one the program watches. */
  ghost predicate Root(git: Git, query: Query, held: CachedFilters, p: Path) {
    git.locates(query.locatedAt, query.cwd) == Some(p) && SameFile(git, p, held.localConfig)
  }

  /** Files reached at the hit were opened by the query, which saw the settings they still hold. */
  ghost predicate Seen(host: Host, git: Git, hist: History, query: Query, held: CachedFilters, at: Time, p: Path)
    requires Justifies(host, git, hist, query, query.cwd, held)
  {
    && (Root(git, query, held, p) || p in WatchedFiles(host, git, hist, query, held))
    && Opened(query, p, "local")
  }

  lemma SeenSettingsAreListed(host: Host, git: Git, hist: History, query: Query, held: CachedFilters, at: Time, p: Path,
                              s: Setting) returns (v: Visit)
    requires Hit(host, git, hist, query, held, at)
    requires Seen(host, git, hist, query, held, at, p)
    requires Sets(hist, at, p, s)
    ensures v in query.visits && v.path == p && v.scope == "local" && Sets(hist, v.at, p, s)
    ensures Queried(s.key) ==> Lists(query, v, s)
  {
    v :| v in query.visits && v.path == p && v.scope == "local";
    if p in WatchedFiles(host, git, hist, query, held) {
      WatchedFileIsUnchanged(host, git, hist, query, held, at, p, v.at);
    } else {
      WatchedFileIsUnchanged(host, git, hist, query, held, at, held.localConfig, v.at);
    }
    assert Sets(hist, v.at, v.path, s);
  }

  lemma TargetsAreOpened(host: Host, git: Git, hist: History, query: Query, v: Visit, s: Setting, target: Path)
    requires query.answered && GitAnswered(host, git, hist, query)
    requires v in query.visits && Sets(hist, v.at, v.path, s)
    requires Follows(host, git.view(query.cwd), v.at, s, v.path, target)
    ensures Opened(query, target, v.scope)
  {
  }

  /** The watched set is closed under the includes in force. */
  lemma LinkStaysSeen(host: Host, git: Git, hist: History, query: Query, held: CachedFilters, at: Time, p: Path,
                      q: Path)
    requires Hit(host, git, hist, query, held, at)
    requires Seen(host, git, hist, query, held, at, p)
    requires Link(host, git.view(query.cwd), hist, at, p, q)
    ensures Seen(host, git, hist, query, held, at, q)
  {
    var s :| s in hist(at, p).settings && Follows(host, git.view(query.cwd), at, s, p, q);
    var v := SeenSettingsAreListed(host, git, hist, query, held, at, p, s);
    FollowedIsWatched(host, git.view(query.cwd), at, s, p, q);
    RecordIsUnderstood(host, git, hist, query, held, at, v, s);
    FollowsAtAnyTime(host, git.view(query.cwd), at, v.at, s, p, q);
    TargetsAreOpened(host, git, hist, query, v, s, q);
  }

  lemma {:induction false} ChainStaysSeen(host: Host, git: Git, hist: History, query: Query, held: CachedFilters,
                                          at: Time, root: Path, chain: seq<Path>)
    requires Hit(host, git, hist, query, held, at)
    requires Root(git, query, held, root)
    requires Chain(host, git.view(query.cwd), hist, at, root, chain)
    ensures Seen(host, git, hist, query, held, at, chain[|chain| - 1])
    decreases |chain|
  {
    var n := |chain| - 1;
    if n > 0 {
      assert Link(host, git.view(query.cwd), hist, at, chain[n - 1], chain[n]);
      ChainStaysSeen(host, git, hist, query, held, at, root, chain[..n]);
      LinkStaysSeen(host, git, hist, query, held, at, chain[n - 1], chain[n]);
    }
  }

  /** A setting git would read at the hit was listed by the query, and does not turn on the worktree configuration. */
  lemma ReadSettingIsListed(host: Host, git: Git, hist: History, query: Query, held: CachedFilters, at: Time,
                            root: Path, p: Path, s: Setting)
    requires Hit(host, git, hist, query, held, at) && Root(git, query, held, root)
    requires Reads(host, git.view(query.cwd), hist, at, root, p) && Sets(hist, at, p, s) && Queried(s.key)
    ensures s.key != "extensions.worktreeconfig"
    ensures DriverOf(s.key).Some? ==> DriverOf(s.key).value in held.drivers
  {
    var chain :| Chain(host, git.view(query.cwd), hist, at, root, chain) && chain[|chain| - 1] == p;
    ChainStaysSeen(host, git, hist, query, held, at, root, chain);
    var v := SeenSettingsAreListed(host, git, hist, query, held, at, p, s);
    RecordIsUnderstood(host, git, hist, query, held, at, v, s);
  }

  lemma WorktreeIsNotRead(host: Host, git: Git, hist: History, query: Query, held: CachedFilters, at: Time,
                          root: Path, p: Path)
    requires Hit(host, git, hist, query, held, at) && Root(git, query, held, root)
    requires ReadsInScope(host, git.view(query.cwd), hist, at, root, p)
    ensures Reads(host, git.view(query.cwd), hist, at, root, p)
  {
    if !Reads(host, git.view(query.cwd), hist, at, root, p) {
      var q, s :| Reads(host, git.view(query.cwd), hist, at, root, q) && Sets(hist, at, q, s)
                  && Extends(git.view(query.cwd), s);
      ReadSettingIsListed(host, git, hist, query, held, at, root, q, s);
    }
  }

  /** A hit returns every driver a fresh query would report at that moment. */
  lemma HitCoversAFreshQuery(host: Host, git: Git, hist: History, query: Query, held: CachedFilters, at: Time,
                             driver: string)
    requires Hit(host, git, hist, query, held, at)
    requires git.localConfig(at, query.cwd) == Some(held.localConfig)
    requires WellLocated(git, query.cwd, query.locatedAt, query.rememberedAt, at)
    requires FreshlyReports(host, git, hist, at, query.cwd, driver)
    ensures driver in held.drivers
  {
    var root := git.locates(at, query.cwd).value;
    var p, s :| ReadsInScope(host, git.view(query.cwd), hist, at, root, p) && Sets(hist, at, p, s)
                && Queried(s.key) && DriverOf(s.key) == Some(driver);
    WorktreeIsNotRead(host, git, hist, query, held, at, root, p);
    ReadSettingIsListed(host, git, hist, query, held, at, root, p, s);
  }

  /** The query behind the entry a lookup finds was asked, and will be asked, of the repository the program watches. */
  ghost predicate HitsAreWellLocated(host: Host, git: Git, hist: History, events: seq<Event>, states: seq<Entries>,
                                     n: nat)
    requires n < |events| && n < |states| && events[n].LookedUp?
  {
    var cwd := events[n].cwd;
    cwd in states[n] ==>
      forall i :: 0 <= i < n && events[i].Asked? && Justifies(host, git, hist, events[i].query, cwd, states[n][cwd]) ==>
        WellLocated(git, cwd, events[i].query.locatedAt, events[i].query.rememberedAt, events[n].at)
  }

  /** A hit returns every driver a fresh query would report when the lookup starts. */
  ghost predicate Covers(host: Host, git: Git, hist: History, e: Event, entries: Entries)
    requires e.LookedUp?
  {
    forall driver :: Answer(git, hist, e, entries).Some? && FreshlyReports(host, git, hist, e.at, e.cwd, driver) ==>
      driver in Answer(git, hist, e, entries).value
  }

  /** Filter-cache coherence: in every run, every hit covers what a fresh query would report. */
  lemma CacheIsCoherent(host: Host, git: Git, hist: History, events: seq<Event>, states: seq<Entries>, n: nat)
    requires StableConditions(git) && World(host, git, hist, events)
    requires Run(host, git, hist, events, states)
    requires n < |events| && events[n].LookedUp? && HitsAreWellLocated(host, git, hist, events, states, n)
    requires events[n].cwd in states[n] ==> NothingVanishes(hist, events[n].at, states[n][events[n].cwd])
    ensures Covers(host, git, hist, events[n], states[n])
  {
    var LookedUp(cwd, at, stampedAt) := events[n];
    forall driver | Answer(git, hist, events[n], states[n]).Some? && FreshlyReports(host, git, hist, at, cwd, driver)
      ensures driver in Answer(git, hist, events[n], states[n]).value
    {
      EntriesAreJustified(host, git, hist, events, states, n, cwd);
      var i :| 0 <= i < n && events[i].Asked? && Justifies(host, git, hist, events[i].query, cwd, states[n][cwd]);
      assert Precedes(events[i].query, at) && StampsFollow(at, stampedAt);
      assert Hit(host, git, hist, events[i].query, states[n][cwd], at);
      HitCoversAFreshQuery(host, git, hist, events[i].query, states[n][cwd], at, driver);
    }
  }

  // ----- the answer itself -----

  /** Every driver set in a file git reads for the repository, the worktree's configuration included, is among the
      drivers of an answered query. */
  lemma AnswerReportsWhatGitReads(host: Host, git: Git, hist: History, query: Query, v: Visit, s: Setting,
                                  driver: string)
    requires GitAnswered(host, git, hist, query) && query.answered && Understood(host, query).Some?
    requires v in query.visits && Sets(hist, v.at, v.path, s) && Queried(s.key) && DriverOf(s.key) == Some(driver)
    ensures driver in Understood(host, query).value.drivers
  {
    assert Lists(query, v, s);
    var r :| r in query.records && r.scope == v.scope && r.setting == s && r.origin == query.origins(v.path);
    UnderstoodIsListed(host, query);
    DriversAreExact(query.records, driver);
  }

  /** While git reads, no file changes and no condition turns. */
  ghost predicate StandsStill(git: Git, hist: History, query: Query) {
    && (forall p, t :: query.started <= t <= query.ended ==> hist(t, p) == hist(query.locatedAt, p))
    && (forall c, t :: query.started <= t <= query.ended ==>
          git.view(query.cwd).condition(t, c) == git.view(query.cwd).condition(query.locatedAt, c))
  }

  lemma {:induction false} ChainIsOpened(host: Host, git: Git, hist: History, query: Query, root: Path,
                                         chain: seq<Path>, scope: string)
    requires GitAnswered(host, git, hist, query) && query.answered && StandsStill(git, hist, query)
    requires Chain(host, git.view(query.cwd), hist, query.locatedAt, root, chain) && Opened(query, root, scope)
    ensures Opened(query, chain[|chain| - 1], scope)
    decreases |chain|
  {
    var n := |chain| - 1;
    if n > 0 {
      var p, q := chain[n - 1], chain[n];
      assert Link(host, git.view(query.cwd), hist, query.locatedAt, p, q);
      ChainIsOpened(host, git, hist, query, root, chain[..n], scope);
      var v :| v in query.visits && v.path == p && v.scope == scope;
      var s :| s in hist(query.locatedAt, p).settings && Follows(host, git.view(query.cwd), query.locatedAt, s, p, q);
      assert Sets(hist, v.at, v.path, s) && Follows(host, git.view(query.cwd), v.at, s, v.path, q);
    }
  }

  lemma FileIsOpened(host: Host, git: Git, hist: History, query: Query, root: Path, p: Path, scope: string)
    requires GitAnswered(host, git, hist, query) && query.answered && StandsStill(git, hist, query)
    requires Opened(query, root, scope) && Reads(host, git.view(query.cwd), hist, query.locatedAt, root, p)
    ensures Opened(query, p, scope)
  {
    var chain :| Chain(host, git.view(query.cwd), hist, query.locatedAt, root, chain) && chain[|chain| - 1] == p;
    ChainIsOpened(host, git, hist, query, root, chain, scope);
  }

  lemma WorktreeIsOpened(host: Host, git: Git, hist: History, query: Query, root: Path, q: Path, s: Setting)
    requires GitAnswered(host, git, hist, query) && query.answered && StandsStill(git, hist, query)
    requires git.locates(query.locatedAt, query.cwd) == Some(root) && Opened(query, q, "local")
    requires Sets(hist, query.locatedAt, q, s) && Extends(git.view(query.cwd), s)
    ensures Opened(query, git.view(query.cwd).worktreeConfig(root), "worktree")
  {
    var v :| v in query.visits && v.path == q && v.scope == "local";
    assert Sets(hist, v.at, v.path, s);
  }

  lemma ReadFileIsOpened(host: Host, git: Git, hist: History, query: Query, root: Path, p: Path)
    requires GitAnswered(host, git, hist, query) && query.answered && StandsStill(git, hist, query)
    requires git.locates(query.locatedAt, query.cwd) == Some(root)
    requires ReadsInScope(host, git.view(query.cwd), hist, query.locatedAt, root, p)
    ensures Opened(query, p, "local") || Opened(query, p, "worktree")
  {
    var view, at := git.view(query.cwd), query.locatedAt;
    if Reads(host, view, hist, at, root, p) {
      FileIsOpened(host, git, hist, query, root, p, "local");
    } else {
      var q, s :| Reads(host, view, hist, at, root, q) && Sets(hist, at, q, s) && Extends(view, s);
      FileIsOpened(host, git, hist, query, root, q, "local");
      WorktreeIsOpened(host, git, hist, query, root, q, s);
      FileIsOpened(host, git, hist, query, view.worktreeConfig(root), p, "worktree");
    }
  }

  /** Of a disk that stands still, an answered query returns every driver the repository sets. */
  lemma AnswerIsComplete(host: Host, git: Git, hist: History, query: Query, driver: string)
    requires GitAnswered(host, git, hist, query) && query.answered && Understood(host, query).Some?
    requires StandsStill(git, hist, query)
    requires FreshlyReports(host, git, hist, query.locatedAt, query.cwd, driver)
    ensures driver in Understood(host, query).value.drivers
  {
    var view, at := git.view(query.cwd), query.locatedAt;
    var root := git.locates(at, query.cwd).value;
    var p, s :| ReadsInScope(host, view, hist, at, root, p) && Sets(hist, at, p, s) && Queried(s.key)
                && DriverOf(s.key) == Some(driver);
    ReadFileIsOpened(host, git, hist, query, root, p);
    var v :| v in query.visits && v.path == p;
    AnswerReportsWhatGitReads(host, git, hist, query, v, s, driver);
  }

  // ----- the change law, from single changes -----

  /** At each moment a path keeps its settings and its modification time does not go back, or the file is gone,
      or it was modified within the window. */
  ghost predicate ChangesAreStamped(hist: History, p: Path) {
    forall t: Time ::
      var before, after := hist(t - 1, p), hist(t, p);
      && (after.Present? && !SameSettings(before, after) ==>
            after.stamp.modified.Some? && after.stamp.modified.value >= t - 2_000_000_000)
      && (after.Present? && SameSettings(before, after) ==>
            after.stamp.modified.Some? && before.stamp.modified.Some?
            && after.stamp.modified.value >= before.stamp.modified.value)
  }

  lemma {:induction false} StampedChangesObeyTheLaw(hist: History, p: Path, t: Time, u: Time)
    requires ChangesAreStamped(hist, p)
    requires t <= u && hist(u, p).Present? && !SameSettings(hist(t, p), hist(u, p))
    ensures hist(u, p).stamp.modified.Some? && hist(u, p).stamp.modified.value >= t - 2_000_000_000
    decreases u - t
  {
    if u > t && SameSettings(hist(u - 1, p), hist(u, p)) {
      StampedChangesObeyTheLaw(hist, p, t, u - 1);
    }
  }
}
