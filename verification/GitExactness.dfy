/** When the filter cache is coherent, exactly; and that its hits have something to cover. */
module GitExactness {
  import opened Basics
  import opened GitFilters
  import opened GitCoherence
  import opened Text

  /** From one directory, git calls a configuration file by one name. */
  ghost predicate NamesOnce(git: Git) {
    forall t, u, cwd :: git.locates(t, cwd).Some? && git.locates(u, cwd).Some?
                        && SameFile(git, git.locates(t, cwd).value, git.locates(u, cwd).value) ==>
      git.locates(t, cwd) == git.locates(u, cwd)
  }

  const CLEAN := Setting("filter." + "x" + ".clean", Some(""))

  lemma CleanNamesItsDriver()
    ensures Queried(CLEAN.key) && DriverOf(CLEAN.key) == Some("x")
  {
    assert CLEAN.key[..7] == "filter.";
    assert CLEAN.key[7..] == "x" + ['.'] + "clean";
    assert CLEAN.key[7..][1..] == ".clean";
    BeforeLastAt("x", '.', "clean");
  }

  lemma RootReports(host: Host, git: Git, hist: History, at: Time, cwd: Path, root: Path)
    requires git.locates(at, cwd) == Some(root) && Sets(hist, at, root, CLEAN)
    ensures FreshlyReports(host, git, hist, at, cwd, "x")
  {
    CleanNamesItsDriver();
    assert Chain(host, git.view(cwd), hist, at, root, [root]);
    assert Reads(host, git.view(cwd), hist, at, root, root);
  }

  // ----- runs of one query and one lookup -----

  /** A query at one moment that finds nothing to list. */
  function EmptyQuery(git: Git, cwd: Path, located: Time, remembered: Time): (r: Query) {
    Query(cwd, Some(cwd), located, located, located,
          match git.locates(located, cwd) case None => {} case Some(p) => {Visit(p, located, "local")},
          [], _ => "", _ => true, true, remembered, _ => located)
  }

  lemma EmptyIsUnderstood(host: Host, query: Query)
    requires query.records == [] && query.base.Some?
    ensures Understood(host, query) == Some(FilterListing({}, Some({})))
  {
    ListingRoundTrip([]);
    ListingAppend(host, [], Record("", "", Setting("", None)), query.base, query.isFile);
    assert ParseRecords(Render(query.records)) == [];
  }

  lemma EmptyQueryIsAnswered(host: Host, git: Git, hist: History, cwd: Path, located: Time, remembered: Time)
    requires located <= remembered
    requires git.locates(located, cwd).Some? ==> forall s :: !Sets(hist, located, git.locates(located, cwd).value, s)
    ensures var query := EmptyQuery(git, cwd, located, remembered);
            GitAnswered(host, git, hist, query) && OriginsAreNamed(host, query)
  {
    var query := EmptyQuery(git, cwd, located, remembered);
    if git.locates(located, cwd).Some? {
      var found := git.locates(located, cwd).value;
      assert Visit(found, located, "local") in query.visits;
    }
  }

  function EmptyEntry(watched: Path, stamp: Option<FileStamp>): (r: CachedFilters) {
    CachedFilters(watched, [(watched, stamp)], {})
  }

  lemma EmptyIsRemembered(watched: Path, stamp: Option<FileStamp>, located: Time, cwd: Path,
                          observed: Path -> Option<FileStamp>)
    requires observed(watched) == stamp && !IsRacy(stamp, located)
    ensures Remembers(map[], map[cwd := EmptyEntry(watched, stamp)], cwd, Some(watched), {}, {}, located, observed)
  {
    assert {} + {watched} == {watched};
    assert EmptyEntry(watched, stamp).watched[0] == (watched, stamp);
  }

  lemma EmptyQueryStep(host: Host, git: Git, hist: History, cwd: Path, located: Time, remembered: Time, watched: Path,
                       stamp: Option<FileStamp>)
    requires git.localConfig(remembered, cwd) == Some(watched)
    requires StampOf(hist(located, watched)) == stamp && !IsRacy(stamp, located)
    ensures QueryStep(host, git, hist, EmptyQuery(git, cwd, located, remembered), map[],
                      map[cwd := EmptyEntry(watched, stamp)])
  {
    var query := EmptyQuery(git, cwd, located, remembered);
    EmptyIsUnderstood(host, query);
    assert Stamps(hist, query)(watched) == StampOf(hist(located, watched));
    EmptyIsRemembered(watched, stamp, located, cwd, Stamps(hist, query));
  }

  function EventsOf(query: Query, at: Time, stampedAt: Path -> Time): (r: seq<Event>) {
    [Asked(query), LookedUp(query.cwd, at, stampedAt)]
  }

  function StatesOf(cwd: Path, held: CachedFilters): (r: seq<Entries>) {
    [map[], map[cwd := held], map[cwd := held]]
  }

  lemma TwoStepWorld(host: Host, git: Git, hist: History, query: Query, at: Time, stampedAt: Path -> Time)
    requires ChangeLaw(hist) && OneContent(git, hist)
    requires GitAnswered(host, git, hist, query) && OriginsAreNamed(host, query)
    requires Precedes(query, at) && StampsFollow(at, stampedAt)
    ensures World(host, git, hist, EventsOf(query, at, stampedAt))
  {
  }

  lemma TwoStepRun(host: Host, git: Git, hist: History, query: Query, at: Time, stampedAt: Path -> Time,
                   held: CachedFilters)
    requires QueryStep(host, git, hist, query, map[], map[query.cwd := held])
    ensures Run(host, git, hist, EventsOf(query, at, stampedAt), StatesOf(query.cwd, held))
  {
    var events, states := EventsOf(query, at, stampedAt), StatesOf(query.cwd, held);
    assert Step(host, git, hist, events[0], states[0], states[1]);
    assert Step(host, git, hist, events[1], states[1], states[2]);
  }

  lemma HitAnswers(git: Git, hist: History, query: Query, at: Time, stampedAt: Path -> Time, held: CachedFilters)
    requires git.localConfig(at, query.cwd) == Some(held.localConfig)
    requires StampsHold(held.watched, StampsTaken(hist, stampedAt))
    ensures Answer(git, hist, EventsOf(query, at, stampedAt)[1], StatesOf(query.cwd, held)[1]) == Some(held.drivers)
  {
  }

  lemma EmptyStampHolds(hist: History, watched: Path, stamp: Option<FileStamp>, stampedAt: Path -> Time)
    requires StampOf(hist(stampedAt(watched), watched)) == stamp
    ensures StampsHold(EmptyEntry(watched, stamp).watched, StampsTaken(hist, stampedAt))
  {
    assert StampsTaken(hist, stampedAt)(watched) == stamp;
  }

  // ----- a disk that shows every wrong location -----

  function OldStamp(located: Time): (r: FileStamp) {
    FileStamp(0, Some(located - RACY_CONFIG_WINDOW - 1), 0)
  }

  /** All files are empty and old but the one git finds at the lookup: it has a driver, from the start if it is
      the file the program watches, else from the lookup on. */
  function TrapFile(git: Git, watched: Path, root: Path, located: Time, at: Time, t: Time, p: Path): (r: ConfigFile) {
    if !SameFile(git, p, root) then Present([], OldStamp(located))
    else if SameFile(git, root, watched) then Present([CLEAN], OldStamp(located))
    else if t < at then Present([], OldStamp(located))
    else Present([CLEAN], FileStamp(1, Some(at), 1))
  }

  function Trap(git: Git, watched: Path, root: Path, located: Time, at: Time): (r: History) {
    (t: Time, p: Path) => TrapFile(git, watched, root, located, at, t, p)
  }

  lemma TrapObeysTheLaw(git: Git, watched: Path, root: Path, located: Time, at: Time)
    ensures var hist := Trap(git, watched, root, located, at);
            ChangeLaw(hist) && OneContent(git, hist)
  {
  }

  lemma TrapShowsNothing(git: Git, cwd: Path, located: Time, at: Time, watched: Path, root: Path, found: Path,
                         s: Setting)
    requires NamesOnce(git) && located < at
    requires git.locates(at, cwd) == Some(root) && git.locates(located, cwd) == Some(found)
    requires found != root || !SameFile(git, root, watched)
    ensures !Sets(Trap(git, watched, root, located, at), located, found, s)
  {
    var file := TrapFile(git, watched, root, located, at, located, found);
    assert file.Present? && file.settings == [];
    assert Trap(git, watched, root, located, at)(located, found) == file;
  }

  lemma TrapKeepsStamp(git: Git, watched: Path, root: Path, located: Time, at: Time, t: Time)
    ensures StampOf(Trap(git, watched, root, located, at)(t, watched)) == Some(OldStamp(located))
  {
    var file := TrapFile(git, watched, root, located, at, t, watched);
    assert file.Present? && file.stamp == OldStamp(located);
    assert Trap(git, watched, root, located, at)(t, watched) == file;
  }

  /** Wherever and whenever the condition fails, whatever else git and the host do, there is a run in a lawful world
      in which a hit answers that there are no drivers, and a fresh query would report one. */
  lemma MislocatedHitsMiss(host: Host, git: Git, cwd: Path, located: Time, remembered: Time, at: Time)
    returns (hist: History, events: seq<Event>, states: seq<Entries>)
    requires NamesOnce(git) && located <= remembered < at
    requires !WellLocated(git, cwd, located, remembered, at)
    ensures World(host, git, hist, events) && Run(host, git, hist, events, states)
    ensures |events| == 2 && events[0].Asked? && events[1].LookedUp? && events[1].cwd == events[0].query.cwd == cwd
    ensures events[0].query.locatedAt == located && events[0].query.rememberedAt == remembered && events[1].at == at
    ensures cwd in states[1] && NothingVanishes(hist, at, states[1][cwd])
    ensures Answer(git, hist, events[1], states[1]) == Some({})
    ensures FreshlyReports(host, git, hist, at, cwd, "x")
  {
    var watched, root := git.localConfig(remembered, cwd).value, git.locates(at, cwd).value;
    var query, stamp, now := EmptyQuery(git, cwd, located, remembered), Some(OldStamp(located)), (_: Path) => at;
    var held := EmptyEntry(watched, stamp);
    hist, events, states := Trap(git, watched, root, located, at), EventsOf(query, at, now), StatesOf(cwd, held);
    TrapObeysTheLaw(git, watched, root, located, at);
    forall s | git.locates(located, cwd).Some?
      ensures !Sets(hist, located, git.locates(located, cwd).value, s)
    {
      TrapShowsNothing(git, cwd, located, at, watched, root, git.locates(located, cwd).value, s);
    }
    EmptyQueryIsAnswered(host, git, hist, cwd, located, remembered);
    TwoStepWorld(host, git, hist, query, at, now);
    TrapKeepsStamp(git, watched, root, located, at, located);
    TrapKeepsStamp(git, watched, root, located, at, at);
    EmptyQueryStep(host, git, hist, cwd, located, remembered, watched, stamp);
    TwoStepRun(host, git, hist, query, at, now, held);
    EmptyStampHolds(hist, watched, stamp, now);
    HitAnswers(git, hist, query, at, now, held);
    assert Sets(hist, at, root, CLEAN);
    RootReports(host, git, hist, at, cwd, root);
  }

  // ----- the exact condition -----

  ghost predicate CoherentIn(host: Host, git: Git, hist: History, events: seq<Event>, states: seq<Entries>, n: nat) {
    && World(host, git, hist, events) && Run(host, git, hist, events, states) && n < |events| && events[n].LookedUp?
    && (events[n].cwd in states[n] ==> NothingVanishes(hist, events[n].at, states[n][events[n].cwd])) ==>
      Covers(host, git, hist, events[n], states[n])
  }

  ghost predicate AlwaysCoherent(host: Host, git: Git) {
    forall hist, events, states, n :: CoherentIn(host, git, hist, events, states, n)
  }

  lemma MislocationIsIncoherent(host: Host, git: Git, cwd: Path, located: Time, remembered: Time, at: Time)
    requires NamesOnce(git) && located <= remembered < at
    requires !WellLocated(git, cwd, located, remembered, at)
    ensures !AlwaysCoherent(host, git)
  {
    var hist, events, states := MislocatedHitsMiss(host, git, cwd, located, remembered, at);
    assert !Covers(host, git, hist, events[1], states[1]);
    assert !CoherentIn(host, git, hist, events, states, 1);
  }

  lemma WellLocatedIsCoherent(host: Host, git: Git, hist: History, events: seq<Event>, states: seq<Entries>, n: nat)
    requires StableConditions(git)
    requires forall cwd, located, remembered, at :: located <= remembered < at ==>
               WellLocated(git, cwd, located, remembered, at)
    ensures CoherentIn(host, git, hist, events, states, n)
  {
    if && World(host, git, hist, events) && Run(host, git, hist, events, states) && n < |events| && events[n].LookedUp?
       && (events[n].cwd in states[n] ==> NothingVanishes(hist, events[n].at, states[n][events[n].cwd]))
    {
      forall i | 0 <= i < n && events[i].Asked?
        ensures events[i].query.locatedAt <= events[i].query.rememberedAt < events[n].at
      {
        assert GitAnswered(host, git, hist, events[i].query) && Precedes(events[i].query, events[n].at);
      }
      CacheIsCoherent(host, git, hist, events, states, n);
    }
  }

  /** The cache is coherent in all runs in all lawful worlds exactly when every location is the right one. */
  lemma CoherenceIsExact(host: Host, git: Git)
    requires StableConditions(git) && NamesOnce(git)
    ensures AlwaysCoherent(host, git)
       <==> forall cwd, located, remembered, at :: located <= remembered < at ==>
              WellLocated(git, cwd, located, remembered, at)
  {
    if AlwaysCoherent(host, git) {
      forall cwd, located, remembered, at | located <= remembered < at
        ensures WellLocated(git, cwd, located, remembered, at)
      {
        if !WellLocated(git, cwd, located, remembered, at) {
          MislocationIsIncoherent(host, git, cwd, located, remembered, at);
        }
      }
    }
    if forall cwd, located, remembered, at :: located <= remembered < at ==>
         WellLocated(git, cwd, located, remembered, at)
    {
      forall hist, events, states, n
        ensures CoherentIn(host, git, hist, events, states, n)
      {
        WellLocatedIsCoherent(host, git, hist, events, states, n);
      }
    }
  }

  // ----- two ways to be wrong -----

  const PLAIN_VIEW: Path -> View := cwd => View((o, v) => v, (t, c) => false, v => false, r => "W")

  /** Git and the program always find the same file, and `.git` is pointed from A to B at moment 1. */
  const MOVED_GIT := Git(PLAIN_VIEW, (t, cwd) => Some(if t < 1 then "A" else "B"),
                         (t, cwd) => Some(if t < 1 then "A" else "B"), p => p)

  /** A query that git answers from A and the program remembers for B is a hit for B. */
  lemma MovingTheRepositoryDefeatsTheCache(host: Host)
    ensures StableConditions(MOVED_GIT) && NamesOnce(MOVED_GIT)
    ensures !WellLocated(MOVED_GIT, "D", 0, 1, 2) && !AlwaysCoherent(host, MOVED_GIT)
  {
    assert MOVED_GIT.locates(0, "D") == Some("A") && MOVED_GIT.locates(2, "D") == Some("B");
    MislocationIsIncoherent(host, MOVED_GIT, "D", 0, 1, 2);
  }

  /** Nothing moves, and the directory is a link from one repository into another: the program walks up the path it
      was given, git walks up from where the link leads. */
  const LINKED_GIT := Git(PLAIN_VIEW, (t, cwd) => Some("/r2/.git/config"),
                          (t, cwd) => Some("/r1/.git/config"), p => p)

  lemma LinkedDirectoryDefeatsTheCache(host: Host)
    ensures StableConditions(LINKED_GIT) && NamesOnce(LINKED_GIT)
    ensures !WellLocated(LINKED_GIT, "/r1/link", 0, 1, 2) && !AlwaysCoherent(host, LINKED_GIT)
  {
    assert "/r1/.git/config"[2] != "/r2/.git/config"[2];
    MislocationIsIncoherent(host, LINKED_GIT, "/r1/link", 0, 1, 2);
  }

  // ----- a file that is there for a moment only -----

  /** The local configuration is there, with a driver, from the start of the lookup until its stamp is taken. */
  function BlinkFile(git: Git, root: Path, at: Time, stamped: Time, t: Time, p: Path): (r: ConfigFile) {
    if SameFile(git, p, root) && at <= t < stamped then Present([CLEAN], FileStamp(1, Some(at), 1)) else Absent
  }

  function Blink(git: Git, root: Path, at: Time, stamped: Time): (r: History) {
    (t: Time, p: Path) => BlinkFile(git, root, at, stamped, t, p)
  }

  lemma BlinkObeysTheLaw(git: Git, root: Path, at: Time, stamped: Time)
    ensures ChangeLaw(Blink(git, root, at, stamped)) && OneContent(git, Blink(git, root, at, stamped))
  {
  }

  lemma BlinkIsAbsent(git: Git, root: Path, at: Time, stamped: Time, t: Time, p: Path)
    requires t < at || stamped <= t
    ensures Blink(git, root, at, stamped)(t, p) == Absent
  {
    assert Blink(git, root, at, stamped)(t, p) == BlinkFile(git, root, at, stamped, t, p);
  }

  /** Without `NothingVanishes` a hit can miss a driver, however well located it is and however short the lookup: the
      file was absent when git read, and is absent again when its stamp is taken. */
  lemma VanishingFileIsMissed(host: Host, git: Git, cwd: Path, located: Time, remembered: Time, at: Time, stamped: Time,
                              watched: Path)
    returns (hist: History, events: seq<Event>, states: seq<Entries>)
    requires located <= remembered < at < stamped
    requires git.localConfig(remembered, cwd) == git.localConfig(at, cwd) == Some(watched)
    requires git.locates(at, cwd).Some? && WellLocated(git, cwd, located, remembered, at)
    ensures World(host, git, hist, events) && Run(host, git, hist, events, states)
    ensures |events| == 2 && events[0].Asked? && events[1].LookedUp? && events[1].cwd == events[0].query.cwd == cwd
    ensures events[0].query.locatedAt == located && events[0].query.rememberedAt == remembered
    ensures events[1].at == at && events[1].stampedAt(watched) == stamped
    ensures Answer(git, hist, events[1], states[1]) == Some({})
    ensures FreshlyReports(host, git, hist, at, cwd, "x")
  {
    var root := git.locates(at, cwd).value;
    var query, later := EmptyQuery(git, cwd, located, remembered), (_: Path) => stamped;
    var held := EmptyEntry(watched, None);
    hist, events, states := Blink(git, root, at, stamped), EventsOf(query, at, later), StatesOf(cwd, held);
    BlinkObeysTheLaw(git, root, at, stamped);
    forall t, p | t == located || t == stamped
      ensures hist(t, p) == Absent
    {
      BlinkIsAbsent(git, root, at, stamped, t, p);
    }
    EmptyQueryIsAnswered(host, git, hist, cwd, located, remembered);
    TwoStepWorld(host, git, hist, query, at, later);
    EmptyQueryStep(host, git, hist, cwd, located, remembered, watched, None);
    TwoStepRun(host, git, hist, query, at, later, held);
    EmptyStampHolds(hist, watched, None, later);
    HitAnswers(git, hist, query, at, later, held);
    assert Sets(hist, at, root, CLEAN);
    RootReports(host, git, hist, at, cwd, root);
  }

  // ----- hits happen -----

  const NOON: Time := 10 * RACY_CONFIG_WINDOW
  const OLD_STAMP := FileStamp(1, Some(0), 1)

  const PLAIN_HOST := Host(_ => true, None, (b, o) => o, _ => None, _ => true)

  const STILL_GIT := Git(PLAIN_VIEW, (t, cwd) => Some("B"), (t, cwd) => Some("B"), p => p)

  const STILL_DISK: History := (t, p) => if p == "B" then Present([CLEAN], OLD_STAMP) else Absent

  const LISTED := Record("local", "file:" + "B", CLEAN)

  const FULL_QUERY :=
    Query("D", Some("D"), NOON, NOON, NOON, {Visit("B", NOON, "local")}, [LISTED], p => "file:" + p, _ => true, true,
          NOON + 1, _ => NOON + 1)

  const FULL := CachedFilters("B", [("B", Some(OLD_STAMP))], {"x"})

  lemma ListedNamesItsFile()
    ensures WellFormedRecord(LISTED)
    ensures OriginFile(PLAIN_HOST, LISTED.origin, "D") == Some("B")
    ensures WatchedBy(PLAIN_HOST, LISTED, "D", FULL_QUERY.isFile) == Some({"B"})
  {
    assert LISTED.origin[..5] == "file:" && LISTED.origin[5..] == "B";
    assert CLEAN.key[0] == 'f';
    assert !StartsWith(CLEAN.key, "includeif.") by {
      assert "includeif."[0] == 'i';
    }
    assert "include.path"[0] == 'i' && "extensions.worktreeconfig"[0] == 'e';
  }

  lemma OneRecordIsUnderstood(host: Host, query: Query, r: Record, driver: string, files: set<Path>)
    requires query.records == [r] && WellFormedRecord(r) && IsRepositoryScope(r.scope) && host.utf8(r.setting.key)
    requires DriverOf(r.setting.key) == Some(driver)
    requires query.base.Some? && WatchedBy(host, r, query.base.value, query.isFile) == Some(files)
    ensures Understood(host, query) == Some(FilterListing({driver}, Some(files)))
  {
    ListingRoundTrip([r]);
    ListingAppend(host, [], r, query.base, query.isFile);
    assert [] + [r] == [r] && {} + {driver} == {driver} && {} + files == files;
    assert ParseRecords(Render(query.records)) == [r];
  }

  lemma FullQueryIsUnderstood()
    ensures Understood(PLAIN_HOST, FULL_QUERY) == Some(FilterListing({"x"}, Some({"B"})))
  {
    ListedNamesItsFile();
    CleanNamesItsDriver();
    OneRecordIsUnderstood(PLAIN_HOST, FULL_QUERY, LISTED, "x", {"B"});
  }

  lemma OnlyClean(s: Setting, target: Path)
    ensures Sets(STILL_DISK, NOON, "B", s) ==> s == CLEAN
    ensures !Follows(PLAIN_HOST, STILL_GIT.view("D"), NOON, CLEAN, "B", target)
  {
    assert "include.path"[0] == 'i' && CLEAN.key[0] == 'f';
  }

  lemma FullQueryIsAnswered()
    ensures GitAnswered(PLAIN_HOST, STILL_GIT, STILL_DISK, FULL_QUERY) && OriginsAreNamed(PLAIN_HOST, FULL_QUERY)
  {
    ListedNamesItsFile();
    assert LISTED in FULL_QUERY.records;
    assert Lists(FULL_QUERY, Visit("B", NOON, "local"), CLEAN);
    assert Visit("B", NOON, "local") in FULL_QUERY.visits;
    forall v, s | v in FULL_QUERY.visits && Sets(STILL_DISK, v.at, v.path, s)
      ensures Lists(FULL_QUERY, v, s)
      ensures forall target :: !Follows(PLAIN_HOST, STILL_GIT.view("D"), v.at, s, v.path, target)
    {
      OnlyClean(s, "");
      forall target
        ensures !Follows(PLAIN_HOST, STILL_GIT.view("D"), v.at, s, v.path, target)
      {
        OnlyClean(s, target);
      }
    }
  }

  lemma FullIsRemembered(observed: Path -> Option<FileStamp>)
    requires observed("B") == Some(OLD_STAMP)
    ensures Remembers(map[], map["D" := FULL], "D", Some("B"), {"B"}, {"x"}, NOON, observed)
  {
    assert {"B"} + {"B"} == {"B"};
    assert FULL.watched[0] == ("B", Some(OLD_STAMP));
  }

  lemma FullQueryIsRemembered()
    ensures QueryStep(PLAIN_HOST, STILL_GIT, STILL_DISK, FULL_QUERY, map[], map["D" := FULL])
  {
    FullQueryIsUnderstood();
    FullIsRemembered(Stamps(STILL_DISK, FULL_QUERY));
  }

  /** The assumptions can be met together: git and program always find the same file, a query is remembered, and a
      later lookup is a hit that has something to cover. */
  lemma HitsHappen(at: Time) returns (events: seq<Event>, states: seq<Entries>)
    requires at > NOON + 1
    ensures StableConditions(STILL_GIT) && NamesOnce(STILL_GIT)
    ensures forall cwd, located, remembered, t :: WellLocated(STILL_GIT, cwd, located, remembered, t)
    ensures World(PLAIN_HOST, STILL_GIT, STILL_DISK, events) && Run(PLAIN_HOST, STILL_GIT, STILL_DISK, events, states)
    ensures |events| == 2 && events[1].LookedUp? && events[1].at == at
    ensures events[1].cwd in states[1] && NothingVanishes(STILL_DISK, at, states[1][events[1].cwd])
    ensures Answer(STILL_GIT, STILL_DISK, events[1], states[1]) == Some({"x"})
    ensures FreshlyReports(PLAIN_HOST, STILL_GIT, STILL_DISK, at, events[1].cwd, "x")
  {
    var now := (_: Path) => at;
    events, states := EventsOf(FULL_QUERY, at, now), StatesOf("D", FULL);
    FullQueryIsAnswered();
    TwoStepWorld(PLAIN_HOST, STILL_GIT, STILL_DISK, FULL_QUERY, at, now);
    FullQueryIsRemembered();
    TwoStepRun(PLAIN_HOST, STILL_GIT, STILL_DISK, FULL_QUERY, at, now, FULL);
    HitAnswers(STILL_GIT, STILL_DISK, FULL_QUERY, at, now, FULL);
    assert Sets(STILL_DISK, at, "B", CLEAN);
    RootReports(PLAIN_HOST, STILL_GIT, STILL_DISK, at, "D", "B");
  }
}
