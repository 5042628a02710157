# Paneflow: a verified model of its session, git, settings and command-line logic

The modules model the parts of Paneflow in which state, arithmetic or text handling has to be exact, and prove what
those parts promise. `dafny verify dfyconfig.toml` checks everything.

| module | models |
|---|---|
| `GitFilters`, `GitCoherence`, `GitExactness` | git's configuration listing, the stamped cache of filter drivers, and when exactly a cache hit is as good as asking git again while files change at any moment, also while git is reading them |
| `Calendar` | the integer calendar behind printed timestamps, against a calendar counted day by day |
| `Collector` | the bounded collector of recent sessions, against "stable sort, then take" |
| `SessionCache` | the session-listing cache with its wrapping 64-bit access counter, against the log of its uses, and for how many uses it is right |
| `LineScan` | the capped line reader over arbitrary chunks, and the budgeted scan of a session's head |
| `Settings` | ordered settings writes that finish out of order |
| `Shortcuts` | binding, unbinding and restoring keys in the shortcut map |
| `GitRace` | the writer and probe threads, one atomic access a step |
| `EnvExpand`, `EditorSplit` | the placeholder expander and the editor command-line splitter |
| `Catalog`, `Resume` | the descriptor validator, the lookups it justifies, and resume commands rendered and read back |
| `AutoNaming` | when a session is named again |
| `AllocLedger` | the counting allocator given to tree-sitter |
| `Basics`, `Text` | options, slices, string searching and splitting, decimal numbers, string order |

Code that works step by step is a method or a class whose `ensures` ties the new state to a specification; the lemmas
are about that specification. Files are histories (what every path holds at every moment), outcomes of the operating
system are parameters, and a buffered reader may hand out any non-empty chunk.

Five promises do not hold on every input, and each has its exact boundary:

* A hit of the git cache covers what a fresh query would report, in all runs in all lawful worlds, exactly when every
  location is the right one: should the program find the same local configuration when it remembers an answer and when it
  looks it up, then git found, when it was asked, the configuration it would find at the lookup, and that is the file
  the program watches (`GitExactness.CoherenceIsExact`). It is not when `.git` is moved while a query is under way
  (`GitExactness.MovingTheRepositoryDefeatsTheCache`), nor from a directory that is a link into another repository, where
  nothing need move (`GitExactness.LinkedDirectoryDefeatsTheCache`). Besides, a lookup takes its stamps one after another:
  a hit can miss a file that was absent when git read, is there when the lookup starts, and is gone again at its stamp
  (`GitExactness.VanishingFileIsMissed`); a lookup to which that does not happen is covered.
* Ordered settings converge to the same JSON object in every order exactly when no two of the settings written interfere: a key of the `terminal`
  block interferes with top-level `terminal` and with its own dotted top-level name (`Settings.OrderNeverShowsExactly`).
* Printed timestamps sort as texts in time order up to year 9999 (`Calendar.TextOrderIsTimeOrder`,
  `Calendar.FourDigitYears`); across any two years the order is that of their leading digits (`Calendar.PrintedOrder`), so
  year 10000 sorts before year 9999 (`Calendar.YearTenThousandSortsEarlier`).
* A rendered conversation command splits back into its tokens unless a session without an id is forked
  (`Resume.RenderedReadsBack`, with `Resume.ForkWithoutIdLosesAWord`), and is detected as its own runtime's exactly
  when its program without a Windows suffix is still one of that runtime's commands (`Resume.DetectionFindsTheRuntime`,
  with `Resume.WindowsNameEscapesDetection`).
* The session cache keeps exactly the ten most recently used keys in all runs of `n` uses if and only if `n` is at most
  2^64 + 1 (`SessionCache.KeepsExactly`); one use later the key used last but one can be gone (`SessionCache.ElevenKeysFail`).

## Model

| member | source | states |
|---|---|---|
| GitFilters.ListingRoundTrip | src-app/src/git_command.rs:226-280 | whatever records git lists with `-z`, values with newlines included, the parser reads back exactly those records |
| GitFilters.DriverOfIsExact | src-app/src/git_command.rs:242-247 | a key names a driver exactly when it is `filter.`, the driver, a dot and a name without one |
| GitFilters.DriversAreExact | src-app/src/git_command.rs:231-247 | the drivers of a listing are those its local and worktree settings name; a setting of any other scope adds none |
| GitFilters.RefusalIsExact | src-app/src/git_command.rs:231-241 | a listing is refused exactly for a local or worktree setting whose name is not UTF-8 |
| GitFilters.OriginsAreFiles | src-app/src/git_command.rs:251-256 | an origin names a file exactly when it starts with `file:`, and then the one beside the working base |
| GitFilters.IncludesAreExact | src-app/src/git_command.rs:288-326 | for every key and value: which settings are includes, which of them cannot be cached, and the file each other one names |
| GitFilters.WatchedIsExact | src-app/src/git_command.rs:248-279 | a listing can be watched exactly when every local and worktree record can, and then its files are their origins and includes |
| GitFilters.WatchRecord | src-app/src/git_command.rs:251-280 | one record adds its origin and its include target to the watched files, or makes the listing uncacheable |
| GitFilters.RepositoryFilterListing | src-app/src/git_command.rs:226-280 | the loop's result is the driver set and watched set of all repository records taken together, or the error for a name that is not UTF-8 |
| GitFilters.FilterCache.CachedFilterDrivers | src-app/src/git_command.rs:362-374 | a hit exactly when an entry for the directory has the same local configuration and every watched stamp still holds |
| GitFilters.FilterCache.RememberFilterDrivers | src-app/src/git_command.rs:376-414 | stores every watched file with its stamp, or nothing if a stamp lies in the two-second window before the query; a full cache is emptied first, other entries are kept |
| GitFilters.CacheStaysSmall | src-app/src/git_command.rs:403-405 | the cache never holds more than 64 directories |
| GitFilters.FilterCache.QueryFilterDrivers | src-app/src/git_command.rs:176-210 | the drivers of the listing, remembered only if git answered and everything can be watched |
| GitFilters.NeutralizeDrivers | src-app/src/git_command.rs:146-174 | the command's environment is overridden with the four neutral settings of every driver and nothing else |
| GitFilters.OverridesStand | src-app/src/git_command.rs:155-172 | each override stands under its own number counted on from the inherited ones, the new count is told exactly when there is a driver, and nothing else in the environment changes |
| GitFilters.NeutralizedIsInert | src-app/src/git_command.rs:56-61 | what the overrides say of a driver is that it has no clean, smudge or process command and is not required |
| GitExactness.CoherenceIsExact | src-app/src/git_command.rs:176-414 | in all runs in all lawful worlds every hit covers a fresh query, if and only if git's location at the query, git's location at the lookup and the file the program watches are one whenever the program could hit |
| GitCoherence.CacheIsCoherent | src-app/src/git_command.rs:176-414 | in every run of queries and lookups over any history of the disk obeying the change law, a hit whose entry was well located holds every driver a fresh query would report when the lookup starts |
| GitCoherence.AnswerReportsWhatGitReads | src-app/src/git_command.rs:176-210 | every driver set in a file git reads for the repository, as local or as worktree configuration, is among the drivers of an answered query, also while files change |
| GitCoherence.AnswerIsComplete | src-app/src/git_command.rs:176-210 | of a disk that stands still an answered query returns every driver reached through includes of any depth, the worktree's configuration included |
| GitExactness.MislocatedHitsMiss | src-app/src/git_command.rs:357-396 | for any git, host, directory and moments at which the condition fails there is a run in a lawful world in which a hit says there is no driver and a fresh query reports one |
| GitExactness.MovingTheRepositoryDefeatsTheCache | src-app/src/git_command.rs:357-396 | with `.git` moved between git locating it and the answer being remembered, the cache is not coherent |
| GitExactness.LinkedDirectoryDefeatsTheCache | src-app/src/workspace/git.rs:757-766 | with a directory linked into another repository, and nothing moving, the cache is not coherent |
| GitExactness.VanishingFileIsMissed | src-app/src/git_command.rs:362-374 | for any git, host and well-located hit, and stamps taken any time after the lookup starts, there is a run in a lawful world in which the hit misses a driver of a file that comes and goes |
| GitExactness.HitsHappen | src-app/src/git_command.rs:362-414 | the assumptions can hold together: a concrete well-located run in which a query is remembered and a later lookup hits with a driver to cover |
| GitCoherence.HitCoversAFreshQuery | src-app/src/git_command.rs:362-374 | the same for one hit: settings reached through includes of any depth are covered, though the stamps are taken one after another |
| GitCoherence.EntriesAreJustified | src-app/src/git_command.rs:376-414 | in every run, each entry was left by an earlier answered query, with stamps older than its start less two seconds |
| GitCoherence.WatchedFileIsUnchanged | src-app/src/git_command.rs:376-414 | a watched file present at a hit held the same settings at every moment of the query |
| GitCoherence.FollowedIsWatched | src-app/src/git_command.rs:288-326 | an include git follows is one git was asked to list, and the code either names the file git opens or refuses to cache |
| GitCoherence.RecordIsUnderstood | src-app/src/git_command.rs:226-280 | behind a hit no listed record is uncacheable, include targets are watched, and drivers are held |
| GitCoherence.LinkStaysSeen | src-app/src/git_command.rs:251-326 | the watched set is closed under the includes in force |
| GitCoherence.ChainStaysSeen | src-app/src/git_command.rs:251-326 | so is any chain of includes from the local configuration |
| GitCoherence.StampedChangesObeyTheLaw | src-app/src/git_command.rs:382-396 | if every single change stamps its file within two seconds, and times never go back otherwise, the change law holds over any span |
| Calendar.DayFormulaCountsDays | src-app/src/agent_sessions.rs:610-626 | the parser's day formula equals a calendar counted year by year and month by month, and fails exactly on 64-bit overflow |
| Calendar.PrintedDateIsRight | src-app/src/agent_sessions.rs:636-652 | the printed month and day form a valid Gregorian date, the one that many days after the epoch |
| Calendar.CivilRoundTrip | src-app/src/agent_sessions.rs:610-652 | the two date conversions are inverse on the whole calendar from 1970 |
| Calendar.DatesAreOrdered | src-app/src/agent_sessions.rs:610-626 | later dates have larger day numbers |
| Calendar.ArithmeticIsExact | src-app/src/agent_sessions.rs:610-634 | on calendar moments the checked arithmetic gives the calendar's seconds and fails exactly when they overflow |
| Calendar.MomentIsRead | src-app/src/agent_sessions.rs:591-634 | every calendar date-time from 1970, with any fraction or zone mark behind it, parses to its seconds; it fails exactly when they do not fit |
| Calendar.MinuteIsRead | src-app/src/agent_sessions.rs:605-608 | a time without seconds is read at its full minute |
| Calendar.WhatIsReadIsWritten | src-app/src/agent_sessions.rs:591-608 | whatever is read has a `T` between a date of three numbers and a time of two |
| Calendar.PrintedTimestampReadsBack | src-app/src/agent_sessions.rs:591-660 | for every 64-bit millisecond count, parsing the printed timestamp gives the whole seconds |
| Calendar.ReadTimestampPrintsBack | src-app/src/agent_sessions.rs:591-660 | the seconds read from any calendar moment print back to the same date and time |
| Calendar.PrintedOrder | src-app/src/agent_sessions.rs:636-660 | printed timestamps compare as texts as their instants do within a year, and across years as the shorter year compares with the leading digits of the longer |
| Calendar.PrintedYearOrder | src-app/src/agent_sessions.rs:636-660 | that numeric rule is the text order of the printed years, of any width |
| Calendar.FourDigitYears | src-app/src/agent_sessions.rs:636-660 | the year has four digits exactly before the stated millisecond count |
| Calendar.TextOrderIsTimeOrder | src-app/src/agent_sessions.rs:512-534 | before year 10000 comparing printed texts is comparing instants |
| Calendar.YearTenThousandSortsEarlier | src-app/src/agent_sessions.rs:512-534 | any instant of year 10000 sorts before any of year 9999 |
| Collector.SortedIsStableSort | src-app/src/agent_sessions.rs:512-544 | the specification's order is descending and keeps equal timestamps in arrival order |
| Collector.StableSortIsUnique | src-app/src/agent_sessions.rs:512-544 | those two properties determine the result |
| Collector.TopOfInsert | src-app/src/agent_sessions.rs:523-536 | inserting into the kept prefix and dropping its last is inserting into everything and keeping the prefix |
| Collector.PushKeepsTop | src-app/src/agent_sessions.rs:503-536 | once full, a push keeps the first `cap` of everything pushed |
| Collector.RetainedIsSorted | src-app/src/agent_sessions.rs:538-544 | sorting what is retained gives the first `cap` of all pushed; a full collector is sorted already |
| Collector.NewerMeansLater | src-app/src/agent_sessions.rs:512-534 | for printed timestamps the collector's string comparison is chronological |
| Collector.RecentSessionCollector.constructor | src-app/src/agent_sessions.rs:494-501 | starts empty, unsorted and valid |
| Collector.RecentSessionCollector.Push | src-app/src/agent_sessions.rs:503-536 | keeps the invariant: retained is determined by everything pushed, omitted is the saturated rest, and the flag is up exactly when full |
| Collector.RecentSessionCollector.Replace | src-app/src/agent_sessions.rs:520-534 | the newcomer takes the place of the oldest or is left out |
| Collector.RecentSessionCollector.Finish | src-app/src/agent_sessions.rs:538-544 | the first `cap` of the stable descending sort of everything pushed, and how many were left out |
| Collector.CollectRecentSessions | src-app/src/agent_sessions.rs:475-484 | the same for any input sequence and any cap |
| SessionCache.Cache.LookUp | src-app/src/agent_sessions.rs:90-113 | for 2^64 + 1 uses, a hit exactly for a kept key whose file time lies in the first millisecond from the stored one; a hit always gives the last listing stored, fresh, and is a use; a miss changes nothing |
| SessionCache.Cache.StoreResult | src-app/src/agent_sessions.rs:115-157 | a store is a use, and keeps the map holding the last listings for good and exactly the ten most recently used keys for 2^64 + 1 uses |
| SessionCache.UseKeepsTelling | src-app/src/agent_sessions.rs:90-157 | after any use the map again holds exactly the kept keys, the number of each one's last use, and its last listing |
| SessionCache.KeptAfterUse | src-app/src/agent_sessions.rs:115-157 | the keys kept by recency are those the map keeps: room is made by the least recently used key |
| SessionCache.VictimFalls | src-app/src/agent_sessions.rs:133-148 | the entry with the smallest access number is the one that recency drops |
| SessionCache.OthersStay | src-app/src/agent_sessions.rs:133-148 | and no other |
| SessionCache.WrapDropsTheNewest | src-app/src/agent_sessions.rs:64-67 | at use 2^64 the counter gives number 0 again: the key just used becomes the victim of the next new key, though recency keeps it |
| SessionCache.KeepsExactly | src-app/src/agent_sessions.rs:64-157 | in all runs of at most n uses the map ends with exactly the kept keys, if and only if n is at most 2^64 + 1 |
| SessionCache.ElevenKeysFail | src-app/src/agent_sessions.rs:64-157 | a run of 2^64 + 2 uses of eleven keys after which the map does not hold the kept keys |
| SessionCache.LastUseIsInjective | src-app/src/agent_sessions.rs:64-67 | access numbers of different keys differ |
| LineScan.ReadUntilNewline | src-app/src/agent_sessions.rs:668-680 | for any chunking, exactly the bytes up to the newline, the limit or the end, unless an I/O error was met |
| LineScan.SkipRestOfLine | src-app/src/agent_sessions.rs:696-713 | terminates, never passes a newline or the limit, and reports the bytes consumed |
| LineScan.ReadCappedLine | src-app/src/agent_sessions.rs:668-694 | result, reported count and position depend on the remaining bytes and the limit alone |
| LineScan.LinesAreLossless | src-app/src/agent_sessions.rs:668-694 | a file is the concatenation of its lines, each ending with its only newline but perhaps the last |
| LineScan.LineAt | src-app/src/claude_sessions.rs:167-192 | a line is what the bytes at its offset start with |
| LineScan.ReadsLine | src-app/src/claude_sessions.rs:167-192 | reading at a line's offset gives the line or skips it, and a skip that stops short exhausts the budget |
| LineScan.OneTurn | src-app/src/claude_sessions.rs:167-192 | a turn that continues leaves the reader at the next line or the budget spent |
| LineScan.ScanSessionHead | src-app/src/claude_sessions.rs:160-249 | for every file and chunking the head is the first acceptable envelope, the last title and the first user message among the whole lines that count, the bytes read are at most the budget and one line, an I/O error leaves the lines before the one it came in, and without an envelope there is no head |
| LineScan.ScannedIsHead | src-app/src/claude_sessions.rs:167-249 | any scan of lines gives that head: records with an unacceptable envelope before an acceptable one contribute nothing, and the scan stops exactly at the first title with an envelope in hand, at the line limit or where the budget no longer holds a line |
| LineScan.CountIsUnique | src-app/src/claude_sessions.rs:167-192 | which lines count is determined by the file, the limit and the stop |
| Settings.Store.SaveSettingOrdered | src-app/src/config_writer.rs:427-461 | a write is superseded, fails and changes nothing, or changes its setting and its slot |
| Settings.Store.ApplyField | src-app/src/config_writer.rs:276-293 | the field is set or, for null, removed; a block that is not an object is replaced |
| Settings.SharedSlots | src-app/src/config_writer.rs:427-440 | two settings share a slot exactly when one is a block key and the other its dotted top-level name |
| Settings.SaveSays | src-app/src/config_writer.rs:441-461 | a write is superseded exactly by one as new, fails exactly when the file does and then changes nothing, and is written otherwise and reads back |
| Settings.WritesSettle | src-app/src/config_writer.rs:427-461 | after any order and any failures a setting no write interferes with holds its highest-sequence write that could land, or its old value |
| Settings.BlockSettles | src-app/src/config_writer.rs:276-293 | the block becomes an object exactly when a write to it could land |
| Settings.OthersUnchanged | src-app/src/config_writer.rs:427-461 | a setting no write names, holds or is held by is left alone, by any writes |
| Settings.OrderNeverShowsExactly | src-app/src/config_writer.rs:427-461 | writes to a set of settings always leave the same JSON object in every order if and only if no two of the settings interfere |
| Settings.OrderDoesNotMatter | src-app/src/config_writer.rs:427-461 | the same writes to settings that do not interfere leave the same JSON object in every order, so that of running them in sequence order |
| Settings.InterferingWritesConflict | src-app/src/config_writer.rs:276-461 | every two settings that interfere have two writes whose order shows in the file |
| Settings.SafeSettingsAreIndependent | src-app/src/config_writer.rs:276-461 | block keys and top-level keys other than `terminal` and `terminal.*` never interfere, and every other key interferes with one of them |
| Settings.DottedKeyShadowsBlockKey | src-app/src/config_writer.rs:427-440 | a top-level key spelled like a block key suppresses a write to the block |
| Settings.WritingTheBlockDropsItsKeys | src-app/src/config_writer.rs:276-293 | a top-level write to `terminal` drops newer writes to the block |
| Settings.UnsafeKeysConflict | src-app/src/config_writer.rs:427-461 | every unsafe key has two writes whose order shows in the file |
| Shortcuts.ConflictIsAnEquivalence | src-app/src/keybindings/apply.rs:33-38 | clashing keystrokes are an equivalence |
| Shortcuts.ConflictIsTheSameKey | src-app/src/keybindings/apply.rs:33-38 | two keys clash exactly when they are the same text or parse as the same keystroke |
| Shortcuts.ShortcutMap.MergeShortcut | src-app/src/config_writer.rs:100-120 | the map becomes the merged map that `MergeBinds` describes |
| Shortcuts.ShortcutMap.UnbindAction | src-app/src/config_writer.rs:208-224 | the masking loop computes the unbound map |
| Shortcuts.ShortcutMap.RestoreDefaultBinding | src-app/src/config_writer.rs:169-182 | the map becomes the restored map that `RestoreClears` describes |
| Shortcuts.MergeBinds | src-app/src/config_writer.rs:100-120 | the action owns exactly the new key, conflict-freedom is kept, and every unrelated binding stays |
| Shortcuts.UnbindMasks | src-app/src/config_writer.rs:208-224 | every default clashes with some stored key, conflict-freedom is kept, nothing else changes |
| Shortcuts.UnbindDisowns | src-app/src/config_writer.rs:208-224 | the action owns no key afterwards; exactly when the action spelled `none` does is stated |
| Shortcuts.UnbindIsIdempotent | src-app/src/config_writer.rs:208-224 | unbinding twice is unbinding once |
| Shortcuts.RestoreUndoesUnbind | src-app/src/config_writer.rs:169-182 | restoring after unbinding equals restoring alone |
| Shortcuts.RestoreKeeps | src-app/src/config_writer.rs:169-182 | a binding is taken away exactly if it is the action's or a mask on a key clashing with one of its defaults; everything else stays with its value |
| Shortcuts.RestoreClears | src-app/src/config_writer.rs:169-182 | no key of the action and no mask of its defaults is left, nothing is added, conflict-freedom is kept |
| GitRace.RunKeepsInvariant | src-app/src/git_race.rs:195-228 | the counters of the two threads keep step in every interleaving, with a thread that is ending told from one that has ended |
| GitRace.ProbesStartBehindWrites | src-app/src/git_race.rs:195-228 | probe `i` starts only after `i + 2` writes are complete |
| GitRace.NormalEndIsConclusive | src-app/src/git_race.rs:56-58 | a race that ends normally ran all its probes, and is conclusive exactly when there was one to run |
| GitRace.StepProgress | src-app/src/git_race.rs:195-228 | no step loses ground and a step of the needed thread gains some, so no unfinished state is a deadlock |
| GitRace.FairRacesEnd | src-app/src/git_race.rs:195-228 | every schedule giving both threads turns ends, with an explicit bound, also when a probe panics |
| GitRace.CalmRacesEndNormally | src-app/src/git_race.rs:195-228 | unless a probe panics, every such schedule ends the race normally with an answer for each probe |
| EnvExpand.PlaceholdersAreExact | src-app/src/env_expand.rs:34-112 | the scanner finds a placeholder exactly where one stands, and then that one |
| EnvExpand.NamesAre | src-app/src/env_expand.rs:94-112 | which texts are names |
| EnvExpand.FirstTokenIsExact | src-app/src/env_expand.rs:34-85 | the first token of a text is a placeholder that stands there, or a literal in which no placeholder stands anywhere |
| EnvExpand.ExpansionIs | src-app/src/env_expand.rs:34-85 | the result is the leftmost undefined name if there is one, else literals and looked-up values in order |
| EnvExpand.PlainTextStays | src-app/src/env_expand.rs:34-85 | a text without markers is its own expansion |
| EnvExpand.TokensAreLossless | src-app/src/env_expand.rs:34-85 | the tokens' sources give the text back |
| EnvExpand.TokenAt | src-app/src/env_expand.rs:34-85 | each token is the first token of the text at its offset |
| EnvExpand.ReadMarker | src-app/src/env_expand.rs:45-82 | at a marker, the token's length and its value, or the name that has none |
| EnvExpand.ExpandPlaceholders | src-app/src/env_expand.rs:34-85 | the values of the tokens in order without reading looked-up text again, or the leftmost undefined name |
| EditorSplit.SplitEditorCommandLine | src-app/src/editor.rs:91-136 | the loop computes the word list of the specification `SplitUndoesQuoting` is about |
| EditorSplit.SplitUndoesQuoting | src-app/src/editor.rs:91-136 | any list of arguments, empty ones too, each bare, single-quoted, or double-quoted with every escape or only those it needs, splits back to itself |
| EditorSplit.LineIsRead | src-app/src/editor.rs:91-136 | words made of touching pieces in any writing, with any whitespace between, before and after, are read as what they say |
| EditorSplit.NoEscapeNeeded | src-app/src/editor.rs:105-117 | a text with no quote, no double backslash and no backslash at its end stands between double quotes as it is |
| EditorSplit.UnclosedQuoteIsKept | src-app/src/editor.rs:127-136 | a quote that is never closed holds the rest of the text |
| EditorSplit.EditorCommandRoundTrip | src-app/src/editor.rs:82-136 | double quotes carry any program and arguments through the environment variable, unless the program is empty |
| AutoNaming.SessionNaming.Record | src-app/src/auto_naming.rs:56-71 | an accepted message is appended, beyond twelve the oldest goes and the count follows |
| AutoNaming.AdditionIs | src-app/src/auto_naming.rs:56-65 | a text is added without the whitespace around it and cut to 600 characters, unless nothing is left or it repeats the last message |
| AutoNaming.SessionNaming.DecideNow | src-app/src/auto_naming.rs:73-90 | the decision that `RunsWhenDue` characterises |
| AutoNaming.SessionNaming.Begin | src-app/src/auto_naming.rs:92-97 | naming is in flight, everything kept counts as named, and the context is that of the kept messages |
| AutoNaming.BuildContext | src-app/src/auto_naming.rs:104-117 | the loop computes the context that `ContextListsChosen` describes |
| AutoNaming.ContextListsChosen | src-app/src/auto_naming.rs:104-117 | the context has the lines of the user's first message and the last four, every line once, in the order they first come |
| AutoNaming.ChosenAre | src-app/src/auto_naming.rs:104-112 | the user's first message and the last four are chosen, and a line shows who speaks |
| AutoNaming.JoinedLinesSplit | src-app/src/auto_naming.rs:116-116 | lines without newlines of their own are told apart again |
| AutoNaming.SessionNaming.Finish | src-app/src/auto_naming.rs:99-101 | naming is no longer in flight |
| AutoNaming.GrowthIsExact | src-app/src/auto_naming.rs:56-101 | in every run the kept messages are the last twelve accepted, and length less named count is the number accepted since naming began, up to twelve |
| AutoNaming.LastTwelveAreKept | src-app/src/auto_naming.rs:66-70 | in every run the messages kept are the last twelve accepted |
| AutoNaming.SkipsAreExact | src-app/src/auto_naming.rs:73-90 | in every run each skip has its one reason, in order: in flight, nothing accepted, too soon, nothing new |
| AutoNaming.RunsWhenDue | src-app/src/auto_naming.rs:73-90 | naming runs exactly when none is in flight, a message came since it began, and the interval is over |
| AutoNaming.BeginsAreSpaced | src-app/src/auto_naming.rs:73-101 | begins are at least 180 s apart with a finish and an accepted message in between |
| Catalog.ValidateTemplate | crates/paneflow-agent-config/build_support.rs:618-677 | no error exactly for a template with an own program, the right number of placeholders and plain arguments |
| Catalog.ValidateResume | crates/paneflow-agent-config/build_support.rs:618-692 | no error exactly when every template, the pattern and the markers are sound |
| Catalog.ValidateAliases | crates/paneflow-agent-config/build_support.rs:384-426 | an error exactly for an unsound alias, a repeated one, or one whose lower-cased key another descriptor holds |
| Catalog.ValidateDescriptor | crates/paneflow-agent-config/build_support.rs:312-522 | the two alias fields and the resume templates of one descriptor together |
| Catalog.Validate | crates/paneflow-agent-config/build_support.rs:306-528 | no error exactly when every descriptor is sound, ids, orders and visibility keys differ pairwise, and no alias key is claimed from two directories |
| Catalog.SoundDescriptorsAre | crates/paneflow-agent-config/build_support.rs:306-528 | after an error-free validation aliases are distinct and made of the allowed characters, a contested one has a title prefix, patterns compile and markers show something |
| Catalog.AliasesAre | crates/paneflow-agent-config/build_support.rs:731-736 | which texts are aliases |
| Catalog.LowerCaseIs | crates/paneflow-agent-config/build_support.rs:423-423 | what the lower case of a text is, letter by letter |
| Catalog.SoundTemplatesAre | crates/paneflow-agent-config/build_support.rs:629-677 | which templates are sound, word by word |
| Catalog.FreeUpToAgrees | crates/paneflow-agent-config/build_support.rs:384-426 | the one-pass alias table finds a conflict exactly when two claims to a key disagree |
| Catalog.AliasHasOneOwner | crates/paneflow-agent-config/build_support.rs:384-426 | after an error-free validation no alias belongs to two descriptors |
| Catalog.LookupsFindTheOwner | crates/paneflow-agent-config/build_support.rs:868-886 | an alias looks up its owner's first command and its owner; an undeclared one nothing |
| Catalog.LookupsIgnoreOrder | crates/paneflow-agent-config/build_support.rs:868-886 | lookups do not depend on descriptor order |
| Catalog.LookupIsIdempotent | crates/paneflow-agent-config/build_support.rs:868-886 | a canonical command is its own canonical command |
| Catalog.FirstMatchIsFound | crates/paneflow-agent-config/src/runtime_catalog.rs:214-218 | both first-match lookups answer for a descriptor that lists the alias, and nothing only if none does |
| Resume.ConversationSpec | src-app/src/agent_resume.rs:60-93 | builds nothing or the program, filled arguments and flags of the chosen template |
| Resume.AgentCommandSpec.RenderShellCommand | src-app/src/agent_launcher.rs:215-224 | the rendered text of program and arguments |
| Resume.PushLaunchFlags | src-app/src/agent_launcher.rs:157-164 | the two bypass flags for Claude Code when configured, else nothing |
| Resume.CommandsAreBuilt | src-app/src/agent_resume.rs:51-93 | for a sound descriptor a command is built exactly for the sessions the acceptance predicate accepts, and for forks only with a fork template |
| Resume.ValidIdsAre | src-app/src/agent_sessions.rs:423-430 | which session ids are valid |
| Resume.SessionWithId | src-app/src/agent_resume.rs:38-93 | with an id a command is built exactly if the id is valid, the pattern matches it and the template is there |
| Resume.SessionWithoutId | src-app/src/agent_resume.rs:46-93 | without one exactly if there is no hook adapter and a continue template, and then from that template with the launch flags behind |
| Resume.TokensArePlain | src-app/src/agent_resume.rs:79-92 | the program is one of the runtime's commands, every token is plain, and one is empty exactly when a session without an id is forked |
| Resume.IdTakesItsPlace | src-app/src/agent_resume.rs:79-92 | a non-empty id replaces the template's one placeholder, every other argument is the template's own, the launch flags follow |
| Resume.WordsOfRendered | src-app/src/agent_launcher.rs:215-224 | splitting a rendered command on whitespace loses nothing but empty tokens |
| Resume.RenderedReadsBack | src-app/src/agent_launcher.rs:215-224 | the split gives back program, filled arguments and flags exactly unless a session without an id is forked |
| Resume.DetectionReadsTheProgram | src-app/src/agent_launcher.rs:107-114 | launch detection of a rendered command looks up its program's stem |
| Resume.DetectionFindsTheRuntime | src-app/src/agent_launcher.rs:107-114 | it finds the runtime exactly when that stem is one of its commands, so always without a Windows suffix |
| Resume.DetectionTakesTheFirst | src-app/src/agent_launcher.rs:107-114 | of two commands joined by `&`, a bar, `;` or a newline, the first that launches a runtime is detected |
| Resume.ClearedRuntimeIsDetected | src-app/src/agent_launcher.rs:107-114 | behind `clear && ` a rendered command is detected as its own runtime's exactly when it is without |
| Resume.StemIsTheName | src-app/src/agent_launcher.rs:371-382 | behind any directory the stem is the name less one of the four suffixes in any case |
| Resume.OtherNamesAreKept | src-app/src/agent_launcher.rs:371-382 | a name without such a suffix is its own stem |
| Resume.AssignmentsAreVariables | src-app/src/agent_launcher.rs:360-369 | an assignment is a variable's name, an equals sign and anything |
| Resume.AssignmentsAreIgnored | src-app/src/agent_launcher.rs:107-114 | an environment assignment before any command line changes nothing |
| Resume.AliasIsNoAssignment | src-app/src/agent_launcher.rs:360-369 | a valid alias is never taken for an assignment |
| Resume.ForkWithoutIdLosesAWord | src-app/src/agent_resume.rs:66-72 | a validated descriptor whose fork without an id renders a word too few |
| Resume.WindowsNameEscapesDetection | src-app/src/agent_launcher.rs:371-382 | a validated descriptor whose own command detection does not know |
| AllocLedger.TreeSitterAllocator.HandOut | src-app/src/bench_harness.rs:67-76 | null changes nothing; a block gets its header and is counted |
| AllocLedger.TreeSitterAllocator.Malloc | src-app/src/bench_harness.rs:78-83 | a new block of the size asked for joins the ledger, or nothing changes |
| AllocLedger.TreeSitterAllocator.Calloc | src-app/src/bench_harness.rs:85-93 | the same for a product, refused exactly when it does not fit a layout |
| AllocLedger.TreeSitterAllocator.Realloc | src-app/src/bench_harness.rs:95-114 | the block is replaced by one of the new size, or neither ledger nor counter changes; the system allocator gets the layout it gave |
| AllocLedger.TreeSitterAllocator.Free | src-app/src/bench_harness.rs:116-129 | the block leaves the ledger; null is ignored |
| AllocLedger.SumWithout | src-app/src/bench_harness.rs:111-111 | the sum of outstanding sizes less a block's is the sum without it |
| AllocLedger.WrapAdds | src-app/src/bench_harness.rs:73-73 | adding and subtracting wrapped 64-bit values wraps the exact result |
| AllocLedger.LedgerIsExact | src-app/src/bench_harness.rs:67-129 | in every valid state the counter is the sum of outstanding requested sizes exactly while that fits, and each block's header holds its size |

## Left out

- Starting processes, network access, clocks, environment variables and file replacement: their results are parameters or outcomes of any kind.
- JSON, TOML and regular-expression parsing: a line's facts, a descriptor and a pattern's answer are given.
- UTF-8: texts are sequences of `char`; whether bytes are valid UTF-8 is a given predicate, and the lossy decoding of a line happens before the model sees it.
- File stamps: the change law (a changed file is absent or was modified within two seconds before the change) is an assumption, reduced to single changes by `GitCoherence.StampedChangesObeyTheLaw`.
- GitCoherence.CacheIsCoherent: the origins git prints are taken to name, from the program's working base, the files they stand for (`GitCoherence.OriginsAreNamed`), because the base only matters for relative includes; a wrong base that still finds the right local configuration is not covered.
- GitCoherence.HitCoversAFreshQuery: needs that no file the query saw absent is there when the lookup starts and gone at its stamp (`GitCoherence.NothingVanishes`), because without it the hit can miss one (`GitExactness.VanishingFileIsMissed`).
- GitExactness.CoherenceIsExact: for the "only if", git is taken to call a configuration file by one name from one directory (`GitExactness.NamesOnce`), because relative includes follow the name.
- Links between paths are fixed; a link that is turned shows as a change of the file it names.
- Conditions of `gitdir` includes may differ from directory to directory, but are taken not to change in time; `onbranch` and `hasconfig` ones are handled as the code handles them.
- Git's limit on include depth, and the fallback to the epoch when a clock stands less than two seconds after it.
- SessionCache.Cache.LookUp: promises that a hit is fresh, and nothing of which keys are held, after 2^64 + 1 uses, because the map then no longer follows recency (`SessionCache.KeepsExactly`).
- SessionCache.Cache.StoreResult: likewise ties the map to recency for 2^64 + 1 uses.
- Settings.OrderNeverShowsExactly: compares JSON objects, not texts, because the order in which keys were first written may show in the text.
- Settings.OrderDoesNotMatter: likewise.
- The lock poisoning and the `clear` operation of the session cache.
- Time zone offsets: the parser drops them, so the calendar results are for the written date and time.
- Calendar.MomentIsRead: is about calendar dates from 1970; what the parser gives for impossible dates is modelled but not characterised.
- The other writers of the settings file (`agent_panel`, commands, shortcuts saved to disk), which have no sequence numbers.
- Catalog.Validate: the checks of single fields that no lookup rests on (schema version, slug, labels, platforms, tint, icons, update plans, presets) are one given answer per descriptor, because they only add easy predicates.
- Catalog.ValidateDescriptor: takes the same given answer.
- Catalog.LookupsFindTheOwner: takes every descriptor to have a directory of its own, which is how they are discovered.
- The racing of git against a file inside the timestamp's second (`race_racy_window`).
- Failed writes of the race's writer, which count as writes like any other.
- Relaxed or acquire ordering of the two atomics in the race: steps are sequentially consistent.
- Several threads inside the allocator hooks at once: each hook is one step, though its counter update is atomic by itself.
- The home-directory prefix of `expand_with_process_env`, the summarizer's prompt around the context and the cleaning of its response.
- Terminal rendering, panes, icons, tables, installed-binary scanning and everything behind the foreign-function interface.
