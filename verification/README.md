# calibre-sync-api: a Dafny model of the library mirror

calibre-sync-api mirrors a Calibre e-book library folder into one or more
replica folders and serves the mirror over HTTP. This project models its core
in Dafny and proves properties of the model:

- **the reconciler** (`app/services/sync_service.py`). It catalogues both
  trees, skipping hidden files. It copies new and changed source files and
  compares size and modification time, then an MD5 digest. It deletes replica
  files the source no longer has and spares the Calibre system files. It
  counts everything in a statistics dictionary. `sync_all` runs it once per
  replica and records a failure against that replica alone.
- **the sync ledger** (`app/services/sync_history_service.py`). Entries
  convert to and from JSON objects. The history file keeps the last 100
  entries. There are queries for the history (newest first, with a limit), the
  latest run and the statistics, and a way to clear the file.
- **the HTTP layer** (`app/routers/sync.py`). It keeps the in-memory status
  record. It starts background runs, refusing while one is in progress. It
  records each run in the ledger and serves status and history queries.
- **the settings** (`app/config.py`). This covers splitting the
  comma-separated replica list and the three field validators.

Modules:

| module | file | models |
|---|---|---|
| `Wrappers` | `wrappers.dfy` | `Option` and `Result` |
| `PathNames` | `path_names.dfy` | base names, extensions, the ignore and protect rules, destination paths |
| `SyncService` | `sync_service.dfy` | trees, catalogs, one folder sync step by step, `sync_all` |
| `SyncProperties` | `sync_properties.dfy` | what each loop of a folder sync records, writes and removes |
| `FolderSync` | `folder_sync.dfy` | end-to-end properties of `sync_folder` and `sync_all` |
| `Timestamps` | `timestamps.dfy` | `datetime.isoformat` and `fromisoformat` for UTC timestamps |
| `History` | `history.dfy` | entries, the history file and its queries |
| `SyncRouter` | `sync_router.dfy` | the status record and the endpoints |
| `Config` | `config.dfy` | `str.strip`, `str.split`, `replica_paths_list` and the validators |

### How the environment is modelled

- **Filesystem.** A tree is either `Absent` or a map from relative path to
  file content and modification time.
- **Walk order.** The order in which `os.walk` visits files is an arbitrary
  but fixed enumeration of the catalog (`SyncService.Enumerate`). Every
  property holds for any such order.
- **Digest.** `calculate_file_hash` is an uninterpreted function in the `Io`
  record.
- **Failing filesystem calls.** These are fields of the `Io` record:
  - copies that fail, each with what the failed copy leaves at the replica
    path: nothing new, or a file (a partial copy, or a full one with a new
    time);
  - removals that fail;
  - directories `os.makedirs` cannot create;
  - a replica root that cannot be created.
- **Sync outcome and clocks.** The router does not recompute a sync. The
  outcome of `sync_folders` (its result dictionary or the exception message)
  is a parameter. So are the clocks (`RunContext`).
- **History file.** It is a JSON value: `Missing`, `Unreadable`, or a
  `Document`.

## Model

| member | source | states |
|---|---|---|
| SyncService.BuildCatalog | app/services/sync_service.py:28-88 | a catalog lists exactly the tree's files that are not hidden, each with its size and modification time; a missing root has an empty catalog |
| SyncService.CalibreCatalog | app/services/sync_service.py:37-38 | with the Calibre conventions a file is skipped exactly when its name starts with a dot |
| SyncService.Classify | app/services/sync_service.py:145-205 | a source file is ignored exactly when its name is, and added exactly when it is not ignored and missing from the replica; it is kept only when size and time agree within a second or the digests agree, and updated only when both disagree |
| SyncService.OutcomeOf | app/services/sync_service.py:160-205 | a file is reported failed exactly when a real run copies it and that copy fails; added exactly when it is missing from the replica and its copy does not fail (or the run is dry); updated exactly when it replaces a differing replica file under the same condition; unchanged exactly when the replica agrees; ignored exactly when its name is ignored |
| SyncService.RemovalOf | app/services/sync_service.py:208-225 | a replica path the library loop did not claim is kept exactly when it is processed or has a protected name; otherwise a real run that cannot remove it fails, and every other path is deleted |
| SyncService.Written | app/services/sync_service.py:160-201 | a dry run writes nothing; a real run writes the source file over the replica path of an added or updated file, nothing for an ignored or unchanged one, and for a failed copy whatever that copy left there |
| SyncService.SyncFolderWith | app/services/sync_service.py:113-116 | a real run whose missing replica root cannot be created raises and leaves the replica as it was |
| SyncService.SyncFolder | app/services/sync_service.py:105-116 | with the Calibre conventions, a real run whose missing replica root cannot be created raises and leaves the replica as it was |
| SyncService.SyncAll | app/services/sync_service.py:234-245 | the result has one entry per replica root besides those it started with; replicas not listed are untouched and keep their earlier entries |
| SyncProperties.SourcePassRuns | app/services/sync_service.py:141-205 | the source loop completes exactly when no visited path makes the unguarded `os.makedirs` raise |
| SyncProperties.TallyEffect | app/services/sync_service.py:141-205 | recording a run of outcomes raises each counter by the number of paths with that outcome and appends exactly those paths to its list, in order, leaving deletions alone |
| SyncProperties.SourcePassTally | app/services/sync_service.py:141-205 | a completed source loop records every visited path's outcome, in visiting order |
| SyncProperties.SourcePassFiles | app/services/sync_service.py:160-201 | a completed source loop leaves over the replica exactly what each visited path wrote: the source file for one added or updated, and what the failed copy left, if anything, for one that failed |
| SyncProperties.CopiesMembers | app/services/sync_service.py:160-201 | a run leaves something at a replica path exactly when the path is visited and a real run copies it, or tries to and the failed copy leaves a file behind |
| SyncProperties.RemovalTallyEffect | app/services/sync_service.py:208-229 | the replica loop appends the deleted paths to the deletions and the files that could not be removed to the errors, and changes no other statistic |
| SyncProperties.DestPassFiles | app/services/sync_service.py:208-229 | the replica loop removes exactly the visited paths that a real run deletes |
| SyncProperties.DestPassTally | app/services/sync_service.py:208-229 | the replica loop records every visited path's removal outcome in visiting order: deletions by reported name, failed removals by file name |
| SyncProperties.SelectMembers | app/services/sync_service.py:141-205 | a visited source path is listed under its own outcome and no other |
| SyncProperties.SelectRemovalMembers | app/services/sync_service.py:208-229 | a visited replica path is listed under its own removal outcome and no other |
| SyncProperties.PickPartition | app/services/sync_service.py:141-205 | the five outcomes partition the visited source paths |
| SyncProperties.NoFailures | app/services/sync_service.py:173-176 | a dry run, or a real run where no copy or removal fails, reports no failed copy and no failed removal |
| SyncProperties.DryRunWritesNothing | app/services/sync_service.py:226-229 | a dry run writes no file and removes none |
| SyncProperties.DryRunDecidesAlike | app/services/sync_service.py:141-229 | a dry run takes the same decision for every source and replica path as a real run where nothing fails |
| SyncProperties.MergedKeepsSource | app/services/sync_service.py:160-205 | after a real run where no copy fails, every non-ignored source file is in the replica, either as a copy or as a file that agrees in size and time or in digest |
| SyncProperties.MergedHasNoStaleFiles | app/services/sync_service.py:208-225 | after a real run where no removal fails, every visible replica file is a processed source path or a protected file |
| SyncProperties.QuietRerun | app/services/sync_service.py:178-205 | when the replica already agrees with the source and holds nothing stale, a run adds, updates and deletes nothing |
| SyncProperties.MergedKeepsProtected | app/services/sync_service.py:208-214 | a protected replica file that the source loop does not process is neither overwritten nor removed |
| SyncProperties.MergedAddsOnlySourceFiles | app/services/sync_service.py:154-201 | every new replica file sits at the path of a catalogued, non-ignored source file and is that file, unless its copy failed, in which case it is what the failed copy left |
| SyncProperties.ProtectedNameNeverReported | app/services/sync_service.py:208-229 | a protected name that is its own base name is never listed among the deletions, by path or by name, nor among the failed removals |
| FolderSync.SyncFolderSucceeds | app/services/sync_service.py:105-232 | `sync_folder` returns statistics exactly when it completes, and raises otherwise |
| FolderSync.SyncFolderTree | app/services/sync_service.py:105-232 | a completed sync leaves the old replica files, overwritten by what it wrote (the copied files, and what failed copies left) and without the files it deleted; a dry run leaves a missing root missing |
| FolderSync.SyncFolderStats | app/services/sync_service.py:123-232 | each file list holds the paths with that outcome in walk order; deletions are reported by path in a real run and by file name in a dry run; errors list the failed copies and then the unremovable file names; each counter equals the length of its list |
| FolderSync.ReliableSyncAccounts | app/services/sync_service.py:141-205 | where nothing fails, a sync completes with no errors and counts each catalogued source file exactly once as added, updated, unchanged or ignored |
| FolderSync.DryRunChangesNothing | app/services/sync_service.py:113-116 | a dry run always completes and leaves the replica exactly as it was, a missing root included |
| FolderSync.DryRunPredictsRealRun | app/services/sync_service.py:226-229 | a dry run reports the same statistics as a real run where nothing fails, except that deletions are listed by file name instead of relative path |
| FolderSync.ReliableSyncMirrors | app/services/sync_service.py:105-232 | after a real run where nothing fails, the replica holds every non-ignored source file, keeps its hidden files, and holds no visible file that is neither mirrored nor protected |
| FolderSync.SecondSyncIsQuiet | app/services/sync_service.py:178-229 | syncing again straight after a real run where nothing fails adds, updates, deletes and fails on nothing |
| FolderSync.SyncAddsOnlySourceFiles | app/services/sync_service.py:154-201 | whatever fails, every new replica file sits at the path of a catalogued, non-ignored source file and is that file's copy, or, where the copy failed, exactly what the failed copy left |
| FolderSync.SyncKeepsProtected | app/services/sync_service.py:208-214 | a protected replica file that the source loop does not process (no source copy, or an ignored one) survives every completed sync unchanged and is selected neither for deletion nor for a failed removal |
| FolderSync.CalibreKeepsPrefsBackup | app/services/sync_service.py:145-214 | the Calibre preferences backup in a replica survives every completed sync |
| FolderSync.CalibreKeepsLibraryDb | app/services/sync_service.py:208-214 | a `metadata.db` in a replica whose library has none survives every completed sync unchanged |
| FolderSync.CalibreNeverListsLibraryDb | app/services/sync_service.py:208-229 | when the library has no `metadata.db`, that name appears in neither the deleted nor the error list of a completed sync |
| FolderSync.SyncAllResults | app/services/sync_service.py:238-243 | with distinct replica roots, each root's entry in the `sync_all` result is its own folder sync's statistics or error |
| FolderSync.SyncAllTrees | app/services/sync_service.py:238-243 | with distinct replica roots, each replica is left as its own folder sync leaves it, whatever the other replicas do |
| PathNames.Basename | app/services/sync_service.py:145 | the base name is the suffix of the path after its last separator and contains no separator |
| PathNames.BasenameIdempotent | app/services/sync_service.py:211 | taking the base name twice changes nothing |
| PathNames.ExtensionOfStem | app/services/sync_service.py:146 | the extension of `stem.e` is `.e` when `e` has no dot and the stem is not all dots |
| PathNames.Extension | app/services/sync_service.py:145 | the extension is empty or a dot-led, dot-free suffix of the name preceded by something other than dots, and it is non-empty whenever the last dot has such a stem before it |
| PathNames.IgnoredByExtension | app/services/sync_service.py:145-148 | a name with an extension is ignored exactly when the extension, lower-cased, is `.db` or `.json` and the name is not `metadata.db` |
| PathNames.MirrorsOrdinaryFiles | app/services/sync_service.py:145-148 | a name without an extension is never ignored, and neither is the library database |
| PathNames.PrefsBackupIgnoredAndProtected | app/services/sync_service.py:145-214 | the preferences backup is ignored on the source side and protected on the replica side |
| PathNames.DestinationPath | app/services/sync_service.py:90-103 | a relative path is placed below the replica root, while an absolute path replaces the root as `os.path.join` does |
| PathNames.DestinationPathRoundTrip | app/services/sync_service.py:42 | for a root without a trailing slash, the catalog key of a copied file is the relative path it was copied to; this is meant for keys as `relpath` produces them (no `.` or `..` segments, no doubled slashes), because `RelativeTo` does no normalisation |
| Timestamps.PadValue | app/services/sync_history_service.py:36 | a zero-padded decimal field reads back as the number it was written from |
| Timestamps.IsoFormat | app/services/sync_history_service.py:36 | an aware UTC timestamp is written in 25 characters for a whole second and 32 otherwise |
| Timestamps.FromIsoFormat | app/services/sync_history_service.py:50 | a string that parses gives a timestamp whose fields are in range |
| Timestamps.IsoRoundTrip | app/services/sync_history_service.py:33-58 | parsing what `isoformat` wrote gives back the same timestamp |
| History.ToDict | app/services/sync_history_service.py:33-44 | the JSON object has exactly the eight entry keys, the timestamp in ISO form, and `null` for the error exactly when there is none |
| History.FromDict | app/services/sync_history_service.py:46-58 | reading succeeds only on an object holding every required key with a timestamp in range |
| History.DictRoundTrip | app/services/sync_history_service.py:33-58 | an entry survives the trip through its JSON object unchanged |
| History.FromDicts | app/services/sync_history_service.py:81 | the list of entries reads as a whole or not at all: one bad item fails it |
| History.DictsRoundTrip | app/services/sync_history_service.py:81-95 | a list of entries survives the trip through its JSON list unchanged |
| History.Recent | app/services/sync_history_service.py:90 | the kept entries are the last 100, in order |
| History.Load | app/services/sync_history_service.py:73-84 | loading yields valid entries, and a missing or unreadable file yields none |
| History.SavedDocument | app/services/sync_history_service.py:92-96 | the written document holds at most 100 entries and its count matches them |
| History.Save | app/services/sync_history_service.py:86-108 | a failed write leaves the file as it was |
| History.SaveLoad | app/services/sync_history_service.py:86-108 | what a save writes, the next load reads: the last 100 entries in order |
| History.AddEntryAppends | app/services/sync_history_service.py:110-140 | a successful add appends the new entry after the old ones and keeps the last 100, so the new entry is the last one kept |
| History.AddEntryUnwritable | app/services/sync_history_service.py:107-108 | an add that cannot write the file leaves the history as it was |
| History.BadEntryLosesHistory | app/services/sync_history_service.py:78-84 | one unreadable stored entry makes the history load as empty, so the next add leaves only the new entry |
| History.Clear | app/services/sync_history_service.py:192-199 | a successful clear leaves no history, and a failed one leaves the file as it was |
| History.Insert | app/services/sync_history_service.py:147 | inserting into a newest-first list keeps it newest first and adds exactly the one entry |
| History.NewestFirst | app/services/sync_history_service.py:147 | the sort returns a permutation of the entries, newest first |
| History.NewestFirstStable | app/services/sync_history_service.py:147 | the sort is stable: the entries with any one timestamp keep their stored order |
| History.Limit | app/services/sync_history_service.py:150-151 | no limit or 0 keeps every entry; a positive limit keeps that many from the front; a negative one drops that many from the end |
| History.Listed | app/services/sync_history_service.py:142-153 | the history query lists stored entries newest first; with no limit it lists all of them, and with a positive limit it lists at most that many |
| History.GetHistory | app/services/sync_history_service.py:142-153 | the query returns, in order, one JSON object per listed entry, and each reads back as that entry |
| History.PyMax | app/services/sync_history_service.py:182 | `max` picks a stored entry that no entry is newer than, and every entry stored before it is strictly older |
| History.NewestFirstHead | app/services/sync_history_service.py:147-182 | the descending sort and `max` pick the same entry |
| History.NewestFirstHeadIsEarliestNewest | app/services/sync_history_service.py:147-153 | the first entry of the sorted history is the earliest stored of the newest: no entry is newer and every entry stored before it is strictly older |
| History.GetLatest | app/services/sync_history_service.py:155-158 | there is a latest entry exactly when the history is not empty |
| History.LatestIsNewest | app/services/sync_history_service.py:155-158 | the latest entry is the newest stored entry |
| History.WithStatusCounts | app/services/sync_history_service.py:173-174 | the filter keeps every entry with the status, as often as it occurs, and no other entry |
| History.StatusCountsBounded | app/services/sync_history_service.py:173-174 | entries with two different statuses never overlap, and together they cover the history when every entry has one of the two |
| History.TotalDurationBounds | app/services/sync_history_service.py:179 | durations within bounds give a total within the count times those bounds |
| History.AverageDuration | app/services/sync_history_service.py:176-179 | the average duration is the mean of the completed runs: times their number it gives their total duration, and it is 0 when there are none |
| History.AverageWithinBounds | app/services/sync_history_service.py:176-179 | when every completed run's duration lies within bounds, so does the average |
| History.GetStats | app/services/sync_history_service.py:160-190 | the total is the number of stored entries and an empty history gives zeros; otherwise successes count the `completed` entries, failures the `failed` ones, the average is that of the completed runs, and the last sync is the latest entry |
| History.ClearedHistoryIsEmpty | app/services/sync_history_service.py:192-199 | after a successful clear the history, the latest entry and the statistics are all empty |
| SyncRouter.Trigger | app/routers/sync.py:82-98 | a trigger during a run answers `already_running` and schedules nothing; otherwise it answers `started` and schedules one run with its flag; both echo the last sync time |
| SyncRouter.TriggerTwiceBeforeStart | app/routers/sync.py:87-93 | two triggers that arrive before the first run starts both answer `started` and schedule two runs |
| SyncRouter.Begin | app/routers/sync.py:37-39 | starting a run sets the flag and clears the previous result and error, keeping the last sync time |
| SyncRouter.RunEntry | app/routers/sync.py:50-76 | the recorded entry is `dry_run` or `sync` by the flag, and `completed` with the results or `failed` with `{}` and the message by the outcome |
| SyncRouter.Complete | app/routers/sync.py:41-79 | once the sync returns or raises the flag is cleared; success stores the result and the finish time and leaves the error field alone, while failure stores the message and leaves the result and the last sync time alone |
| SyncRouter.PerformSync | app/routers/sync.py:29-79 | the flag is always cleared; success stores the result and the finish time, while failure stores the message, leaves no result and keeps the last sync time |
| SyncRouter.PerformSyncRecordsOneEntry | app/routers/sync.py:49-76 | a run that can write the history appends exactly its own entry after the old ones, keeping the last 100; one that cannot leaves the history as it was |
| SyncRouter.StartNext | app/routers/sync.py:29-39 | the background task takes the earliest scheduled run off the queue and puts it under way, with the flag set and the previous result and error cleared |
| SyncRouter.FinishRun | app/routers/sync.py:41-79 | a run under way finishes: it is no longer under way, and the flag is cleared |
| SyncRouter.StartThenFinish | app/routers/sync.py:29-93 | starting the earliest scheduled run and letting it finish is one `perform_sync` with its `dry_run` flag |
| SyncRouter.TriggerDuringRun | app/routers/sync.py:87-91 | once a run has started, a trigger answers `already_running` and changes nothing |
| SyncRouter.OverlappingRunsClearFlag | app/routers/sync.py:78-98 | the flag is shared: when two runs overlap, the first to finish clears it while the other is still under way, so the status reads `idle` and a new trigger is accepted |
| SyncRouter.GetSyncStatus | app/routers/sync.py:100-110 | the status is `in_progress` exactly while the flag is set and `idle` otherwise, with the current result and error |
| SyncRouter.StatusAcrossRun | app/routers/sync.py:29-110 | a status query answers `in_progress` with nothing to report while a run is under way, and `idle` once it has ended, whatever the outcome |
| SyncRouter.GetSyncHistory | app/routers/sync.py:113-117 | without a limit the endpoint returns the ledger's query with limit 20, so at most 20 entries; with one it returns the ledger's query with that limit |
| SyncRouter.AddKeepsRecordedByRuns | app/routers/sync.py:50-76 | a history written only by runs, which record `completed` or `failed`, stays so after another entry |
| SyncRouter.RecordedStatsAccount | app/services/sync_history_service.py:173-187 | in a history written only by runs, successes plus failures equal the total |
| SyncRouter.RunsAccountForEveryEntry | app/routers/sync.py:29-79 | after any run, the statistics of a history written only by runs still account for every entry |
| Config.Strip | app/config.py:46 | `str.strip` returns the infix of the string between its leading and trailing whitespace runs, starting and ending with a non-space; it is empty exactly when the string is all whitespace |
| Config.StripIdempotent | app/config.py:46 | stripping twice is stripping once |
| Config.SplitAppend | app/config.py:46 | splitting a string joined by a comma splits it into the segments of each side |
| Config.Split | app/config.py:46 | one more segment than there are commas, none containing a comma, and joining them with commas gives the string back |
| Config.CleanSegmentsCommaFree | app/config.py:46 | the listed replica paths never contain a comma |
| Config.CleanSegmentsTrimmed | app/config.py:46 | the listed replica paths are non-empty and carry no outer whitespace |
| Config.ReplicaPathsList | app/config.py:43-46 | at most one path per comma-separated segment, each non-empty, trimmed and comma-free; a value without commas lists itself stripped, or nothing when it is blank |
| Config.ReplicaPathsStripped | app/config.py:46 | every listed path is its own strip |
| Config.ReplicaPathsListAppend | app/config.py:43-46 | the paths of two comma-joined lists are the paths of each list in turn |
| Config.BlankSegmentsPassValidation | app/config.py:67-73 | any value made only of commas and whitespace, with at least one comma, passes validation yet lists no replica path |
| Config.ValidateLibraryPath | app/config.py:59-65 | an empty or all-whitespace library path is rejected, and any other is accepted stripped |
| Config.ValidateReplicaPaths | app/config.py:67-73 | an empty or all-whitespace replica list is rejected, and any other is accepted stripped |
| Config.ValidatePathsIdempotent | app/config.py:59-73 | validating an accepted value again accepts it unchanged |
| Config.ValidateLogLevelAsWritten | app/config.py:75-86 | a level is accepted exactly when its upper-case form is a level name, and a rejection carries the constructor's complaint instead of the intended message |
| Config.LogLevelMessageLost | app/config.py:82-85 | for every value whose upper case is not a level name, the validator as written fails with a message other than the one it composes |
| Config.NoticeIsRejected | app/config.py:82-85 | `notice` is such a value |
| Config.ValidateLogLevel | app/config.py:75-86 | a level is accepted in upper case exactly when it names a level, and otherwise rejected with a message that names `LOG_LEVEL` and ends with the value given |
| Config.LogLevelCaseInsensitive | app/config.py:80-86 | any mix of upper- and lower-case letters of a level name is accepted and returned as that level |

## Left out

- The order of the walk: `os.walk` visits directories in filesystem order and the files of each directory sorted by name. The model visits the catalog in an arbitrary fixed order. Every property holds for any order, but the statistics lists are not tied to the sorted-within-directory order.
- Permission and I/O failures of `os.stat` while cataloguing (`sync_service.py:44-54`) are not modelled: every file is catalogued.
- The digest of `calculate_file_hash` is an uninterpreted function. A failure to open a file while hashing, which happens outside the `try`, is not modelled, and neither are MD5's internals or collisions.
- PathNames.RelativeTo: `os.path.relpath` normalises its result (`a/./b` becomes `a/b`); the model only cuts the root off, which agrees with `relpath` for the normalised keys the catalog walk produces.
- Modification times and durations are reals, not floating-point numbers. `round(avg, 2)` in `get_stats` is not modelled: the average is the exact mean.
- The text of the JSON file, the `.tmp` file and the atomic rename are not modelled. The history file is a JSON value that is either replaced whole or left as it was.
- `_ensure_directory` creating the history folder is not modelled, and neither is the history file path.
- `Path.exists()` raising in `_load_history` (`sync_history_service.py:75`, outside the `try`), for example when the history folder cannot be searched, is not modelled: `Load` is total. Neither is what follows from it in `perform_sync` (`routers/sync.py:49-79`), where the success-path `add_sync_entry` raises inside the `try`, the status ends with both a result and an error, and the second `add_sync_entry` in the `except` raises out of the task with no entry recorded (the `finally` still clears the flag).
- Clocks: the start, finish and stamp times of a run are parameters. `last_sync` is a naive local time in the source and a `Timestamp` here.
- The sync outcome that `perform_sync` receives is a parameter. The model does not tie it to `SyncAll`, because `sync_folders` builds its service from process-wide settings.
- Starlette's `BackgroundTasks` and the thread pool are modelled as a queue of scheduled runs and a list of runs under way. A run starts (`StartNext`) and later finishes (`FinishRun`), and runs may overlap. The sync itself is one step between the two, so the model does not interleave the filesystem work of overlapping runs.
- Exception messages: the OSErrors of `os.makedirs` (`sync_service.py:101`, `115`) carry fixed invented messages in the model. `sync_all` records `str(e)` (`sync_service.py:243`), whose text comes from the operating system.
- Replica roots are independent trees keyed by their path string, and the library tree is the same for every replica. Roots that name one directory in two ways (`/r` and `/r/`), or that nest (a replica inside the library or inside another replica), cannot be expressed. `Distinct` in `SyncAllResults` and `SyncAllTrees` only says that the root strings differ.
- The stats, latest and clear endpoints (`routers/sync.py:120-139`) only forward to `get_stats`, `get_latest_sync` and `clear_history`, which are modelled. The fixed success message of the clear endpoint is not modelled.
- `app/main.py` (the FastAPI application, CORS, health and metadata endpoints) is not part of this model.
- Pydantic's loading of settings from the environment and the `.env` file, the field defaults and bounds, `library_exists` and `valid_replica_paths` are not modelled. The last two ask the filesystem whether a path exists.
- Logging is left out everywhere.
- Config.Upper: upper-casing covers ASCII letters plus the two non-ASCII letters whose upper case is an ASCII letter (`ı` and `ſ`), not all of Unicode. These are the only characters that matter for matching the level names.
- History.FromDict: a field of the wrong JSON type makes reading fail, for example a number where a string belongs or an `error` that is neither a string nor `null`. Python would keep such a value.
- Timestamps.FromIsoFormat: it accepts only the layout `isoformat` writes for a UTC timestamp, not every string `datetime.fromisoformat` accepts.

## Findings

| source | as written | input that shows it | evidently intended | confidence | as-written member | corrected member |
|---|---|---|---|---|---|---|
| app/config.py:82-85 | `ValueError(..., config_key="LOG_LEVEL")` passes a keyword argument that `ValueError` does not accept, so rejecting a bad level raises `TypeError: ValueError() takes no keyword arguments` and the composed message is lost | `LOG_LEVEL=notice` | reject with `ValueError("LOG_LEVEL must be one of [...], got notice")` | not executed | Config.LogLevelMessageLost | Config.ValidateLogLevel |
