/**
 * The run coordinator of the HTTP API (app/routers/sync.py): the
 * module-level `sync_status` record, the trigger endpoint that schedules a
 * background run, the background run itself, and the status and history
 * queries. The sync a run performs is an input outcome: the per-replica
 * results it returned, or the message of the exception it raised.
 */
module SyncRouter {
  import opened Wrappers
  import opened Timestamps
  import opened History

  /** The `sync_status` record: the end of the last successful run, the running flag, and its result or error. */
  datatype SyncStatus = SyncStatus(lastSync: Option<Timestamp>, inProgress: bool, result: Option<Value>, errors: Option<string>)

  /** `sync_status` when the process starts. */
  const Initial: SyncStatus := SyncStatus(None, false, None, None)

  /** The `details` of a status response. */
  datatype Details = Details(result: Option<Value>, errors: Option<string>)

  /** `SyncResponse`. */
  datatype Response = Response(status: string, lastSync: Option<Timestamp>, details: Option<Details>)

  /**
   * The state the endpoints act on: the status record, the runs scheduled
   * but not yet started and the runs under way (each by its `dry_run` flag),
   * and the history file.
   */
  datatype Server = Server(status: SyncStatus, scheduled: seq<bool>, running: seq<bool>, store: Store)

  /**
   * `trigger_sync`: refuses when a run is in progress, and otherwise
   * schedules a background run; either way it answers at once with the time
   * of the last successful run.
   */
  function Trigger(s: Server, dryRun: bool): (r: (Response, Server))
    ensures r.0.status == (if s.status.inProgress then "already_running" else "started")
    ensures r.0.lastSync == s.status.lastSync && r.0.details.None?
    ensures r.1.status == s.status && r.1.store == s.store && r.1.running == s.running
    ensures s.status.inProgress ==> r.1.scheduled == s.scheduled
    ensures !s.status.inProgress ==> |r.1.scheduled| == |s.scheduled| + 1 && r.1.scheduled[|s.scheduled|] == dryRun
    ensures !s.status.inProgress ==> r.1.scheduled[..|s.scheduled|] == s.scheduled
  {
    if s.status.inProgress then (Response("already_running", s.status.lastSync, None), s)
    else (Response("started", s.status.lastSync, None), s.(scheduled := s.scheduled + [dryRun]))
  }

  /**
   * The running flag is set only when a scheduled run starts, so two
   * triggers that arrive before it does both answer `started` and schedule
   * two runs.
   */
  lemma TriggerTwiceBeforeStart(s: Server, first: bool, second: bool)
    requires !s.status.inProgress
    ensures var (a, s1) := Trigger(s, first); var (b, s2) := Trigger(s1, second);
      a.status == "started" && b.status == "started" && s2.scheduled == s.scheduled + [first, second]
  {
    var (a, s1) := Trigger(s, first);
    var (b, s2) := Trigger(s1, second);
    assert s2.scheduled == s.scheduled + [first] + [second];
  }

  /** What the background run is given besides its outcome: the clocks, the configured paths, and whether the history file can be written. */
  datatype RunContext = RunContext(
    duration: real,
    finishedAt: Timestamp,
    stampedAt: Timestamp,
    savedAt: Timestamp,
    historyWritable: bool,
    libraryPath: string,
    replicaPaths: seq<string>)

  predicate ValidContext(ctx: RunContext) {
    Valid(ctx.stampedAt) && Valid(ctx.savedAt)
  }

  /** The start of `perform_sync`: the flag is set and the previous result and error are cleared. */
  function Begin(st: SyncStatus): (r: SyncStatus)
    ensures r.inProgress && r.result.None? && r.errors.None?
    ensures r.lastSync == st.lastSync
  {
    st.(inProgress := true, result := None, errors := None)
  }

  /** The history entry a run records: `completed` with the results, or `failed` with `{}` and the message. */
  function RunEntry(dryRun: bool, outcome: Result<Value>, ctx: RunContext): (e: Entry)
    ensures e.syncType == "dry_run" <==> dryRun
    ensures e.syncType == "sync" <==> !dryRun
    ensures e.status == "completed" <==> outcome.Ok?
    ensures e.status == "failed" <==> outcome.Err?
    ensures outcome.Ok? ==> e.results == outcome.value && e.error.None?
    ensures outcome.Err? ==> e.results == Obj(map[]) && e.error == Some(outcome.msg)
    ensures e.timestamp == ctx.stampedAt && e.duration == ctx.duration
    ensures e.libraryPath == ctx.libraryPath && e.replicaPaths == ctx.replicaPaths
  {
    var syncType := if dryRun then "dry_run" else "sync";
    match outcome
    case Ok(result) => Entry(ctx.stampedAt, syncType, "completed", ctx.duration, ctx.libraryPath, ctx.replicaPaths, result, None)
    case Err(msg) => Entry(ctx.stampedAt, syncType, "failed", ctx.duration, ctx.libraryPath, ctx.replicaPaths, Obj(map[]), Some(msg))
  }

  /**
   * The end of `perform_sync`, once the sync has returned or raised: a result
   * and the finish time, or the message, go into the status record, one entry
   * goes into the history, and the flag is cleared whatever happened.
   */
  function Complete(st: SyncStatus, store: Store, dryRun: bool, outcome: Result<Value>, ctx: RunContext): (r: (SyncStatus, Store))
    requires ValidContext(ctx)
    ensures !r.0.inProgress
    ensures outcome.Ok? ==> r.0.result == Some(outcome.value) && r.0.errors == st.errors && r.0.lastSync == Some(ctx.finishedAt)
    ensures outcome.Err? ==> r.0.errors == Some(outcome.msg) && r.0.result == st.result && r.0.lastSync == st.lastSync
  {
    var entry := RunEntry(dryRun, outcome, ctx);
    var store' := AddEntry(store, entry, ctx.savedAt, ctx.historyWritable);
    match outcome
    case Ok(result) => (st.(result := Some(result), lastSync := Some(ctx.finishedAt), inProgress := false), store')
    case Err(msg) => (st.(errors := Some(msg), inProgress := false), store')
  }

  /**
   * `perform_sync` as one step: the flag is set and the previous result and
   * error cleared, then the run completes.
   */
  function PerformSync(st: SyncStatus, store: Store, dryRun: bool, outcome: Result<Value>, ctx: RunContext): (r: (SyncStatus, Store))
    requires ValidContext(ctx)
    ensures !r.0.inProgress
    ensures outcome.Ok? ==> r.0.result == Some(outcome.value) && r.0.errors.None? && r.0.lastSync == Some(ctx.finishedAt)
    ensures outcome.Err? ==> r.0.errors == Some(outcome.msg) && r.0.result.None? && r.0.lastSync == st.lastSync
  {
    Complete(Begin(st), store, dryRun, outcome, ctx)
  }

  /**
   * Every run that can write the history file appends exactly one entry,
   * its own, after the entries already there (keeping the last 100); a run
   * that cannot write it leaves the history as it was.
   */
  lemma PerformSyncRecordsOneEntry(st: SyncStatus, store: Store, dryRun: bool, outcome: Result<Value>, ctx: RunContext)
    requires ValidContext(ctx)
    ensures var h := Load(PerformSync(st, store, dryRun, outcome, ctx).1);
      if ctx.historyWritable then
        h == Recent(Load(store) + [RunEntry(dryRun, outcome, ctx)]) && h[|h| - 1] == RunEntry(dryRun, outcome, ctx)
      else h == Load(store)
  {
    AddEntryAppends(store, RunEntry(dryRun, outcome, ctx), ctx.savedAt);
  }

  /** The background task starts the earliest scheduled run: it leaves the queue, is under way, and the flag is set. */
  function StartNext(s: Server): (r: Server)
    requires |s.scheduled| > 0
    ensures r.scheduled == s.scheduled[1..] && r.running == s.running + [s.scheduled[0]]
    ensures r.status.inProgress && r.status.result.None? && r.status.errors.None? && r.status.lastSync == s.status.lastSync
    ensures r.store == s.store
  {
    Server(Begin(s.status), s.scheduled[1..], s.running + [s.scheduled[0]], s.store)
  }

  /** The run under way at position `i` completes with `outcome`: it is no longer under way, and the flag is cleared. */
  function FinishRun(s: Server, i: nat, outcome: Result<Value>, ctx: RunContext): (r: Server)
    requires i < |s.running| && ValidContext(ctx)
    ensures r.scheduled == s.scheduled && r.running == s.running[..i] + s.running[i + 1..]
    ensures !r.status.inProgress
    ensures (r.status, r.store) == Complete(s.status, s.store, s.running[i], outcome, ctx)
  {
    var (st, store) := Complete(s.status, s.store, s.running[i], outcome, ctx);
    Server(st, s.scheduled, s.running[..i] + s.running[i + 1..], store)
  }

  /** Starting the earliest scheduled run and letting it finish is one call of `perform_sync` with its `dry_run` flag. */
  lemma StartThenFinish(s: Server, outcome: Result<Value>, ctx: RunContext)
    requires |s.scheduled| > 0 && ValidContext(ctx)
    ensures var r := FinishRun(StartNext(s), |s.running|, outcome, ctx);
      && (r.status, r.store) == PerformSync(s.status, s.store, s.scheduled[0], outcome, ctx)
      && r.scheduled == s.scheduled[1..] && r.running == s.running
  {
    var started := StartNext(s);
    assert started.running[..|s.running|] == s.running;
  }

  /** Once a run has started, a trigger is refused and schedules nothing until it finishes. */
  lemma TriggerDuringRun(s: Server, dryRun: bool)
    requires |s.scheduled| > 0
    ensures var (resp, after) := Trigger(StartNext(s), dryRun);
      resp.status == "already_running" && after == StartNext(s)
  {
  }

  /**
   * The flag is one boolean shared by all runs: when two scheduled runs
   * overlap, the first to finish clears it while the other is still under
   * way, and a trigger is then accepted.
   */
  lemma OverlappingRunsClearFlag(s: Server, outcome: Result<Value>, ctx: RunContext, dryRun: bool)
    requires |s.scheduled| >= 2 && s.running == [] && ValidContext(ctx)
    ensures var both := StartNext(StartNext(s));
      var after := FinishRun(both, 0, outcome, ctx);
      && |after.running| == 1
      && GetSyncStatus(after.status).status == "idle"
      && Trigger(after, dryRun).0.status == "started"
  {
    var both := StartNext(StartNext(s));
    assert |both.running| == 2;
  }

  /** `get_sync_status`: `in_progress` while the flag is set and `idle` otherwise, with the current result and error. */
  function GetSyncStatus(st: SyncStatus): (r: Response)
    ensures r.status == "in_progress" <==> st.inProgress
    ensures r.status == "idle" <==> !st.inProgress
    ensures r.lastSync == st.lastSync
    ensures r.details == Some(Details(st.result, st.errors))
  {
    Response(if st.inProgress then "in_progress" else "idle", st.lastSync, Some(Details(st.result, st.errors)))
  }

  /** A status query sees `in_progress` while a run is under way and `idle` once it has ended, whatever its outcome. */
  lemma StatusAcrossRun(st: SyncStatus, store: Store, dryRun: bool, outcome: Result<Value>, ctx: RunContext)
    requires ValidContext(ctx)
    ensures GetSyncStatus(Begin(st)).status == "in_progress"
    ensures GetSyncStatus(Begin(st)).details == Some(Details(None, None))
    ensures GetSyncStatus(PerformSync(st, store, dryRun, outcome, ctx).0).status == "idle"
  {
  }

  /** The number of entries the history endpoint returns when the caller gives no limit. */
  const DefaultHistoryLimit: int := 20

  /** `get_sync_history`: the history with the caller's limit, or 20 when none is given. */
  function GetSyncHistory(store: Store, limit: Option<int>): (r: seq<Value>)
    ensures limit.None? ==> |r| == (if |Load(store)| < DefaultHistoryLimit then |Load(store)| else DefaultHistoryLimit)
    ensures limit.Some? ==> r == GetHistory(store, limit)
    ensures limit.None? ==> r == GetHistory(store, Some(DefaultHistoryLimit))
  {
    GetHistory(store, Some(limit.GetOr(DefaultHistoryLimit)))
  }

  /** Entries as `perform_sync` writes them: completed or failed, never another status. */
  predicate RecordedByRuns(es: seq<Entry>) {
    forall i :: 0 <= i < |es| ==> es[i].status in {"completed", "failed"}
  }

  lemma AppendRecordedByRuns(es: seq<Entry>, e: Entry)
    requires RecordedByRuns(es) && e.status in {"completed", "failed"}
    ensures RecordedByRuns(Recent(es + [e]))
  {
    var h := es + [e];
    assert forall i :: 0 <= i < |h| - 1 ==> h[i] == es[i];
    assert RecordedByRuns(h);
  }

  /** Adding an entry a run wrote to a history written only by runs keeps it so. */
  lemma AddKeepsRecordedByRuns(store: Store, e: Entry, savedAt: Timestamp, writable: bool)
    requires Valid(e.timestamp) && Valid(savedAt)
    requires RecordedByRuns(Load(store)) && e.status in {"completed", "failed"}
    ensures RecordedByRuns(Load(AddEntry(store, e, savedAt, writable)))
  {
    if writable {
      AddEntryAppends(store, e, savedAt);
      AppendRecordedByRuns(Load(store), e);
    }
  }

  /** The statistics of a history written only by runs account for every run: completed plus failed is the total. */
  lemma RecordedStatsAccount(store: Store)
    requires RecordedByRuns(Load(store))
    ensures GetStats(store).successful + GetStats(store).failed == GetStats(store).total
  {
    StatusCountsBounded(Load(store), "completed", "failed");
  }

  /** A history written only by runs stays so after another run, so its statistics keep accounting for every run. */
  lemma RunsAccountForEveryEntry(st: SyncStatus, store: Store, dryRun: bool, outcome: Result<Value>, ctx: RunContext)
    requires ValidContext(ctx) && RecordedByRuns(Load(store))
    ensures RecordedByRuns(Load(PerformSync(st, store, dryRun, outcome, ctx).1))
    ensures var stats := GetStats(PerformSync(st, store, dryRun, outcome, ctx).1);
      stats.successful + stats.failed == stats.total
  {
    var after := PerformSync(st, store, dryRun, outcome, ctx).1;
    AddKeepsRecordedByRuns(store, RunEntry(dryRun, outcome, ctx), ctx.savedAt, ctx.historyWritable);
    assert after == AddEntry(store, RunEntry(dryRun, outcome, ctx), ctx.savedAt, ctx.historyWritable);
    RecordedStatsAccount(after);
  }
}
