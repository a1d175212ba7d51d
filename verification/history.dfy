/**
 * The sync history ledger (app/services/sync_history_service.py): entries and
 * their JSON form, the history file with its 100-entry cap, and the queries
 * the API serves from it.
 */
module History {
  import opened Wrappers
  import opened Timestamps

  /** A JSON value as `json.load` returns it and `json.dump` writes it. */
  datatype Value =
    | Null
    | Bool(b: bool)
    | Num(n: real)
    | Str(s: string)
    | Arr(items: seq<Value>)
    | Obj(fields: map<string, Value>)

  /**
   * One sync run as the ledger records it: when it finished, whether it was
   * a dry run, how it ended (`completed`, `failed`, `cancelled`), how long it
   * took in seconds, the paths involved, the per-replica results and the
   * error message of a failed run.
   */
  datatype Entry = Entry(
    timestamp: Timestamp,
    syncType: string,
    status: string,
    duration: real,
    libraryPath: string,
    replicaPaths: seq<string>,
    results: Value,
    error: Option<string>)

  predicate AllValid(es: seq<Entry>) {
    forall i :: 0 <= i < |es| ==> Valid(es[i].timestamp)
  }

  /** The keys `from_dict` looks up with `data[...]`; a missing one raises `KeyError`. */
  const RequiredKeys: set<string> :=
    {"timestamp", "sync_type", "status", "duration", "library_path", "replica_paths", "results"}

  function Strings(xs: seq<string>): (vs: seq<Value>)
    ensures |vs| == |xs|
    ensures forall i :: 0 <= i < |xs| ==> vs[i] == Str(xs[i])
  {
    if |xs| == 0 then [] else [Str(xs[0])] + Strings(xs[1..])
  }

  /** The strings of a JSON array of strings; None when an item is not a string. */
  function AsStrings(vs: seq<Value>): (r: Option<seq<string>>)
    ensures r.Some? ==> |r.value| == |vs| && forall i :: 0 <= i < |vs| ==> vs[i] == Str(r.value[i])
    ensures r.None? ==> exists i :: 0 <= i < |vs| && !vs[i].Str?
  {
    if |vs| == 0 then Some([])
    else if !vs[0].Str? then None
    else match AsStrings(vs[1..])
      case None => None
      case Some(rest) => Some([vs[0].s] + rest)
  }

  /** The fields of an entry's JSON object, with the timestamp already formatted as `stamp`. */
  function Fields(stamp: string, e: Entry): map<string, Value> {
    map[
      "timestamp" := Str(stamp),
      "sync_type" := Str(e.syncType),
      "status" := Str(e.status),
      "duration" := Num(e.duration),
      "library_path" := Str(e.libraryPath),
      "replica_paths" := Arr(Strings(e.replicaPaths)),
      "results" := e.results,
      "error" := if e.error.Some? then Str(e.error.value) else Null]
  }

  /** `SyncHistoryEntry.to_dict`: the JSON object written for an entry. */
  function ToDict(e: Entry): (v: Value)
    requires Valid(e.timestamp)
    ensures v.Obj? && v.fields.Keys == RequiredKeys + {"error"}
    ensures v.fields["timestamp"] == Str(IsoFormat(e.timestamp))
    ensures v.fields["error"].Null? <==> e.error.None?
  {
    Obj(Fields(IsoFormat(e.timestamp), e))
  }

  /**
   * `SyncHistoryEntry.from_dict`: an entry read back from a JSON object.
   * A missing required key or a timestamp `fromisoformat` rejects is an
   * error; a missing `error` key means no error.
   */
  function FromDict(v: Value): (r: Result<Entry>)
    ensures r.Ok? ==> v.Obj? && RequiredKeys <= v.fields.Keys && Valid(r.value.timestamp)
  {
    if !v.Obj? then Err("entry is not an object")
    else if !(RequiredKeys <= v.fields.Keys) then Err("KeyError")
    else
      var f := v.fields;
      var time := if f["timestamp"].Str? then FromIsoFormat(f["timestamp"].s) else Err("timestamp is not a string");
      var paths := if f["replica_paths"].Arr? then AsStrings(f["replica_paths"].items) else None;
      var error := if "error" !in f || f["error"].Null? then Some(None)
                   else if f["error"].Str? then Some(Some(f["error"].s))
                   else None;
      if time.Err? then Err(time.msg)
      else if !(f["sync_type"].Str? && f["status"].Str? && f["duration"].Num? && f["library_path"].Str?)
              || paths.None? || error.None? then
        Err("ill-typed entry field")
      else
        Ok(Entry(time.value, f["sync_type"].s, f["status"].s, f["duration"].n, f["library_path"].s,
                 paths.value, f["results"], error.value))
  }

  /** What each key of an entry's JSON object holds. */
  lemma FieldsLookup(stamp: string, e: Entry)
    ensures RequiredKeys <= Fields(stamp, e).Keys
    ensures Fields(stamp, e)["timestamp"] == Str(stamp)
    ensures Fields(stamp, e)["sync_type"] == Str(e.syncType)
    ensures Fields(stamp, e)["status"] == Str(e.status)
    ensures Fields(stamp, e)["duration"] == Num(e.duration)
    ensures Fields(stamp, e)["library_path"] == Str(e.libraryPath)
    ensures Fields(stamp, e)["replica_paths"] == Arr(Strings(e.replicaPaths))
    ensures Fields(stamp, e)["results"] == e.results
    ensures "error" in Fields(stamp, e) && Fields(stamp, e)["error"] == if e.error.Some? then Str(e.error.value) else Null
  {
  }

  /** Reading the fields back gives the entry, with whatever timestamp `stamp` parses to. */
  lemma FieldsRoundTrip(stamp: string, e: Entry)
    ensures FromIsoFormat(stamp).Ok? ==> FromDict(Obj(Fields(stamp, e))) == Ok(e.(timestamp := FromIsoFormat(stamp).value))
  {
    FieldsLookup(stamp, e);
    StringsRoundTrip(e.replicaPaths);
  }

  /** An entry survives the trip through its JSON form unchanged. */
  lemma DictRoundTrip(e: Entry)
    requires Valid(e.timestamp)
    ensures FromDict(ToDict(e)) == Ok(e)
  {
    IsoRoundTrip(e.timestamp);
    FieldsRoundTrip(IsoFormat(e.timestamp), e);
  }

  lemma {:induction false} StringsRoundTrip(xs: seq<string>)
    ensures AsStrings(Strings(xs)) == Some(xs)
  {
    if |xs| > 0 {
      assert xs == [xs[0]] + xs[1..];
      assert Strings(xs)[1..] == Strings(xs[1..]);
      StringsRoundTrip(xs[1..]);
    }
  }

  function ToDicts(es: seq<Entry>): (vs: seq<Value>)
    requires AllValid(es)
    ensures |vs| == |es|
    ensures forall i :: 0 <= i < |es| ==> vs[i] == ToDict(es[i])
  {
    if |es| == 0 then [] else [ToDict(es[0])] + ToDicts(es[1..])
  }

  /** The list comprehension over `from_dict`: the first entry that fails makes the whole list fail. */
  function FromDicts(vs: seq<Value>): (r: Result<seq<Entry>>)
    ensures r.Ok? ==> |r.value| == |vs| && AllValid(r.value)
    ensures r.Ok? ==> forall i :: 0 <= i < |vs| ==> FromDict(vs[i]) == Ok(r.value[i])
    ensures r.Err? ==> exists i :: 0 <= i < |vs| && FromDict(vs[i]).Err?
  {
    if |vs| == 0 then Ok([])
    else match FromDict(vs[0])
      case Err(msg) => Err(msg)
      case Ok(e) =>
        match FromDicts(vs[1..])
        case Err(msg) => Err(msg)
        case Ok(rest) => Ok([e] + rest)
  }

  lemma {:induction false} DictsRoundTrip(es: seq<Entry>)
    requires AllValid(es)
    ensures FromDicts(ToDicts(es)) == Ok(es)
  {
    if |es| > 0 {
      var vs := ToDicts(es);
      assert vs[1..] == ToDicts(es[1..]);
      DictRoundTrip(es[0]);
      DictsRoundTrip(es[1..]);
      assert FromDicts(vs) == Ok([es[0]] + es[1..]);
      assert es == [es[0]] + es[1..];
    }
  }

  /** The number of entries the history file keeps. */
  const MaxEntries: nat := 100

  /** The entries `_save_history` keeps: the most recent `MaxEntries`, oldest first. */
  function Recent(es: seq<Entry>): (r: seq<Entry>)
    ensures |r| == if |es| > MaxEntries then MaxEntries else |es|
    ensures forall i :: 0 <= i < |r| ==> r[i] == es[|es| - |r| + i]
  {
    if |es| > MaxEntries then es[|es| - MaxEntries..] else es
  }

  /** The history file: absent, not valid JSON, or a JSON document. */
  datatype Store = Missing | Unreadable | Document(content: Value)

  /**
   * `_load_history`: the entries of the file, oldest first. A missing or
   * unreadable file, a document without an `entries` list, and a list with
   * one entry `from_dict` rejects all read as an empty history.
   */
  function Load(store: Store): (es: seq<Entry>)
    ensures AllValid(es)
    ensures !store.Document? ==> es == []
  {
    match store
    case Document(Obj(fields)) =>
      if "entries" in fields && fields["entries"].Arr? then
        match FromDicts(fields["entries"].items)
        case Ok(es) => es
        case Err(_) => []
      else []
    case _ => []
  }

  /** The document `_save_history` writes for `entries` at time `savedAt`. */
  function SavedDocument(entries: seq<Entry>, savedAt: Timestamp): (v: Value)
    requires AllValid(entries) && Valid(savedAt)
    ensures v.Obj? && "entries" in v.fields && "total_entries" in v.fields && v.fields["entries"].Arr?
    ensures v.fields["total_entries"] == Num(|v.fields["entries"].items| as real)
    ensures |v.fields["entries"].items| <= MaxEntries
  {
    var recent := Recent(entries);
    Obj(map[
      "last_updated" := Str(IsoFormat(savedAt)),
      "total_entries" := Num(|recent| as real),
      "entries" := Arr(ToDicts(recent))])
  }

  /**
   * `_save_history`: when the file can be written, it is replaced by the
   * document for the last `MaxEntries` entries; otherwise the failure is
   * logged and the file is left as it was.
   */
  function Save(store: Store, entries: seq<Entry>, savedAt: Timestamp, writable: bool): (r: Store)
    requires AllValid(entries) && Valid(savedAt)
    ensures !writable ==> r == store
    ensures writable ==> r.Document? && r.content.Obj? && "total_entries" in r.content.fields
  {
    if writable then Document(SavedDocument(entries, savedAt)) else store
  }

  /** What a save writes is what the next load reads: the last `MaxEntries` entries, in order. */
  lemma SaveLoad(store: Store, entries: seq<Entry>, savedAt: Timestamp)
    requires AllValid(entries) && Valid(savedAt)
    ensures Load(Save(store, entries, savedAt, true)) == Recent(entries)
  {
    var recent := Recent(entries);
    assert AllValid(recent);
    DictsRoundTrip(recent);
  }

  /**
   * `add_sync_entry`: the new entry, stamped `at`, appended to the loaded
   * history and saved at `savedAt`.
   */
  function AddEntry(store: Store, e: Entry, savedAt: Timestamp, writable: bool): Store
    requires Valid(e.timestamp) && Valid(savedAt)
  {
    var history := Load(store) + [e];
    assert forall i :: 0 <= i < |history| - 1 ==> history[i] == Load(store)[i];
    Save(store, history, savedAt, writable)
  }

  /**
   * After an add that could write the file, the history is the old one with
   * the new entry appended, cut to the last `MaxEntries`: the new entry is
   * always the last one kept, and the oldest are the ones dropped.
   */
  lemma AddEntryAppends(store: Store, e: Entry, savedAt: Timestamp)
    requires Valid(e.timestamp) && Valid(savedAt)
    ensures Load(AddEntry(store, e, savedAt, true)) == Recent(Load(store) + [e])
    ensures var h := Load(AddEntry(store, e, savedAt, true));
      && |h| == (if |Load(store)| < MaxEntries then |Load(store)| + 1 else MaxEntries)
      && h[|h| - 1] == e
  {
    var history := Load(store) + [e];
    assert AllValid(history) by {
      assert forall i :: 0 <= i < |history| - 1 ==> history[i] == Load(store)[i];
    }
    SaveLoad(store, history, savedAt);
  }

  /** An add that cannot write the file leaves the history as it was. */
  lemma AddEntryUnwritable(store: Store, e: Entry, savedAt: Timestamp)
    requires Valid(e.timestamp) && Valid(savedAt)
    ensures Load(AddEntry(store, e, savedAt, false)) == Load(store)
  {
  }

  /**
   * One entry that `from_dict` rejects makes the whole file load as empty,
   * so the next add replaces the history by the new entry alone.
   */
  lemma BadEntryLosesHistory(items: seq<Value>, k: nat, e: Entry, savedAt: Timestamp)
    requires k < |items| && FromDict(items[k]).Err?
    requires Valid(e.timestamp) && Valid(savedAt)
    ensures Load(AddEntry(Document(Obj(map["entries" := Arr(items)])), e, savedAt, true)) == [e]
  {
    var store := Document(Obj(map["entries" := Arr(items)]));
    assert Load(store) == [];
    AddEntryAppends(store, e, savedAt);
  }

  /** `clear_history`: the file is deleted when it can be; a failure is logged and leaves it. */
  function Clear(store: Store, removable: bool): (r: Store)
    ensures removable ==> Load(r) == []
    ensures !removable ==> r == store
  {
    if removable then Missing else store
  }

  /** Timestamps never increase along `es`: the most recent entry comes first. */
  predicate NewestFirstOrder(es: seq<Entry>) {
    forall i :: 0 < i < |es| ==> Key(es[i].timestamp) <= Key(es[i - 1].timestamp)
  }

  /**
   * Inserts `e` in front of the first entry that is not newer than it, so an
   * entry that came earlier stays ahead of later ones with the same time.
   */
  function Insert(e: Entry, es: seq<Entry>): (r: seq<Entry>)
    requires NewestFirstOrder(es)
    ensures |r| == |es| + 1
    ensures r[0] == e || (|es| > 0 && r[0] == es[0])
    ensures NewestFirstOrder(r)
    ensures multiset(r) == multiset(es) + multiset{e}
    decreases |es|
  {
    if |es| == 0 || Key(es[0].timestamp) <= Key(e.timestamp) then [e] + es
    else
      var rest := Insert(e, es[1..]);
      assert es == [es[0]] + es[1..];
      [es[0]] + rest
  }

  /**
   * `entries.sort(key=timestamp, reverse=True)`: the entries, newest first;
   * the sort is stable (`NewestFirstStable`), so entries with equal
   * timestamps keep their order.
   */
  function NewestFirst(es: seq<Entry>): (r: seq<Entry>)
    ensures |r| == |es|
    ensures NewestFirstOrder(r)
    ensures multiset(r) == multiset(es)
  {
    if |es| == 0 then []
    else
      assert es == [es[0]] + es[1..];
      Insert(es[0], NewestFirst(es[1..]))
  }

  /** The entries of `es` whose timestamp has sort key `t`, in order. */
  function WithKey(es: seq<Entry>, t: int): (r: seq<Entry>)
    ensures |r| <= |es|
  {
    if |es| == 0 then []
    else if Key(es[0].timestamp) == t then [es[0]] + WithKey(es[1..], t)
    else WithKey(es[1..], t)
  }

  lemma WithKeyCons(e: Entry, es: seq<Entry>, t: int)
    ensures WithKey([e] + es, t) == if Key(e.timestamp) == t then [e] + WithKey(es, t) else WithKey(es, t)
  {
    assert ([e] + es)[1..] == es;
  }

  /** Inserting `e` puts it ahead of every entry of `es` with the same time and keeps their order. */
  lemma {:induction false} InsertWithKey(e: Entry, es: seq<Entry>, t: int)
    requires NewestFirstOrder(es)
    ensures WithKey(Insert(e, es), t) == if Key(e.timestamp) == t then [e] + WithKey(es, t) else WithKey(es, t)
    decreases |es|
  {
    if |es| == 0 || Key(es[0].timestamp) <= Key(e.timestamp) {
      WithKeyCons(e, es, t);
    } else {
      InsertWithKey(e, es[1..], t);
      WithKeyCons(es[0], Insert(e, es[1..]), t);
      WithKeyCons(es[0], es[1..], t);
      assert es == [es[0]] + es[1..];
    }
  }

  /** The sort is stable: the entries with any one time keep their stored order. */
  lemma {:induction false} NewestFirstStable(es: seq<Entry>, t: int)
    ensures WithKey(NewestFirst(es), t) == WithKey(es, t)
    decreases |es|
  {
    if |es| > 0 {
      NewestFirstStable(es[1..], t);
      InsertWithKey(es[0], NewestFirst(es[1..]), t);
    }
  }

  /** Python's `if limit: entries = entries[:limit]`: `None` and 0 keep everything; a negative limit drops from the end. */
  function Limit(es: seq<Entry>, limit: Option<int>): (r: seq<Entry>)
    ensures limit.None? || limit.value == 0 ==> r == es
    ensures limit.Some? && limit.value > 0 ==> |r| == (if limit.value < |es| then limit.value else |es|)
    ensures limit.Some? && limit.value < 0 ==> |r| == (if -limit.value < |es| then |es| + limit.value else 0)
    ensures r <= es
    ensures forall i :: 0 <= i < |r| ==> r[i] == es[i]
  {
    match limit
    case None => es
    case Some(k) =>
      if k == 0 then es
      else if k > 0 then (if k < |es| then es[..k] else es)
      else (if -k < |es| then es[..|es| + k] else [])
  }

  /** The entries `get_history` returns for history `es`, before conversion to dictionaries. */
  function Listed(es: seq<Entry>, limit: Option<int>): (r: seq<Entry>)
    ensures NewestFirstOrder(r)
    ensures forall i :: 0 <= i < |r| ==> r[i] in es
    ensures limit.None? || limit.value == 0 ==> multiset(r) == multiset(es)
    ensures limit.Some? && limit.value > 0 ==> |r| == (if limit.value < |es| then limit.value else |es|)
    ensures r <= NewestFirst(es)
  {
    var sorted := NewestFirst(es);
    var r := Limit(sorted, limit);
    assert forall i :: 0 <= i < |r| ==> sorted[i] in multiset(es);
    r
  }

  /** `get_history`: stored entries as dictionaries, most recent first, cut to `limit` when it is truthy. */
  function GetHistory(store: Store, limit: Option<int>): (r: seq<Value>)
    ensures |r| == |Listed(Load(store), limit)|
    ensures forall i :: 0 <= i < |r| ==> FromDict(r[i]) == Ok(Listed(Load(store), limit)[i])
  {
    var listed := Listed(Load(store), limit);
    assert AllValid(listed) by {
      forall i | 0 <= i < |listed| ensures Valid(listed[i].timestamp) {
        var j :| 0 <= j < |Load(store)| && Load(store)[j] == listed[i];
      }
    }
    var r := ToDicts(listed);
    assert forall i :: 0 <= i < |r| ==> FromDict(r[i]) == Ok(listed[i]) by {
      forall i | 0 <= i < |r| ensures FromDict(r[i]) == Ok(listed[i]) {
        DictRoundTrip(listed[i]);
      }
    }
    r
  }

  /**
   * Python's `max(entries, key=timestamp)` as the loop it runs: a later entry
   * replaces the best so far only when strictly newer, so ties go to the
   * earliest.
   */
  function MaxFrom(best: Entry, es: seq<Entry>): (r: Entry)
    ensures Key(best.timestamp) <= Key(r.timestamp)
    ensures forall i :: 0 <= i < |es| ==> Key(es[i].timestamp) <= Key(r.timestamp)
    ensures r == best || exists k :: 0 <= k < |es| && r == es[k] && Key(best.timestamp) < Key(r.timestamp)
                                     && forall i :: 0 <= i < k ==> Key(es[i].timestamp) < Key(r.timestamp)
    decreases |es|
  {
    if |es| == 0 then best
    else
      var r := MaxFrom(if Key(best.timestamp) < Key(es[0].timestamp) then es[0] else best, es[1..]);
      assert forall k :: 0 <= k < |es| - 1 ==> es[1..][k] == es[k + 1];
      r
  }

  /** `max(entries, key=timestamp)`: the newest entry, and the earliest stored among equally new ones. */
  function PyMax(es: seq<Entry>): (r: Entry)
    requires |es| > 0
    ensures forall i :: 0 <= i < |es| ==> Key(es[i].timestamp) <= Key(r.timestamp)
    ensures exists k :: 0 <= k < |es| && r == es[k] && forall i :: 0 <= i < k ==> Key(es[i].timestamp) < Key(r.timestamp)
  {
    var r := MaxFrom(es[0], es[1..]);
    assert forall k :: 0 <= k < |es| - 1 ==> es[1..][k] == es[k + 1];
    r
  }

  /** The loop of `max` from `best` over `es` ends on `best` unless the newest of `es` is strictly newer. */
  lemma {:induction false} MaxFromNewest(best: Entry, es: seq<Entry>)
    ensures MaxFrom(best, es) ==
      (if |es| > 0 && Key(best.timestamp) < Key(NewestFirst(es)[0].timestamp) then NewestFirst(es)[0] else best)
    decreases |es|
  {
    if |es| > 0 {
      var next := if Key(best.timestamp) < Key(es[0].timestamp) then es[0] else best;
      MaxFromNewest(next, es[1..]);
      assert |NewestFirst(es[1..])| == |es| - 1 by {
        assert |multiset(NewestFirst(es[1..]))| == |multiset(es[1..])|;
      }
    }
  }

  /** The stable descending sort and `max` pick the same entry. */
  lemma NewestFirstHead(es: seq<Entry>)
    requires |es| > 0
    ensures NewestFirst(es)[0] == PyMax(es)
  {
    MaxFromNewest(es[0], es[1..]);
    assert |NewestFirst(es[1..])| == |es| - 1 by {
      assert |multiset(NewestFirst(es[1..]))| == |multiset(es[1..])|;
    }
  }

  /**
   * The first entry of the sorted history is a stored entry that no other is
   * newer than, and every entry stored before it is strictly older: the
   * earliest stored of the newest.
   */
  lemma NewestFirstHeadIsEarliestNewest(es: seq<Entry>)
    requires |es| > 0
    ensures exists k :: (&& 0 <= k < |es| && NewestFirst(es)[0] == es[k]
                         && (forall i :: 0 <= i < k ==> Key(es[i].timestamp) < Key(es[k].timestamp))
                         && (forall i :: k < i < |es| ==> Key(es[i].timestamp) <= Key(es[k].timestamp)))
  {
    NewestFirstHead(es);
    var k :| 0 <= k < |es| && PyMax(es) == es[k] && forall i :: 0 <= i < k ==> Key(es[i].timestamp) < Key(es[k].timestamp);
  }

  /** `get_latest_sync`: the first entry of a one-entry history query, or None when there is none. */
  function GetLatest(store: Store): (r: Option<Value>)
    ensures r.None? <==> Load(store) == []
  {
    var h := GetHistory(store, Some(1));
    if |h| == 0 then None else Some(h[0])
  }

  /** The latest entry is the one `max` picks: the newest, and the earliest stored among equally new ones. */
  lemma LatestIsNewest(store: Store)
    requires Load(store) != []
    ensures GetLatest(store) == Some(ToDict(PyMax(Load(store))))
    ensures forall e | e in Load(store) :: Key(e.timestamp) <= Key(PyMax(Load(store)).timestamp)
  {
    var es := Load(store);
    assert Listed(es, Some(1))[0] == NewestFirst(es)[0];
    NewestFirstHead(es);
  }

  /** The entries of `es` with status `status`, in order: a list comprehension with an `if`. */
  function WithStatus(es: seq<Entry>, status: string): seq<Entry> {
    if |es| == 0 then []
    else
      var rest := WithStatus(es[1..], status);
      if es[0].status == status then [es[0]] + rest else rest
  }

  /** The filter keeps every entry with the status, as often as it occurs, and no other entry. */
  lemma {:induction false} WithStatusCounts(es: seq<Entry>, status: string)
    ensures forall e :: multiset(WithStatus(es, status))[e] == if e.status == status then multiset(es)[e] else 0
  {
    if |es| > 0 {
      assert es == [es[0]] + es[1..];
      WithStatusCounts(es[1..], status);
    }
  }

  lemma WithStatusMembers(es: seq<Entry>, status: string)
    ensures forall i :: 0 <= i < |WithStatus(es, status)| ==>
      WithStatus(es, status)[i] in es && WithStatus(es, status)[i].status == status
  {
    var r := WithStatus(es, status);
    WithStatusCounts(es, status);
    forall i | 0 <= i < |r| ensures r[i] in es && r[i].status == status {
      assert multiset(r)[r[i]] > 0;
    }
  }

  /** Entries with two different statuses never overlap, so together there are at most as many as entries. */
  lemma {:induction false} StatusCountsBounded(es: seq<Entry>, a: string, b: string)
    requires a != b
    ensures |WithStatus(es, a)| + |WithStatus(es, b)| <= |es|
    ensures (forall i :: 0 <= i < |es| ==> es[i].status in {a, b}) ==> |WithStatus(es, a)| + |WithStatus(es, b)| == |es|
  {
    if |es| > 0 {
      StatusCountsBounded(es[1..], a, b);
      assert forall i :: 0 < i < |es| ==> es[1..][i - 1] == es[i];
    }
  }

  function TotalDuration(es: seq<Entry>): real {
    if |es| == 0 then 0.0 else es[0].duration + TotalDuration(es[1..])
  }

  /** The durations of `es` lie within `[lo, hi]`, so their total lies within `|es|` times those bounds. */
  lemma {:induction false} TotalDurationBounds(es: seq<Entry>, lo: real, hi: real)
    requires forall i :: 0 <= i < |es| ==> lo <= es[i].duration <= hi
    ensures |es| as real * lo <= TotalDuration(es) <= |es| as real * hi
  {
    if |es| > 0 {
      TotalDurationBounds(es[1..], lo, hi);
    }
  }

  /**
   * The mean duration of the completed runs, 0 when there are none: times
   * the number of completed runs it gives back their total duration.
   */
  function AverageDuration(es: seq<Entry>): (r: real)
    ensures WithStatus(es, "completed") == [] ==> r == 0.0
    ensures r * |WithStatus(es, "completed")| as real == TotalDuration(WithStatus(es, "completed"))
  {
    var completed := WithStatus(es, "completed");
    MeanTimesCount(TotalDuration(completed), |completed|);
    if |completed| == 0 then 0.0 else TotalDuration(completed) / |completed| as real
  }

  /** A mean times the count is the total, and an empty list of runs totals 0. */
  lemma MeanTimesCount(total: real, n: nat)
    requires n == 0 ==> total == 0.0
    ensures (if n == 0 then 0.0 else total / n as real) * n as real == total
  {
  }

  /** When every completed run took between `lo` and `hi` seconds, so did the average. */
  lemma AverageWithinBounds(es: seq<Entry>, lo: real, hi: real)
    requires WithStatus(es, "completed") != []
    requires forall e | e in es && e.status == "completed" :: lo <= e.duration <= hi
    ensures lo <= AverageDuration(es) <= hi
  {
    var completed := WithStatus(es, "completed");
    WithStatusMembers(es, "completed");
    MeanOfBounded(completed, lo, hi);
  }

  lemma MeanOfBounded(es: seq<Entry>, lo: real, hi: real)
    requires |es| > 0
    requires forall i :: 0 <= i < |es| ==> lo <= es[i].duration <= hi
    ensures lo <= TotalDuration(es) / |es| as real <= hi
  {
    TotalDurationBounds(es, lo, hi);
    MeanBounds(TotalDuration(es), |es| as real, lo, hi);
  }

  lemma MeanBounds(total: real, n: real, lo: real, hi: real)
    requires n > 0.0 && n * lo <= total <= n * hi
    ensures lo <= total / n <= hi
  {
    assert (total / n) * n == total;
  }

  /** What `get_stats` reports. */
  datatype Summary = Summary(total: nat, successful: nat, failed: nat, lastSync: Option<Value>, averageDuration: real)

  /**
   * `get_stats`: run counts by status, the latest run and the mean duration
   * of completed runs; an empty history reports zeros and no latest run.
   */
  function GetStats(store: Store): (r: Summary)
    ensures r.total == |Load(store)|
    ensures r.successful + r.failed <= r.total
    ensures Load(store) == [] ==> r == Summary(0, 0, 0, None, 0.0)
    ensures Load(store) != [] ==> r.lastSync == GetLatest(store) && r.lastSync.Some?
    ensures Load(store) != [] ==> r.successful == |WithStatus(Load(store), "completed")|
    ensures Load(store) != [] ==> r.failed == |WithStatus(Load(store), "failed")|
    ensures Load(store) != [] ==> r.averageDuration == AverageDuration(Load(store))
  {
    var es := Load(store);
    if es == [] then Summary(0, 0, 0, None, 0.0)
    else
      StatusCountsBounded(es, "completed", "failed");
      LatestIsNewest(store);
      Summary(|es|, |WithStatus(es, "completed")|, |WithStatus(es, "failed")|,
              Some(ToDict(PyMax(es))), AverageDuration(es))
  }

  /** After a successful clear every query sees an empty history. */
  lemma ClearedHistoryIsEmpty(store: Store, limit: Option<int>)
    ensures GetHistory(Clear(store, true), limit) == []
    ensures GetLatest(Clear(store, true)).None?
    ensures GetStats(Clear(store, true)) == Summary(0, 0, 0, None, 0.0)
  {
  }
}
