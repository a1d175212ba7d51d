/**
 * The reconciliation engine of app/services/sync_service.py.
 *
 * A directory tree is an immutable map from relative path to file content and
 * modification time. The real filesystem operations that can fail (directory
 * creation, copy, removal) are driven by an `Io` record naming the paths on
 * which they fail; MD5 is the record's uninterpreted `hash` function.
 */
module SyncService {
  import opened Wrappers
  import opened PathNames

  type Path = string
  newtype byte = x: int | 0 <= x < 256
  type Content = seq<byte>

  datatype FileData = FileData(content: Content, mtime: real)
  type Files = map<Path, FileData>

  /** A tree root that may not exist yet. */
  datatype Tree = Absent | Present(files: Files)

  function FilesOf(t: Tree): Files {
    if t.Present? then t.files else map[]
  }

  /** The catalog entry of one file: what `os.stat` reports. */
  datatype Meta = Meta(size: nat, mtime: real)
  type Catalog = map<Path, Meta>

  function MetaOf(f: FileData): Meta {
    Meta(|f.content|, f.mtime)
  }

  /**
   * The file-name conventions the engine is parameterised by: how a relative
   * path yields a file name, which names are ignored on the source side and
   * which are protected on the replica side.
   */
  datatype Naming = Naming(basename: string -> string, ignored: string -> bool, protected: string -> bool)

  /** The conventions of the Calibre library mirror. */
  function Calibre(): Naming {
    Naming(Basename, IgnoredName, ProtectedName)
  }

  predicate IsHidden(names: Naming, p: Path) {
    var name := names.basename(p);
    |name| > 0 && name[0] == '.'
  }

  /**
   * `get_calibre_files` and `get_replica_files`: every file of the tree whose
   * name does not start with a dot, keyed by its path relative to the root. A
   * root that does not exist yields the empty catalog.
   */
  function BuildCatalog(names: Naming, t: Tree): (c: Catalog)
    ensures t.Absent? ==> c == map[]
    ensures forall p :: p in c <==> p in FilesOf(t) && !IsHidden(names, p)
    ensures forall p :: p in c ==> c[p] == MetaOf(FilesOf(t)[p])
  {
    match t
    case Absent => map[]
    case Present(files) => map p | p in files && !IsHidden(names, p) :: MetaOf(files[p])
  }

  /** With the Calibre conventions, hidden means the file name starts with a dot. */
  lemma CalibreCatalog(t: Tree)
    ensures forall p :: p in BuildCatalog(Calibre(), t) <==> p in FilesOf(t) && !Hidden(p)
  {
  }

  /**
   * The faults of the real filesystem, and the content digest. A copy that
   * fails maps to what it leaves at the replica path: `None` when the replica
   * file is left as it was (the destination could not be opened), or the
   * file it leaves instead (a truncated copy, or the full content with a fresh
   * modification time when only `copystat` failed).
   */
  datatype Io = Io(
    hash: Content -> string,
    copyFails: map<Path, Option<FileData>>,
    removeFails: set<Path>,
    mkdirFails: set<Path>,
    rootFails: bool)

  /** A filesystem on which nothing fails. */
  function Reliable(hash: Content -> string): Io {
    Io(hash, map[], {}, {}, false)
  }

  /** The inputs of one `sync_folder` call. */
  datatype Env = Env(src: Tree, dst: Tree, dryRun: bool, io: Io, names: Naming)

  predicate InSource(env: Env, p: Path) {
    p in BuildCatalog(env.names, env.src)
  }

  predicate AllInSource(env: Env, order: seq<Path>) {
    forall p :: p in order ==> InSource(env, p)
  }

  predicate InDestination(env: Env, p: Path) {
    p in BuildCatalog(env.names, env.dst)
  }

  predicate AllInDestination(env: Env, order: seq<Path>) {
    forall p :: p in order ==> InDestination(env, p)
  }

  function Abs(x: real): real {
    if x < 0.0 then -x else x
  }

  /** Size or modification time (beyond a one-second tolerance) disagree. */
  predicate MetaChanged(a: Meta, b: Meta) {
    a.size != b.size || Abs(a.mtime - b.mtime) > 1.0
  }

  /** What the reconciler decides for one source path. */
  datatype Action = Ignore | Add | Update | Keep

  /**
   * Classification of a source path: ignored database/JSON files, files
   * missing from the replica, then the metadata fast path with the content
   * hash as the authority when metadata disagrees.
   */
  function Classify(env: Env, p: Path): (a: Action)
    requires InSource(env, p)
    ensures a == Ignore <==> env.names.ignored(env.names.basename(p))
    ensures a == Add <==> !env.names.ignored(env.names.basename(p)) && p !in FilesOf(env.dst)
    ensures a == Keep ==> (&& p in FilesOf(env.dst)
                           && (|| !MetaChanged(MetaOf(FilesOf(env.src)[p]), MetaOf(FilesOf(env.dst)[p]))
                               || env.io.hash(FilesOf(env.src)[p].content) == env.io.hash(FilesOf(env.dst)[p].content)))
    ensures a == Update ==> (&& p in FilesOf(env.dst)
                             && MetaChanged(MetaOf(FilesOf(env.src)[p]), MetaOf(FilesOf(env.dst)[p]))
                             && env.io.hash(FilesOf(env.src)[p].content) != env.io.hash(FilesOf(env.dst)[p].content))
  {
    if env.names.ignored(env.names.basename(p)) then Ignore
    else if !InDestination(env, p) then Add
    else
      var s, d := FilesOf(env.src)[p], FilesOf(env.dst)[p];
      if MetaChanged(MetaOf(s), MetaOf(d)) && env.io.hash(s.content) != env.io.hash(d.content) then Update
      else Keep
  }

  /** The outcome reported for one source path once its action is carried out. */
  datatype Outcome = Ignored | Added | Updated | Unchanged | Failed

  function OutcomeOf(env: Env, p: Path): (o: Outcome)
    requires InSource(env, p)
    ensures o == Failed <==> !env.dryRun && p in env.io.copyFails && Classify(env, p) in {Add, Update}
    ensures o in {Added, Updated, Failed} <==> Classify(env, p) in {Add, Update}
    ensures o == Ignored <==> Classify(env, p) == Ignore
    ensures o == Added <==> Classify(env, p) == Add && (env.dryRun || p !in env.io.copyFails)
    ensures o == Updated <==> Classify(env, p) == Update && (env.dryRun || p !in env.io.copyFails)
    ensures o == Unchanged <==> Classify(env, p) == Keep
  {
    match Classify(env, p)
    case Ignore => Ignored
    case Keep => Unchanged
    case Add => if !env.dryRun && p in env.io.copyFails then Failed else Added
    case Update => if !env.dryRun && p in env.io.copyFails then Failed else Updated
  }

  /** `os.makedirs` for the file's directory, outside any `try`, fails: the whole folder sync raises. */
  predicate Aborts(env: Env, p: Path) {
    !env.dryRun && p in env.io.mkdirFails && !env.names.ignored(env.names.basename(p))
  }

  /**
   * What a real run leaves at the replica path of a visited source path: the
   * source's file when it is copied, whatever a failed copy leaves, and
   * nothing new otherwise.
   */
  function Written(env: Env, p: Path): (w: Option<FileData>)
    requires InSource(env, p)
    ensures env.dryRun ==> w.None?
    ensures !env.dryRun && OutcomeOf(env, p) in {Added, Updated} ==> w == Some(FilesOf(env.src)[p])
    ensures OutcomeOf(env, p) in {Ignored, Unchanged} ==> w.None?
    ensures !env.dryRun && OutcomeOf(env, p) == Failed ==> p in env.io.copyFails && w == env.io.copyFails[p]
  {
    if env.dryRun then None
    else
      match OutcomeOf(env, p)
      case Added => Some(FilesOf(env.src)[p])
      case Updated => Some(FilesOf(env.src)[p])
      case Failed => env.io.copyFails[p]
      case _ => None
  }

  /** `files` after `w` is left at `p`, if anything is. */
  function Put(files: Files, p: Path, w: Option<FileData>): Files {
    if w.Some? then files[p := w.value] else files
  }

  /** The per-replica statistics dictionary of `sync_folder`. */
  datatype Stats = Stats(
    added: nat, updated: nat, deleted: nat, unchangedCount: nat, ignored: nat, errors: nat,
    addedFiles: seq<string>, updatedFiles: seq<string>, deletedFiles: seq<string>,
    ignoredFiles: seq<string>, errorFiles: seq<string>)

  const NoStats := Stats(0, 0, 0, 0, 0, 0, [], [], [], [], [])

  /** Every counter equals the length of its file list. */
  predicate CountsMatchLists(s: Stats) {
    && s.added == |s.addedFiles|
    && s.updated == |s.updatedFiles|
    && s.deleted == |s.deletedFiles|
    && s.ignored == |s.ignoredFiles|
    && s.errors == |s.errorFiles|
  }

  datatype Progress = Running(files: Files, stats: Stats) | Aborted(files: Files, reason: string)

  /** Copy the source file over the replica path (real run only), or count the failure and keep what it left. */
  function CopyOrFail(env: Env, p: Path, files: Files, s: Stats, update: bool): Progress
    requires InSource(env, p)
  {
    if env.dryRun || p !in env.io.copyFails then
      var files' := if env.dryRun then files else files[p := FilesOf(env.src)[p]];
      if update then Running(files', s.(updated := s.updated + 1, updatedFiles := s.updatedFiles + [p]))
      else Running(files', s.(added := s.added + 1, addedFiles := s.addedFiles + [p]))
    else Running(Put(files, p, env.io.copyFails[p]), s.(errors := s.errors + 1, errorFiles := s.errorFiles + [p]))
  }

  /** One iteration of the loop over the source catalog. */
  function SourceStep(env: Env, p: Path, files: Files, s: Stats): Progress
    requires InSource(env, p)
  {
    if Aborts(env, p) then Aborted(files, "cannot create the replica directory of " + p)
    else
      match Classify(env, p)
      case Ignore => Running(files, s.(ignored := s.ignored + 1, ignoredFiles := s.ignoredFiles + [p]))
      case Add => CopyOrFail(env, p, files, s, false)
      case Update => CopyOrFail(env, p, files, s, true)
      case Keep => Running(files, s.(unchangedCount := s.unchangedCount + 1))
  }

  /** The loop over the source catalog (lines 141-205), visiting `order`. */
  function SourcePass(env: Env, order: seq<Path>, files: Files, s: Stats): Progress
    requires AllInSource(env, order)
    decreases |order|
  {
    if |order| == 0 then Running(files, s)
    else
      assert order[0] in order;
      assert AllInSource(env, order[1..]) by {
        forall q | q in order[1..] ensures InSource(env, q) { assert q in order; }
      }
      match SourceStep(env, order[0], files, s)
      case Aborted(f, reason) => Aborted(f, reason)
      case Running(f, s') => SourcePass(env, order[1..], f, s')
  }

  /** The outcome of each visited source path, in visiting order. */
  function Outcomes(env: Env, order: seq<Path>): (r: seq<Outcome>)
    requires AllInSource(env, order)
    ensures |r| == |order|
  {
    if |order| == 0 then []
    else
      assert AllInSource(env, order[1..]) by {
        forall q | q in order[1..] ensures InSource(env, q) { assert q in order; }
      }
      [OutcomeOf(env, order[0])] + Outcomes(env, order[1..])
  }

  /** The entries of `xs` whose tag is `t`, in order. */
  function Pick<T(==)>(xs: seq<string>, tags: seq<T>, t: T): (r: seq<string>)
    requires |xs| == |tags|
    ensures |r| <= |xs|
  {
    if |xs| == 0 then []
    else (if tags[0] == t then [xs[0]] else []) + Pick(xs[1..], tags[1..], t)
  }

  /** The paths of `order` with outcome `o`, in order. */
  function Select(env: Env, order: seq<Path>, o: Outcome): seq<Path>
    requires AllInSource(env, order)
  {
    Pick(order, Outcomes(env, order), o)
  }

  /** The files a real run leaves over the replica while visiting `order`: the source's own copies and what failed copies left. */
  function Copies(env: Env, order: seq<Path>): (m: Files)
    requires AllInSource(env, order)
    ensures forall q :: q in m ==> q in order && InSource(env, q) && Written(env, q) == Some(m[q])
  {
    if |order| == 0 then map[]
    else
      var p := order[0];
      assert p in order && InSource(env, p);
      assert AllInSource(env, order[1..]) by {
        forall q | q in order[1..] ensures InSource(env, q) { assert q in order; }
      }
      var rest := Copies(env, order[1..]);
      Put(rest, p, Written(env, p))
  }

  /** What happens to a replica path that the source loop did not claim. */
  datatype Removal = Retained | Deleted | RemoveFailed

  /** `processed_dest_files`: the source paths that are not ignored. */
  predicate Processed(env: Env, p: Path) {
    InSource(env, p) && !env.names.ignored(env.names.basename(p))
  }

  /**
   * What the loop over the replica catalog does with `p`: a processed or
   * protected path is kept, an unremovable one fails on a real run, and
   * every other path is deleted (only reported in a dry run).
   */
  function RemovalOf(env: Env, p: Path): (r: Removal)
    ensures r == Retained <==> Processed(env, p) || env.names.protected(env.names.basename(p))
    ensures r == RemoveFailed ==> !env.dryRun && p in env.io.removeFails
    ensures r == Deleted ==> env.dryRun || p !in env.io.removeFails
  {
    if Processed(env, p) || env.names.protected(env.names.basename(p)) then Retained
    else if !env.dryRun && p in env.io.removeFails then RemoveFailed
    else Deleted
  }

  /** A dry run reports a deleted file by its name; a real run by its relative path. */
  function Reported(env: Env, p: Path): string {
    if env.dryRun then env.names.basename(p) else p
  }

  /** One iteration of the loop over the replica catalog. */
  function DestStep(env: Env, p: Path, files: Files, s: Stats): (Files, Stats) {
    if Processed(env, p) then (files, s)
    else
      var name := env.names.basename(p);
      if env.names.protected(name) then (files, s)
      else if env.dryRun then (files, s.(deleted := s.deleted + 1, deletedFiles := s.deletedFiles + [name]))
      else if p in env.io.removeFails then (files, s.(errors := s.errors + 1, errorFiles := s.errorFiles + [name]))
      else (files - {p}, s.(deleted := s.deleted + 1, deletedFiles := s.deletedFiles + [p]))
  }

  /** The loop over the replica catalog (lines 208-229), visiting `order`. */
  function DestPass(env: Env, order: seq<Path>, files: Files, s: Stats): (Files, Stats)
    decreases |order|
  {
    if |order| == 0 then (files, s)
    else
      var (f, s') := DestStep(env, order[0], files, s);
      DestPass(env, order[1..], f, s')
  }

  /** The removal outcome of each visited replica path, in visiting order. */
  function Removals(env: Env, order: seq<Path>): (r: seq<Removal>)
    ensures |r| == |order|
  {
    if |order| == 0 then [] else [RemovalOf(env, order[0])] + Removals(env, order[1..])
  }

  /** The paths of `order` whose removal outcome is `k`, in order. */
  function SelectRemoval(env: Env, order: seq<Path>, k: Removal): seq<Path> {
    Pick(order, Removals(env, order), k)
  }

  function ReportAll(env: Env, ps: seq<Path>): (r: seq<string>)
    ensures |r| == |ps|
    ensures forall k :: 0 <= k < |ps| ==> r[k] == Reported(env, ps[k])
  {
    if |ps| == 0 then [] else [Reported(env, ps[0])] + ReportAll(env, ps[1..])
  }

  function NamesOf(env: Env, ps: seq<Path>): (r: seq<string>)
    ensures |r| == |ps|
    ensures forall k :: 0 <= k < |ps| ==> r[k] == env.names.basename(ps[k])
  {
    if |ps| == 0 then [] else [env.names.basename(ps[0])] + NamesOf(env, ps[1..])
  }

  /** The replica paths a real run removes while visiting `order`. */
  function Removes(env: Env, order: seq<Path>): set<Path> {
    set q | q in order && !env.dryRun && RemovalOf(env, q) == Deleted
  }

  predicate Distinct<T(==)>(s: seq<T>) {
    forall i, j :: 0 <= i < j < |s| ==> s[i] != s[j]
  }

  /**
   * The order in which `os.walk` enumerates a catalog: some fixed but
   * unspecified listing of its keys, each exactly once.
   */
  ghost function Enumerate(keys: set<Path>): (r: seq<Path>)
    ensures |r| == |keys|
    ensures forall p :: p in r <==> p in keys
    ensures Distinct(r)
    decreases keys
  {
    if keys == {} then []
    else
      var p :| p in keys;
      var rest := Enumerate(keys - {p});
      assert forall i :: 0 <= i < |rest| ==> rest[i] in keys - {p};
      [p] + rest
  }

  ghost function SourceOrder(env: Env): (order: seq<Path>)
    ensures AllInSource(env, order)
  {
    Enumerate(BuildCatalog(env.names, env.src).Keys)
  }

  ghost function DestOrder(env: Env): seq<Path> {
    Enumerate(BuildCatalog(env.names, env.dst).Keys)
  }

  /** The replica as left behind: a dry run never creates a missing root. */
  function Finish(dst: Tree, dryRun: bool, files: Files): Tree {
    if dst.Absent? && dryRun then Absent else Present(files)
  }

  /**
   * `sync_folder(destination, dry_run)` under the naming conventions `names`:
   * the replica tree afterwards, and the statistics or the message of the
   * exception that escaped.
   */
  ghost function SyncFolderWith(names: Naming, src: Tree, dst: Tree, dryRun: bool, io: Io): (r: (Tree, Result<Stats>))
    ensures dst.Absent? && !dryRun && io.rootFails ==> r == (dst, Err("cannot create the replica root"))
  {
    var env := Env(src, dst, dryRun, io, names);
    if dst.Absent? && !dryRun && io.rootFails then
      (dst, Err("cannot create the replica root"))
    else
      match SourcePass(env, SourceOrder(env), FilesOf(dst), NoStats)
      case Aborted(files, reason) => (Finish(dst, dryRun, files), Err(reason))
      case Running(files, s) =>
        var (files', s') := DestPass(env, DestOrder(env), files, s);
        (Finish(dst, dryRun, files'), Ok(s'))
  }

  /** `sync_folder` of the Calibre mirror. */
  ghost function SyncFolder(src: Tree, dst: Tree, dryRun: bool, io: Io): (r: (Tree, Result<Stats>))
    ensures dst.Absent? && !dryRun && io.rootFails ==> r.1.Err? && r.0 == dst
  {
    SyncFolderWith(Calibre(), src, dst, dryRun, io)
  }

  /** One entry of the `sync_all` result: the folder's statistics or `{"error": msg}`. */
  datatype ReplicaResult = Synced(stats: Stats) | SyncError(error: string)

  function AsReplicaResult(r: Result<Stats>): ReplicaResult {
    match r
    case Ok(s) => Synced(s)
    case Err(msg) => SyncError(msg)
  }

  function TreeAt(world: map<string, Tree>, root: string): Tree {
    if root in world then world[root] else Absent
  }

  /**
   * The loop of `sync_all` with the folder sync `folder`: every replica in
   * turn, each one's exception caught and recorded as that replica's result,
   * `results` holding the entries so far. Returns the replica trees
   * afterwards and the results.
   */
  ghost function SyncEach(folder: (Tree, Io) -> (Tree, Result<Stats>), world: map<string, Tree>, replicas: seq<string>,
                          io: string -> Io, results: map<string, ReplicaResult>)
    : (r: (map<string, Tree>, map<string, ReplicaResult>))
    ensures r.1.Keys == results.Keys + set q | q in replicas
    ensures forall q :: q !in replicas ==> TreeAt(r.0, q) == TreeAt(world, q)
    ensures forall q :: q !in replicas && q in results ==> r.1[q] == results[q]
    decreases |replicas|
  {
    if |replicas| == 0 then (world, results)
    else
      var root := replicas[0];
      var (tree, outcome) := folder(TreeAt(world, root), io(root));
      var r := SyncEach(folder, world[root := tree], replicas[1..], io, results[root := AsReplicaResult(outcome)]);
      assert forall q :: q in replicas <==> q == root || q in replicas[1..];
      r
  }

  /** The Calibre folder sync from `src`, as the loop of `sync_all` calls it. */
  ghost function FolderOf(src: Tree, dryRun: bool): (Tree, Io) -> (Tree, Result<Stats>) {
    (dst: Tree, io: Io) => SyncFolder(src, dst, dryRun, io)
  }

  /**
   * `sync_all`: every replica in turn, each one's exception caught and
   * recorded as that replica's result, `results` holding the entries so far.
   * Returns the replica trees afterwards and the results.
   */
  ghost function SyncAll(src: Tree, world: map<string, Tree>, replicas: seq<string>, dryRun: bool,
                         io: string -> Io, results: map<string, ReplicaResult>)
    : (r: (map<string, Tree>, map<string, ReplicaResult>))
    ensures r.1.Keys == results.Keys + set q | q in replicas
    ensures forall q :: q !in replicas ==> TreeAt(r.0, q) == TreeAt(world, q)
    ensures forall q :: q !in replicas && q in results ==> r.1[q] == results[q]
  {
    SyncEach(FolderOf(src, dryRun), world, replicas, io, results)
  }
}
