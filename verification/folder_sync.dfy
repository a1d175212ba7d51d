/**
 * Properties of one whole `sync_folder` call and of `sync_all`, stated over the
 * source and replica trees.
 */
module FolderSync {
  import opened Wrappers
  import opened PathNames
  import opened SyncService
  import opened SyncProperties

  /** The source loop visits exactly the catalogued source files. */
  lemma SourceOrderMembers(env: Env)
    ensures forall p :: p in SourceOrder(env) <==> InSource(env, p)
  {
  }

  /** The replica loop visits exactly the catalogued replica files. */
  lemma DestOrderMembers(env: Env)
    ensures forall p :: p in DestOrder(env) <==> InDestination(env, p)
  {
  }

  /**
   * The conditions under which a folder sync completes: the replica root
   * exists or can be created, and on a real run the directory of every
   * catalogued, non-ignored source file can be created.
   */
  predicate Completes(env: Env) {
    && !(env.dst.Absent? && !env.dryRun && env.io.rootFails)
    && forall p | p in BuildCatalog(env.names, env.src) :: !Aborts(env, p)
  }

  /** A folder sync returns statistics exactly when it completes, and raises otherwise. */
  lemma SyncFolderSucceeds(names: Naming, src: Tree, dst: Tree, dryRun: bool, io: Io)
    ensures SyncFolderWith(names, src, dst, dryRun, io).1.Ok? <==> Completes(Env(src, dst, dryRun, io, names))
  {
    var env := Env(src, dst, dryRun, io, names);
    SourceOrderMembers(env);
    SourcePassRuns(env, SourceOrder(env), FilesOf(dst), NoStats);
  }

  /**
   * A completed folder sync leaves the replica with the source's copy of every
   * file it wrote and without every file it deleted; a dry run leaves a missing
   * root missing.
   */
  lemma SyncFolderTree(names: Naming, src: Tree, dst: Tree, dryRun: bool, io: Io)
    requires Completes(Env(src, dst, dryRun, io, names))
    ensures var env := Env(src, dst, dryRun, io, names);
      SyncFolderWith(names, src, dst, dryRun, io).0
        == Finish(dst, dryRun, (FilesOf(dst) + Copies(env, SourceOrder(env))) - Removes(env, DestOrder(env)))
  {
    var env := Env(src, dst, dryRun, io, names);
    var order := SourceOrder(env);
    SourceOrderMembers(env);
    SourcePassRuns(env, order, FilesOf(dst), NoStats);
    SourcePassFiles(env, order, FilesOf(dst), NoStats);
    var pass := SourcePass(env, order, FilesOf(dst), NoStats);
    DestPassFiles(env, DestOrder(env), pass.files, pass.stats);
  }

  /**
   * The statistics of a completed folder sync: each source-side list holds
   * the catalogued source paths with that outcome in walk order; deletions
   * list the removed replica paths (by file name on a dry run); errors list
   * the failed copies, then the file names that could not be removed; every
   * counter is the length of its list.
   */
  lemma SyncFolderStats(names: Naming, src: Tree, dst: Tree, dryRun: bool, io: Io)
    requires Completes(Env(src, dst, dryRun, io, names))
    ensures SyncFolderWith(names, src, dst, dryRun, io).1.Ok?
    ensures var env := Env(src, dst, dryRun, io, names);
      var so, dor := SourceOrder(env), DestOrder(env);
      var st := SyncFolderWith(names, src, dst, dryRun, io).1.value;
      && st.addedFiles == Select(env, so, Added)
      && st.updatedFiles == Select(env, so, Updated)
      && st.ignoredFiles == Select(env, so, Ignored)
      && st.unchangedCount == |Select(env, so, Unchanged)|
      && st.deletedFiles == ReportAll(env, SelectRemoval(env, dor, Deleted))
      && st.errorFiles == Select(env, so, Failed) + NamesOf(env, SelectRemoval(env, dor, RemoveFailed))
      && CountsMatchLists(st)
  {
    var env := Env(src, dst, dryRun, io, names);
    var so, dor := SourceOrder(env), DestOrder(env);
    SourceStats(env);
    var pass := SourcePass(env, so, FilesOf(dst), NoStats);
    DestPassTally(env, dor, pass.files, pass.stats);
    RemovalTallyEffect(pass.stats, ReportAll(env, dor), NamesOf(env, dor), Removals(env, dor));
    PickReported(env, dor, Deleted);
    PickNamed(env, dor, RemoveFailed);
  }

  /** The statistics the source loop of a completing folder sync hands to the replica loop. */
  lemma SourceStats(env: Env)
    requires Completes(env)
    ensures var so := SourceOrder(env);
      var pass := SourcePass(env, so, FilesOf(env.dst), NoStats);
      && pass.Running?
      && pass.stats.addedFiles == Select(env, so, Added) && pass.stats.added == |Select(env, so, Added)|
      && pass.stats.updatedFiles == Select(env, so, Updated) && pass.stats.updated == |Select(env, so, Updated)|
      && pass.stats.ignoredFiles == Select(env, so, Ignored) && pass.stats.ignored == |Select(env, so, Ignored)|
      && pass.stats.errorFiles == Select(env, so, Failed) && pass.stats.errors == |Select(env, so, Failed)|
      && pass.stats.unchangedCount == |Select(env, so, Unchanged)|
      && pass.stats.deletedFiles == [] && pass.stats.deleted == 0
  {
    var so := SourceOrder(env);
    SourceOrderMembers(env);
    SourcePassRuns(env, so, FilesOf(env.dst), NoStats);
    SourcePassTally(env, so, FilesOf(env.dst), NoStats);
    var tags := Outcomes(env, so);
    TallyEffect(NoStats, so, tags, Added);
    TallyEffect(NoStats, so, tags, Updated);
    TallyEffect(NoStats, so, tags, Ignored);
    TallyEffect(NoStats, so, tags, Unchanged);
    TallyEffect(NoStats, so, tags, Failed);
  }

  /**
   * On a filesystem where nothing fails, a folder sync completes, reports no
   * errors, and accounts for every catalogued source file exactly once as
   * added, updated, unchanged or ignored.
   */
  lemma ReliableSyncAccounts(names: Naming, src: Tree, dst: Tree, dryRun: bool, hash: Content -> string)
    ensures var r := SyncFolderWith(names, src, dst, dryRun, Reliable(hash)).1;
      && r.Ok?
      && r.value.errors == 0
      && r.value.added + r.value.updated + r.value.unchangedCount + r.value.ignored == |BuildCatalog(names, src)|
  {
    var env := Env(src, dst, dryRun, Reliable(hash), names);
    var so, dor := SourceOrder(env), DestOrder(env);
    assert Completes(env);
    SyncFolderStats(names, src, dst, dryRun, Reliable(hash));
    NoFailures(env, so, dor);
    PickPartition(so, Outcomes(env, so));
  }

  /** A dry run completes and leaves the replica exactly as it was, a missing root included. */
  lemma DryRunChangesNothing(names: Naming, src: Tree, dst: Tree, dryRun: bool, io: Io)
    requires dryRun
    ensures SyncFolderWith(names, src, dst, dryRun, io).1.Ok?
    ensures SyncFolderWith(names, src, dst, dryRun, io).0 == dst
  {
    var env := Env(src, dst, dryRun, io, names);
    var so, dor := SourceOrder(env), DestOrder(env);
    assert Completes(env);
    SyncFolderSucceeds(names, src, dst, dryRun, io);
    SyncFolderTree(names, src, dst, dryRun, io);
    DryRunWritesNothing(env, so, dor);
    NothingWritten(FilesOf(dst), Copies(env, so), Removes(env, dor));
    FinishDry(dst, dryRun);
  }

  /**
   * A dry run predicts a real run on a filesystem where nothing fails: the
   * same statistics, except that deletions are listed by file name instead of
   * by relative path.
   */
  lemma DryRunPredictsRealRun(names: Naming, src: Tree, dst: Tree, io: Io)
    ensures var dry := SyncFolderWith(names, src, dst, true, io).1;
      var live := SyncFolderWith(names, src, dst, false, Reliable(io.hash)).1;
      && dry.Ok? && live.Ok?
      && dry.value == live.value.(deletedFiles := NamesOf(Env(src, dst, false, Reliable(io.hash), names), live.value.deletedFiles))
  {
    var de := Env(src, dst, true, io, names);
    var re := Env(src, dst, false, Reliable(io.hash), names);
    var so, dor := SourceOrder(de), DestOrder(de);
    assert so == SourceOrder(re) && dor == DestOrder(re);
    SyncFolderStats(names, src, dst, true, io);
    SyncFolderStats(names, src, dst, false, Reliable(io.hash));
    assert Completes(de) && Completes(re);
    SourceOrderMembers(de);
    DryRunDecidesAlike(de, re, so, dor);
    NoFailures(de, so, dor);
    NoFailures(re, so, dor);
    var gone := SelectRemoval(re, dor, Deleted);
    assert ReportAll(re, gone) == gone;
    assert ReportAll(de, gone) == NamesOf(re, gone);
  }

  /**
   * After a real run on a filesystem where nothing fails, the replica holds
   * every non-ignored source file (copied, or kept because size and time or
   * the digest agree), keeps its hidden files untouched, and holds no other
   * visible file than mirrored or protected ones.
   */
  lemma ReliableSyncMirrors(names: Naming, src: Tree, dst: Tree, hash: Content -> string)
    ensures var env := Env(src, dst, false, Reliable(hash), names);
      var after := SyncFolderWith(names, src, dst, false, Reliable(hash)).0;
      && after.Present?
      && (forall p | InSource(env, p) && !names.ignored(names.basename(p)) ::
            p in after.files && Agrees(env, p, after.files[p]))
      && (forall p | p in FilesOf(dst) && IsHidden(names, p) ::
            p in after.files && after.files[p] == FilesOf(dst)[p])
      && (forall p | p in after.files && !IsHidden(names, p) ::
            Processed(env, p) || names.protected(names.basename(p)))
  {
    var env := Env(src, dst, false, Reliable(hash), names);
    var so, dor := SourceOrder(env), DestOrder(env);
    assert Completes(env);
    SyncFolderTree(names, src, dst, false, Reliable(hash));
    assert SyncFolderWith(names, src, dst, false, Reliable(hash)).0 == Present(Merged(env, so, dor));
    SourceOrderMembers(env);
    DestOrderMembers(env);
    MergedKeepsSource(env, so, dor);
    MergedKeepsHidden(env, so, dor);
    MergedHasNoStaleFiles(env, so, dor);
  }

  /**
   * Synchronising again right after a real run on a filesystem where nothing
   * fails adds, updates, deletes and fails on nothing.
   */
  lemma SecondSyncIsQuiet(names: Naming, src: Tree, dst: Tree, hash: Content -> string)
    ensures var first := SyncFolderWith(names, src, dst, false, Reliable(hash)).0;
      var second := SyncFolderWith(names, src, first, false, Reliable(hash)).1;
      && second.Ok?
      && second.value.added == 0 && second.value.updated == 0
      && second.value.deleted == 0 && second.value.errors == 0
  {
    var first := SyncFolderWith(names, src, dst, false, Reliable(hash)).0;
    ReliableSyncMirrors(names, src, dst, hash);
    var env := Env(src, first, false, Reliable(hash), names);
    var so, dor := SourceOrder(env), DestOrder(env);
    assert Completes(env);
    DestOrderMembers(env);
    QuietRerun(env, so, dor);
    NoFailures(env, so, dor);
    SyncFolderStats(names, src, first, false, Reliable(hash));
  }

  /** A completed folder sync leaves a visible or a missing root as the merged replica files. */
  lemma CompletedTree(env: Env)
    requires Completes(env) && (env.dst.Present? || !env.dryRun)
    ensures SyncFolderWith(env.names, env.src, env.dst, env.dryRun, env.io).0
         == Present(Merged(env, SourceOrder(env), DestOrder(env)))
  {
    SyncFolderTree(env.names, env.src, env.dst, env.dryRun, env.io);
  }

  /**
   * Whatever fails, a completed folder sync only ever adds to the replica
   * files at the paths of catalogued, non-ignored source files: the source's
   * copy, or, where the copy failed, what the failed copy left behind.
   */
  lemma SyncAddsOnlySourceFiles(names: Naming, src: Tree, dst: Tree, dryRun: bool, io: Io)
    requires Completes(Env(src, dst, dryRun, io, names))
    ensures var env := Env(src, dst, dryRun, io, names);
      var after := FilesOf(SyncFolderWith(names, src, dst, dryRun, io).0);
      forall p | p in after && p !in FilesOf(dst) ::
        && InSource(env, p) && !names.ignored(names.basename(p))
        && (OutcomeOf(env, p) != Failed ==> after[p] == FilesOf(src)[p])
        && (OutcomeOf(env, p) == Failed ==> p in io.copyFails && io.copyFails[p] == Some(after[p]))
  {
    var env := Env(src, dst, dryRun, io, names);
    if dst.Absent? && dryRun {
      SyncFolderTree(names, src, dst, dryRun, io);
    } else {
      CompletedTree(env);
      MergedAddsOnlySourceFiles(env, SourceOrder(env), DestOrder(env));
    }
  }

  /**
   * A protected replica file that the source loop does not process (it has
   * no source copy, or its source copy is ignored) survives every completed
   * sync unchanged and is never selected for deletion or a failed removal.
   */
  lemma SyncKeepsProtected(names: Naming, src: Tree, dst: Tree, dryRun: bool, io: Io, p: Path)
    requires Completes(Env(src, dst, dryRun, io, names))
    requires p in FilesOf(dst) && names.protected(names.basename(p)) && !Processed(Env(src, dst, dryRun, io, names), p)
    ensures var after := FilesOf(SyncFolderWith(names, src, dst, dryRun, io).0);
      p in after && after[p] == FilesOf(dst)[p]
    ensures var env := Env(src, dst, dryRun, io, names);
      p !in SelectRemoval(env, DestOrder(env), Deleted) && p !in SelectRemoval(env, DestOrder(env), RemoveFailed)
  {
    var env := Env(src, dst, dryRun, io, names);
    var dor := DestOrder(env);
    CompletedTree(env);
    MergedKeepsProtected(env, SourceOrder(env), dor, p);
    SelectRemovalMembers(env, dor, Deleted);
    SelectRemovalMembers(env, dor, RemoveFailed);
  }

  /** The Calibre conventions ignore the preferences backup on the source side and protect it on the replica side. */
  lemma CalibrePrefsBackupRules()
    ensures Calibre().ignored(Calibre().basename(PrefsBackup))
    ensures Calibre().protected(Calibre().basename(PrefsBackup))
  {
    PrefsBackupIsAName();
    PrefsBackupIgnoredAndProtected();
  }

  /**
   * The Calibre preferences backup in a replica survives every completed
   * sync: its source copy is ignored and its replica copy protected.
   */
  lemma CalibreKeepsPrefsBackup(src: Tree, dst: Tree, dryRun: bool, io: Io)
    requires Completes(Env(src, dst, dryRun, io, Calibre()))
    requires PrefsBackup in FilesOf(dst)
    ensures var after := FilesOf(SyncFolder(src, dst, dryRun, io).0);
      PrefsBackup in after && after[PrefsBackup] == FilesOf(dst)[PrefsBackup]
  {
    CalibrePrefsBackupRules();
    SyncKeepsProtected(Calibre(), src, dst, dryRun, io, PrefsBackup);
  }

  /** A library database present in a replica but not in the library survives every completed sync unchanged. */
  lemma CalibreKeepsLibraryDb(src: Tree, dst: Tree, dryRun: bool, io: Io)
    requires Completes(Env(src, dst, dryRun, io, Calibre()))
    requires MetadataDb in FilesOf(dst) && MetadataDb !in FilesOf(src)
    ensures var after := FilesOf(SyncFolder(src, dst, dryRun, io).0);
      MetadataDb in after && after[MetadataDb] == FilesOf(dst)[MetadataDb]
  {
    LibraryDbIsAName();
    SyncKeepsProtected(Calibre(), src, dst, dryRun, io, MetadataDb);
  }

  /**
   * A library database missing from the library appears in neither the
   * deleted nor the error list of a completed sync, by path or by name.
   */
  lemma CalibreNeverListsLibraryDb(src: Tree, dst: Tree, dryRun: bool, io: Io)
    requires Completes(Env(src, dst, dryRun, io, Calibre()))
    requires MetadataDb !in FilesOf(src)
    ensures SyncFolder(src, dst, dryRun, io).1.Ok?
    ensures var st := SyncFolder(src, dst, dryRun, io).1.value;
      MetadataDb !in st.deletedFiles && MetadataDb !in st.errorFiles
  {
    var env := Env(src, dst, dryRun, io, Calibre());
    var so, dor := SourceOrder(env), DestOrder(env);
    LibraryDbIsAName();
    SyncFolderStats(Calibre(), src, dst, dryRun, io);
    SourceOrderMembers(env);
    SelectMembers(env, so, Failed);
    assert MetadataDb !in Select(env, so, Failed);
    ProtectedNameNeverReported(env, dor, MetadataDb);
  }

  /** With distinct replica roots, the entry of replica `q` after the loop is its own folder sync's outcome. */
  lemma {:induction false} SyncEachResultOf(folder: (Tree, Io) -> (Tree, Result<Stats>), world: map<string, Tree>,
                                            replicas: seq<string>, io: string -> Io, results: map<string, ReplicaResult>, q: string)
    requires Distinct(replicas) && q in replicas
    ensures SyncEach(folder, world, replicas, io, results).1[q] == AsReplicaResult(folder(TreeAt(world, q), io(q)).1)
    decreases |replicas|
  {
    var root := replicas[0];
    var (tree, outcome) := folder(TreeAt(world, root), io(root));
    var tail := replicas[1..];
    var world', results' := world[root := tree], results[root := AsReplicaResult(outcome)];
    assert SyncEach(folder, world, replicas, io, results) == SyncEach(folder, world', tail, io, results');
    if q == root {
      assert root !in tail;
    } else {
      assert Distinct(tail) && q in tail;
      SyncEachResultOf(folder, world', tail, io, results', q);
      assert TreeAt(world', q) == TreeAt(world, q);
    }
  }

  /** With distinct replica roots, the tree of replica `q` after the loop is the one its own folder sync leaves. */
  lemma {:induction false} SyncEachTreeOf(folder: (Tree, Io) -> (Tree, Result<Stats>), world: map<string, Tree>,
                                          replicas: seq<string>, io: string -> Io, results: map<string, ReplicaResult>, q: string)
    requires Distinct(replicas) && q in replicas
    ensures TreeAt(SyncEach(folder, world, replicas, io, results).0, q) == folder(TreeAt(world, q), io(q)).0
    decreases |replicas|
  {
    var root := replicas[0];
    var (tree, outcome) := folder(TreeAt(world, root), io(root));
    var tail := replicas[1..];
    var world', results' := world[root := tree], results[root := AsReplicaResult(outcome)];
    assert SyncEach(folder, world, replicas, io, results) == SyncEach(folder, world', tail, io, results');
    if q == root {
      assert root !in tail;
    } else {
      assert Distinct(tail) && q in tail;
      SyncEachTreeOf(folder, world', tail, io, results', q);
      assert TreeAt(world', q) == TreeAt(world, q);
    }
  }

  /**
   * With distinct replica roots, each replica's entry in the `sync_all`
   * result is its own folder sync's outcome: one replica's failure is
   * recorded against it and touches no other.
   */
  lemma SyncAllResults(src: Tree, world: map<string, Tree>, replicas: seq<string>, dryRun: bool,
                       io: string -> Io, results: map<string, ReplicaResult>)
    requires Distinct(replicas)
    ensures forall q | q in replicas ::
      SyncAll(src, world, replicas, dryRun, io, results).1[q]
        == AsReplicaResult(SyncFolder(src, TreeAt(world, q), dryRun, io(q)).1)
  {
    forall q | q in replicas
      ensures SyncAll(src, world, replicas, dryRun, io, results).1[q]
           == AsReplicaResult(SyncFolder(src, TreeAt(world, q), dryRun, io(q)).1)
    {
      SyncEachResultOf(FolderOf(src, dryRun), world, replicas, io, results, q);
    }
  }

  /** With distinct replica roots, each replica's tree after `sync_all` is the tree its own folder sync leaves. */
  lemma SyncAllTrees(src: Tree, world: map<string, Tree>, replicas: seq<string>, dryRun: bool,
                     io: string -> Io, results: map<string, ReplicaResult>)
    requires Distinct(replicas)
    ensures forall q | q in replicas ::
      TreeAt(SyncAll(src, world, replicas, dryRun, io, results).0, q)
        == SyncFolder(src, TreeAt(world, q), dryRun, io(q)).0
  {
    forall q | q in replicas
      ensures TreeAt(SyncAll(src, world, replicas, dryRun, io, results).0, q)
           == SyncFolder(src, TreeAt(world, q), dryRun, io(q)).0
    {
      SyncEachTreeOf(FolderOf(src, dryRun), world, replicas, io, results, q);
    }
  }
}
