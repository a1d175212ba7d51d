/**
 * What one `sync_folder` call does, stated over the catalogs instead of the
 * loops, and the properties of the reconciliation that follow from it.
 */
module SyncProperties {
  import opened Wrappers
  import opened PathNames
  import opened SyncService

  lemma TailInSource(env: Env, order: seq<Path>)
    requires |order| > 0 && AllInSource(env, order)
    ensures InSource(env, order[0]) && AllInSource(env, order[1..])
  {
    assert order[0] in order;
    forall q | q in order[1..] ensures InSource(env, q) { assert q in order; }
  }

  /** The source loop completes exactly when no visited path makes `os.makedirs` raise. */
  lemma {:induction false} SourcePassRuns(env: Env, order: seq<Path>, files: Files, s: Stats)
    requires AllInSource(env, order)
    ensures SourcePass(env, order, files, s).Running? <==> forall p :: p in order ==> !Aborts(env, p)
    decreases |order|
  {
    if |order| > 0 {
      TailInSource(env, order);
      assert forall q :: q in order <==> q == order[0] || q in order[1..];
      match SourceStep(env, order[0], files, s)
      case Aborted(_, _) =>
      case Running(f, s') => SourcePassRuns(env, order[1..], f, s');
    }
  }

  /** The statistics after one more source path with outcome `o`. */
  function Record(s: Stats, p: Path, o: Outcome): Stats {
    match o
    case Ignored => s.(ignored := s.ignored + 1, ignoredFiles := s.ignoredFiles + [p])
    case Added => s.(added := s.added + 1, addedFiles := s.addedFiles + [p])
    case Updated => s.(updated := s.updated + 1, updatedFiles := s.updatedFiles + [p])
    case Unchanged => s.(unchangedCount := s.unchangedCount + 1)
    case Failed => s.(errors := s.errors + 1, errorFiles := s.errorFiles + [p])
  }

  /** Recording the outcomes `tags` of the paths `ps` one after the other. */
  function Tally(s: Stats, ps: seq<Path>, tags: seq<Outcome>): Stats
    requires |ps| == |tags|
    decreases |ps|
  {
    if |ps| == 0 then s else Tally(Record(s, ps[0], tags[0]), ps[1..], tags[1..])
  }

  /** The counter of `s` that outcome `o` increments. */
  function CountOf(s: Stats, o: Outcome): nat {
    match o
    case Ignored => s.ignored
    case Added => s.added
    case Updated => s.updated
    case Unchanged => s.unchangedCount
    case Failed => s.errors
  }

  /** The file list of `s` that outcome `o` extends; unchanged files are only counted. */
  function ListOf(s: Stats, o: Outcome): seq<string> {
    match o
    case Ignored => s.ignoredFiles
    case Added => s.addedFiles
    case Updated => s.updatedFiles
    case Unchanged => []
    case Failed => s.errorFiles
  }

  /** Recording one outcome bumps its own counter and list only. */
  lemma RecordEffect(s: Stats, p: Path, recorded: Outcome, o: Outcome)
    ensures CountOf(Record(s, p, recorded), o) == CountOf(s, o) + (if recorded == o then 1 else 0)
    ensures ListOf(Record(s, p, recorded), o) == ListOf(s, o) + (if recorded == o && o != Unchanged then [p] else [])
    ensures Record(s, p, recorded).deleted == s.deleted && Record(s, p, recorded).deletedFiles == s.deletedFiles
  {
  }

  /**
   * Recording outcomes one at a time amounts to appending, per outcome, the
   * paths that have it and counting them; the deletion fields stay as they were.
   */
  lemma {:induction false} TallyEffect(s: Stats, ps: seq<Path>, tags: seq<Outcome>, o: Outcome)
    requires |ps| == |tags|
    ensures CountOf(Tally(s, ps, tags), o) == CountOf(s, o) + |Pick(ps, tags, o)|
    ensures ListOf(Tally(s, ps, tags), o) == ListOf(s, o) + (if o == Unchanged then [] else Pick(ps, tags, o))
    ensures Tally(s, ps, tags).deleted == s.deleted && Tally(s, ps, tags).deletedFiles == s.deletedFiles
    decreases |ps|
  {
    if |ps| > 0 {
      var p, o' := ps[0], tags[0];
      RecordEffect(s, p, o', o);
      TallyEffect(Record(s, p, o'), ps[1..], tags[1..], o);
      var picked := Pick(ps[1..], tags[1..], o);
      if o != Unchanged && o' == o {
        assert ListOf(s, o) + Pick(ps, tags, o) == ListOf(s, o) + [p] + picked;
      }
    }
  }

  /** One iteration of the source loop records the path's outcome and leaves at its replica path what a real run writes there. */
  lemma SourceStepRecords(env: Env, p: Path, files: Files, s: Stats)
    requires InSource(env, p) && !Aborts(env, p)
    ensures SourceStep(env, p, files, s) == Running(Put(files, p, Written(env, p)), Record(s, p, OutcomeOf(env, p)))
  {
  }

  /** A completed source loop records every visited path's outcome, in visiting order. */
  lemma {:induction false} SourcePassTally(env: Env, order: seq<Path>, files: Files, s: Stats)
    requires AllInSource(env, order)
    requires forall p :: p in order ==> !Aborts(env, p)
    ensures SourcePass(env, order, files, s).Running?
    ensures SourcePass(env, order, files, s).stats == Tally(s, order, Outcomes(env, order))
    decreases |order|
  {
    if |order| > 0 {
      TailInSource(env, order);
      var p := order[0];
      assert p in order;
      SourceStepRecords(env, p, files, s);
      var files' := Put(files, p, Written(env, p));
      SourcePassTally(env, order[1..], files', Record(s, p, OutcomeOf(env, p)));
    }
  }

  /** Writing `v` at `p` before or after a batch of writes that agrees with it at `p`. */
  lemma UpdateThenUnion<K, V>(files: map<K, V>, rest: map<K, V>, p: K, v: V)
    requires p in rest ==> rest[p] == v
    ensures files[p := v] + rest == files + rest[p := v]
  {
  }

  /** A completed source loop leaves over the replica exactly what each visited path's copy, or failed copy, wrote. */
  lemma {:induction false} SourcePassFiles(env: Env, order: seq<Path>, files: Files, s: Stats)
    requires AllInSource(env, order)
    requires forall p :: p in order ==> !Aborts(env, p)
    ensures SourcePass(env, order, files, s).files == files + Copies(env, order)
    decreases |order|
  {
    if |order| > 0 {
      TailInSource(env, order);
      var p := order[0];
      assert p in order;
      SourceStepRecords(env, p, files, s);
      var files' := Put(files, p, Written(env, p));
      SourcePassFiles(env, order[1..], files', Record(s, p, OutcomeOf(env, p)));
      if Written(env, p).Some? {
        UpdateThenUnion(files, Copies(env, order[1..]), p, Written(env, p).value);
      }
    }
  }

  /** The replica paths a run writes are exactly the visited ones it copies or whose failed copy left a file. */
  lemma {:induction false} CopiesMembers(env: Env, order: seq<Path>)
    requires AllInSource(env, order)
    ensures forall q :: q in Copies(env, order) <==> q in order && Written(env, q).Some?
    decreases |order|
  {
    if |order| > 0 {
      TailInSource(env, order);
      CopiesMembers(env, order[1..]);
      assert forall q :: q in order <==> q == order[0] || q in order[1..];
    }
  }

  /** The statistics after one more replica path with removal outcome `k`. */
  function RecordRemoval(s: Stats, k: Removal, reported: string, name: string): Stats {
    match k
    case Retained => s
    case Deleted => s.(deleted := s.deleted + 1, deletedFiles := s.deletedFiles + [reported])
    case RemoveFailed => s.(errors := s.errors + 1, errorFiles := s.errorFiles + [name])
  }

  /** Recording the removal outcomes `tags` one after the other. */
  function RemovalTally(s: Stats, reports: seq<string>, names: seq<string>, tags: seq<Removal>): Stats
    requires |reports| == |names| == |tags|
    decreases |tags|
  {
    if |tags| == 0 then s
    else RemovalTally(RecordRemoval(s, tags[0], reports[0], names[0]), reports[1..], names[1..], tags[1..])
  }

  /**
   * Recording removals one at a time appends the reported deletions and the
   * names that could not be removed, and counts them; the source-side fields
   * other than the error count stay as they were.
   */
  lemma {:induction false} RemovalTallyEffect(s: Stats, reports: seq<string>, names: seq<string>, tags: seq<Removal>)
    requires |reports| == |names| == |tags|
    ensures var r := RemovalTally(s, reports, names, tags);
      && r.deletedFiles == s.deletedFiles + Pick(reports, tags, Deleted)
      && r.deleted == s.deleted + |Pick(reports, tags, Deleted)|
      && r.errorFiles == s.errorFiles + Pick(names, tags, RemoveFailed)
      && r.errors == s.errors + |Pick(names, tags, RemoveFailed)|
      && r.(deleted := s.deleted, deletedFiles := s.deletedFiles, errors := s.errors, errorFiles := s.errorFiles) == s
    decreases |tags|
  {
    if |tags| > 0 {
      var k := tags[0];
      RemovalTallyEffect(RecordRemoval(s, k, reports[0], names[0]), reports[1..], names[1..], tags[1..]);
      if k == Deleted {
        assert s.deletedFiles + Pick(reports, tags, Deleted)
            == s.deletedFiles + [reports[0]] + Pick(reports[1..], tags[1..], Deleted);
      } else if k == RemoveFailed {
        assert s.errorFiles + Pick(names, tags, RemoveFailed)
            == s.errorFiles + [names[0]] + Pick(names[1..], tags[1..], RemoveFailed);
      }
    }
  }

  /** One iteration of the replica loop records the path's removal outcome and removes it when a real run deletes it. */
  lemma DestStepRecords(env: Env, p: Path, files: Files, s: Stats)
    ensures DestStep(env, p, files, s)
         == (if !env.dryRun && RemovalOf(env, p) == Deleted then files - {p} else files,
             RecordRemoval(s, RemovalOf(env, p), Reported(env, p), env.names.basename(p)))
  {
  }

  /** The replica loop records every visited path's removal outcome, in visiting order. */
  lemma {:induction false} DestPassTally(env: Env, order: seq<Path>, files: Files, s: Stats)
    ensures DestPass(env, order, files, s).1
         == RemovalTally(s, ReportAll(env, order), NamesOf(env, order), Removals(env, order))
    decreases |order|
  {
    if |order| > 0 {
      var p := order[0];
      DestStepRecords(env, p, files, s);
      var step := DestStep(env, p, files, s);
      DestPassTally(env, order[1..], step.0, step.1);
      assert ReportAll(env, order)[1..] == ReportAll(env, order[1..]);
      assert NamesOf(env, order)[1..] == NamesOf(env, order[1..]);
    }
  }

  /** The replica loop removes exactly the visited paths a real run deletes. */
  lemma {:induction false} DestPassFiles(env: Env, order: seq<Path>, files: Files, s: Stats)
    ensures DestPass(env, order, files, s).0 == files - Removes(env, order)
    decreases |order|
  {
    if |order| > 0 {
      var p := order[0];
      DestStepRecords(env, p, files, s);
      var step := DestStep(env, p, files, s);
      DestPassFiles(env, order[1..], step.0, step.1);
      assert forall q :: q in order <==> q == p || q in order[1..];
      assert Removes(env, order) == Removes(env, order[1..]) + (if !env.dryRun && RemovalOf(env, p) == Deleted then {p} else {});
    }
  }

  /** Picking by tag commutes with reporting each replica path. */
  lemma {:induction false} PickReported(env: Env, order: seq<Path>, k: Removal)
    ensures Pick(ReportAll(env, order), Removals(env, order), k) == ReportAll(env, SelectRemoval(env, order, k))
    decreases |order|
  {
    if |order| > 0 {
      PickReported(env, order[1..], k);
      assert ReportAll(env, order)[1..] == ReportAll(env, order[1..]);
      if RemovalOf(env, order[0]) == k {
        assert ReportAll(env, [order[0]] + SelectRemoval(env, order[1..], k))
            == [Reported(env, order[0])] + ReportAll(env, SelectRemoval(env, order[1..], k));
      }
    }
  }

  /** Picking by tag commutes with taking each replica path's file name. */
  lemma {:induction false} PickNamed(env: Env, order: seq<Path>, k: Removal)
    ensures Pick(NamesOf(env, order), Removals(env, order), k) == NamesOf(env, SelectRemoval(env, order, k))
    decreases |order|
  {
    if |order| > 0 {
      PickNamed(env, order[1..], k);
      assert NamesOf(env, order)[1..] == NamesOf(env, order[1..]);
      if RemovalOf(env, order[0]) == k {
        assert NamesOf(env, [order[0]] + SelectRemoval(env, order[1..], k))
            == [env.names.basename(order[0])] + NamesOf(env, SelectRemoval(env, order[1..], k));
      }
    }
  }

  /** A visited source path is listed under its own outcome and no other. */
  lemma {:induction false} SelectMembers(env: Env, order: seq<Path>, o: Outcome)
    requires AllInSource(env, order)
    ensures forall p :: p in Select(env, order, o) <==> p in order && OutcomeOf(env, p) == o
    decreases |order|
  {
    if |order| > 0 {
      TailInSource(env, order);
      SelectMembers(env, order[1..], o);
      assert forall q :: q in order <==> q == order[0] || q in order[1..];
    }
  }

  /** A visited replica path is listed under its own removal outcome and no other. */
  lemma {:induction false} SelectRemovalMembers(env: Env, order: seq<Path>, k: Removal)
    ensures forall p :: p in SelectRemoval(env, order, k) <==> p in order && RemovalOf(env, p) == k
    decreases |order|
  {
    if |order| > 0 {
      SelectRemovalMembers(env, order[1..], k);
      assert forall q :: q in order <==> q == order[0] || q in order[1..];
    }
  }

  /**
   * A protected name that is its own base name is reported neither among
   * the deletions (by path or by name) nor among the failed removals.
   */
  lemma ProtectedNameNeverReported(env: Env, order: seq<Path>, name: string)
    requires env.names.basename(name) == name && env.names.protected(name)
    ensures name !in ReportAll(env, SelectRemoval(env, order, Deleted))
    ensures name !in NamesOf(env, SelectRemoval(env, order, RemoveFailed))
  {
    var gone, stuck := SelectRemoval(env, order, Deleted), SelectRemoval(env, order, RemoveFailed);
    SelectRemovalMembers(env, order, Deleted);
    SelectRemovalMembers(env, order, RemoveFailed);
    forall k | 0 <= k < |gone|
      ensures ReportAll(env, gone)[k] != name
    {
      assert gone[k] in gone;
    }
    forall k | 0 <= k < |stuck|
      ensures NamesOf(env, stuck)[k] != name
    {
      assert stuck[k] in stuck;
    }
  }

  /** Every entry carries exactly one of the five outcomes. */
  lemma {:induction false} PickPartition(ps: seq<Path>, tags: seq<Outcome>)
    requires |ps| == |tags|
    ensures |Pick(ps, tags, Ignored)| + |Pick(ps, tags, Added)| + |Pick(ps, tags, Updated)|
          + |Pick(ps, tags, Unchanged)| + |Pick(ps, tags, Failed)| == |ps|
    decreases |ps|
  {
    if |ps| > 0 {
      PickPartition(ps[1..], tags[1..]);
      forall t: Outcome
        ensures |Pick(ps, tags, t)| == (if tags[0] == t then 1 else 0) + |Pick(ps[1..], tags[1..], t)|
      {
      }
    }
  }

  /** No visited path has outcome `o`: nothing is listed under it. */
  lemma {:induction false} SelectNone(env: Env, order: seq<Path>, o: Outcome)
    requires AllInSource(env, order)
    requires forall p :: p in order ==> OutcomeOf(env, p) != o
    ensures Select(env, order, o) == []
    decreases |order|
  {
    if |order| > 0 {
      TailInSource(env, order);
      assert order[0] in order;
      assert forall q :: q in order[1..] ==> q in order;
      SelectNone(env, order[1..], o);
      assert Outcomes(env, order)[1..] == Outcomes(env, order[1..]);
    }
  }

  /** No visited replica path has removal outcome `k`: nothing is listed under it. */
  lemma {:induction false} SelectRemovalNone(env: Env, order: seq<Path>, k: Removal)
    requires forall p :: p in order ==> RemovalOf(env, p) != k
    ensures SelectRemoval(env, order, k) == []
    decreases |order|
  {
    if |order| > 0 {
      assert order[0] in order;
      assert forall q :: q in order[1..] ==> q in order;
      SelectRemovalNone(env, order[1..], k);
      assert Removals(env, order)[1..] == Removals(env, order[1..]);
    }
  }

  /** Two runs that decide every visited source path alike produce the same outcome sequence. */
  lemma {:induction false} OutcomesAgree(e1: Env, e2: Env, order: seq<Path>)
    requires AllInSource(e1, order) && AllInSource(e2, order)
    requires forall p :: p in order ==> OutcomeOf(e1, p) == OutcomeOf(e2, p)
    ensures Outcomes(e1, order) == Outcomes(e2, order)
    decreases |order|
  {
    if |order| > 0 {
      TailInSource(e1, order);
      TailInSource(e2, order);
      assert order[0] in order;
      assert forall q :: q in order[1..] ==> q in order;
      OutcomesAgree(e1, e2, order[1..]);
    }
  }

  /** Two runs that decide every visited replica path alike produce the same removal sequence. */
  lemma {:induction false} RemovalsAgree(e1: Env, e2: Env, order: seq<Path>)
    requires forall p :: p in order ==> RemovalOf(e1, p) == RemovalOf(e2, p)
    ensures Removals(e1, order) == Removals(e2, order)
    decreases |order|
  {
    if |order| > 0 {
      assert order[0] in order;
      assert forall q :: q in order[1..] ==> q in order;
      RemovalsAgree(e1, e2, order[1..]);
    }
  }

  /** A dry run, or a real run on a filesystem where nothing fails, has no failed copy or removal. */
  lemma NoFailures(env: Env, so: seq<Path>, dor: seq<Path>)
    requires AllInSource(env, so)
    requires env.dryRun || (env.io.copyFails == map[] && env.io.removeFails == {})
    ensures Select(env, so, Failed) == []
    ensures SelectRemoval(env, dor, RemoveFailed) == []
  {
    SelectNone(env, so, Failed);
    SelectRemovalNone(env, dor, RemoveFailed);
  }

  /** A dry run writes and removes nothing. */
  lemma DryRunWritesNothing(env: Env, so: seq<Path>, dor: seq<Path>)
    requires AllInSource(env, so) && env.dryRun
    ensures Copies(env, so) == map[]
    ensures Removes(env, dor) == {}
  {
    CopiesMembers(env, so);
  }

  /** Nothing written and nothing removed leaves the files as they were. */
  lemma NothingWritten<K, V>(files: map<K, V>, written: map<K, V>, removed: set<K>)
    requires written == map[] && removed == {}
    ensures (files + written) - removed == files
  {
  }

  /** A dry run never creates a missing replica root. */
  lemma FinishDry(dst: Tree, dryRun: bool)
    requires dryRun
    ensures Finish(dst, dryRun, FilesOf(dst)) == dst
  {
  }

  /**
   * A dry run and a real run on a filesystem where nothing fails, over the
   * same trees with the same digest, decide every path alike.
   */
  lemma DryRunDecidesAlike(de: Env, re: Env, so: seq<Path>, dor: seq<Path>)
    requires de.src == re.src && de.dst == re.dst && de.names == re.names && de.io.hash == re.io.hash
    requires de.dryRun && !re.dryRun && re.io.copyFails == map[] && re.io.removeFails == {}
    requires AllInSource(de, so)
    ensures AllInSource(re, so)
    ensures Outcomes(de, so) == Outcomes(re, so)
    ensures Removals(de, dor) == Removals(re, dor)
  {
    OutcomesAgree(de, re, so);
    RemovalsAgree(de, re, dor);
  }

  /** The replica holds a file that a run may keep instead of copying the source's over it. */
  predicate Agrees(env: Env, p: Path, kept: FileData)
    requires p in FilesOf(env.src)
  {
    var source := FilesOf(env.src)[p];
    kept == source || !(MetaChanged(MetaOf(source), MetaOf(kept)) && env.io.hash(source.content) != env.io.hash(kept.content))
  }

  /** The replica files after a real run that wrote the copies of `so` and removed the deletions of `dor`. */
  function Merged(env: Env, so: seq<Path>, dor: seq<Path>): Files
    requires AllInSource(env, so)
  {
    (FilesOf(env.dst) + Copies(env, so)) - Removes(env, dor)
  }

  /**
   * On a real run where no copy fails, every catalogued, non-ignored source
   * file ends up in the replica, as the source's copy or as a replica copy the
   * reconciler judged equal.
   */
  lemma MergedKeepsSource(env: Env, so: seq<Path>, dor: seq<Path>)
    requires !env.dryRun && env.io.copyFails == map[]
    requires forall p :: p in so <==> InSource(env, p)
    ensures forall p | InSource(env, p) && !env.names.ignored(env.names.basename(p)) ::
      p in Merged(env, so, dor) && Agrees(env, p, Merged(env, so, dor)[p])
  {
    CopiesMembers(env, so);
    forall p | InSource(env, p) && !env.names.ignored(env.names.basename(p))
      ensures p in Merged(env, so, dor) && Agrees(env, p, Merged(env, so, dor)[p])
    {
      assert RemovalOf(env, p) == Retained;
    }
  }

  /** Files the catalog skips as hidden are never written or removed. */
  lemma MergedKeepsHidden(env: Env, so: seq<Path>, dor: seq<Path>)
    requires AllInSource(env, so)
    requires forall p :: p in dor ==> InDestination(env, p)
    ensures forall p | p in FilesOf(env.dst) && IsHidden(env.names, p) ::
      p in Merged(env, so, dor) && Merged(env, so, dor)[p] == FilesOf(env.dst)[p]
  {
  }

  /**
   * On a real run where no removal fails, every visible file the replica holds
   * afterwards is a mirrored source file or a protected one.
   */
  lemma MergedHasNoStaleFiles(env: Env, so: seq<Path>, dor: seq<Path>)
    requires !env.dryRun && env.io.removeFails == {}
    requires AllInSource(env, so)
    requires forall p :: p in dor <==> InDestination(env, p)
    ensures forall p | p in Merged(env, so, dor) && !IsHidden(env.names, p) ::
      Processed(env, p) || env.names.protected(env.names.basename(p))
  {
    CopiesMembers(env, so);
  }

  /**
   * A real run over a replica that already mirrors the source, holding every
   * non-ignored source file in agreeing form and no stale visible file, adds,
   * updates and deletes nothing.
   */
  lemma QuietRerun(env: Env, so: seq<Path>, dor: seq<Path>)
    requires AllInSource(env, so)
    requires forall p :: p in dor ==> InDestination(env, p)
    requires forall p | InSource(env, p) && !env.names.ignored(env.names.basename(p)) ::
      p in FilesOf(env.dst) && Agrees(env, p, FilesOf(env.dst)[p])
    requires forall p | p in FilesOf(env.dst) && !IsHidden(env.names, p) ::
      Processed(env, p) || env.names.protected(env.names.basename(p))
    ensures Select(env, so, Added) == [] && Select(env, so, Updated) == []
    ensures SelectRemoval(env, dor, Deleted) == []
  {
    forall p | p in so ensures OutcomeOf(env, p) != Added && OutcomeOf(env, p) != Updated {
      assert InSource(env, p);
    }
    SelectNone(env, so, Added);
    SelectNone(env, so, Updated);
    SelectRemovalNone(env, dor, Deleted);
  }

  /**
   * A file appears in the replica only at the path of a catalogued,
   * non-ignored source file: as its copy, or as what its failed copy left.
   */
  lemma MergedAddsOnlySourceFiles(env: Env, so: seq<Path>, dor: seq<Path>)
    requires AllInSource(env, so)
    ensures forall p | p in Merged(env, so, dor) && p !in FilesOf(env.dst) ::
      && InSource(env, p) && !env.names.ignored(env.names.basename(p))
      && (OutcomeOf(env, p) != Failed ==> Merged(env, so, dor)[p] == FilesOf(env.src)[p])
      && (OutcomeOf(env, p) == Failed ==> p in env.io.copyFails && env.io.copyFails[p] == Some(Merged(env, so, dor)[p]))
  {
    CopiesMembers(env, so);
  }

  /**
   * A protected replica file that the source loop does not process (no
   * source copy, or an ignored one) is neither overwritten nor removed.
   */
  lemma MergedKeepsProtected(env: Env, so: seq<Path>, dor: seq<Path>, p: Path)
    requires AllInSource(env, so)
    requires p in FilesOf(env.dst)
    requires env.names.protected(env.names.basename(p)) && !Processed(env, p)
    ensures p in Merged(env, so, dor) && Merged(env, so, dor)[p] == FilesOf(env.dst)[p]
  {
    CopiesMembers(env, so);
    assert RemovalOf(env, p) == Retained;
  }
}
