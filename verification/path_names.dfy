/**
 * The POSIX `os.path` string functions the reconciliation engine relies on
 * (app/services/sync_service.py): `basename`, `splitext(...)[1]`, `join`,
 * ASCII `lower`, and the ignore and protection rules built from them.
 */
module PathNames {

  /** `os.path.basename`: the text after the last `/`. */
  function Basename(p: string): (name: string)
    ensures '/' !in name
    ensures |name| <= |p| && name == p[|p| - |name|..]
    ensures |name| < |p| ==> p[|p| - |name| - 1] == '/'
  {
    if |p| == 0 || p[|p| - 1] == '/' then []
    else
      var name := Basename(p[..|p| - 1]);
      assert p[..|p| - 1][|p| - 1 - |name|..] + [p[|p| - 1]] == p[|p| - 1 - |name|..];
      name + [p[|p| - 1]]
  }

  lemma {:induction false} BasenameOfName(name: string)
    requires '/' !in name
    ensures Basename(name) == name
  {
    if |name| > 0 {
      assert '/' !in name[..|name| - 1] by {
        assert forall k :: 0 <= k < |name| - 1 ==> name[..|name| - 1][k] == name[k];
      }
      BasenameOfName(name[..|name| - 1]);
      assert name[..|name| - 1] + [name[|name| - 1]] == name;
    }
  }

  lemma BasenameIdempotent(p: string)
    ensures Basename(Basename(p)) == Basename(p)
  {
    BasenameOfName(Basename(p));
  }

  /** A file is hidden when its name starts with a dot; hidden files never enter a catalog. */
  predicate Hidden(p: string) {
    var name := Basename(p);
    |name| > 0 && name[0] == '.'
  }

  /** Index of the last `.` of `s`, or -1. */
  function LastDot(s: string): (d: int)
    ensures -1 <= d < |s|
    ensures d >= 0 ==> s[d] == '.'
    ensures forall k :: d < k < |s| ==> s[k] != '.'
  {
    if |s| == 0 then -1
    else if s[|s| - 1] == '.' then |s| - 1
    else LastDot(s[..|s| - 1])
  }

  predicate AllDots(s: string) {
    forall k :: 0 <= k < |s| ==> s[k] == '.'
  }

  /**
   * `os.path.splitext(name)[1]` for a name without `/`: from the last dot to
   * the end, unless only dots precede that dot (then there is no extension).
   */
  function Extension(name: string): (ext: string)
    ensures |ext| <= |name|
    ensures ext == [] || (ext[0] == '.' && name == name[..|name| - |ext|] + ext)
    ensures ext != [] ==> '.' !in ext[1..] && !AllDots(name[..|name| - |ext|])
    ensures LastDot(name) > 0 && !AllDots(name[..LastDot(name)]) ==> ext != []
  {
    var d := LastDot(name);
    if d > 0 && !AllDots(name[..d]) then
      var ext := name[d..];
      assert forall k :: 1 <= k < |ext| ==> ext[k] == name[d + k];
      assert name == name[..d] + ext;
      ext
    else []
  }

  function LowerChar(c: char): char {
    if 'A' <= c <= 'Z' then (c as int + 32) as char else c
  }

  /**
   * `str.lower` on ASCII letters. Other characters are kept; no other
   * character lowers to one of the letters of `.db` or `.json`, so the
   * ignore rule decides exactly as Python does.
   */
  function Lower(s: string): (r: string)
    ensures |r| == |s|
    ensures forall k :: 0 <= k < |s| ==> r[k] == LowerChar(s[k])
  {
    if |s| == 0 then [] else [LowerChar(s[0])] + Lower(s[1..])
  }

  const MetadataDb: string := "metadata.db"
  const PrefsBackup: string := "metadata_db_prefs_backup.json"

  /** Database and JSON files are not mirrored, except the library database itself. */
  predicate IgnoredName(name: string) {
    Lower(Extension(name)) in [".db", ".json"] && name != MetadataDb
  }

  /** Calibre system files that are never removed from a replica. */
  predicate ProtectedName(name: string) {
    name == MetadataDb || name == PrefsBackup
  }

  /** The extension of `stem.e` is `.e` when `e` has no dot and `stem` is not all dots. */
  lemma ExtensionOfStem(stem: string, e: string)
    requires '.' !in e && !AllDots(stem)
    ensures Extension(stem + "." + e) == "." + e
  {
    var name := stem + "." + e;
    var d := LastDot(name);
    assert name[|stem|] == '.';
    assert forall k :: |stem| < k < |name| ==> name[k] == e[k - |stem| - 1];
    assert d == |stem|;
    assert name[..d] == stem;
    assert name[d..] == "." + e;
  }

  /**
   * A name with an extension is ignored exactly when that extension is `.db`
   * or `.json` in any case, unless it is the library database itself.
   */
  lemma IgnoredByExtension(stem: string, e: string)
    requires '.' !in e && !AllDots(stem)
    ensures IgnoredName(stem + "." + e) <==> Lower("." + e) in [".db", ".json"] && stem + "." + e != MetadataDb
  {
    ExtensionOfStem(stem, e);
  }

  /** Names without an extension are always mirrored, and so is the library database. */
  lemma MirrorsOrdinaryFiles(name: string)
    ensures '.' !in name ==> !IgnoredName(name)
    ensures !IgnoredName(MetadataDb)
  {
    if '.' !in name {
      assert LastDot(name) == -1;
    }
  }

  /** The preferences backup is ignored on the source side yet protected on the replica side. */
  lemma PrefsBackupIgnoredAndProtected()
    ensures IgnoredName(PrefsBackup) && ProtectedName(PrefsBackup)
  {
    var stem, e := PrefsBackup[..24], PrefsBackup[25..];
    assert PrefsBackup[24] == '.' && stem[0] == 'm';
    assert e == "json";
    assert PrefsBackup == stem + "." + e;
    ExtensionOfStem(stem, e);
    assert Lower(".json") == ".json";
  }

  /** The backup file name contains no separator, so it is its own base name and matches at any depth of the tree. */
  lemma PrefsBackupIsAName()
    ensures Basename(PrefsBackup) == PrefsBackup
  {
    assert '/' !in PrefsBackup;
    BasenameOfName(PrefsBackup);
  }

  /** The library database name contains no separator either, and is protected. */
  lemma LibraryDbIsAName()
    ensures Basename(MetadataDb) == MetadataDb && ProtectedName(MetadataDb)
  {
    assert '/' !in MetadataDb;
    BasenameOfName(MetadataDb);
  }

  predicate Absolute(p: string) {
    |p| > 0 && p[0] == '/'
  }

  /**
   * `get_destination_path`, that is `os.path.join(root, rel)` for two
   * components: an absolute `rel` replaces the root; otherwise `rel` follows
   * the root, after a `/` unless the root is empty or already ends with one.
   */
  function DestinationPath(root: string, rel: string): (path: string)
    ensures Absolute(rel) ==> path == rel
    ensures !Absolute(rel) ==> |root| + |rel| <= |path| <= |root| + |rel| + 1
    ensures !Absolute(rel) ==> path[..|root|] == root && path[|path| - |rel|..] == rel
  {
    if Absolute(rel) then rel
    else if root == [] || root[|root| - 1] == '/' then root + rel
    else root + "/" + rel
  }

  /** `os.path.relpath(path, root)` for a path strictly below `root` (no normalisation). */
  function RelativeTo(root: string, path: string): (rel: string)
    requires |path| > |root| && path[..|root|] == root && path[|root|] == '/'
    ensures |rel| == |path| - |root| - 1
  {
    path[|root| + 1..]
  }

  /** The catalog key of a copied file is the relative path it was copied to. */
  lemma DestinationPathRoundTrip(root: string, rel: string)
    requires root != [] && root[|root| - 1] != '/' && rel != [] && !Absolute(rel)
    ensures var path := DestinationPath(root, rel);
      |path| > |root| && path[..|root|] == root && path[|root|] == '/' && RelativeTo(root, path) == rel
  {
    var path := DestinationPath(root, rel);
    assert path == root + "/" + rel;
    assert path[|root| + 1..] == rel;
  }
}
