/** Creating a backup of a data directory and restoring it elsewhere (`create_backup`, `restore_backup`). */
module BackupRoundTrip {

  import opened Collections
  import opened TextOrder
  import opened BackupManifest
  import H = RestoreHost
  import S = StagedRestore
  import A = RestoreArchive
  import F = Faults

  type Tree = H.Tree
  type Path = H.Path

  // ----- the manifest of a data directory

  /** A file that `_stage_source` copies. */
  predicate Included(p: Path) { p.parts != [] && p.parts[0] !in S.PRESERVED + S.DISCARDED }

  /** Where a file of the manifest belongs. */
  function PathOf(f: BackupFile): Path { H.Path(Parts(f.path)) }

  function IncludedOf(t: Tree): set<Path> { set p | p in t && Included(p) }

  /** The digest and the size of a content. */
  type Measure = H.Content -> (string, int)

  function FileOf(t: Tree, p: Path, measure: Measure): BackupFile
    requires p in t && p.parts != []
  {
    BackupFile(Posix(p.parts), measure(t[p]).0, measure(t[p]).1)
  }

  function InsertFile(files: seq<BackupFile>, f: BackupFile): seq<BackupFile> {
    if files == [] || Less(f.path, files[0].path) then [f] + files else [files[0]] + InsertFile(files[1..], f)
  }

  lemma {:induction false} InsertFileHolds(files: seq<BackupFile>, f: BackupFile)
    requires Ascending(files) && forall g | g in files :: g.path != f.path
    ensures Ascending(InsertFile(files, f)) && forall g :: g in InsertFile(files, f) <==> g == f || g in files
  {
    if files != [] && !Less(f.path, files[0].path) {
      assert files[0] in files;
      LessTotal(f.path, files[0].path);
      var rest := InsertFile(files[1..], f);
      InsertFileHolds(files[1..], f);
      assert files == [files[0]] + files[1..];
      assert forall i | 0 <= i < |rest| :: rest[i] in rest;
      assert forall g | g in files[1..] :: Less(files[0].path, g.path);
    } else if files != [] {
      forall i | 0 <= i < |files| ensures Less(f.path, files[i].path) {
        if i > 0 { LessTransitive(f.path, files[0].path, files[i].path); }
      }
    }
  }

  predicate AllPaths(t: Tree) { forall p | p in t :: IsPath(p.parts) }

  /** The manifest lists exactly the included files, in text order, each once. */
  ghost predicate Describes(files: seq<BackupFile>, t: Tree, paths: set<Path>, measure: Measure)
    requires AllPaths(t)
  {
    && Ascending(files) && paths <= t.Keys
    && (forall p | p in paths :: IsPath(p.parts) && FileOf(t, p, measure) in files)
    && (forall f | f in files :: IsPath(Parts(f.path)) && PathOf(f) in paths && f == FileOf(t, PathOf(f), measure))
  }

  lemma DescribeOneMore(files: seq<BackupFile>, t: Tree, paths: set<Path>, measure: Measure, p: Path)
    requires AllPaths(t) && Describes(files, t, paths, measure) && p in t && p !in paths
    ensures IsPath(p.parts) && Describes(InsertFile(files, FileOf(t, p, measure)), t, paths + {p}, measure)
  {
    hide Ascending, InsertFile, Less, Parts, Posix;
    PartsOfPosix(p.parts);
    var f := FileOf(t, p, measure);
    assert forall g | g in files :: g.path != f.path;
    InsertFileHolds(files, f);
  }

  /**
    `_stage_source` over any walk of the directory: it succeeds exactly when no included path has a colon or
    a backslash, and then describes exactly the included files.
   */
  method StageSource(t: Tree, measure: Measure) returns (files: Option<seq<BackupFile>>)
    requires AllPaths(t)
    ensures files.Some? <==> forall p | p in t && Included(p) :: IsPath(p.parts) && SafePath(Posix(p.parts))
    ensures files.Some? ==> Describes(files.value, t, IncludedOf(t), measure)
  {
    hide Ascending, InsertFile, SafePath, Describes;
    var todo: set<Path>, done: set<Path>, found: seq<BackupFile> := t.Keys, {}, [];
    DescribeNothing(t, measure);
    while todo != {}
      invariant todo <= t.Keys && done == set p | p in t && p !in todo && Included(p)
      invariant Describes(found, t, done, measure)
      invariant forall p | p in done :: IsPath(p.parts) && SafePath(Posix(p.parts))
      decreases |todo|
    {
      var p :| p in todo;
      assert IsPath(p.parts);
      todo := todo - {p};
      if Included(p) {
        if !SafePath(Posix(p.parts)) { return None; }
        DescribeOneMore(found, t, done, measure, p);
        found := InsertFile(found, FileOf(t, p, measure));
        done := done + {p};
      }
    }
    assert done == IncludedOf(t);
    return Some(found);
  }

  lemma DescribeNothing(t: Tree, measure: Measure)
    requires AllPaths(t)
    ensures Describes([], t, {}, measure)
  {
  }

  // ----- there and back

  /** The archive's entries, as they are extracted: by the parts of their manifest paths. */
  function EntriesOf(files: seq<BackupFile>, t: Tree): seq<H.Entry>
    requires forall f | f in files :: PathOf(f) in t
  {
    seq(|files|, i requires 0 <= i < |files| => assert files[i] in files; H.Entry(PathOf(files[i]),
      t[PathOf(files[i])]))
  }

  lemma {:induction false} StageLookup(entries: seq<H.Entry>, t: Tree)
    requires forall e | e in entries :: e.path in t && e.content == t[e.path]
    ensures forall p :: p in A.StageOf(entries) <==> exists e :: e in entries && e.path == p
    ensures forall p | p in A.StageOf(entries) :: p in t && A.StageOf(entries)[p] == t[p]
  {
    if entries != [] {
      var init, last := entries[..|entries| - 1], entries[|entries| - 1];
      assert entries == init + [last];
      StageLookup(init, t);
      assert last in entries;
    }
  }

  lemma EntriesHold(files: seq<BackupFile>, t: Tree, paths: set<Path>, measure: Measure)
    requires AllPaths(t) && Describes(files, t, paths, measure)
    ensures forall f | f in files :: PathOf(f) in t
    ensures var entries := EntriesOf(files, t);
            && (forall e | e in entries :: e.path in paths && e.content == t[e.path])
            && (forall p | p in paths :: exists e :: e in entries && e.path == p)
  {
    var entries := EntriesOf(files, t);
    forall e | e in entries ensures e.path in paths && e.content == t[e.path] {
      var i :| 0 <= i < |entries| && entries[i] == e;
      assert files[i] in files;
    }
    forall p | p in paths ensures exists e :: e in entries && e.path == p {
      PartsOfPosix(p.parts);
      assert FileOf(t, p, measure) in files;
      var i :| 0 <= i < |files| && files[i] == FileOf(t, p, measure);
      assert entries[i].path == p && entries[i] in entries;
    }
  }

  /** What a restore of the backup makes of any destination. */
  function Expected(t: Tree, destination: Tree): Tree {
    map p | p in t.Keys + destination.Keys && (if Included(p) then p in t else p in destination && S.IsPreserved(p)) ::
      if Included(p) then t[p] else destination[p]
  }

  lemma StageIsSource(entries: seq<H.Entry>, t: Tree)
    requires forall e | e in entries :: e.path in IncludedOf(t) && e.content == t[e.path]
    requires forall p | p in IncludedOf(t) :: exists e :: e in entries && e.path == p
    ensures A.Restorable(entries) == entries
    ensures A.StageOf(entries) == map p | p in t && Included(p) :: t[p]
  {
    hide A.StageOf, A.Restorable;
    StageLookup(entries, t);
    var stage := A.StageOf(entries);
    forall p ensures p in stage <==> p in t && Included(p) {
      if p in stage { var e :| e in entries && e.path == p; }
      if p in t && Included(p) { assert p in IncludedOf(t); }
    }
  }

  lemma InstalledIsExpected(t: Tree, destination: Tree, stage: Tree, paths: seq<Path>)
    requires stage == map p | p in t && Included(p) :: t[p]
    requires forall p :: p in paths <==> p in t && Included(p)
    ensures S.Installed(destination, stage, paths, A.Extras(destination, paths)) == Expected(t, destination)
  {
    var after, expected := S.Installed(destination, stage, paths, A.Extras(destination, paths)),
      Expected(t, destination);
    forall p ensures p in after <==> p in expected {
      if p in paths { assert p in S.PathSet(paths); }
    }
    assert after.Keys == expected.Keys;
  }

  /**
    Backup and restore reproduce the source exactly: whatever the destination held, it ends with the
    source's included files and its own files under the preserved directories, and nothing else.
   */
  lemma BackupThenRestore(files: seq<BackupFile>, t: Tree, destination: Tree, measure: Measure)
    requires AllPaths(t) && Describes(files, t, IncludedOf(t), measure)
    ensures (forall f | f in files :: PathOf(f) in t)
    ensures A.Restored(destination, H.Archive(EntriesOf(files, t))) == Expected(t, destination)
  {
    hide Describes, EntriesOf, AllPaths, A.StageOf, A.Restorable, Expected, IncludedOf, S.Installed, A.Extras;
    EntriesHold(files, t, IncludedOf(t), measure);
    var entries := EntriesOf(files, t);
    StageIsSource(entries, t);
    A.StageKeys(entries);
    var paths, stage := A.PathsOf(entries), A.StageOf(entries);
    forall p ensures p in paths <==> p in t && Included(p) { assert p in S.PathSet(paths) <==> p in stage; }
    InstalledIsExpected(t, destination, stage, paths);
  }

  /** The manifest of such a backup survives being written and read. */
  lemma ManifestSurvives(files: seq<BackupFile>, t: Tree, measure: Measure, stamp: string, iso: string -> bool)
    requires AllPaths(t) && Describes(files, t, IncludedOf(t), measure)
    requires forall p | p in t && Included(p) :: IsPath(p.parts) && SafePath(Posix(p.parts))
    requires forall c :: IsDigest(measure(c).0) && measure(c).1 >= 0
    requires ValidStamp(Text(stamp), iso)
    ensures var m := Manifest(FORMAT_VERSION, files, 2, Some(stamp), Some(PRODUCER));
            Parse(Document(m), iso) == Some(m)
  {
    var m := Manifest(FORMAT_VERSION, files, 2, Some(stamp), Some(PRODUCER));
    forall i | 0 <= i < |files| ensures FileOk(files[i]) {
      assert files[i] in files;
      assert PathOf(files[i]) in t;
    }
    ManifestRoundTrip(m, iso);
  }

  // ----- two accepted entries for one file

  /** A backup of the database and of one file in a directory, which the manifest names by two spellings. */
  function AliasFiles(a: string, b: string, digest: string): seq<BackupFile> {
    [BackupFile("app.db", digest, 0), BackupFile(a + "//" + b, digest, 0), BackupFile(a + "/" + b, digest, 0)]
  }

  function AliasArchive(a: string, b: string, database: H.Content, newer: H.Content): H.Archive {
    H.Archive([H.Entry(S.DATABASE_PATH, database), H.Entry(H.Path([a, b]), newer), H.Entry(H.Path([a, b]), newer)])
  }

  /** A directory and a file name in it that a manifest can name, the directory behind the database in text order. */
  predicate PlainNames(a: string, b: string) {
    && PartOk(a) && PartOk(b) && IsName(a) && IsName(b) && '\\' !in a && '\\' !in b
    && Less("app.db", a) && b[0] > '/'
  }

  lemma DatabaseName()
    ensures SafePath("app.db") && Parts("app.db") == ["app.db"]
  {
    hide Meaningful;
    var path := ["app.db"];
    assert Posix(path) == "app.db";
    PartsOfPosix(path);
  }

  /** The manifest is accepted, and these are the files on disk that it names. */
  lemma AliasIsAccepted(a: string, b: string, digest: string, database: H.Content, newer: H.Content)
    requires PlainNames(a, b) && IsDigest(digest)
    ensures var files, entries := AliasFiles(a, b, digest), AliasArchive(a, b, database, newer).entries;
            && FilesOk(files) && Ascending(files) && |files| == |entries|
            && forall i | 0 <= i < |files| :: PathOf(files[i]) == entries[i].path
  {
    hide IsDigest, Parts, SafePath, Less, IsName;
    DatabaseName();
    AliasedPaths(a, b);
    AliasAscends(a, b);
  }

  lemma Assoc(a: string, b: string, c: string)
    ensures a + b + c == a + (b + c)
  {
  }

  lemma AliasAscends(a: string, b: string)
    requires Less("app.db", a) && b != "" && b[0] > '/'
    ensures Less("app.db", a + "//" + b) && Less("app.db", a + "/" + b) && Less(a + "//" + b, a + "/" + b)
  {
    SlashFirst(b);
    hide Less;
    LessAfterPrefix(a + "/", "/" + b, b);
    LessLonger("app.db", a, "//" + b);
    LessLonger("app.db", a, "/" + b);
    Assoc(a, "//", b);
    Assoc(a, "/", b);
    Assoc(a, "/", "/" + b);
    Assoc("/", "/", b);
    assert "/" + "/" == "//";
  }

  lemma SlashFirst(b: string)
    requires b != "" && b[0] > '/'
    ensures Less("/" + b, b)
  {
  }

  lemma StageOfThree(x: H.Entry, y: H.Entry, z: H.Entry)
    ensures A.StageOf([x, y, z]) == map[x.path := x.content][y.path := y.content][z.path := z.content]
  {
    var entries := [x, y, z];
    assert entries[..2] == [x, y] && [x, y][..1] == [x] && [x][..0] == [];
    assert A.StageOf([x]) == map[x.path := x.content];
  }

  lemma AliasTree(a: string, b: string, database: H.Content, newer: H.Content)
    requires Less("app.db", a)
    ensures var archive, p := AliasArchive(a, b, database, newer), H.Path([a, b]);
            && A.Restorable(archive.entries) == archive.entries && p != S.DATABASE_PATH
            && A.ArchiveTree(archive) == map[S.DATABASE_PATH := database, p := newer]
            && A.RestorablePaths(archive) == A.PathsOf(archive.entries) == [S.DATABASE_PATH, p, p]
  {
    var archive, p := AliasArchive(a, b, database, newer), H.Path([a, b]);
    DirectoryIsKept(a);
    assert |p.parts| != |S.DATABASE_PATH.parts|;
    StageOfThree(archive.entries[0], archive.entries[1], archive.entries[2]);
    hide A.StageOf;
    assert A.Restorable(archive.entries) == archive.entries;
  }

  lemma AliasIsAliased(a: string, b: string, database: H.Content, newer: H.Content, earlier: H.Content)
    requires PlainNames(a, b) && database.Database? && earlier != newer
    ensures var archive, before := AliasArchive(a, b, database, newer), map[H.Path([a, b]) := earlier];
            A.Acceptable(archive, before) && !A.RestoresUnaliased(before, archive)
  {
    hide PartOk, IsName, A.StageOf, A.Restorable, A.RestoresUnaliased, A.RestorablePaths;
    var archive, before, p := AliasArchive(a, b, database, newer), map[H.Path([a, b]) := earlier], H.Path([a, b]);
    LessStrict("app.db", a);
    AliasTree(a, b, database, newer);
    assert archive.entries[0] in archive.entries && archive.entries[0].path == S.DATABASE_PATH;
    AliasAccepted(a, b, database, newer, earlier);
    A.UnaliasedAt(before, archive);
    assert [S.DATABASE_PATH, p, p][..2] == [S.DATABASE_PATH, p];
    assert S.AliasAt(before, A.ArchiveTree(archive), A.RestorablePaths(archive), 2);
  }

  lemma AliasAccepted(a: string, b: string, database: H.Content, newer: H.Content, earlier: H.Content)
    requires Less("app.db", a) && database.Database?
    ensures A.Acceptable(AliasArchive(a, b, database, newer), map[H.Path([a, b]) := earlier])
  {
    hide A.StageOf, A.Restorable, A.RestorablePaths;
    var archive := AliasArchive(a, b, database, newer);
    LessStrict("app.db", a);
    AliasTree(a, b, database, newer);
    assert archive.entries[0] in archive.entries;
    assert A.ArchiveTree(archive) == A.StageOf(archive.entries);
  }

  /** Such a directory is not one that a restore leaves out. */
  lemma DirectoryIsKept(a: string)
    requires Less("app.db", a)
    ensures a !in S.DISCARDED
  {
    assert !Less("app.db", ".ldap-revocation-fences");
  }

  /**
    An accepted manifest can name one file twice, and then a single failure can make the restore raise, undo all
    its steps, and leave the new content of that file, although everything is reported as undone.
   */
  method AcceptedAliasBreaksUndo(h: H.Host, a: string, b: string, digest: string, database: H.Content,
                                 newer: H.Content, earlier: H.Content)
    returns (o: F.Outcome, ghost undone: bool)
    requires PlainNames(a, b) && IsDigest(digest) && database.Database? && earlier != newer
    requires h.data == map[H.Path([a, b]) := earlier]
    modifies h
    ensures FilesOk(AliasFiles(a, b, digest)) && Ascending(AliasFiles(a, b, digest))
    ensures o.Raised? && undone && h.data != old(h.data)
  {
    hide A.Acceptable, A.RestoresUnaliased;
    AliasIsAccepted(a, b, digest, database, newer);
    AliasIsAliased(a, b, database, newer, earlier);
    o, undone := A.BreakUndo(h, AliasArchive(a, b, database, newer));
  }
}
