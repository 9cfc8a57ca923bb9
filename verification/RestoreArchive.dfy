/** Backup archives as `restore_backup` and `create_online_backup` see them. */
module RestoreArchive {

  import opened Collections
  import opened Faults
  import opened RestoreHost
  import opened StagedRestore

  const EPOCH_PATH: Path := Path(["session_epoch"])
  const SQLITE_RUNTIME: set<Path> := {Path(["app.db-journal"]), Path(["app.db-shm"]), Path(["app.db-wal"])}

  /** A path that a backup of the data directory takes up. */
  predicate InBackup(p: Path) {
    |p.parts| > 0 && p.parts[0] !in PRESERVED + DISCARDED && p !in SQLITE_RUNTIME
  }

  /** What a restore must bring back: everything a backup holds, but for the rotating session epoch. */
  predicate IsEssential(p: Path) { InBackup(p) && p != EPOCH_PATH }

  /** The durable part of a file: transient rows and authentication generations do not count. */
  function Durable(c: Content): Content {
    match c
    case File(_) => c
    case Database(durable, _, _) => Database(durable, "", 0)
  }

  function Essence(t: Tree): Tree {
    map p | p in t && IsEssential(p) :: Durable(t[p])
  }

  /** The staging directory: entries are extracted in order, so the last one of a path wins. */
  function StageOf(entries: seq<Entry>): (t: Tree)
    ensures forall i | 0 <= i < |entries| :: entries[i].path in t
  {
    if entries == [] then map[]
    else
      var n := |entries| - 1;
      var t := StageOf(entries[..n]);
      assert forall i | 0 <= i < n :: entries[i] == entries[..n][i];
      t[entries[n].path := entries[n].content]
  }

  lemma {:induction false} StageMember(entries: seq<Entry>, p: Path) returns (i: nat)
    requires p in StageOf(entries)
    ensures i < |entries| && entries[i] == Entry(p, StageOf(entries)[p])
  {
    var n := |entries| - 1;
    if entries[n].path == p {
      i := n;
    } else {
      i := StageMember(entries[..n], p);
    }
  }

  function Restorable(entries: seq<Entry>): (kept: seq<Entry>)
    ensures forall i | 0 <= i < |kept| :: kept[i] in entries && kept[i].path.parts != []
              && kept[i].path.parts[0] !in DISCARDED
    ensures (forall e | e in entries :: e.path.parts != [] && e.path.parts[0] !in DISCARDED) ==> kept == entries
  {
    if entries == [] then []
    else
      var n := |entries| - 1;
      var init := Restorable(entries[..n]);
      assert forall e | e in entries[..n] :: e in entries;
      if entries[n].path.parts != [] && entries[n].path.parts[0] !in DISCARDED then init + [entries[n]] else init
  }

  function PathsOf(entries: seq<Entry>): (paths: seq<Path>)
    ensures |paths| == |entries| && forall i | 0 <= i < |entries| :: paths[i] == entries[i].path
  {
    seq(|entries|, i requires 0 <= i < |entries| => entries[i].path)
  }

  /** `verify_backup`, as far as a tree is concerned: no empty path, and a database of ours. */
  predicate Verifies(a: Archive) {
    && (forall e | e in a.entries :: e.path.parts != [] && (e.path == DATABASE_PATH ==> e.content.Database?))
    && (exists e | e in a.entries :: e.path == DATABASE_PATH)
  }

  /** `_verify_staged_files`: every entry finds its own content in the stage. */
  predicate StagesCleanly(entries: seq<Entry>) {
    forall i | 0 <= i < |entries| :: StageOf(entries)[entries[i].path] == entries[i].content
  }

  predicate Below(p: Path, q: Path) { |p.parts| < |q.parts| && p.parts == q.parts[..|p.parts|] }

  /** `_validate_restore_targets`: a target has a file for a directory, or is a directory itself. */
  predicate Clashes(t: Tree, paths: seq<Path>) {
    exists p, q | p in t && q in paths :: Below(p, q) || Below(q, p)
  }

  /** Nothing but the steps themselves can stop the restore of the archive. */
  predicate Acceptable(a: Archive, t: Tree) {
    Verifies(a) && !Clashes(t, PathsOf(a.entries)) && StagesCleanly(Restorable(a.entries))
  }

  function Extras(before: Tree, paths: seq<Path>): set<Path> {
    (set p | p in before && !IsPreserved(p)) - PathSet(paths)
  }

  /** The tree after a successful restore. */
  function Restored(before: Tree, a: Archive): Tree {
    var entries := Restorable(a.entries);
    var paths := PathsOf(entries);
    Installed(before, StageOf(entries), paths, Extras(before, paths))
  }

  /** What the archive's own tree is: the state that a restore from it stands for. */
  function ArchiveTree(a: Archive): Tree { StageOf(Restorable(a.entries)) }

  lemma StageKeys(entries: seq<Entry>)
    ensures StageOf(entries).Keys == PathSet(PathsOf(entries))
  {
    var paths, stage := PathsOf(entries), StageOf(entries);
    forall p | p in stage ensures p in paths {
      var i := StageMember(entries, p);
      assert paths[i] == p;
    }
    forall p | p in paths ensures p in stage {
      var i :| 0 <= i < |paths| && paths[i] == p;
      assert entries[i].path == p;
    }
  }

  lemma InstalledEssence(before: Tree, stage: Tree, paths: seq<Path>)
    requires stage.Keys == PathSet(paths)
    ensures Essence(Installed(before, stage, paths, Extras(before, paths))) == Essence(stage)
  {
    var a, b := Essence(Installed(before, stage, paths, Extras(before, paths))), Essence(stage);
    forall p ensures p in a <==> p in b {
      if IsEssential(p) && p in before { assert !IsPreserved(p); }
    }
    assert a.Keys == b.Keys;
  }

  lemma InstalledFrame(before: Tree, stage: Tree, paths: seq<Path>)
    requires stage.Keys == PathSet(paths)
    ensures var after := Installed(before, stage, paths, Extras(before, paths));
            && (forall p | IsPreserved(p) && p !in paths :: SameAt(before, after, p))
            && (forall p | p in stage :: p in after && after[p] == stage[p])
  {
    forall p | p in stage ensures p in paths { assert p in PathSet(paths); }
  }

  /**
    A restore depends on nothing that was in the data directory before: whatever is there, however torn, the
    result has the archive's essence. This is what makes an interrupted restore recoverable.
   */
  lemma RestoreIgnoresEarlierState(before: Tree, a: Archive)
    ensures Essence(Restored(before, a)) == Essence(ArchiveTree(a))
    ensures forall p | IsPreserved(p) && p !in PathsOf(Restorable(a.entries)) :: SameAt(before, Restored(before, a), p)
    ensures forall p | p in ArchiveTree(a) :: p in Restored(before, a) && Restored(before, a)[p] == ArchiveTree(a)[p]
  {
    var entries := Restorable(a.entries);
    StageKeys(entries);
    InstalledEssence(before, StageOf(entries), PathsOf(entries));
    InstalledFrame(before, StageOf(entries), PathsOf(entries));
  }

  /** The archive holds exactly the backed-up part of the tree. */
  ghost predicate IsBackupOf(a: Archive, t: Tree) {
    && Verifies(a) && Restorable(a.entries) == a.entries && StagesCleanly(a.entries)
    && ArchiveTree(a) == map p | p in t && InBackup(p) :: t[p]
  }

  lemma BackupKeepsEssence(a: Archive, t: Tree)
    requires IsBackupOf(a, t)
    ensures Essence(ArchiveTree(a)) == Essence(t)
  {
    assert Essence(ArchiveTree(a)).Keys == Essence(t).Keys;
  }

  lemma StageSnoc(entries: seq<Entry>, e: Entry)
    ensures StageOf(entries + [e]) == StageOf(entries)[e.path := e.content]
  {
    assert (entries + [e])[..|entries|] == entries;
  }

  lemma DatabaseIsEssential()
    ensures IsEssential(DATABASE_PATH) && !IsEssential(EPOCH_PATH) && DATABASE_PATH != EPOCH_PATH
  {
    assert |"app.db"| == 6 && |"logs"| == 4 && |"tmp"| == 3 && |".ldap-revocation-fences"| == 23;
    assert DATABASE_PATH.parts[0] == "app.db" && |EPOCH_PATH.parts[0]| == 13;
    forall p | p in SQLITE_RUNTIME ensures |p.parts[0]| > 6 {}
  }

  /** The walk over the data directory: one entry for every file that belongs into a backup. */
  method CollectEntries(t: Tree) returns (entries: seq<Entry>)
    ensures StageOf(entries) == map p | p in t && InBackup(p) :: t[p]
    ensures forall e | e in entries :: e.path in t && InBackup(e.path) && e.content == t[e.path]
  {
    hide InBackup;
    var todo := set p | p in t && InBackup(p);
    ghost var all := todo;
    entries := [];
    while todo != {}
      invariant todo <= all
      invariant forall e | e in entries :: e.path in all && e.content == t[e.path]
      invariant StageOf(entries) == map p | p in all - todo :: t[p]
      decreases |todo|
    {
      var p :| p in todo;
      StageSnoc(entries, Entry(p, t[p]));
      assert all - (todo - {p}) == (all - todo) + {p};
      entries, todo := entries + [Entry(p, t[p])], todo - {p};
    }
  }

  lemma CollectedIsBackup(entries: seq<Entry>, t: Tree)
    requires StageOf(entries) == map p | p in t && InBackup(p) :: t[p]
    requires forall e | e in entries :: e.path in t && InBackup(e.path) && e.content == t[e.path]
    requires DATABASE_PATH in t && t[DATABASE_PATH].Database?
    ensures IsBackupOf(Archive(entries), t)
  {
    DatabaseIsEssential();
    var i := StageMember(entries, DATABASE_PATH);
    assert entries[i] in entries;
    assert Restorable(entries) == entries;
  }

  /** `create_online_backup`: collect the files, then publish the verified archive under its name. */
  method CreateOnlineBackup(h: Host, op: OpId) returns (o: Outcome)
    requires op in h.ops
    modifies h`tick, h`ops
    ensures h.ops == old(h.ops)
            || exists a :: IsBackupOf(a, h.data) && h.ops == old(h.ops)[op := old(h.ops)[op].(rollback := Some(a))]
    ensures o == Done ==>
              exists a :: IsBackupOf(a, h.data) && h.ops == old(h.ops)[op := old(h.ops)[op].(rollback := Some(a))]
    ensures h.tick >= old(h.tick)
    ensures old(h.Smooth(h.status)) && DATABASE_PATH in h.data && h.data[DATABASE_PATH].Database? ==>
              o == Done && h.Smooth(h.status)
    ensures h.Cued() && DATABASE_PATH in h.data && h.data[DATABASE_PATH].Database? ==> h.Excused(o)
  {
    hide StageOf, IsBackupOf, InBackup, Host.Smooth, Host.Trapped;
    if DATABASE_PATH !in h.data || !h.data[DATABASE_PATH].Database? {
      return Raised;
    }
    o := h.Pass();                       // staging the copies
    if o != Done { return; }
    var entries := CollectEntries(h.data);
    CollectedIsBackup(entries, h.data);
    var f := h.Turn();                   // linking the verified archive to its name
    if TakesEffect(f) {
      h.ops := h.ops[op := h.ops[op].(rollback := Some(Archive(entries)))];
    }
    o := OutcomeOf(f);
  }

  /** However a restore ends, every file has its earlier content or the archive's, or was due to be removed. */
  ghost predicate BetweenRestore(before: Tree, now: Tree, a: Archive) {
    var paths := PathsOf(Restorable(a.entries));
    Between(before, now, ArchiveTree(a), paths, Extras(before, paths))
  }

  /** Rewriting a tree from its own backup never shows anything but that tree, not even half-way. */
  lemma RewritingKeepsEssence(before: Tree, now: Tree, a: Archive)
    requires IsBackupOf(a, before) && BetweenRestore(before, now, a)
    ensures Essence(now) == Essence(before)
  {
    var entries := Restorable(a.entries);
    var paths, stage := PathsOf(entries), ArchiveTree(a);
    StageKeys(entries);
    var extra := Extras(before, paths);
    forall p | IsEssential(p) ensures SameAt(before, now, p) {
      assert p in stage <==> p in before;
      assert p in stage <==> p in PathSet(paths);
      assert SameAt(before, now, p) || (p in paths && SameAt(stage, now, p)) || (p in extra && p !in now);
    }
    assert Essence(now).Keys == Essence(before).Keys;
  }

  function RestorablePaths(a: Archive): (paths: seq<Path>)
    ensures forall q | q in paths :: q in ArchiveTree(a)
  {
    StageKeys(Restorable(a.entries));
    assert forall q | q in PathsOf(Restorable(a.entries)) :: q in PathSet(PathsOf(Restorable(a.entries)));
    PathsOf(Restorable(a.entries))
  }

  /** The archive names no existing file twice with content other than the file's. */
  ghost predicate RestoresUnaliased(before: Tree, a: Archive) {
    NoAliasedOverwrite(before, ArchiveTree(a), RestorablePaths(a))
  }

  lemma UnaliasedAt(before: Tree, a: Archive)
    ensures RestoresUnaliased(before, a)
       <==> forall j | 0 <= j < |RestorablePaths(a)| :: !AliasAt(before, ArchiveTree(a), RestorablePaths(a), j)
  {
    AliasedSomewhere(before, ArchiveTree(a), RestorablePaths(a));
  }

  /** The step of a restore that begins at `tick` which puts entry `j` in place. */
  function PutTick(tick: nat, before: Tree, a: Archive, j: nat): nat
    requires j < |RestorablePaths(a)|
  {
    tick + 2 + |Extras(before, RestorablePaths(a))| + PutStep(before, RestorablePaths(a), j)
  }

  lemma NothingBetween(before: Tree, a: Archive)
    ensures BetweenRestore(before, before, a)
  {
  }

  /** `restore_backup` */
  method RestoreBackup(h: Host, archive: Option<Archive>) returns (o: Outcome, ghost undone: bool)
    modifies h`tick, h`data
    ensures o == Done ==> archive.Some? && Verifies(archive.value) && h.data == Restored(old(h.data), archive.value)
    ensures archive.None? ==> h.data == old(h.data) && (old(h.Smooth(h.status)) ==> o == Raised)
    ensures archive.Some? ==> BetweenRestore(old(h.data), h.data, archive.value)
    ensures archive.Some? && !Acceptable(archive.value, old(h.data)) ==> o != Done && h.data == old(h.data)
    ensures archive.Some? && o == Raised && undone && RestoresUnaliased(old(h.data), archive.value) ==>
              h.data == old(h.data)
    ensures forall j | archive.Some? && Acceptable(archive.value, old(h.data)) && h.Cued()
                && 0 <= j < |RestorablePaths(archive.value)|
                && h.failAt == PutTick(old(h.tick), old(h.data), archive.value, j) ::
              o == Raised && undone
              && h.data == AfterUndo(old(h.data), ArchiveTree(archive.value), RestorablePaths(archive.value), j + 1)
    ensures h.tick >= old(h.tick)
    ensures archive.Some? && Acceptable(archive.value, old(h.data)) && old(h.Smooth(h.status)) ==>
              o == Done && h.Smooth(h.status)
    ensures archive.Some? && Acceptable(archive.value, old(h.data)) && old(h.Trapped()) ==> h.Trapped() && h.Sprung(o)
    ensures archive.Some? && Acceptable(archive.value, old(h.data)) && h.Cued() ==> h.Excused(o)
  {
    hide Installed, Between, NoAliasedOverwrite, AfterUndo, PutStep, StageOf, Restorable, Verifies, Clashes,
      StagesCleanly, PathSet, Host.Smooth, Host.Trapped, Host.Cued, Host.Next;
    undone := true;
    if archive.Some? { NothingBetween(h.data, archive.value); }
    o := h.Pass();                       // verifying the archive, validating the targets
    if o != Done { return; }
    if archive.None? || !Verifies(archive.value) || Clashes(h.data, PathsOf(archive.value.entries)) {
      return Raised, true;
    }
    var entries := Restorable(archive.value.entries);
    o := h.Pass();                       // extracting into the staging directory
    if o != Done { return; }
    if !StagesCleanly(entries) { return Raised, true; }
    var paths, stage := PathsOf(entries), StageOf(entries);
    StageKeys(entries);
    assert forall q | q in paths :: q in PathSet(paths);
    ghost var k;
    var gone;
    o, gone, k := RestoreStagedFiles(h, stage, paths, Extras(h.data, paths));
    undone := gone;
  }

  /**
    For every archive that can be restored: some single failure makes the restore raise and its undo, although
    every undo step works, leave other data than before, if and only if the archive names an existing
    file twice with content other than the file's. Where it does not, no failure does.
   */
  method BreakUndo(h: Host, archive: Archive) returns (o: Outcome, ghost undone: bool)
    requires Acceptable(archive, h.data)
    modifies h
    ensures o == Raised && undone && h.data != old(h.data) <==> !RestoresUnaliased(old(h.data), archive)
  {
    hide Acceptable, ArchiveTree, Restorable, RestoresUnaliased, Host.Smooth, Host.Trapped, AfterUndo, PutTick, AliasAt,
      BetweenRestore, Restored;
    ghost var before := h.data;
    UnaliasedAt(before, archive);
    var paths := RestorablePaths(archive);
    if j :| 0 <= j < |paths| && AliasAt(h.data, ArchiveTree(archive), paths, j) {
      var at := PutTick(h.tick, h.data, archive, j);
      h.failAt := at;
      h.fate := (n, d, st) => if n == at then Fails else Works;
      AliasUndone(before, ArchiveTree(archive), paths, j);
    }
    o, undone := RestoreBackup(h, Some(archive));
  }
}
