/**
  The web restore (`app/restore_service.py`), the durable restore status and startup recovery
  (`app/maintenance_mode.py`), and the cleanup of orphaned operation directories
  (`app/backup_operations.py`).
 */
module RestoreProtocol {

  import opened Collections
  import opened Faults
  import opened RestoreHost
  import opened StagedRestore
  import opened RestoreArchive

  predicate IsActive(status: Option<Status>) {
    status.Some? && status.value.phase in {Preparing, InProgress, RollbackFailed}
  }

  // ----- what must be true of the durable state, whenever the process may die

  /** The data directory holds the original state or the uploaded one. */
  ghost predicate Settled(data: Tree, orig: Tree, upload: Archive) {
    Essence(data) == Essence(orig) || Essence(data) == Essence(ArchiveTree(upload))
  }

  /** Every essential file is as in the original or as in the uploaded state, or missing as there. */
  ghost predicate Mixed(data: Tree, orig: Tree, upload: Archive) {
    forall p :: SameAt(Essence(orig), Essence(data), p) || SameAt(Essence(ArchiveTree(upload)), Essence(data), p)
  }

  lemma SettledIsMixed(data: Tree, orig: Tree, upload: Archive)
    requires Settled(data, orig, upload)
    ensures Mixed(data, orig, upload)
  {
    hide Essence;
  }

  /** A restore, however far it comes, mixes nothing in but what its archive has. */
  lemma RestoreKeepsMixed(before: Tree, now: Tree, a: Archive, orig: Tree, upload: Archive)
    requires Mixed(before, orig, upload) && BetweenRestore(before, now, a)
    requires Essence(ArchiveTree(a)) == Essence(orig) || Essence(ArchiveTree(a)) == Essence(ArchiveTree(upload))
    ensures Mixed(now, orig, upload)
  {
    var entries := Restorable(a.entries);
    var paths, stage := PathsOf(entries), ArchiveTree(a);
    StageKeys(entries);
    forall p ensures SameAt(Essence(before), Essence(now), p) || SameAt(Essence(stage), Essence(now), p) {
      assert p in paths <==> p in PathSet(paths);
      BetweenAt(before, now, stage, paths, Extras(before, paths), p);
      EssenceAt(before, now, p);
      EssenceAt(stage, now, p);
    }
    hide Essence, ArchiveTree;
    forall p ensures SameAt(Essence(orig), Essence(now), p) || SameAt(Essence(ArchiveTree(upload)), Essence(now), p) {
      assert SameAt(Essence(before), Essence(now), p) || SameAt(Essence(stage), Essence(now), p);
      assert SameAt(Essence(orig), Essence(before), p) || SameAt(Essence(ArchiveTree(upload)), Essence(before), p);
    }
  }

  lemma BetweenAt(before: Tree, now: Tree, stage: Tree, paths: seq<Path>, extra: set<Path>, p: Path)
    requires Between(before, now, stage, paths, extra)
    ensures SameAt(before, now, p) || (p in paths && SameAt(stage, now, p)) || (p in extra && p !in now)
  {
  }

  lemma EssenceAt(a: Tree, b: Tree, p: Path)
    ensures SameAt(a, b, p) ==> SameAt(Essence(a), Essence(b), p)
  {
  }

  /** The operation directory still holds a backup of the original state. */
  ghost predicate RollbackKept(ops: map<OpId, OpDir>, op: OpId, orig: Tree) {
    op in ops && ops[op].rollback.Some? && IsBackupOf(ops[op].rollback.value, orig)
  }

  /** And no file of it stands in the way of a directory of the data, or the other way round. */
  ghost predicate RollbackFits(data: Tree, ops: map<OpId, OpDir>, op: OpId, orig: Tree) {
    RollbackKept(ops, op, orig) && !Clashes(data, PathsOf(ops[op].rollback.value.entries))
  }

  /** Either the backup is kept, or its directory is gone because the original state is back. */
  ghost predicate Recoverable(data: Tree, ops: map<OpId, OpDir>, op: OpId, orig: Tree) {
    if op in ops then RollbackKept(ops, op, orig) else Essence(data) == Essence(orig)
  }

  ghost predicate SafeStatus(data: Tree, st: Status, ops: map<OpId, OpDir>, op: OpId, orig: Tree, upload: Archive) {
    if st.op != op then !IsActive(Some(st)) && Settled(data, orig, upload)
    else match st.phase
      case Preparing => Essence(data) == Essence(orig)
      case InProgress => Recoverable(data, ops, op, orig) && (st.rollback.Some? ==> st.rollback.value == op)
      case Succeeded => Settled(data, orig, upload)
      case Failed => Essence(data) == Essence(orig)
      case RollbackFailed => RollbackKept(ops, op, orig) || Essence(data) == Essence(orig)
  }

  /** A crash in this state loses nothing that startup cannot bring back. */
  ghost predicate Safe(h: Host, op: OpId, orig: Tree, upload: Archive)
    reads h
  {
    match h.status
    case None => Settled(h.data, orig, upload)
    case Some(st) => SafeStatus(h.data, st, h.ops, op, orig, upload)
  }

  /** No restore is in progress. */
  predicate Finished(status: Option<Status>) {
    status.None? || status.value.phase !in {Preparing, InProgress}
  }

  // ----- what a restore can put into the data directory, and what its status names

  /** The files of both states, and the session epoch. */
  function Reach(orig: Tree, upload: Archive): set<Path> {
    orig.Keys + PathSet(PathsOf(upload.entries)) + {EPOCH_PATH}
  }

  /** A status in progress is this data directory's own, and names the operation's rollback. */
  predicate Named(status: Option<Status>, op: OpId, fingerprint: string) {
    !Finished(status) && status.value.op == op ==>
      && status.value.fingerprint == Some(fingerprint)
      && (status.value.phase == InProgress ==> status.value.rollback == Some(op))
  }

  ghost predicate Tracked(h: Host, op: OpId, orig: Tree, upload: Archive)
    reads h
  {
    h.data.Keys <= Reach(orig, upload) && Named(h.status, op, h.fingerprint)
  }

  lemma {:induction false} RestorablePathsAre(entries: seq<Entry>)
    ensures PathSet(PathsOf(Restorable(entries))) <= PathSet(PathsOf(entries))
  {
    forall p | p in PathsOf(Restorable(entries)) ensures p in PathSet(PathsOf(entries)) {
      var i :| 0 <= i < |PathsOf(Restorable(entries))| && PathsOf(Restorable(entries))[i] == p;
      assert Restorable(entries)[i] in entries;
      var j :| 0 <= j < |entries| && entries[j] == Restorable(entries)[i];
      assert PathsOf(entries)[j] == p;
    }
  }

  /** A restore, however far it comes, adds no files but those of its archive. */
  lemma RestoreStaysWithin(before: Tree, torn: Tree, now: Tree, a: Archive, room: set<Path>)
    requires BetweenRestore(before, torn, a) && now.Keys <= torn.Keys + {EPOCH_PATH}
    requires before.Keys <= room && PathSet(PathsOf(a.entries)) <= room && EPOCH_PATH in room
    ensures now.Keys <= room
  {
    RestorablePathsAre(a.entries);
    var paths := PathsOf(Restorable(a.entries));
    forall p | p in torn ensures p in room {
      BetweenAt(before, torn, ArchiveTree(a), paths, Extras(before, paths), p);
      if p in paths { assert p in PathSet(paths); }
    }
  }

  lemma BackupPaths(a: Archive, orig: Tree)
    requires IsBackupOf(a, orig)
    ensures forall p | p in PathsOf(a.entries) :: p in orig
    ensures PathSet(PathsOf(a.entries)) <= orig.Keys
  {
    StageKeys(a.entries);
    forall p | p in PathsOf(a.entries) ensures p in orig { assert p in PathSet(PathsOf(a.entries)); }
  }

  /** The files of both states can stand side by side, with the session epoch, in one directory. */
  predicate SideBySide(orig: Tree, upload: Archive) {
    forall p, q | p in Reach(orig, upload) && q in Reach(orig, upload) :: !Below(p, q)
  }

  /** Then the rollback archive fits into whatever a restore has made of the directory. */
  lemma RollbackIsAcceptable(orig: Tree, upload: Archive, a: Archive, data: Tree)
    requires IsBackupOf(a, orig) && SideBySide(orig, upload) && data.Keys <= Reach(orig, upload)
    ensures Acceptable(a, data)
  {
    BackupPaths(a, orig);
    forall p, q | p in data && q in PathsOf(a.entries) ensures !Below(p, q) && !Below(q, p) {
      assert p in Reach(orig, upload) && q in Reach(orig, upload);
    }
  }

  /** The promise to whoever finds the server running. */
  ghost predicate Served(h: Host, op: OpId, orig: Tree, upload: Archive)
    reads h
  {
    || Settled(h.data, orig, upload)
    || (h.status.Some? && h.status.value.phase == RollbackFailed && h.status.value.op == op
        && IsActive(h.status) && RollbackKept(h.ops, op, orig))
  }

  // ----- the status file

  /** `_read`: the process's own copy of the status, if it has one. */
  method ReadStatus(h: Host) returns (st: Option<Status>)
    modifies h`cached
    ensures st == h.cached == if old(h.cached).Some? then old(h.cached) else h.status
  {
    if h.cached.None? { h.cached := h.status; }
    st := h.cached;
  }

  /** `mark_failed` */
  method MarkFailed(h: Host, op: OpId, rollbackFailed: bool) returns (o: Outcome)
    modifies h`tick, h`status, h`cached
    ensures h.status == old(h.status)
            || (h.status.Some? && h.status.value.op == op
                && h.status.value.phase == if rollbackFailed then RollbackFailed else Failed)
    ensures o == Done ==> h.cached == h.status && h.status.Some? && h.status.value.op == op
                          && h.status.value.phase == if rollbackFailed then RollbackFailed else Failed
    ensures o == Done && !rollbackFailed ==> h.status == Some(Status(Failed, op, None, None))
    ensures h.tick >= old(h.tick) && (old(h.Smooth(h.status)) ==> o == Done)
  {
    var document := Status(if rollbackFailed then RollbackFailed else Failed, op, None, None);
    if rollbackFailed {
      var previous := ReadStatus(h);
      if previous.Some? && previous.value.op == op {
        document := document.(fingerprint := previous.value.fingerprint, rollback := previous.value.rollback);
      }
    }
    o := h.WriteStatus(document);
  }

  // ----- restoring, sanitizing and rotating the session epoch

  predicate HasDatabase(t: Tree) { DATABASE_PATH in t && t[DATABASE_PATH].Database? }

  /** The transient rows are gone and every generation is one higher. */
  function Sanitized(database: Content): Content
    requires database.Database?
  {
    Database(database.durable, "", database.generation + 1)
  }

  /** `sanitize_restored_authentication_state`: one transaction over the restored database. */
  method Sanitize(h: Host) returns (o: Outcome)
    modifies h`tick, h`data
    ensures Essence(h.data) == Essence(old(h.data)) && h.data.Keys == old(h.data).Keys && h.tick >= old(h.tick)
    ensures HasDatabase(old(h.data)) && old(h.Smooth(h.status)) ==> o == Done && h.Smooth(h.status)
    ensures HasDatabase(old(h.data)) && old(h.Trapped()) ==> h.Trapped() && h.Sprung(o)
    ensures HasDatabase(old(h.data)) && h.Cued() ==> h.Excused(o)
    ensures o == Done ==>
              HasDatabase(old(h.data)) && h.data == old(h.data)[DATABASE_PATH := Sanitized(old(h.data)[DATABASE_PATH])]
  {
    if !HasDatabase(h.data) { return Raised; }
    var db := h.data[DATABASE_PATH];
    o := h.Put(DATABASE_PATH, Sanitized(db));
    SameEssence(old(h.data), h.data, DATABASE_PATH);
  }

  lemma SameEssence(before: Tree, after: Tree, p: Path)
    requires after.Keys == before.Keys || !IsEssential(p)
    requires forall q | q != p :: SameAt(before, after, q)
    requires p in before && p in after && IsEssential(p) ==> Durable(before[p]) == Durable(after[p])
    ensures Essence(after) == Essence(before)
  {
    forall q ensures q in Essence(before) <==> q in Essence(after) {
      if q != p { assert SameAt(before, after, q); }
    }
    assert Essence(after).Keys == Essence(before).Keys;
    forall q | q in Essence(before) ensures Essence(after)[q] == Essence(before)[q] {
      if q != p { assert SameAt(before, after, q); }
    }
  }

  lemma SomeOtherText(content: Content)
    ensures exists value: string :: File(value) != content
  {
    assert File("") != File("x");
  }

  /** The directory has a session epoch, and not the earlier one. */
  predicate Rotated(before: Tree, now: Tree) {
    EPOCH_PATH in now && (EPOCH_PATH in before ==> now[EPOCH_PATH] != before[EPOCH_PATH])
  }

  /** `rotate_epoch`: the new value is random, so it is not the one that was there before the restore. */
  method RotateEpoch(h: Host, before: Tree) returns (o: Outcome)
    modifies h`tick, h`data
    ensures Essence(h.data) == Essence(old(h.data)) && h.data.Keys <= old(h.data).Keys + {EPOCH_PATH}
    ensures h.tick >= old(h.tick) && (old(h.Smooth(h.status)) ==> o == Done && h.Smooth(h.status))
    ensures old(h.Trapped()) ==> h.Trapped() && h.Sprung(o)
    ensures h.Cued() ==> h.Excused(o)
    ensures o == Done ==> Rotated(before, h.data) && h.data - {EPOCH_PATH} == old(h.data) - {EPOCH_PATH}
  {
    if EPOCH_PATH in before { SomeOtherText(before[EPOCH_PATH]); }
    var value: string :| EPOCH_PATH in before ==> File(value) != before[EPOCH_PATH];
    o := h.Put(EPOCH_PATH, File(value));
    SameEssence(old(h.data), h.data, EPOCH_PATH);
  }

  /** What a restore leaves of the logins before it: no transient rows, higher generations and another epoch. */
  predicate Renewed(before: Tree, now: Tree, a: Archive) {
    && Rotated(before, now) && HasDatabase(now) && HasDatabase(ArchiveTree(a))
    && now[DATABASE_PATH] == Sanitized(ArchiveTree(a)[DATABASE_PATH])
  }

  lemma ArchiveHasDatabase(a: Archive)
    requires Verifies(a)
    ensures DATABASE_PATH in ArchiveTree(a) && ArchiveTree(a)[DATABASE_PATH].Database?
  {
    var entries := Restorable(a.entries);
    RestorableKeeps(a.entries);
    var e :| e in a.entries && e.path == DATABASE_PATH;
    DatabaseIsEssential();
    assert e in entries;
    var i := StageMember(entries, DATABASE_PATH);
    assert entries[i] in a.entries;
  }

  lemma {:induction false} RestorableKeeps(entries: seq<Entry>)
    ensures forall e | e in entries && e.path.parts != [] && e.path.parts[0] !in DISCARDED :: e in Restorable(entries)
  {
    if entries != [] {
      var n := |entries| - 1;
      RestorableKeeps(entries[..n]);
      assert forall e | e in entries :: e in entries[..n] || e == entries[n];
    }
  }

  lemma RenewedAfter(before: Tree, installed: Tree, cleared: Tree, now: Tree, a: Archive)
    requires Verifies(a) && installed == Restored(before, a) && HasDatabase(installed)
    requires cleared == installed[DATABASE_PATH := Sanitized(installed[DATABASE_PATH])]
    requires Rotated(before, now) && now - {EPOCH_PATH} == cleared - {EPOCH_PATH}
    ensures Renewed(before, now, a)
  {
    ArchiveHasDatabase(a);
    RestoreIgnoresEarlierState(before, a);
    hide Restored, ArchiveTree;
    assert DATABASE_PATH.parts[0] != EPOCH_PATH.parts[0];
    assert DATABASE_PATH in now - {EPOCH_PATH} && now[DATABASE_PATH] == (now - {EPOCH_PATH})[DATABASE_PATH];
  }

  /** The three steps that bring an archive back; the last two leave its essence alone. */
  method RestoreArchiveState(h: Host, archive: Option<Archive>) returns (o: Outcome, ghost torn: Tree)
    modifies h`tick, h`data
    ensures o == Done ==> archive.Some? && Essence(h.data) == Essence(ArchiveTree(archive.value))
    ensures Essence(h.data) == Essence(torn)
    ensures archive.None? ==> h.data == torn == old(h.data) && (old(h.Smooth(h.status)) ==> o == Raised)
    ensures archive.Some? ==> BetweenRestore(old(h.data), torn, archive.value)
    ensures h.data.Keys <= torn.Keys + {EPOCH_PATH}
    ensures h.tick >= old(h.tick)
    ensures archive.Some? && Acceptable(archive.value, old(h.data)) && old(h.Smooth(h.status)) ==>
              o == Done && h.Smooth(h.status)
    ensures archive.Some? && Acceptable(archive.value, old(h.data)) && old(h.Trapped()) ==> h.Trapped() && h.Sprung(o)
    ensures archive.Some? && Acceptable(archive.value, old(h.data)) && h.Cued() ==> h.Excused(o)
    ensures o == Done ==> Renewed(old(h.data), h.data, archive.value)
  {
    var before := h.data;
    ghost var undone;
    o, undone := RestoreBackup(h, archive);
    torn := h.data;
    if o != Done { return; }
    RestoreIgnoresEarlierState(old(h.data), archive.value);
    ArchiveHasDatabase(archive.value);
    o := Sanitize(h);
    if o != Done { return; }
    ghost var cleared := h.data;
    o := RotateEpoch(h, before);
    if o == Done { RenewedAfter(before, torn, cleared, h.data, archive.value); }
  }

  // ----- _perform_restore

  /** The success mark is on disk: a failure raised now undoes a restore that counts as done. */
  predicate Late(status: Option<Status>, op: OpId) {
    status.Some? && status.value.op == op && status.value.phase == Succeeded
  }

  /** The fates that raise behind the success mark: of its own write, or of the audit entry and the lock's release. */
  predicate LateFates(mark: Option<Fate>, release: Option<Fate>) {
    mark == Some(FailsLate) || (mark == Some(Works) && release.Some? && release.value in {Fails, FailsLate})
  }

  /** Everything works until the success mark is on disk, and then a step raises. */
  ghost predicate RaisesOnceMarked(fate: Oracle, tick: nat, op: OpId) {
    && (forall st | !Late(st, op) :: SmoothFrom(fate, tick, st))
    && (forall n: nat, d: Tree, st | n >= tick && Late(st, op) :: fate(n, d, st) == Fails)
  }

  lemma StillRaises(fate: Oracle, tick: nat, later: nat, op: OpId)
    requires tick <= later
    ensures RaisesOnceMarked(fate, tick, op) ==> RaisesOnceMarked(fate, later, op)
  {
  }

  lemma StillSmooth(fate: Oracle, tick: nat, later: nat, op: OpId)
    requires tick <= later
    ensures RaisesOnceMarked(fate, tick, op) ==> RaisesOnceMarked(fate, later, op)
    ensures Faultless(fate, tick) ==> Faultless(fate, later)
  {
    StillRaises(fate, tick, later, op);
    StillFaultless(fate, tick, later);
  }

  /** The part of `try` that only reads the data: the rollback archive is made. */
  method Prepare(h: Host, op: OpId, ghost orig: Tree) returns (o: Outcome)
    requires op in h.ops && h.data == orig && !IsActive(h.status)
    requires h.status.Some? ==> h.status.value.op != op
    modifies h`tick, h`status, h`ops, h`cached
    ensures op in h.ops && h.ops[op].upload == old(h.ops)[op].upload && h.tick >= old(h.tick)
    ensures h.status == old(h.status) || h.status == Some(Status(Preparing, op, Some(h.fingerprint), None))
    ensures o == Done ==> RollbackKept(h.ops, op, orig)
    ensures RaisesOnceMarked(h.fate, old(h.tick), op) && HasDatabase(orig) ==> o == Done
    ensures Faultless(h.fate, old(h.tick)) && HasDatabase(orig) ==> o == Done
    ensures h.Cued() && HasDatabase(orig) ==> h.Excused(o)
  {
    hide IsBackupOf, SmoothFrom, Host.Trapped, Host.Sprung, Host.Cued;
    o := h.Pass();                       // operation_lock
    if o != Done { return; }
    StillSmooth(h.fate, old(h.tick), h.tick, op);
    o := h.WriteStatus(Status(Preparing, op, Some(h.fingerprint), None));
    if o != Done { return; }
    StillSmooth(h.fate, old(h.tick), h.tick, op);
    o := h.Pass();                       // stopping the runtime
    if o != Done { return; }
    StillSmooth(h.fate, old(h.tick), h.tick, op);
    o := CreateOnlineBackup(h, op);
  }

  /** The part of `try` that changes the data, under the status in progress. */
  method Install(h: Host, op: OpId, ghost orig: Tree, ghost upload: Archive) returns (o: Outcome)
    requires op in h.ops && h.ops[op].upload == upload && h.data == orig && RollbackKept(h.ops, op, orig)
    requires !Late(h.status, op)
    modifies h`tick, h`data, h`status, h`cached
    ensures h.status == old(h.status) || h.status == Some(Status(InProgress, op, Some(h.fingerprint), Some(op)))
    ensures h.status == old(h.status)
              && old(h.status) != Some(Status(InProgress, op, Some(h.fingerprint), Some(op))) ==>
              h.data == orig && o != Done
    ensures o == Done ==> Essence(h.data) == Essence(ArchiveTree(upload)) && Renewed(orig, h.data, upload)
    ensures Mixed(h.data, orig, upload) && h.tick >= old(h.tick) && h.data.Keys <= Reach(orig, upload)
    ensures RaisesOnceMarked(h.fate, old(h.tick), op) && Acceptable(upload, orig) ==> o == Done
    ensures Faultless(h.fate, old(h.tick)) && Acceptable(upload, orig) ==> o == Done
    ensures h.Cued() && Acceptable(upload, orig) ==> h.Excused(o)
  {
    hide Essence, IsBackupOf, SmoothFrom, Restored, Acceptable, BetweenRestore, ArchiveTree;
    SettledIsMixed(orig, orig, upload);
    o := h.WriteStatus(Status(InProgress, op, Some(h.fingerprint), Some(op)));
    if o != Done { return; }
    StillSmooth(h.fate, old(h.tick), h.tick, op);
    ghost var torn;
    o, torn := RestoreArchiveState(h, Some(h.ops[op].upload));
    RestoreKeepsMixed(orig, torn, upload, orig, upload);
    RestoreStaysWithin(orig, torn, h.data, upload, Reach(orig, upload));
    SameMixed(torn, h.data, orig, upload);
  }

  lemma WithinReach(orig: Tree, upload: Archive)
    ensures orig.Keys <= Reach(orig, upload)
  {
  }

  /** The end of `try`: the success mark, then the audit entry and the release of the operation lock. */
  method Conclude(h: Host, op: OpId) returns (o: Outcome, mark: Option<Fate>, release: Option<Fate>)
    requires !Late(h.status, op)
    modifies h`tick, h`status, h`cached
    ensures h.tick >= old(h.tick)
    ensures h.status == old(h.status) || h.status == Some(Status(Succeeded, op, None, None))
    ensures o == Done ==> Late(h.status, op)
    ensures Faultless(h.fate, old(h.tick)) ==> o == Done
    ensures o == Raised ==> (Late(h.status, op) <==> LateFates(mark, release))
    ensures RaisesOnceMarked(h.fate, old(h.tick), op) ==> o == Raised && Late(h.status, op)
    ensures h.Cued() ==> h.Excused(o)
  {
    hide Host.Trapped, Host.Sprung;
    release := None;
    mark := Some(h.Next());
    o := h.WriteStatus(Status(Succeeded, op, None, None));
    if o != Done { return; }
    StillFaultless(h.fate, old(h.tick), h.tick);
    release := Some(h.Next());
    o := h.Pass();                       // the audit entry and releasing operation_lock
  }

  /**
    The body of `try`; `available` is `rollback_available`, and `mark` and `release` are the fates of the
    success mark and of what follows it, as far as they are reached.
   */
  method TryRestore(h: Host, op: OpId, ghost orig: Tree)
    returns (o: Outcome, available: bool, mark: Option<Fate>, release: Option<Fate>)
    requires op in h.ops && h.data == orig && !IsActive(h.status)
    requires h.status.Some? ==> h.status.value.op != op
    modifies h`tick, h`data, h`status, h`ops, h`cached
    ensures Safe(h, op, orig, old(h.ops)[op].upload) && Mixed(h.data, orig, old(h.ops)[op].upload)
    ensures op in h.ops && h.ops[op].upload == old(h.ops)[op].upload
    ensures available ==> RollbackKept(h.ops, op, orig)
    ensures !available ==> h.data == orig
    ensures o == Done ==> Late(h.status, op) && Essence(h.data) == Essence(ArchiveTree(old(h.ops)[op].upload))
                          && Renewed(orig, h.data, old(h.ops)[op].upload)
    ensures o == Raised && available && !Late(h.status, op) ==>
              h.data == orig || (h.status.Some? && h.status.value.op == op && h.status.value.phase == InProgress)
    ensures o == Raised ==> (Late(h.status, op) <==> LateFates(mark, release))
    ensures RaisesOnceMarked(h.fate, old(h.tick), op) && HasDatabase(orig)
              && Acceptable(old(h.ops)[op].upload, orig) ==>
              && o == Raised && available && Late(h.status, op)
              && Essence(h.data) == Essence(ArchiveTree(old(h.ops)[op].upload))
    ensures Tracked(h, op, orig, old(h.ops)[op].upload) && h.tick >= old(h.tick)
    ensures Faultless(h.fate, old(h.tick)) && HasDatabase(orig) && Acceptable(old(h.ops)[op].upload, orig) ==>
              o == Done
    ensures h.Cued() && HasDatabase(orig) && Acceptable(old(h.ops)[op].upload, orig) ==> h.Excused(o)
  {
    hide Essence, Mixed, Acceptable, ArchiveTree, RollbackKept, RaisesOnceMarked, HasDatabase, Reach, Faultless,
      Renewed, Host.Cued;
    WithinReach(orig, h.ops[op].upload);
    available, mark, release := false, None, None;
    ghost var upload := h.ops[op].upload;
    SettledIsMixed(orig, orig, upload);
    o := Prepare(h, op, orig);
    if o != Done { return; }
    StillSmooth(h.fate, old(h.tick), h.tick, op);
    available := true;
    o := Install(h, op, orig, upload);
    if o != Done { return; }
    StillSmooth(h.fate, old(h.tick), h.tick, op);
    o, mark, release := Conclude(h, op);
  }

  /** The trap's goal is the original state. */
  ghost predicate ForOriginal(h: Host, orig: Tree)
    reads h`trap
  {
    forall d: Tree :: h.trap.goal(d) <==> Essence(d) == Essence(orig)
  }

  /** The emergency rollback inside `except`: it runs from whatever state the failure left. */
  method EmergencyRollback(h: Host, op: OpId, ghost orig: Tree, ghost upload: Archive) returns (o: Outcome)
    requires Safe(h, op, orig, upload) && RollbackKept(h.ops, op, orig) && Mixed(h.data, orig, upload)
    requires Late(h.status, op) || h.data == orig
             || (h.status.Some? && h.status.value.op == op && h.status.value.phase == InProgress)
    modifies h`tick, h`data
    ensures o == Done ==> Essence(h.data) == Essence(orig) && Renewed(old(h.data), h.data, h.ops[op].rollback.value)
    ensures !Late(h.status, op) ==> Safe(h, op, orig, upload)
    ensures Mixed(h.data, orig, upload)
    ensures old(h.data).Keys <= Reach(orig, upload) ==> h.data.Keys <= Reach(orig, upload)
    ensures h.tick >= old(h.tick)
    ensures old(h.Smooth(h.status)) && Acceptable(h.ops[op].rollback.value, old(h.data)) ==> o == Done
    ensures old(h.Trapped()) && ForOriginal(h, orig) && Acceptable(h.ops[op].rollback.value, old(h.data)) ==>
              o == Dead && h.trap.caught(h.data)
  {
    hide Essence, Renewed, ArchiveTree, PathSet, Verifies, Restorable, Host.Smooth, Host.Trapped, Host.Cued;
    ghost var before := h.data;
    ghost var torn;
    o, torn := RestoreArchiveState(h, h.ops[op].rollback);
    BackupKeepsEssence(h.ops[op].rollback.value, orig);
    RestoreKeepsMixed(before, torn, h.ops[op].rollback.value, orig, upload);
    SameMixed(torn, h.data, orig, upload);
    BackupPaths(h.ops[op].rollback.value, orig);
    if before.Keys <= Reach(orig, upload) {
      RestoreStaysWithin(before, torn, h.data, h.ops[op].rollback.value, Reach(orig, upload));
    }
    if before == orig {
      RewritingKeepsEssence(before, torn, h.ops[op].rollback.value);
    }
  }

  lemma SameMixed(a: Tree, b: Tree, orig: Tree, upload: Archive)
    requires Mixed(a, orig, upload) && Essence(a) == Essence(b)
    ensures Mixed(b, orig, upload)
  {
  }

  /** `except` and `finally`. */
  method HandleFailure(h: Host, op: OpId, available: bool, ghost orig: Tree, ghost upload: Archive) returns (o: Outcome)
    requires Safe(h, op, orig, upload) && op in h.ops && Mixed(h.data, orig, upload)
    requires available ==> RollbackKept(h.ops, op, orig)
    requires available ==> Late(h.status, op) || h.data == orig
                           || (h.status.Some? && h.status.value.op == op && h.status.value.phase == InProgress)
    requires !available ==> h.data == orig
    modifies h`tick, h`data, h`status, h`ops, h`cached
    ensures !old(Late(h.status, op)) ==> Safe(h, op, orig, upload)
    ensures !Late(h.status, op) ==> Safe(h, op, orig, upload)
    ensures o == Done ==> Safe(h, op, orig, upload)
    ensures Mixed(h.data, orig, upload) && (old(Tracked(h, op, orig, upload)) ==> Tracked(h, op, orig, upload))
    ensures available && old(h.Trapped()) && ForOriginal(h, orig)
              && Acceptable(old(h.ops)[op].rollback.value, old(h.data)) ==>
              o == Dead && h.status == old(h.status) && h.trap.caught(h.data)
    ensures o == Done ==> FailedOrSo(h, op, orig)
    ensures Faultless(h.fate, old(h.tick)) && (available ==> Acceptable(old(h.ops)[op].rollback.value, old(h.data))) ==>
              o == Done && h.status == Some(Status(Failed, op, None, None)) && op !in h.ops
    ensures h.tick >= old(h.tick)
  {
    hide Essence, IsBackupOf, Mixed, Settled, ForOriginal, Reach, SmoothFrom, Acceptable, Renewed, Host.Trapped,
      Host.Sprung, Host.Cued, Host.Excused;
    var rollbackFailed := false;
    if available {
      o := EmergencyRollback(h, op, orig, upload);
      if o == Dead { return; }
      rollbackFailed := o == Raised;
      StillFaultless(h.fate, old(h.tick), h.tick);
    }
    o := CloseFailure(h, op, rollbackFailed);
  }

  /** The failure mark, and `finally`. */
  method CloseFailure(h: Host, op: OpId, rollbackFailed: bool) returns (o: Outcome)
    modifies h`tick, h`status, h`ops, h`cached
    ensures h.status == old(h.status)
            || (h.status.Some? && h.status.value.op == op
                && h.status.value.phase == if rollbackFailed then RollbackFailed else Failed)
    ensures h.ops == old(h.ops) || (!rollbackFailed && h.ops == old(h.ops) - {op})
    ensures o == Done ==>
              && h.status.Some? && h.status.value.op == op
              && (rollbackFailed ==> h.status.value.phase == RollbackFailed)
              && (!rollbackFailed ==> h.status == Some(Status(Failed, op, None, None)) && op !in h.ops)
    ensures Faultless(h.fate, old(h.tick)) ==> o == Done
    ensures h.tick >= old(h.tick)
  {
    hide SmoothFrom, Host.Trapped, Host.Sprung, Host.Cued, Host.Excused;
    var marked := MarkFailed(h, op, rollbackFailed);
    if marked == Dead { return Dead; }
    StillFaultless(h.fate, old(h.tick), h.tick);
    o := marked;
    if !rollbackFailed {
      var removed := RemoveOperation(h, op);
      if removed != Done { o := removed; }
    }
  }

  /** How a failed restore that was handled to the end leaves things. */
  ghost predicate FailedOrSo(h: Host, op: OpId, orig: Tree)
    reads h
  {
    && h.status.Some? && h.status.value.op == op
    && ((h.status.value.phase == Failed && Essence(h.data) == Essence(orig) && op !in h.ops)
        || (h.status.value.phase == RollbackFailed && RollbackKept(h.ops, op, orig)))
  }

  /** How a restore that was rolled back leaves things. */
  ghost predicate RolledBack(h: Host, op: OpId, orig: Tree)
    reads h
  {
    h.status == Some(Status(Failed, op, None, None)) && Essence(h.data) == Essence(orig) && op !in h.ops
  }

  /** How a restore that succeeded leaves things. */
  ghost predicate RestoredTo(h: Host, op: OpId, orig: Tree, upload: Archive)
    reads h
  {
    && Late(h.status, op) && Essence(h.data) == Essence(ArchiveTree(upload)) && op !in h.ops
    && Renewed(orig, h.data, upload)
  }

  /** `BackupOperationRegistry.remove` */
  method RemoveOperation(h: Host, op: OpId) returns (o: Outcome)
    modifies h`tick, h`ops
    ensures h.ops == old(h.ops) || h.ops == old(h.ops) - {op}
    ensures (o == Done ==> h.ops == old(h.ops) - {op}) && (old(h.Smooth(h.status)) ==> o == Done)
    ensures h.tick >= old(h.tick)
    ensures h.Cued() ==> h.Excused(o)
  {
    var f := h.Turn();
    if TakesEffect(f) { h.ops := h.ops - {op}; }
    o := OutcomeOf(f);
  }

  /**
    `_perform_restore`. Whatever fails or dies, wherever, the durable state stays safe; the one exception is
    a failure raised behind the success mark whose own handling then does not replace that mark. Even then
    every file is the original or the uploaded one. If nothing goes wrong the upload is installed, and if
    one step fails and no other the upload is installed or the original is back.
   */
  method PerformRestore(h: Host, op: OpId, ghost orig: Tree, ghost upload: Archive)
    returns (o: Outcome, mark: Option<Fate>, release: Option<Fate>)
    requires op in h.ops && h.data == orig && h.ops[op].upload == upload && !IsActive(h.status)
    requires h.status.Some? ==> h.status.value.op != op
    modifies h`tick, h`data, h`status, h`ops, h`cached
    ensures !LateFates(mark, release) || !Late(h.status, op) ==> Safe(h, op, orig, upload)
    ensures o == Done ==> Safe(h, op, orig, upload)
    ensures Mixed(h.data, orig, upload) && Tracked(h, op, orig, upload)
    ensures o == Done ==> RestoredTo(h, op, orig, upload) || FailedOrSo(h, op, orig)
    ensures Faultless(h.fate, old(h.tick)) && HasDatabase(orig) && Acceptable(upload, orig) ==>
              o == Done && RestoredTo(h, op, orig, upload)
    ensures h.Cued() && HasDatabase(orig) && Acceptable(upload, orig) && SideBySide(orig, upload) ==>
              && (o == Done ==> RestoredTo(h, op, orig, upload) || RolledBack(h, op, orig))
              && (o == Raised ==> Late(h.status, op) && Essence(h.data) == Essence(ArchiveTree(upload))) && o != Dead
    ensures h.tick >= old(h.tick)
  {
    hide Essence, IsBackupOf, Mixed, Reach, HasDatabase, Acceptable, SmoothFrom, FailedOrSo, SideBySide, Host.Cued;
    var available;
    o, available, mark, release := TryRestore(h, op, orig);
    StillFaultless(h.fate, old(h.tick), h.tick);
    if o == Raised {
      if h.Cued() && HasDatabase(orig) && Acceptable(upload, orig) { h.SpentFault(); }
      if available && SideBySide(orig, upload) {
        RollbackIsAcceptable(orig, upload, h.ops[op].rollback.value, h.data);
      }
      o := HandleFailure(h, op, available, orig, upload);
    } else if o == Done { o := RemoveOperation(h, op); }
  }

  // ----- startup

  /** The rollback archive that the status names, if its directory is still there. */
  function NamedRollback(ops: map<OpId, OpDir>, st: Status): Option<Archive> {
    if st.rollback.Some? && st.rollback.value in ops then ops[st.rollback.value].rollback else None
  }

  lemma RecoverableArchive(data: Tree, ops: map<OpId, OpDir>, st: Status, op: OpId, orig: Tree)
    requires Recoverable(data, ops, op, orig) && st.rollback == Some(op)
    ensures var a := NamedRollback(ops, st);
            if op in ops then a.Some? && Essence(ArchiveTree(a.value)) == Essence(orig) && Verifies(a.value)
              && StagesCleanly(Restorable(a.value.entries))
            else a.None?
  {
    if op in ops {
      BackupKeepsEssence(ops[op].rollback.value, orig);
    }
  }

  lemma RollbackStaysWithin(before: Tree, torn: Tree, now: Tree, ops: map<OpId, OpDir>, op: OpId, orig: Tree)
    requires RollbackKept(ops, op, orig) && BetweenRestore(before, torn, ops[op].rollback.value)
    requires now.Keys <= torn.Keys + {EPOCH_PATH}
    ensures now.Keys <= before.Keys + orig.Keys + {EPOCH_PATH}
  {
    hide IsBackupOf, BetweenRestore;
    BackupPaths(ops[op].rollback.value, orig);
    RestoreStaysWithin(before, torn, now, ops[op].rollback.value, before.Keys + orig.Keys + {EPOCH_PATH});
  }

  /** The `try` of the recovery: the rollback and its mark, all under one handler. */
  method RollBackInterrupted(h: Host, op: OpId, ghost orig: Tree) returns (o: Outcome)
    requires Recoverable(h.data, h.ops, op, orig)
    requires h.status.Some? && h.status.value.rollback == Some(op)
    modifies h`tick, h`data, h`status, h`cached
    ensures Recoverable(h.data, h.ops, op, orig)
    ensures h.status == old(h.status)
            || (h.status.Some? && h.status.value.op == op && h.status.value.phase == Failed
              && Essence(h.data) == Essence(orig))
    ensures o == Done ==> h.cached == h.status && h.status.Some? && h.status.value.op == op
                          && h.status.value.phase == Failed && Essence(h.data) == Essence(orig)
    ensures h.tick >= old(h.tick) && h.data.Keys <= old(h.data).Keys + orig.Keys + {EPOCH_PATH}
    ensures old(h.AllWork()) && RollbackFits(old(h.data), h.ops, op, orig) ==> o == Done
    ensures old(h.AllWork()) && op !in h.ops ==> o == Raised && h.data == old(h.data)
  {
    hide IsBackupOf, Essence, BetweenRestore, Verifies, Clashes, PathsOf, Restorable, ArchiveTree, SmoothFrom,
      Host.Trapped, Host.Next;
    o := h.Pass();                       // operation_lock
    StillFaultless(h.fate, old(h.tick), h.tick);
    if o != Done { return; }
    RecoverableArchive(h.data, h.ops, h.status.value, op, orig);
    var archive := NamedRollback(h.ops, h.status.value);
    ghost var torn;
    o, torn := RestoreArchiveState(h, archive);
    if op in h.ops { RollbackStaysWithin(old(h.data), torn, h.data, h.ops, op, orig); }
    if o != Done { return; }
    o := MarkFailed(h, op, false);
  }

  /** The recovery of an interrupted restore with a usable reference: roll back, or say that it failed. */
  method RecoverFromRollback(h: Host, op: OpId, ghost orig: Tree, ghost upload: Archive) returns (o: Outcome)
    requires Safe(h, op, orig, upload) && h.status.Some?
    requires h.status.value.op == op && h.status.value.phase == InProgress && h.status.value.rollback == Some(op)
    modifies h`tick, h`data, h`status, h`cached
    ensures Safe(h, op, orig, upload)
    ensures o == Done ==> h.cached == h.status && h.status.Some? && h.status.value.phase in {Failed, RollbackFailed}
    ensures old(h.AllWork()) && RollbackFits(old(h.data), h.ops, op, orig) ==>
              o == Done && h.status.Some? && h.status.value.phase == Failed && Essence(h.data) == Essence(orig)
    ensures old(h.AllWork()) && op !in h.ops ==> o == Done && h.data == old(h.data)
    ensures h.data.Keys <= old(h.data).Keys + orig.Keys + {EPOCH_PATH}
    ensures Finished(h.status) || h.status == old(h.status)
    ensures h.tick >= old(h.tick)
  {
    hide Essence, RollbackFits, Settled;
    o := RollBackInterrupted(h, op, orig);
    if o == Raised {
      ghost var st := h.status;
      assert old(h.AllWork()) ==> old(h.Smooth(st));
      o := MarkFailed(h, op, true);
    }
  }

  /** The files of the operation's rollback archive, if it has one. */
  function RollbackPaths(ops: map<OpId, OpDir>, op: OpId): seq<Path>
    requires op in ops
  {
    if ops[op].rollback.Some? then PathsOf(ops[op].rollback.value.entries) else []
  }

  /** No file of that archive stands in the way of a directory of the data, or the other way round. */
  predicate RollbackCanRun(data: Tree, status: Option<Status>, ops: map<OpId, OpDir>, op: OpId) {
    status.Some? && status.value.phase == InProgress && op in ops ==> !Clashes(data, RollbackPaths(ops, op))
  }

  /** The branches that do not touch the data. */
  method MarkUnrecovered(h: Host, op: OpId, id: OpId, rollbackFailed: bool, ghost orig: Tree, ghost upload: Archive)
    returns (o: Outcome)
    requires Safe(h, op, orig, upload) && h.status.Some? && h.status.value.op == id
    requires h.status.value.phase in {Preparing, InProgress} && (h.status.value.phase == InProgress ==> rollbackFailed)
    modifies h`tick, h`status, h`cached
    ensures Safe(h, op, orig, upload)
    ensures o == Done ==> h.cached == h.status && h.status.Some? && h.status.value.phase in {Failed, RollbackFailed}
    ensures Finished(h.status) || h.status == old(h.status)
    ensures old(h.AllWork()) ==> o == Done
    ensures h.tick >= old(h.tick)
  {
    o := MarkFailed(h, id, rollbackFailed);
  }

  /**
    `recover_interrupted_restore`, at the start of a process. It keeps the durable state safe whatever
    happens, and once it returns no interrupted restore is left.
   */
  method RecoverInterruptedRestore(h: Host, op: OpId, ghost orig: Tree, ghost upload: Archive) returns (o: Outcome)
    requires Finished(h.status) || Safe(h, op, orig, upload)
    modifies h`tick, h`data, h`status, h`cached
    ensures old(Safe(h, op, orig, upload)) ==> Safe(h, op, orig, upload)
    ensures o == Done ==> h.cached == h.status && Finished(h.status)
    ensures old(Finished(h.status)) ==> o == Done && h.data == old(h.data) && h.status == old(h.status)
    ensures old(Tracked(h, op, orig, upload)) ==> Tracked(h, op, orig, upload)
    ensures old(h.AllWork() && !Finished(h.status) && Named(h.status, op, h.fingerprint)
                && RollbackCanRun(h.data, h.status, h.ops, op)) ==>
              o == Done && Essence(h.data) == Essence(orig)
    ensures h.tick >= old(h.tick)
  {
    hide Essence, Settled, Clashes, Host.AllWork, IsBackupOf;
    h.cached := None;
    var document := ReadStatus(h);
    if document.None? || document.value.phase !in {Preparing, InProgress} {
      return Done;
    }
    var id := document.value.op;
    if document.value.fingerprint != Some(h.fingerprint) {
      o := MarkUnrecovered(h, op, id, true, orig, upload);
    } else if document.value.phase == Preparing {
      o := MarkUnrecovered(h, op, id, false, orig, upload);
    } else if document.value.rollback.None? {
      o := MarkUnrecovered(h, op, id, true, orig, upload);
    } else {
      o := RecoverFromRollback(h, id, orig, upload);
    }
  }

  /** `cleanup_orphans`: what a running process may delete, and what it must not. */
  method CleanupOrphans(h: Host, records: set<OpId>) returns (o: Outcome)
    modifies h`tick, h`ops, h`cached
    ensures h.ops.Keys <= old(h.ops).Keys && forall q | q in h.ops :: h.ops[q] == old(h.ops)[q]
    ensures forall q | q in old(h.ops) && q in records :: q in h.ops
    ensures h.cached == if old(h.cached).Some? then old(h.cached) else h.status
    ensures var seen := if old(h.cached).Some? then old(h.cached) else h.status;
            IsActive(seen) ==>
              (seen.value.phase != RollbackFailed ==> h.ops == old(h.ops))
              && (seen.value.op in old(h.ops) ==> seen.value.op in h.ops)
    ensures Faultless(h.fate, old(h.tick)) ==> o == Done
    ensures var seen := if old(h.cached).Some? then old(h.cached) else h.status;
            Faultless(h.fate, old(h.tick)) && (IsActive(seen) ==> seen.value.phase == RollbackFailed) ==>
              forall q :: q in h.ops <==>
                q in old(h.ops) && (q in records || (IsActive(seen) && q == seen.value.op))
    ensures h.tick >= old(h.tick)
  {
    hide SmoothFrom, Host.Trapped, Host.Cued;
    var seen := ReadStatus(h);
    StillFaultless(h.fate, old(h.tick), h.tick);
    var protected := if seen.Some? && seen.value.phase == RollbackFailed then {seen.value.op} else {};
    if IsActive(seen) && protected == {} {
      return Done;
    }
    o := h.Pass();                       // operation_lock(timeout=0)
    if o == Raised { return Done; }
    StillFaultless(h.fate, old(h.tick), h.tick);
    if o == Done { o := RemoveUnless(h, records + protected); }
  }

  /** The loop over the operation directories: those of `keep` stay. */
  method RemoveUnless(h: Host, keep: set<OpId>) returns (o: Outcome)
    modifies h`tick, h`ops
    ensures h.ops.Keys <= old(h.ops).Keys && forall q | q in h.ops :: h.ops[q] == old(h.ops)[q]
    ensures forall q | q in old(h.ops) && q in keep :: q in h.ops
    ensures Faultless(h.fate, old(h.tick)) ==> o == Done && h.ops.Keys == old(h.ops).Keys * keep
    ensures h.tick >= old(h.tick)
  {
    hide SmoothFrom, Host.Trapped, Host.Cued;
    o := Done;
    var todo := h.ops.Keys;
    while todo != {} && o == Done
      invariant h.ops.Keys <= old(h.ops).Keys && forall q | q in h.ops :: h.ops[q] == old(h.ops)[q]
      invariant forall q | q in old(h.ops) && q in keep :: q in h.ops
      invariant forall q | q in h.ops :: o == Done ==> q in todo || q in keep
      invariant h.tick >= old(h.tick) && (Faultless(h.fate, old(h.tick)) ==> o == Done)
      decreases |todo|
    {
      var q :| q in todo;
      todo := todo - {q};
      StillFaultless(h.fate, old(h.tick), h.tick);
      if q !in keep { o := RemoveOperation(h, q); }
    }
  }

  /** `public_status`: a status that is not active and old enough is deleted. */
  method ExpireStatus(h: Host) returns (o: Outcome)
    modifies h`tick, h`status, h`cached
    ensures o == Done && (old(h.cached).None? || old(h.cached) == old(h.status)) ==>
              h.cached.None? || h.cached == h.status
    ensures h.status == old(h.status)
              || (h.status == None && !IsActive(if old(h.cached).Some? then old(h.cached) else old(h.status)))
    ensures Faultless(h.fate, old(h.tick)) ==> o == Done
    ensures old(Faultless(h.fate, h.tick) && h.status.Some? && !IsActive(h.status) && h.cached in {None, h.status}) ==>
              h.status == h.cached == None
    ensures h.tick >= old(h.tick)
  {
    hide SmoothFrom, Host.Trapped, Host.Cued;
    var seen := ReadStatus(h);
    if seen.None? || IsActive(seen) { return Done; }
    var f := h.Turn();
    if TakesEffect(f) { h.status := None; }
    if f == Works { h.cached := None; }
    o := OutcomeOf(f);
  }

  lemma KeepsServing(h: Host, op: OpId, orig: Tree, upload: Archive)
    requires Safe(h, op, orig, upload) && Finished(h.status)
    ensures Served(h, op, orig, upload)
  {
  }

  lemma CleanupKeepsSafe(data: Tree, st: Status, before: map<OpId, OpDir>, after: map<OpId, OpDir>, op: OpId,
                         orig: Tree, upload: Archive)
    requires SafeStatus(data, st, before, op, orig, upload)
    requires after.Keys <= before.Keys && forall q | q in after :: after[q] == before[q]
    requires IsActive(Some(st)) ==>
               (st.phase != RollbackFailed ==> after == before) && (st.op in before ==> st.op in after)
    ensures SafeStatus(data, st, after, op, orig, upload)
  {
    hide Settled, Essence, IsBackupOf;
  }

  lemma InactiveIsSettled(data: Tree, st: Status, ops: map<OpId, OpDir>, op: OpId, orig: Tree, upload: Archive)
    requires SafeStatus(data, st, ops, op, orig, upload) && !IsActive(Some(st))
    ensures Settled(data, orig, upload)
  {
    hide Essence;
  }

  /** One housekeeping step of a running process. */
  method Chore(h: Host, op: OpId, cleanup: bool, ghost orig: Tree, ghost upload: Archive) returns (o: Outcome)
    requires Finished(h.status) && (h.cached.None? || h.cached == h.status)
    modifies h`tick, h`ops, h`status, h`cached
    ensures old(Safe(h, op, orig, upload)) ==> Safe(h, op, orig, upload)
    ensures h.status == old(h.status) || h.status == None
    ensures o == Done ==> h.cached.None? || h.cached == h.status
    ensures h.ops.Keys <= old(h.ops).Keys && h.tick >= old(h.tick)
    ensures Faultless(h.fate, old(h.tick)) ==> o == Done
  {
    hide SafeStatus, Settled, Faultless;
    ghost var safe := Safe(h, op, orig, upload);
    if cleanup {
      o := CleanupOrphans(h, {});
      if safe && h.status.Some? {
        CleanupKeepsSafe(h.data, h.status.value, old(h.ops), h.ops, op, orig, upload);
      }
    } else {
      if safe && h.status.Some? && !IsActive(h.status) {
        InactiveIsSettled(h.data, h.status.value, h.ops, op, orig, upload);
      }
      o := ExpireStatus(h);
    }
  }

  /** One process life after the restore: recovery first, then any amount of housekeeping. */
  method ProcessLife(h: Host, op: OpId, chores: seq<bool>, ghost orig: Tree, ghost upload: Archive)
    returns (served: bool)
    requires Finished(h.status) || Safe(h, op, orig, upload)
    modifies h`tick, h`data, h`status, h`ops, h`cached
    ensures old(Safe(h, op, orig, upload)) ==> Safe(h, op, orig, upload) && (served ==> Served(h, op, orig, upload))
    ensures old(Finished(h.status)) ==> h.data == old(h.data) && (h.status == old(h.status) || h.status == None)
    ensures old(Tracked(h, op, orig, upload)) ==> Tracked(h, op, orig, upload)
    ensures h.ops.Keys <= old(h.ops).Keys && h.tick >= old(h.tick)
    ensures Faultless(h.fate, old(h.tick)) && old(Finished(h.status)) ==> served
  {
    hide Reach, Faultless;
    ghost var safe := Safe(h, op, orig, upload);
    var o := RecoverInterruptedRestore(h, op, orig, upload);
    ghost var found := h.status;
    served := o == Done;
    var i := 0;
    while i < |chores| && o == Done
      invariant safe ==> Safe(h, op, orig, upload)
      invariant h.status == found || h.status == None
      invariant old(Finished(h.status)) ==> h.data == old(h.data)
      invariant old(Tracked(h, op, orig, upload)) ==> Tracked(h, op, orig, upload)
      invariant served ==> Finished(h.status)
      invariant h.ops.Keys <= old(h.ops).Keys && h.tick >= old(h.tick)
      invariant o == Done ==> served && (h.cached.None? || h.cached == h.status)
    {
      o := Chore(h, op, chores[i], orig, upload);
      i := i + 1;
    }
    if served && safe { KeepsServing(h, op, orig, upload); }
  }

  /** What a late failure leaves for good: every file is one of the two, and the status is succeeded or has expired. */
  ghost predicate LeftMixed(h: Host, op: OpId, orig: Tree, upload: Archive)
    reads h
  {
    (h.status.None? || Late(h.status, op)) && Mixed(h.data, orig, upload)
  }

  /**
    A web restore with anything going wrong at any single step, then any number of process lives, each of which
    may die at any step as well (`lives` lists the housekeeping of each). Whenever a process gets through
    its recovery, the data directory holds the original or the uploaded state, or the status says that
    the rollback failed, maintenance is active and the backup of the original state is still in its
    operation directory. After a late failure at least every file is the original or the uploaded one.
   */
  method Lifetime(h: Host, op: OpId, lives: seq<seq<bool>>, ghost orig: Tree, ghost upload: Archive)
    returns (served: bool, mark: Option<Fate>, release: Option<Fate>)
    requires op in h.ops && h.data == orig && h.ops[op].upload == upload && !IsActive(h.status)
    requires h.status.Some? ==> h.status.value.op != op
    modifies h`tick, h`data, h`status, h`ops, h`cached
    ensures !LateFates(mark, release) ==> Safe(h, op, orig, upload) && (served ==> Served(h, op, orig, upload))
    ensures LateFates(mark, release) ==> Safe(h, op, orig, upload) || LeftMixed(h, op, orig, upload)
    ensures Faultless(h.fate, old(h.tick)) && HasDatabase(orig) && Acceptable(upload, orig) ==>
              && Essence(h.data) == Essence(ArchiveTree(upload)) && (h.status.None? || Late(h.status, op))
              && op !in h.ops && (lives != [] ==> served)
  {
    hide Essence, IsBackupOf, Mixed, SafeStatus, Settled, Served, Faultless, HasDatabase, Acceptable, ArchiveTree;
    var o;
    served := false;
    o, mark, release := PerformRestore(h, op, orig, upload);
    ghost var safe := Safe(h, op, orig, upload);
    for i := 0 to |lives|
      invariant h.tick >= old(h.tick)
      invariant Faultless(h.fate, old(h.tick)) && HasDatabase(orig) && Acceptable(upload, orig) ==>
                  && Essence(h.data) == Essence(ArchiveTree(upload)) && (h.status.None? || Late(h.status, op))
                  && op !in h.ops && (i > 0 ==> served)
      invariant safe ==> Safe(h, op, orig, upload) && (served ==> Served(h, op, orig, upload))
      invariant !safe ==> LateFates(mark, release) && LeftMixed(h, op, orig, upload)
    {
      StillFaultless(h.fate, old(h.tick), h.tick);
      served := ProcessLife(h, op, lives[i], orig, upload);
    }
  }

  // ----- healing

  lemma TrackedFits(h: Host, op: OpId, orig: Tree, upload: Archive)
    requires Safe(h, op, orig, upload) && Tracked(h, op, orig, upload) && SideBySide(orig, upload)
    ensures RollbackCanRun(h.data, h.status, h.ops, op)
  {
    hide Essence, Settled, IsBackupOf, SideBySide, Reach;
    if h.status.Some? && h.status.value.phase == InProgress && op in h.ops {
      RollbackIsAcceptable(orig, upload, h.ops[op].rollback.value, h.data);
    }
  }

  /**
    A restore that dies at any step, or is left in progress by any failure, then any number of process lives that
    may die or fail as well, and then one life in which nothing goes wrong: if the status said until then
    that the restore was in progress, the original state is back.
   */
  method InterruptedThenHealed(h: Host, op: OpId, lives: seq<seq<bool>>, orig: Tree, upload: Archive)
    returns (interrupted: bool, o: Outcome)
    requires op in h.ops && h.data == orig && h.ops[op].upload == upload && !IsActive(h.status)
    requires (h.status.Some? ==> h.status.value.op != op) && SideBySide(orig, upload)
    modifies h
    ensures interrupted ==> o == Done && Finished(h.status) && Essence(h.data) == Essence(orig)
    ensures !interrupted ==> Finished(h.status)
  {
    hide Essence, IsBackupOf, Mixed, SafeStatus, Settled, Served, SideBySide, Clashes, Reach;
    var mark, release;
    o, mark, release := PerformRestore(h, op, orig, upload);
    for i := 0 to |lives|
      invariant Finished(h.status) || Safe(h, op, orig, upload)
      invariant Tracked(h, op, orig, upload)
    {
      var served := ProcessLife(h, op, lives[i], orig, upload);
    }
    interrupted := !Finished(h.status);
    if interrupted { TrackedFits(h, op, orig, upload); }
    h.fate := (n, d, st) => Works;
    o := RecoverInterruptedRestore(h, op, orig, upload);
  }

  // ----- the exception: a failure behind the success mark

  predicate DifferAt(a: Tree, b: Tree, p: Path) { !SameAt(a, b, p) }

  /** The two states differ on at least two files. */
  ghost predicate TwoApart(a: Tree, b: Tree) { exists p, q :: p != q && DifferAt(a, b, p) && DifferAt(a, b, q) }

  /** Neither the original state nor the uploaded one. */
  predicate Torn(data: Tree, original: Tree, uploaded: Tree) { Essence(data) != original && Essence(data) != uploaded }

  /** So only states that differ on two files can be torn: with one difference every mixture is one of them. */
  lemma MixedIsSettled(data: Tree, orig: Tree, upload: Archive)
    requires Mixed(data, orig, upload) && !TwoApart(Essence(orig), Essence(ArchiveTree(upload)))
    ensures Settled(data, orig, upload)
  {
    hide Essence, ArchiveTree;
    var a, b, now := Essence(orig), Essence(ArchiveTree(upload)), Essence(data);
    if forall p :: SameAt(a, now, p) {
      SameEverywhere(a, now);
    } else {
      var p :| !SameAt(a, now, p);
      assert SameAt(b, now, p) && DifferAt(a, b, p);
      forall q ensures SameAt(b, now, q) {
        assert SameAt(a, now, q) || SameAt(b, now, q);
        assert q != p ==> !DifferAt(a, b, q);
      }
      SameEverywhere(b, now);
    }
  }

  lemma SameEverywhere(a: Tree, b: Tree)
    requires forall p :: SameAt(a, b, p)
    ensures a == b
  {
    assert forall p :: p in a <==> p in b by {
      forall p ensures p in a <==> p in b { assert SameAt(a, b, p); }
    }
    assert a.Keys == b.Keys;
    forall p | p in a ensures a[p] == b[p] { assert SameAt(a, b, p); }
  }

  lemma OneChange(d: Tree, p: Path, c: Content, q: Path)
    requires q != p
    ensures SameAt(Essence(d), Essence(d[p := c]), q) && SameAt(Essence(d), Essence(d - {p}), q)
  {
  }

  /** One change of a file does not lead from the uploaded state to the original one. */
  lemma NoSingleStepBack(original: Tree, uploaded: Tree, trap: Trap)
    requires TwoApart(original, uploaded)
    requires forall d: Tree :: trap.goal(d) <==> Essence(d) == original
    requires forall d: Tree :: trap.caught(d) <==> Torn(d, original, uploaded)
    ensures Barrier(trap)
  {
    var a, b :| a != b && DifferAt(original, uploaded, a) && DifferAt(original, uploaded, b);
    forall d, p, c ensures NoLeap(trap, d, p, c) {
      if !trap.goal(d) && !trap.caught(d) {
        assert Essence(d) == uploaded;
        var q := if p == a then b else a;
        OneChange(d, p, c, q);
      }
    }
  }

  /** The process dies at the first step that finds neither state. */
  method SetTrap(h: Host, original: Tree, uploaded: Tree)
    requires TwoApart(original, uploaded) && Essence(h.data) != original
    modifies h`fate, h`trap
    ensures h.Trapped()
    ensures forall d: Tree :: h.trap.goal(d) <==> Essence(d) == original
    ensures forall d: Tree :: h.trap.caught(d) <==> Torn(d, original, uploaded)
  {
    hide Essence, TwoApart;
    h.fate := (n, d, st) => if Torn(d, original, uploaded) then Dies else Works;
    h.trap := Trap(d => Torn(d, original, uploaded), d => Essence(d) == original);
    NoSingleStepBack(original, uploaded, h.trap);
  }

  /**
    For every original and uploaded state that differ on two essential files there are fates under which the
    restore leaves neither: it raises once the success mark is on disk, and the process dies in its
    emergency rollback as soon as that has changed a file. The status still says that it succeeded.
   */
  method LateFailureTears(h: Host, op: OpId, orig: Tree, upload: Archive)
    requires op in h.ops && h.data == orig && h.ops[op].upload == upload && !IsActive(h.status)
    requires h.status.Some? ==> h.status.value.op != op
    requires HasDatabase(orig) && Acceptable(upload, orig) && SideBySide(orig, upload)
    requires TwoApart(Essence(orig), Essence(ArchiveTree(upload)))
    modifies h
    ensures Late(h.status, op) && Torn(h.data, Essence(orig), Essence(ArchiveTree(upload)))
    ensures !Safe(h, op, orig, upload)
  {
    hide Essence, ArchiveTree, Acceptable, IsBackupOf, Mixed, TwoApart, Reach, Renewed, IsActive, Recoverable,
      Host.Cued;
    var original, uploaded := Essence(orig), Essence(ArchiveTree(upload));
    h.fate := (n, d, st) => if Late(st, op) then Fails else Works;
    var o, available, mark, release := TryRestore(h, op, orig);
    RollbackIsAcceptable(orig, upload, h.ops[op].rollback.value, h.data);
    ApartDiffer(original, uploaded);
    SetTrap(h, original, uploaded);
    o := HandleFailure(h, op, available, orig, upload);
  }

  lemma ApartDiffer(a: Tree, b: Tree)
    requires TwoApart(a, b)
    ensures a != b
  {
  }
}
