/** Pages and cursors of one directory snapshot, over every run of the directory-listing threads. */
module DirectoryPaging {

  import opened Collections
  import opened DirectorySnapshots
  import opened DirectorySafety
  import opened DirectoryRuns

  // ----- the paging invariant

  predicate SnapPages(n: Snap) {
    && (n.status in {Opening, Cancelled} ==> n.nextOffset == 0 && !n.disturbed && !n.final)
    && (n.status == Active ==> n.nextOffset > 0)
    && (n.final && n.status == Active ==> n.lock.Some?)
    && (!n.disturbed ==> n.position <= |n.content| && n.served <= n.content)
    && (!n.disturbed && n.nextOffset > 0 ==> n.position == |n.served|)
    && (!n.disturbed && n.nextOffset > 0 && !n.final ==> n.nextOffset == n.position)
  }

  /** The snapshot's first cursor has not been handed out. */
  predicate BeforeCursor(task: Task, r: Ref) { OpensSnap(task, r) || task == ReturningFirst(r) }

  predicate Unissued(issued: set<Cursor>, r: Ref) { forall c | c in issued :: c.key != r }

  predicate TaskPages(n: Snap, r: Ref, t: Tid, task: Task, issued: set<Cursor>) {
    && (BeforeCursor(task, r) ==> n.opener == t && Unissued(issued, r))
    && (task.Publishing? && task.ref == r ==> 0 < task.count == n.position <= |n.content|)
    && (task == ReturningFirst(r) ==> n.nextOffset > 0 && !n.final && !n.disturbed)
    && (task.PageRead? && task.ref == r ==> task.cursor.offset == n.nextOffset)
    && ((task.PageRead? || task.Rearming?) && task.ref == r ==>
          task.cursor in issued && task.cursor.key == r && n.nextOffset > 0 && !n.final)
    && (n.final && n.status == Active && n.lock == Some(t) ==> task == Ending(r))
  }

  predicate CursorOk(snaps: map<Ref, Snap>, c: Cursor) {
    c.key in snaps && c.id == snaps[c.key].id && 0 < c.offset <= snaps[c.key].nextOffset
  }

  predicate YieldOk(snaps: map<Ref, Snap>, y: (Ref, nat)) {
    y.0 in snaps && (y.1 < snaps[y.0].nextOffset || snaps[y.0].final)
  }

  ghost predicate TasksOk(snaps: map<Ref, Snap>, threads: map<Tid, Thread>, issued: set<Cursor>) {
    forall r, t | r in snaps && t in threads :: TaskPages(snaps[r], r, t, threads[t].task, issued)
  }

  ghost predicate Pages(s: Sys) {
    && (forall r | r in s.snaps :: SnapPages(s.snaps[r]))
    && TasksOk(s.snaps, s.threads, s.issued)
    && (forall c | c in s.issued :: CursorOk(s.snaps, c))
    && (forall y | y in s.yielded :: YieldOk(s.snaps, y))
  }

  // ----- steps that read and deliver nothing

  /** Nothing read or delivered; the status may only have moved towards closing. */
  predicate Control(n: Snap, m: Snap) {
    && m.id == n.id && m.content == n.content && m.position == n.position && m.nextOffset == n.nextOffset
    && m.served == n.served && m.disturbed == n.disturbed && m.final == n.final && m.opener == n.opener
    && (m.status == n.status || m.status == Closing || (n.status == Opening && m.status == Cancelled))
  }

  /** Tasks of which paging asks nothing new. */
  predicate Follows(before: Task, after: Task) {
    || after.Idle? || after.Reserving? || after.Continuing? || after.Locking? || after.Retiring? || after.Waiting?
    || after.Checking? || after.Ending?
    || (after.StoringListing? && before.OpeningCall? && before.ref == after.ref)
    || (after.CheckingCancel? && before.StoringListing? && before.ref == after.ref)
    || (after.FirstRead? && before.CheckingCancel? && before.ref == after.ref)
    || after == before
  }

  /** The lock of a snapshot whose last page is out stays with the thread that will close it. */
  predicate LockKept(n: Snap, m: Snap, r: Ref, t: Tid, before: Task, after: Task) {
    n.final && m.status == Active ==>
      m.lock == n.lock && (n.lock == Some(t) && before == Ending(r) ==> after == Ending(r))
  }

  lemma ControlSnap(n: Snap, m: Snap)
    requires SnapPages(n) && Control(n, m) && (n.final && m.status == Active ==> m.lock == n.lock)
    ensures SnapPages(m)
  {
  }

  lemma ControlTask(n: Snap, m: Snap, r: Ref, t: Tid, before: Task, after: Task, issued: set<Cursor>)
    requires TaskPages(n, r, t, before, issued) && Control(n, m) && Follows(before, after)
    requires LockKept(n, m, r, t, before, after)
    ensures TaskPages(m, r, t, after, issued)
  {
    hide Unissued;
  }

  ghost predicate ControlStep(s: Sys, s': Sys, t: Tid) {
    && s'.snaps.Keys == s.snaps.Keys && s'.threads.Keys == s.threads.Keys && t in s.threads
    && s'.issued == s.issued && s'.yielded == s.yielded
    && Follows(s.threads[t].task, s'.threads[t].task)
    && (forall r | r in s.snaps :: Control(s.snaps[r], s'.snaps[r])
          && LockKept(s.snaps[r], s'.snaps[r], r, t, s.threads[t].task, s'.threads[t].task))
    && (forall u | u in s.threads && u != t :: s'.threads[u].task == s.threads[u].task)
  }

  lemma ControlCursors(s: Sys, s': Sys, t: Tid)
    requires Pages(s) && ControlStep(s, s', t)
    ensures (forall c | c in s'.issued :: CursorOk(s'.snaps, c)) && (forall y | y in s'.yielded :: YieldOk(s'.snaps, y))
  {
    hide LockKept, Follows, TasksOk, SnapPages;
  }

  lemma ControlKeepsPages(s: Sys, s': Sys, t: Tid)
    requires Pages(s) && ControlStep(s, s', t)
    ensures Pages(s')
  {
    ControlCursors(s, s', t);
    hide SnapPages, TaskPages, CursorOk, YieldOk, Control, LockKept;
    forall r | r in s'.snaps ensures SnapPages(s'.snaps[r]) {
      LockStays(s.snaps[r], s'.snaps[r], r, t, s.threads[t].task, s'.threads[t].task);
      ControlSnap(s.snaps[r], s'.snaps[r]);
    }
    forall r, u | r in s'.snaps && u in s'.threads ensures TaskPages(s'.snaps[r], r, u, s'.threads[u].task, s'.issued) {
      var before, after := s.threads[u].task, s'.threads[u].task;
      assert TaskPages(s.snaps[r], r, u, before, s.issued);
      LockStays(s.snaps[r], s'.snaps[r], r, t, s.threads[t].task, s'.threads[t].task);
      LockStaysOther(s.snaps[r], s'.snaps[r], r, u, before);
      ControlTask(s.snaps[r], s'.snaps[r], r, u, before, after, s.issued);
    }
  }

  lemma LockStays(n: Snap, m: Snap, r: Ref, t: Tid, before: Task, after: Task)
    requires LockKept(n, m, r, t, before, after)
    ensures n.final && m.status == Active ==> m.lock == n.lock
  {
  }

  lemma LockStaysOther(n: Snap, m: Snap, r: Ref, t: Tid, task: Task)
    requires n.final && m.status == Active ==> m.lock == n.lock
    ensures LockKept(n, m, r, t, task, task)
  {
  }

  // ----- steps that read, publish or hand out a cursor

  /** A task that names the snapshot `r` and no other. */
  predicate Only(task: Task, r: Ref) {
    || OpensSnap(task, r) || HoldsLock(task, r) || task == Retiring(r) || task == ReturningFirst(r)
    || task.Idle? || task.Reserving?
  }

  lemma OnlyElsewhere(n: Snap, q: Ref, t: Tid, th: Thread, after: Task, r: Ref, issued: set<Cursor>)
    requires q != r && Pair(n, q, t, th) && Only(th.task, r) && Only(after, r)
    ensures TaskPages(n, q, t, after, issued)
  {
  }

  lemma OthersElsewhere(n: Snap, q: Ref, u: Tid, task: Task, issued: set<Cursor>, issued': set<Cursor>, r: Ref)
    requires q != r && TaskPages(n, q, u, task, issued) && issued <= issued'
               && forall c | c in issued' - issued :: c.key == r
    ensures TaskPages(n, q, u, task, issued')
  {
    assert Unissued(issued, q) ==> Unissued(issued', q);
  }

  /** One snapshot and one thread change, and new cursors are for that snapshot. */
  ghost predicate ReadStep(s: Sys, s': Sys, t: Tid, r: Ref) {
    && r in s.snaps && r in s'.snaps && s'.snaps == s.snaps[r := s'.snaps[r]]
    && t in s.threads && t in s'.threads && s'.threads == s.threads[t := s'.threads[t]]
    && Only(s.threads[t].task, r) && Only(s'.threads[t].task, r)
    && s.issued <= s'.issued && (forall c | c in s'.issued - s.issued :: c.key == r)
    && s.yielded <= s'.yielded
  }

  ghost predicate ReadStepOk(s: Sys, s': Sys, t: Tid, r: Ref)
    requires r in s.snaps && r in s'.snaps && t in s'.threads
  {
    && SnapPages(s'.snaps[r]) && TaskPages(s'.snaps[r], r, t, s'.threads[t].task, s'.issued)
    && (forall u | u in s.threads && u != t :: TaskPages(s'.snaps[r], r, u, s.threads[u].task, s'.issued))
    && s'.snaps[r].id == s.snaps[r].id && s.snaps[r].nextOffset <= s'.snaps[r].nextOffset
      && (s.snaps[r].final ==> s'.snaps[r].final)
    && (forall c | c in s'.issued - s.issued :: CursorOk(s'.snaps, c))
    && (forall y | y in s'.yielded - s.yielded :: YieldOk(s'.snaps, y))
  }

  lemma ReadCursors(s: Sys, s': Sys, t: Tid, r: Ref)
    requires Pages(s) && ReadStep(s, s', t, r) && ReadStepOk(s, s', t, r)
    ensures (forall c | c in s'.issued :: CursorOk(s'.snaps, c)) && (forall y | y in s'.yielded :: YieldOk(s'.snaps, y))
  {
    hide SnapPages, TaskPages, Only, TasksOk;
    forall c | c in s'.issued ensures CursorOk(s'.snaps, c) { if c in s.issued { assert CursorOk(s.snaps, c); } }
    forall y | y in s'.yielded ensures YieldOk(s'.snaps, y) { if y in s.yielded { assert YieldOk(s.snaps, y); } }
  }

  lemma ReadKeepsPages(s: Sys, s': Sys, t: Tid, r: Ref)
    requires Inv(s) && Pages(s) && ReadStep(s, s', t, r) && ReadStepOk(s, s', t, r)
    ensures Pages(s')
  {
    hide SnapPages, TaskPages, Only, CursorOk, YieldOk, Inv;
    ReadCursors(s, s', t, r);
    forall q, u | q in s'.snaps && u in s'.threads ensures TaskPages(s'.snaps[q], q, u, s'.threads[u].task, s'.issued) {
      if q != r {
        assert TaskPages(s.snaps[q], q, u, s.threads[u].task, s.issued);
        PairOf(s, q, u);
        if u == t { OnlyElsewhere(s.snaps[q], q, t, s.threads[t], s'.threads[t].task, r, s'.issued); }
        else { OthersElsewhere(s.snaps[q], q, u, s.threads[u].task, s.issued, s'.issued, r); }
      }
    }
  }

  // what these steps do to the one snapshot, seen from each thread

  lemma FirstReadOther(n: Snap, m: Snap, r: Ref, t: Tid, u: Tid, task: Task, issued: set<Cursor>)
    requires TaskPages(n, r, u, task, issued) && u != t && n.opener == t
    requires m == n.(position := m.position, served := m.served)
    ensures TaskPages(m, r, u, task, issued)
  {
  }

  lemma FirstReadKeepsPages(s: Sys, e: Event)
    requires Inv(s) && Pages(s) && Enabled(s, e) && e.FirstReadReturns?
    ensures Pages(ApplyOpen(s, e))
  {
    hide Inv, SnapPages, TaskPages, CursorOk, YieldOk, Unissued, Enabled, ApplyOpen, Pair;
    FirstReadShape(s, e);
    var t, r, s' := e.t, s.threads[e.t].task.ref, ApplyOpen(s, e);
    PairOf(s, r, t);
    OpenerStatus(s.snaps[r], r, t, s.threads[t]);
    var n, m := s.snaps[r], s'.snaps[r];
    assert TaskPages(n, r, t, s.threads[t].task, s.issued);
    FirstReadSelf(n, m, r, t, s.threads[t].task, s'.threads[t].task, s.issued, e.count, e.more);
    forall u | u in s.threads && u != t ensures TaskPages(m, r, u, s.threads[u].task, s.issued) {
      assert TaskPages(n, r, u, s.threads[u].task, s.issued);
      FirstReadOther(n, m, r, t, u, s.threads[u].task, s.issued);
    }
    ReadKeepsPages(s, s', t, r);
  }

  lemma OpenerStatus(n: Snap, r: Ref, t: Tid, th: Thread)
    requires Pair(n, r, t, th) && OpensSnap(th.task, r)
    ensures n.opener == t && n.status in {Opening, Cancelled}
  {
  }

  lemma FirstReadSelf(n: Snap, m: Snap, r: Ref, t: Tid, before: Task, after: Task, issued: set<Cursor>, count: nat,
                      more: bool)
    requires SnapPages(n) && TaskPages(n, r, t, before, issued) && before == FirstRead(r)
    requires n.status in {Opening, Cancelled}
    requires count <= |n.content| && (more ==> count > 0)
    requires m == ReadFirst(n, count, more)
    requires after == if more then Publishing(r, count) else Retiring(r)
    ensures n.opener == t && SnapPages(m) && TaskPages(m, r, t, after, issued)
  {
    hide Unissued;
  }

  predicate HasPublished(s: Sys, t: Tid) { t in s.threads && s.threads[t].task.ReturningFirst? }

  predicate MayRead(s: Sys, t: Tid) { t in s.threads && s.threads[t].task.PageRead? }

  lemma PublishKeepsPages(s: Sys, e: Event)
    requires Inv(s) && Pages(s) && Enabled(s, e) && e.Publish?
    requires HasPublished(ApplyOpen(s, e), e.t)
    ensures Pages(ApplyOpen(s, e))
  {
    hide Inv, SnapPages, TaskPages, CursorOk, YieldOk, Unissued;
    var t, r, s' := e.t, s.threads[e.t].task.ref, ApplyOpen(s, e);
    NamesExist(s, t, r);
    PairOf(s, r, t);
    var n, m := s.snaps[r], s'.snaps[r];
    assert TaskPages(n, r, t, s.threads[t].task, s.issued);
    PublishPagesSelf(n, m, r, t, s.threads[t].task, s.issued);
    forall u | u in s.threads && u != t ensures TaskPages(m, r, u, s.threads[u].task, s.issued) {
      assert TaskPages(n, r, u, s.threads[u].task, s.issued);
      PairOf(s, r, u);
      PublishPagesOther(n, m, r, t, u, s.threads[u], s.issued);
    }
    ReadKeepsPages(s, s', t, r);
  }

  lemma PublishPagesSelf(n: Snap, m: Snap, r: Ref, t: Tid, before: Task, issued: set<Cursor>)
    requires SnapPages(n) && TaskPages(n, r, t, before, issued) && before.Publishing? && before.ref == r
    requires n.status == Opening
    requires before.count <= |n.content|
    requires m == n.(status := Active, nextOffset := before.count, served := n.content[..before.count])
    ensures n.opener == t && n.nextOffset == 0 && SnapPages(m) && TaskPages(m, r, t, ReturningFirst(r), issued)
  {
    hide Unissued;
  }

  lemma PublishPagesOther(n: Snap, m: Snap, r: Ref, t: Tid, u: Tid, th: Thread, issued: set<Cursor>)
    requires TaskPages(n, r, u, th.task, issued) && Pair(n, r, u, th) && SnapPages(n) && u != t && n.opener == t
    requires n.status == Opening
    requires m == n.(status := Active, nextOffset := m.nextOffset, served := m.served)
    ensures TaskPages(m, r, u, th.task, issued)
  {
    hide Unissued;
  }

  /** A cursor for where the snapshot stands. */
  function NextCursor(n: Snap, r: Ref): Cursor { Cursor(n.id, n.nextOffset, r) }

  lemma ReturnOther(n: Snap, r: Ref, t: Tid, u: Tid, task: Task, issued: set<Cursor>)
    requires TaskPages(n, r, u, task, issued) && u != t && n.opener == t
    ensures TaskPages(n, r, u, task, issued + {NextCursor(n, r)})
  {
  }

  lemma ReturnFirstKeepsPages(s: Sys, e: Event)
    requires Inv(s) && Pages(s) && Enabled(s, e) && e.ReturnFirst?
    ensures Pages(ApplyOpen(s, e))
  {
    hide Inv, SnapPages, TaskPages, CursorOk, YieldOk, Unissued;
    var t, r, s' := e.t, s.threads[e.t].task.ref, ApplyOpen(s, e);
    NamesExist(s, t, r);
    PairOf(s, r, t);
    var n := s.snaps[r];
    assert TaskPages(n, r, t, ReturningFirst(r), s.issued);
    ReturnSelf(n, r, t, s.threads[t], s.snaps, s.issued);
    forall u | u in s.threads && u != t ensures TaskPages(n, r, u, s.threads[u].task, s'.issued) {
      assert TaskPages(n, r, u, s.threads[u].task, s.issued);
      ReturnOther(n, r, t, u, s.threads[u].task, s.issued);
    }
    ReadKeepsPages(s, s', t, r);
  }

  lemma ReturnSelf(n: Snap, r: Ref, t: Tid, th: Thread, snaps: map<Ref, Snap>, issued: set<Cursor>)
    requires TaskPages(n, r, t, ReturningFirst(r), issued) && Pair(n, r, t, th) && th.task == ReturningFirst(r)
    requires r in snaps && snaps[r] == n
    ensures n.opener == t && TaskPages(n, r, t, Idle, issued + {NextCursor(n, r)}) && CursorOk(snaps, NextCursor(n, r))
  {
  }

  // the active check, which lets a continuation read

  lemma CheckSelf(n: Snap, r: Ref, t: Tid, th: Thread, cursor: Cursor, issued: set<Cursor>)
    requires SnapPages(n) && TaskPages(n, r, t, th.task, issued) && Pair(n, r, t, th) && th.task == Checking(r, cursor)
    requires n.status == Active && cursor in issued && cursor.key == r && cursor.offset == n.nextOffset
    ensures TaskPages(n, r, t, PageRead(r, cursor), issued)
  {
  }

  lemma CheckKeepsPages(s: Sys, e: Event)
    requires Inv(s) && Pages(s) && Enabled(s, e) && e.CheckActive?
    requires MayRead(ApplyContinue(s, e), e.t)
    ensures Pages(ApplyContinue(s, e))
  {
    hide Inv, SnapPages, TaskPages, CursorOk, YieldOk, Unissued;
    var t, r, s' := e.t, s.threads[e.t].task.ref, ApplyContinue(s, e);
    NamesExist(s, t, r);
    PairOf(s, r, t);
    assert forall u | u in s.threads :: TaskPages(s.snaps[r], r, u, s.threads[u].task, s.issued);
    CheckSelf(s.snaps[r], r, t, s.threads[t], s.threads[t].task.cursor, s.issued);
    ReadKeepsPages(s, s', t, r);
  }

  // reading a page

  lemma PageSelf(n: Snap, m: Snap, r: Ref, t: Tid, th: Thread, issued: set<Cursor>, count: nat, more: bool,
                 snaps: map<Ref, Snap>)
    requires SnapPages(n) && TaskPages(n, r, t, th.task, issued) && Pair(n, r, t, th) && th.task.PageRead?
    requires th.task.ref == r
    requires n.position + count <= |n.content| && (more ==> count > 0)
    requires m == ReadPage(n, count, more)
    requires r in snaps && snaps[r] == m
    ensures SnapPages(m) && n.lock == Some(t) && th.task.cursor in issued && th.task.cursor.key == r && n.nextOffset > 0
    ensures !n.final
    ensures TaskPages(m, r, t, if more then Rearming(r, th.task.cursor) else Ending(r), issued)
    ensures YieldOk(snaps, (r, th.task.cursor.offset))
  {
    if !n.disturbed { PrefixGrows(n.served, n.content, n.position, count); }
  }

  lemma PrefixGrows(served: seq<Name>, content: seq<Name>, position: nat, count: nat)
    requires served <= content && |served| == position && position + count <= |content|
    ensures served + content[position..position + count] <= content
  {
  }

  lemma PageOther(n: Snap, m: Snap, r: Ref, t: Tid, u: Tid, th: Thread, issued: set<Cursor>, c: Cursor)
    requires TaskPages(n, r, u, th.task, issued) && Pair(n, r, u, th) && u != t && n.lock == Some(t) && c in issued
    requires c.key == r
    requires m.lock == n.lock && m.status == n.status && m.content == n.content && m.opener == n.opener
    ensures TaskPages(m, r, u, th.task, issued)
  {
  }

  lemma PageKeepsPages(s: Sys, e: Event)
    requires Inv(s) && Pages(s) && Enabled(s, e) && e.PageReturns?
    ensures Pages(ApplyContinue(s, e))
  {
    hide Inv, SnapPages, TaskPages, CursorOk, YieldOk, Unissued, Pair, Enabled, ApplyContinue, SnapOk;
    PageShape(s, e);
    var t, r, c, s' := e.t, s.threads[e.t].task.ref, s.threads[e.t].task.cursor, ApplyContinue(s, e);
    PairOf(s, r, t);
    var n, m := s.snaps[r], s'.snaps[r];
    assert TaskPages(n, r, t, s.threads[t].task, s.issued);
    PageSelf(n, m, r, t, s.threads[t], s.issued, e.count, e.more, s'.snaps);
    forall u | u in s.threads && u != t ensures TaskPages(m, r, u, s.threads[u].task, s.issued) {
      assert TaskPages(n, r, u, s.threads[u].task, s.issued);
      PairOf(s, r, u);
      PageOther(n, m, r, t, u, s.threads[u], s.issued, c);
    }
    ReadKeepsPages(s, s', t, r);
  }

  /** The cursor being served has yielded nothing before. */
  lemma PageIsNew(s: Sys, e: Event)
    requires Inv(s) && Pages(s) && Enabled(s, e) && e.PageReturns?
    ensures var task := s.threads[e.t].task; task.PageRead? && (task.ref, task.cursor.offset) !in s.yielded
  {
    hide Inv, SnapPages, TaskPages, CursorOk, Unissued, Enabled, ApplyContinue;
    PageShape(s, e);
    var t, r := e.t, s.threads[e.t].task.ref;
    assert TaskPages(s.snaps[r], r, t, s.threads[t].task, s.issued);
    ReadsAtOffset(s.snaps[r], r, t, s.threads[t].task, s.issued);
  }

  lemma ReadsAtOffset(n: Snap, r: Ref, t: Tid, task: Task, issued: set<Cursor>)
    requires TaskPages(n, r, t, task, issued) && task.PageRead? && task.ref == r
    ensures task.cursor.offset == n.nextOffset && !n.final
  {
  }

  // a read that raises, and the hand-over of the next cursor

  lemma RaiseSelf(n: Snap, m: Snap, r: Ref, t: Tid, th: Thread, issued: set<Cursor>)
    requires SnapPages(n) && TaskPages(n, r, t, th.task, issued) && Pair(n, r, t, th) && th.task.PageRead?
    requires th.task.ref == r
    requires m == n.(position := m.position, disturbed := true, lock := None)
    ensures SnapPages(m) && n.lock == Some(t) && th.task.cursor in issued && th.task.cursor.key == r && !n.final
    ensures TaskPages(m, r, t, Idle, issued)
  {
  }

  lemma LeaveOther(n: Snap, m: Snap, r: Ref, t: Tid, u: Tid, th: Thread, issued: set<Cursor>, c: Cursor)
    requires TaskPages(n, r, u, th.task, issued) && Pair(n, r, u, th) && u != t && n.lock == Some(t) && c in issued
    requires c.key == r
    requires m.lock == None && m.status == n.status && m.content == n.content && m.opener == n.opener
    ensures TaskPages(m, r, u, th.task, issued + {NextCursor(m, r)}) && TaskPages(m, r, u, th.task, issued)
  {
  }

  lemma RaiseKeepsPages(s: Sys, e: Event)
    requires Inv(s) && Pages(s) && Enabled(s, e) && e.PageRaises?
    ensures Pages(ApplyContinue(s, e))
  {
    hide Inv, SnapPages, TaskPages, CursorOk, YieldOk, Unissued;
    var t, r, s' := e.t, s.threads[e.t].task.ref, ApplyContinue(s, e);
    NamesExist(s, t, r);
    PairOf(s, r, t);
    var n, m := s.snaps[r], s'.snaps[r];
    assert TaskPages(n, r, t, s.threads[t].task, s.issued);
    RaiseSelf(n, m, r, t, s.threads[t], s.issued);
    forall u | u in s.threads && u != t ensures TaskPages(m, r, u, s.threads[u].task, s.issued) {
      assert TaskPages(n, r, u, s.threads[u].task, s.issued);
      PairOf(s, r, u);
      LeaveOther(n, m, r, t, u, s.threads[u], s.issued, s.threads[t].task.cursor);
    }
    ReadKeepsPages(s, s', t, r);
  }

  lemma RearmSelf(n: Snap, m: Snap, r: Ref, t: Tid, th: Thread, issued: set<Cursor>, snaps: map<Ref, Snap>)
    requires SnapPages(n) && TaskPages(n, r, t, th.task, issued) && Pair(n, r, t, th) && th.task.Rearming?
    requires th.task.ref == r
    requires m == n.(lock := None) && r in snaps && snaps[r] == m
    ensures SnapPages(m) && n.lock == Some(t) && th.task.cursor in issued && th.task.cursor.key == r
    ensures TaskPages(m, r, t, Idle, issued + {NextCursor(m, r)}) && CursorOk(snaps, NextCursor(m, r))
  {
  }

  lemma RearmKeepsPages(s: Sys, e: Event)
    requires Inv(s) && Pages(s) && Enabled(s, e) && e.Rearm?
    ensures Pages(ApplyContinue(s, e))
  {
    hide Inv, SnapPages, TaskPages, CursorOk, YieldOk, Unissued;
    var t, r, s' := e.t, s.threads[e.t].task.ref, ApplyContinue(s, e);
    NamesExist(s, t, r);
    PairOf(s, r, t);
    RegisteredIffOpen(s, r);
    var n, m := s.snaps[r], s'.snaps[r];
    assert s'.issued == s.issued + {NextCursor(m, r)};
    assert TaskPages(n, r, t, s.threads[t].task, s.issued);
    RearmSelf(n, m, r, t, s.threads[t], s.issued, s'.snaps);
    forall u | u in s.threads && u != t ensures TaskPages(m, r, u, s.threads[u].task, s'.issued) {
      assert TaskPages(n, r, u, s.threads[u].task, s.issued);
      PairOf(s, r, u);
      LeaveOther(n, m, r, t, u, s.threads[u], s.issued, s.threads[t].task.cursor);
    }
    ReadKeepsPages(s, s', t, r);
  }

  // reserving

  lemma NewOther(m: Snap, r: Ref, t: Tid, u: Tid, th: Thread, issued: set<Cursor>)
    requires u != t && !Names(th, r) && m == Reserved(m.id, m.owner, m.content, t)
    ensures TaskPages(m, r, u, th.task, issued)
  {
  }

  lemma NewSelf(m: Snap, r: Ref, t: Tid, issued: set<Cursor>)
    requires m == Reserved(m.id, m.owner, m.content, t) && Unissued(issued, r)
    ensures SnapPages(m) && TaskPages(m, r, t, OpeningCall(r), issued)
  {
  }

  lemma NewCursors(s: Sys, snaps: map<Ref, Snap>, r: Ref, m: Snap)
    requires Pages(s) && r !in s.snaps && snaps == s.snaps[r := m]
    ensures Unissued(s.issued, r)
    ensures (forall c | c in s.issued :: CursorOk(snaps, c)) && (forall y | y in s.yielded :: YieldOk(snaps, y))
  {
    hide SnapPages, TasksOk;
    forall c | c in s.issued ensures CursorOk(snaps, c) && c.key != r { assert CursorOk(s.snaps, c); }
    forall y | y in s.yielded ensures YieldOk(snaps, y) { assert YieldOk(s.snaps, y); }
  }

  lemma InsertKeepsPages(s: Sys, e: Event)
    requires Inv(s) && Pages(s) && Enabled(s, e) && e.Insert?
    ensures Pages(ApplyOpen(s, e))
  {
    hide Inv, SnapPages, TaskPages, CursorOk, YieldOk, Unissued, Names, AtCapacity;
    var t, r, s' := e.t, e.ref, ApplyOpen(s, e);
    var m := Reserved(e.id, s.threads[t].task.owner, e.content, t);
    NewCursors(s, s'.snaps, r, m);
    NewSelf(m, r, t, s.issued);
    forall q, u | q in s'.snaps && u in s'.threads ensures TaskPages(s'.snaps[q], q, u, s'.threads[u].task, s'.issued) {
      if q != r {
        assert TaskPages(s.snaps[q], q, u, s.threads[u].task, s.issued);
        PairOf(s, q, u);
        if u == t { OnlyElsewhere(s.snaps[q], q, t, s.threads[t], OpeningCall(r), r, s.issued); }
      } else if u != t {
        if Names(s.threads[u], r) { NamesExist(s, u, r); }
        NewOther(m, r, t, u, s.threads[u], s.issued);
      }
    }
  }

  // the steps that read and deliver nothing

  lemma OneControl(s: Sys, s': Sys, t: Tid, r: Ref, m: Snap, th: Thread)
    requires Pages(s) && t in s.threads && r in s.snaps && s'.snaps == s.snaps[r := m]
    requires s'.threads == s.threads[t := th]
    requires s'.issued == s.issued && s'.yielded == s.yielded && Follows(s.threads[t].task, th.task)
    requires Control(s.snaps[r], m) && LockKept(s.snaps[r], m, r, t, s.threads[t].task, th.task)
    requires s.threads[t].task == Ending(r) || !s.threads[t].task.Ending? || th.task == s.threads[t].task
    ensures Pages(s')
  {
    hide Pages;
    ControlKeepsPages(s, s', t);
  }

  lemma ThreadControl(s: Sys, s': Sys, t: Tid, th: Thread)
    requires Pages(s) && t in s.threads && s'.snaps == s.snaps && s'.threads == s.threads[t := th]
    requires s'.issued == s.issued && s'.yielded == s.yielded && Follows(s.threads[t].task, th.task)
    requires !s.threads[t].task.Ending? || th.task == s.threads[t].task
    ensures Pages(s')
  {
    hide Pages;
    ControlKeepsPages(s, s', t);
  }

  lemma SweepPages(s: Sys, t: Tid, close: seq<Ref>, cancel: set<Ref>, flag: set<Ref>, task: Task)
    requires Pages(s) && t in s.threads && (task == s.threads[t].task || task.Idle? || task.Waiting?)
    requires Roaming(s.threads[t].task)
    requires forall r | r in cancel :: HasStatus(s, r, Opening)
    ensures Pages(Sweep(s, t, close, cancel, flag, task))
  {
    hide Pages;
    ControlKeepsPages(s, Sweep(s, t, close, cancel, flag, task), t);
  }

  lemma CancelKeepsPages(s: Sys, e: Event)
    requires Pages(s) && Enabled(s, e) && CancelEvent(e) && !e.CancelCursor?
    ensures Pages(ApplyCancel(s, e))
  {
    hide Pages, Sweep, SelectStatus, Registered, Distinct;
    var t, task := e.t, s.threads[e.t].task;
    if e.Prune? { SweepPages(s, t, e.expired, {}, {}, task); }
    else if e.EvictOwn? { SweepPages(s, t, [e.victim], {}, {}, task); }
    else if e.TimerFires? { SweepPages(s, t, [e.ref], {}, {}, Idle); }
    else {
      var cancel := set r | r in e.matches && HasStatus(s, r, Opening);
      var await := ToAwait(s, e.matches);
      SweepPages(s, t, SelectStatus(s, e.matches, Active), cancel, {}, Idle);
      SweepPages(s, t, SelectStatus(s, e.matches, Active), cancel, set r | r in e.matches, if await == {} then Idle
        else Waiting(await));
    }
  }

  lemma CursorCancelKeepsPages(s: Sys, e: Event)
    requires Inv(s) && Pages(s) && Enabled(s, e) && e.CancelCursor?
    ensures Pages(ApplyCancel(s, e))
  {
    hide Inv, Pages, Sweep;
    if e.cursor.id in s.registry && CursorValid(s, e.cursor, s.registry[e.cursor.id]) {
      var r := s.registry[e.cursor.id];
      PairOf(s, r, e.t);
      SweepPages(s, e.t, [r], {}, {r}, Idle);
      SweepPages(s, e.t, [], {}, {r}, Waiting({r}));
    }
  }

  lemma BeginCloseKeepsPages(s: Sys, e: Event)
    requires Inv(s) && Pages(s) && Enabled(s, e) && e.CloseBegin?
    ensures Pages(ApplyClose(s, e))
  {
    hide Inv, Pages, Registered, Distinct, AtCapacity;
    var t, s' := e.t, ApplyClose(s, e);
    var r := s.threads[t].debts[0];
    if s.snaps[r].closeStarted { ThreadControl(s, s', t, s'.threads[t]); }
    else {
      PairOf(s, r, t);
      OneControl(s, s', t, r, s'.snaps[r], s'.threads[t]);
    }
  }

  lemma CloseKeepsPages(s: Sys, e: Event)
    requires Inv(s) && Pages(s) && Enabled(s, e) && (e.CloseBegin? || e.CloseHandle? || e.CloseFinish? || e.WaitDone?)
    ensures Pages(ApplyClose(s, e))
  {
    if e.CloseBegin? {
      hide Inv, Pages, Enabled, ApplyClose;
      BeginCloseKeepsPages(s, e);
    } else {
      hide Inv, Pages, Pair, Registered, Distinct, AtCapacity;
      var t, s' := e.t, ApplyClose(s, e);
      if e.WaitDone? { ThreadControl(s, s', t, s'.threads[t]); }
      else {
        var r := s.threads[t].debts[0];
        NamesExist(s, t, r);
        OneControl(s, s', t, r, s'.snaps[r], s'.threads[t]);
      }
    }
  }

  lemma StoreKeepsPages(s: Sys, e: Event)
    requires Inv(s) && Pages(s) && Enabled(s, e) && (e.Retire? || e.StoreListing?)
    ensures Pages(ApplyOpen(s, e))
  {
    hide Inv, Pages, Registered, HasStatus, AtCapacity, Distinct;
    var t, r, s' := e.t, s.threads[e.t].task.ref, ApplyOpen(s, e);
    NamesExist(s, t, r);
    if e.Retire? && !Registered(s, r) { ThreadControl(s, s', t, s'.threads[t]); }
    else { OneControl(s, s', t, r, s'.snaps[r], s'.threads[t]); }
  }

  lemma OpenKeepsPages(s: Sys, e: Event)
    requires Inv(s) && Pages(s) && Enabled(s, e) && OpenEvent(e) && !e.Insert? && !e.FirstReadReturns?
    requires !e.ReturnFirst?
    requires !HasPublished(ApplyOpen(s, e), e.t)
    ensures Pages(ApplyOpen(s, e))
  {
    if e.Retire? || e.StoreListing? {
      hide Inv, Pages, Enabled, ApplyOpen;
      StoreKeepsPages(s, e);
    } else {
      hide Inv, Pages, Registered, HasStatus, AtCapacity, Distinct;
      ThreadControl(s, ApplyOpen(s, e), e.t, ApplyOpen(s, e).threads[e.t]);
    }
  }

  lemma LockFacts(s: Sys, t: Tid, r: Ref)
    requires Inv(s) && Pages(s) && t in s.threads && r in s.snaps
    ensures SnapPages(s.snaps[r]) && TaskPages(s.snaps[r], r, t, s.threads[t].task, s.issued)
    ensures HoldsLock(s.threads[t].task, r) ==> s.snaps[r].lock == Some(t)
    ensures s.snaps[r].status == Active ==> Registered(s, r)
  {
    hide Inv, SnapPages, TaskPages, CursorOk, YieldOk;
    PairOf(s, r, t);
    RegisteredIffOpen(s, r);
  }

  lemma ContinueKeepsPages(s: Sys, e: Event)
    requires Inv(s) && Pages(s) && Enabled(s, e) && (e.Lookup? || e.PageFails?)
    ensures Pages(ApplyContinue(s, e))
  {
    hide Inv, Pages;
    var s' := ApplyContinue(s, e);
    ThreadControl(s, s', e.t, s'.threads[e.t]);
  }

  lemma LockKeepsPages(s: Sys, e: Event)
    requires Inv(s) && Pages(s) && Enabled(s, e) && (e.Acquire? || e.EndLocked?)
    ensures Pages(ApplyContinue(s, e))
  {
    hide Inv, Pages, Free, CursorValid, OwnedBy;
    var t, r, s' := e.t, s.threads[e.t].task.ref, ApplyContinue(s, e);
    NamesExist(s, t, r);
    LockFacts(s, t, r);
    OneControl(s, s', t, r, s'.snaps[r], s'.threads[t]);
  }

  lemma FailedCheckKeepsPages(s: Sys, e: Event)
    requires Inv(s) && Pages(s) && Enabled(s, e) && e.CheckActive? && !MayRead(ApplyContinue(s, e), e.t)
    ensures Pages(ApplyContinue(s, e))
  {
    hide Inv, Pages, Registered, CursorValid;
    var t, r, s' := e.t, s.threads[e.t].task.ref, ApplyContinue(s, e);
    NamesExist(s, t, r);
    LockFacts(s, t, r);
    OneControl(s, s', t, r, s'.snaps[r], s'.threads[t]);
  }

  lemma ContinuationKeepsPages(s: Sys, e: Event)
    requires Inv(s) && Pages(s) && Enabled(s, e) && ContinueEvent(e)
    ensures Pages(ApplyContinue(s, e))
  {
    hide Inv, Pages, Enabled, ApplyContinue;
    if e.CheckActive? && MayRead(ApplyContinue(s, e), e.t) { CheckKeepsPages(s, e); }
    else if e.CheckActive? { FailedCheckKeepsPages(s, e); }
    else if e.PageReturns? { PageKeepsPages(s, e); }
    else if e.PageRaises? { RaiseKeepsPages(s, e); }
    else if e.Rearm? { RearmKeepsPages(s, e); }
    else if e.Acquire? || e.EndLocked? { LockKeepsPages(s, e); }
    else { ContinueKeepsPages(s, e); }
  }

  lemma StepKeepsPages(s: Sys, e: Event)
    requires Inv(s) && Pages(s) && Enabled(s, e)
    ensures Pages(Apply(s, e))
  {
    hide Inv, Pages, Enabled, ApplyOpen, ApplyContinue, ApplyCancel, ApplyClose;
    if ContinueEvent(e) { ContinuationKeepsPages(s, e); }
    else if e.Insert? { InsertKeepsPages(s, e); }
    else if e.FirstReadReturns? { FirstReadKeepsPages(s, e); }
    else if e.ReturnFirst? { ReturnFirstKeepsPages(s, e); }
    else if OpenEvent(e) {
      if HasPublished(ApplyOpen(s, e), e.t) { FirstPublished(s, e); PublishKeepsPages(s, e); }
        else { OpenKeepsPages(s, e); }
    }
    else if e.CancelCursor? { CursorCancelKeepsPages(s, e); }
    else if CancelEvent(e) { CancelKeepsPages(s, e); }
    else { CloseKeepsPages(s, e); }
  }

  lemma FirstPublished(s: Sys, e: Event)
    requires Enabled(s, e) && OpenEvent(e) && HasPublished(ApplyOpen(s, e), e.t) && !e.ReturnFirst?
    ensures e.Publish?
  {
  }

  // ----- what the client gets

  lemma {:induction false} RunKeepsPages(states: seq<Sys>, events: seq<Event>, i: nat)
    requires IsRun(states, events) && i < |states|
    ensures Inv(states[i]) && Pages(states[i])
  {
    hide Inv, Pages, Enabled, Apply;
    RunKeepsInv(states, events, i);
    if i == 0 { InitialPages(states[0]); }
    else {
      RunKeepsPages(states, events, i - 1);
      StepKeepsPages(states[i - 1], events[i - 1]);
      assert states[i - 1 + 1] == Apply(states[i - 1], events[i - 1]);
    }
  }

  lemma InitialPages(s: Sys)
    requires Initial(s)
    ensures Pages(s)
  {
  }

  /** Unless a read raised, the pages delivered so far concatenate to a prefix of the listing. */
  lemma PagesArePrefix(states: seq<Sys>, events: seq<Event>, i: nat, r: Ref)
    requires IsRun(states, events) && i < |states| && r in states[i].snaps && !states[i].snaps[r].disturbed
    ensures states[i].snaps[r].served <= states[i].snaps[r].content
  {
    hide Inv, Enabled, Apply, TaskPages, CursorOk, YieldOk;
    RunKeepsPages(states, events, i);
  }

  /** A cursor is handed out at the offset of the entries delivered so far, unless a read raised. */
  lemma CursorsCountEntries(states: seq<Sys>, events: seq<Event>, i: nat, c: Cursor)
    requires IsRun(states, events) && i < |events| && c in states[i + 1].issued - states[i].issued
    ensures c.key in states[i + 1].snaps && c.offset > 0
    ensures var n := states[i + 1].snaps[c.key]; n.disturbed || c.offset == |n.served|
  {
    hide Inv, Pages, Apply;
    assert Enabled(states[i], events[i]) && states[i + 1] == Apply(states[i], events[i]);
    RunKeepsPages(states, events, i);
    RunKeepsPages(states, events, i + 1);
    CursorsOnIssue(states[i], events[i], c);
  }

  lemma CursorsOnIssue(s: Sys, e: Event, c: Cursor)
    requires Inv(s) && Pages(s) && Enabled(s, e) && c in Apply(s, e).issued - s.issued
    ensures c.key in Apply(s, e).snaps && c.offset > 0
    ensures var n := Apply(s, e).snaps[c.key]; n.disturbed || c.offset == |n.served|
  {
    hide Inv, Pages;
    IssuedBy(s, e);
    var t, r := e.t, s.threads[e.t].task.ref;
    NamesExist(s, t, r);
    LockFacts(s, t, r);
    IssueOffset(s.snaps[r], r, t, s.threads[t].task, s.issued);
  }

  lemma OpenLedger(s: Sys, e: Event)
    requires Enabled(s, e) && OpenEvent(e)
    ensures ApplyOpen(s, e).yielded == s.yielded && (!e.ReturnFirst? ==> ApplyOpen(s, e).issued == s.issued)
  {
    hide Registered, HasStatus, Enabled;
  }

  lemma ContinueLedger(s: Sys, e: Event)
    requires Enabled(s, e) && ContinueEvent(e)
    ensures s.yielded <= ApplyContinue(s, e).yielded && (!e.Rearm? ==> ApplyContinue(s, e).issued == s.issued)
  {
    hide Registered, HasStatus, CursorValid, Enabled;
  }

  lemma IssuedBy(s: Sys, e: Event)
    requires Enabled(s, e) && Apply(s, e).issued != s.issued
    ensures e.ReturnFirst? || e.Rearm?
  {
    hide Enabled;
    if OpenEvent(e) { OpenLedger(s, e); } else if ContinueEvent(e) { ContinueLedger(s, e); }
  }

  lemma IssueOffset(n: Snap, r: Ref, t: Tid, task: Task, issued: set<Cursor>)
    requires SnapPages(n) && TaskPages(n, r, t, task, issued)
    requires (task == ReturningFirst(r) || (task.Rearming? && task.ref == r))
    ensures n.nextOffset > 0 && (n.disturbed || n.nextOffset == |n.served|)
  {
  }

  /** The step delivers a page of the snapshot for a cursor with this offset. */
  predicate Yields(s: Sys, e: Event, r: Ref, offset: nat) {
    && e.PageReturns? && e.t in s.threads && s.threads[e.t].task.PageRead?
    && s.threads[e.t].task.ref == r && s.threads[e.t].task.cursor.offset == offset
  }

  /** One snapshot's cursor offset yields a page at most once in a run. */
  lemma CursorYieldsOnce(states: seq<Sys>, events: seq<Event>, i: nat, j: nat, r: Ref, offset: nat)
    requires IsRun(states, events) && i < j < |events| && Yields(states[i], events[i], r, offset)
    ensures !Yields(states[j], events[j], r, offset)
  {
    hide Inv, Pages, Enabled, Apply;
    assert Enabled(states[i], events[i]) && states[i + 1] == Apply(states[i], events[i]);
    YieldRecorded(states[i], events[i], r, offset);
    YieldsKept(states, events, i + 1, j);
    if Yields(states[j], events[j], r, offset) {
      RunKeepsPages(states, events, j);
      PageIsNew(states[j], events[j]);
    }
  }

  lemma YieldRecorded(s: Sys, e: Event, r: Ref, offset: nat)
    requires Enabled(s, e) && Yields(s, e, r, offset)
    ensures (r, offset) in Apply(s, e).yielded
  {
    hide Enabled, ApplyContinue;
    PageShape(s, e);
  }

  lemma {:induction false} YieldsKept(states: seq<Sys>, events: seq<Event>, i: nat, j: nat)
    requires IsRun(states, events) && i <= j < |states|
    ensures states[i].yielded <= states[j].yielded
  {
    hide Enabled, Apply;
    if i < j {
      YieldsKept(states, events, i, j - 1);
      assert states[j - 1 + 1] == Apply(states[j - 1], events[j - 1]);
      YieldsGrow(states[j - 1], events[j - 1]);
    }
  }

  lemma YieldsGrow(s: Sys, e: Event)
    requires Enabled(s, e)
    ensures s.yielded <= Apply(s, e).yielded
  {
    hide Enabled;
    if OpenEvent(e) { OpenLedger(s, e); } else if ContinueEvent(e) { ContinueLedger(s, e); }
  }
}
