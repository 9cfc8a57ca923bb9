/** Safety, obligations and limits of the directory-listing threads, over whole runs. */
module DirectoryProperties {

  import opened Collections
  import opened DirectorySnapshots
  import opened DirectorySafety
  import opened DirectoryRuns

  // ----- a snapshot only moves forward

  /** The moves a status can make. */
  predicate Advances(before: Status, now: Status) {
    match before
    case Opening => true
    case Cancelled => now in {Cancelled, Closing}
    case Active => now in {Active, Closing}
    case Closing => now == Closing
  }

  predicate Evolves(n: Snap, m: Snap) {
    && m.id == n.id && m.owner == n.owner && m.content == n.content && m.opener == n.opener
    && Advances(n.status, m.status)
    && (n.closeStarted ==> m.closeStarted) && (n.closed ==> m.closed)
    && n.handleCloses <= m.handleCloses
  }

  predicate SnapsEvolve(s: Sys, s': Sys) {
    && s'.maxStates == s.maxStates && s'.maxPerUser == s.maxPerUser && s'.threads.Keys == s.threads.Keys
    && forall r | r in s.snaps :: r in s'.snaps && Evolves(s.snaps[r], s'.snaps[r])
  }

  lemma OneEvolves(s: Sys, s': Sys, r: Ref)
    requires s'.maxStates == s.maxStates && s'.maxPerUser == s.maxPerUser && s'.threads.Keys == s.threads.Keys
    requires r in s.snaps && r in s'.snaps && s'.snaps == s.snaps[r := s'.snaps[r]] && Evolves(s.snaps[r], s'.snaps[r])
    ensures SnapsEvolve(s, s')
  {
  }

  lemma NoneEvolve(s: Sys, s': Sys)
    requires s'.maxStates == s.maxStates && s'.maxPerUser == s.maxPerUser && s'.threads.Keys == s.threads.Keys
    requires s'.snaps == s.snaps
    ensures SnapsEvolve(s, s')
  {
  }

  lemma InsertEvolves(s: Sys, e: Event)
    requires Enabled(s, e) && e.Insert?
    ensures SnapsEvolve(s, ApplyOpen(s, e))
  {
    hide AtCapacity;
  }

  lemma StoreEvolves(s: Sys, e: Event)
    requires Enabled(s, e) && e.StoreListing?
    ensures SnapsEvolve(s, ApplyOpen(s, e)) && ApplyOpen(s, e).registry == s.registry
  {
    hide SnapsEvolve, Registered, CursorValid, Distinct, AtCapacity;
    var s', r := ApplyOpen(s, e), s.threads[e.t].task.ref;
    OneEvolves(s, s', r);
  }

  lemma FirstReadEvolves(s: Sys, e: Event)
    requires Enabled(s, e) && e.FirstReadReturns?
    ensures SnapsEvolve(s, ApplyOpen(s, e)) && ApplyOpen(s, e).registry == s.registry
  {
    hide SnapsEvolve, Enabled, ApplyOpen;
    FirstReadShape(s, e);
    OneEvolves(s, ApplyOpen(s, e), s.threads[e.t].task.ref);
  }

  lemma PublishEvolves(s: Sys, e: Event)
    requires Enabled(s, e) && e.Publish?
    ensures SnapsEvolve(s, ApplyOpen(s, e)) && ApplyOpen(s, e).registry == s.registry
  {
    hide SnapsEvolve, Registered, CursorValid, Distinct, AtCapacity;
    var s', r := ApplyOpen(s, e), s.threads[e.t].task.ref;
    if r in s.snaps { OneEvolves(s, s', r); } else { NoneEvolve(s, s'); }
  }

  lemma RetireEvolves(s: Sys, e: Event)
    requires Enabled(s, e) && e.Retire?
    ensures SnapsEvolve(s, ApplyOpen(s, e)) && ApplyOpen(s, e).registry == s.registry
  {
    hide SnapsEvolve, Distinct, AtCapacity;
    var s', r := ApplyOpen(s, e), s.threads[e.t].task.ref;
    if r in s.snaps { OneEvolves(s, s', r); } else { NoneEvolve(s, s'); }
  }

  lemma AcquireEvolves(s: Sys, e: Event)
    requires Enabled(s, e) && e.Acquire?
    ensures SnapsEvolve(s, ApplyContinue(s, e)) && ApplyContinue(s, e).registry == s.registry
  {
    hide SnapsEvolve, Registered, CursorValid, Distinct, AtCapacity;
    var s', r := ApplyContinue(s, e), s.threads[e.t].task.ref;
    OneEvolves(s, s', r);
  }

  lemma CheckEvolves(s: Sys, e: Event)
    requires Enabled(s, e) && e.CheckActive?
    ensures SnapsEvolve(s, ApplyContinue(s, e)) && ApplyContinue(s, e).registry == s.registry
  {
    hide SnapsEvolve, Registered, CursorValid, Distinct, AtCapacity;
    var s', r := ApplyContinue(s, e), s.threads[e.t].task.ref;
    if r in s.snaps { OneEvolves(s, s', r); } else { NoneEvolve(s, s'); }
  }

  lemma PageEvolves(s: Sys, e: Event)
    requires Enabled(s, e) && e.PageReturns?
    ensures SnapsEvolve(s, ApplyContinue(s, e)) && ApplyContinue(s, e).registry == s.registry
  {
    hide SnapsEvolve, Enabled, ApplyContinue;
    PageShape(s, e);
    OneEvolves(s, ApplyContinue(s, e), s.threads[e.t].task.ref);
  }

  lemma RaiseEvolves(s: Sys, e: Event)
    requires Enabled(s, e) && e.PageRaises?
    ensures SnapsEvolve(s, ApplyContinue(s, e)) && ApplyContinue(s, e).registry == s.registry
  {
    hide SnapsEvolve, Registered, Distinct, AtCapacity;
    var r := s.threads[e.t].task.ref;
    if r in s.snaps {
      hide Enabled, ApplyContinue;
      RaiseShape(s, e);
      OneEvolves(s, ApplyContinue(s, e), r);
    } else { NoneEvolve(s, ApplyContinue(s, e)); }
  }

  lemma RearmEvolves(s: Sys, e: Event)
    requires Enabled(s, e) && e.Rearm?
    ensures SnapsEvolve(s, ApplyContinue(s, e)) && ApplyContinue(s, e).registry == s.registry
  {
    hide SnapsEvolve, Registered, Distinct, AtCapacity;
    var r := s.threads[e.t].task.ref;
    if r in s.snaps {
      hide Enabled, ApplyContinue;
      RearmShape(s, e);
      OneEvolves(s, ApplyContinue(s, e), r);
    } else { NoneEvolve(s, ApplyContinue(s, e)); }
  }

  lemma EndEvolves(s: Sys, e: Event)
    requires Enabled(s, e) && e.EndLocked?
    ensures SnapsEvolve(s, ApplyContinue(s, e)) && ApplyContinue(s, e).registry == s.registry
  {
    hide SnapsEvolve, Registered, Distinct, AtCapacity;
    var r := s.threads[e.t].task.ref;
    if r in s.snaps {
      hide Enabled, ApplyContinue;
      EndShape(s, e);
      OneEvolves(s, ApplyContinue(s, e), r);
    } else { NoneEvolve(s, ApplyContinue(s, e)); }
  }

  /** Events that change no snapshot. */
  predicate Quiet(e: Event) {
    || e.BeginList? || e.BeginContinue? || e.Reject? || e.OpenReturns? || e.OpenRaises? || e.CheckCancel?
      || e.FirstReadFails?
    || e.ReturnFirst? || e.Lookup? || e.PageFails?
  }

  lemma EnabledThread(s: Sys, e: Event)
    requires Enabled(s, e)
    ensures e.t in s.threads
  {
    hide Free, Registered, HasStatus, AtCapacity, Distinct;
  }

  lemma QuietOpenEvolves(s: Sys, e: Event)
    requires Enabled(s, e) && Quiet(e) && OpenEvent(e)
    ensures SnapsEvolve(s, ApplyOpen(s, e)) && ApplyOpen(s, e).registry == s.registry
  {
    hide SnapsEvolve, Registered, HasStatus, Enabled;
    EnabledThread(s, e);
    NoneEvolve(s, ApplyOpen(s, e));
  }

  lemma QuietContinueEvolves(s: Sys, e: Event)
    requires Enabled(s, e) && Quiet(e) && ContinueEvent(e)
    ensures SnapsEvolve(s, ApplyContinue(s, e)) && ApplyContinue(s, e).registry == s.registry
  {
    hide SnapsEvolve, Enabled;
    EnabledThread(s, e);
    NoneEvolve(s, ApplyContinue(s, e));
  }

  lemma OpenEvolves(s: Sys, e: Event)
    requires Enabled(s, e) && OpenEvent(e)
    ensures SnapsEvolve(s, ApplyOpen(s, e)) && (!e.Insert? ==> ApplyOpen(s, e).registry == s.registry)
  {
    hide SnapsEvolve, Enabled, ApplyOpen;
    if e.Insert? { InsertEvolves(s, e); }
    else if e.StoreListing? { StoreEvolves(s, e); }
    else if e.FirstReadReturns? { FirstReadEvolves(s, e); }
    else if e.Publish? { PublishEvolves(s, e); }
    else if e.Retire? { RetireEvolves(s, e); }
    else { QuietOpenEvolves(s, e); }
  }

  lemma ContinueEvolves(s: Sys, e: Event)
    requires Enabled(s, e) && ContinueEvent(e)
    ensures SnapsEvolve(s, ApplyContinue(s, e)) && ApplyContinue(s, e).registry == s.registry
  {
    hide SnapsEvolve, Enabled, ApplyContinue;
    if e.Acquire? { AcquireEvolves(s, e); }
    else if e.CheckActive? { CheckEvolves(s, e); }
    else if e.PageReturns? { PageEvolves(s, e); }
    else if e.PageRaises? { RaiseEvolves(s, e); }
    else if e.Rearm? { RearmEvolves(s, e); }
    else if e.EndLocked? { EndEvolves(s, e); }
    else { QuietContinueEvolves(s, e); }
  }

  lemma SweepEvolves(s: Sys, t: Tid, close: seq<Ref>, cancel: set<Ref>, flag: set<Ref>, task: Task)
    requires t in s.threads
    requires forall r | r in cancel :: HasStatus(s, r, Opening)
    requires forall r | r in close :: HasStatus(s, r, Active)
    ensures SnapsEvolve(s, Sweep(s, t, close, cancel, flag, task))
  {
  }

  lemma CancelEvolves(s: Sys, e: Event)
    requires Enabled(s, e) && CancelEvent(e)
    ensures SnapsEvolve(s, ApplyCancel(s, e))
  {
    hide SnapsEvolve, SelectStatus, Sweep, Registered;
    var t := e.t;
    SweepSame(s);
    if e.Prune? { SweepEvolves(s, t, e.expired, {}, {}, s.threads[t].task); }
    else if e.EvictOwn? { SweepEvolves(s, t, [e.victim], {}, {}, s.threads[t].task); }
    else if e.TimerFires? { if HasStatus(s, e.ref, Active) { SweepEvolves(s, t, [e.ref], {}, {}, Idle); } }
    else if e.CancelCursor? { CursorCancelEvolves(s, e); }
    else {
      SelectedExactly(s, e.matches, Active);
      var cancel := set r | r in e.matches && HasStatus(s, r, Opening);
      SweepEvolves(s, t, SelectStatus(s, e.matches, Active), cancel, {}, Idle);
      SweepEvolves(s, t, SelectStatus(s, e.matches, Active), cancel, set r | r in e.matches,
                   if ToAwait(s, e.matches) == {} then Idle else Waiting(ToAwait(s, e.matches)));
    }
  }

  lemma SweepSame(s: Sys)
    ensures SnapsEvolve(s, s)
  {
  }

  lemma PutEvolves(s: Sys, r: Ref, m: Snap)
    requires r in s.snaps && Evolves(s.snaps[r], m)
    ensures SnapsEvolve(s, Put(s, r, m))
  {
  }

  lemma CursorCancelEvolves(s: Sys, e: Event)
    requires Enabled(s, e) && e.CancelCursor?
    ensures SnapsEvolve(s, ApplyCancel(s, e))
  {
    hide SnapsEvolve, Sweep;
    SweepSame(s);
    if e.cursor.id in s.registry && CursorValid(s, e.cursor, s.registry[e.cursor.id]) {
      var r := s.registry[e.cursor.id];
      SweepEvolves(s, e.t, [], {}, {r}, Waiting({r}));
      if s.snaps[r].status == Active {
        SweepEvolves(s, e.t, [r], {}, {r}, Idle);
        PutEvolves(s, r, s.snaps[r].(status := Closing));
      }
    }
  }

  lemma BeginCloseEvolves(s: Sys, e: Event)
    requires Enabled(s, e) && e.CloseBegin?
    ensures SnapsEvolve(s, ApplyClose(s, e))
  {
    hide SnapsEvolve, Registered, Distinct, AtCapacity;
    OneEvolves(s, ApplyClose(s, e), s.threads[e.t].debts[0]);
  }

  lemma HandleCloseEvolves(s: Sys, e: Event)
    requires Enabled(s, e) && e.CloseHandle?
    ensures SnapsEvolve(s, ApplyClose(s, e))
  {
    hide SnapsEvolve, Registered, Distinct, AtCapacity;
    var s', r := ApplyClose(s, e), s.threads[e.t].debts[0];
    if r in s.snaps { OneEvolves(s, s', r); } else { NoneEvolve(s, s'); }
  }

  lemma CloseEvolves(s: Sys, e: Event)
    requires Enabled(s, e) && (e.CloseBegin? || e.CloseHandle? || e.CloseFinish? || e.WaitDone?)
    ensures SnapsEvolve(s, ApplyClose(s, e))
  {
    if e.CloseBegin? {
      hide Enabled, SnapsEvolve, ApplyClose;
      BeginCloseEvolves(s, e);
    } else if e.CloseHandle? {
      hide Enabled, SnapsEvolve, ApplyClose;
      HandleCloseEvolves(s, e);
    } else {
      hide SnapsEvolve, Registered, Distinct, AtCapacity;
      var s', th := ApplyClose(s, e), s.threads[e.t];
      if e.CloseFinish? && th.debts[0] in s.snaps { OneEvolves(s, s', th.debts[0]); } else { NoneEvolve(s, s'); }
    }
  }

  /** In one step no status moves back and no flag is taken back. */
  lemma StepEvolves(s: Sys, e: Event)
    requires Enabled(s, e)
    ensures SnapsEvolve(s, Apply(s, e))
  {
    hide Enabled, SnapsEvolve, ApplyOpen, ApplyContinue, ApplyCancel, ApplyClose;
    if OpenEvent(e) { OpenEvolves(s, e); }
    else if ContinueEvent(e) { ContinueEvolves(s, e); }
    else if CancelEvent(e) { CancelEvolves(s, e); }
    else { CloseEvolves(s, e); }
  }

  lemma EvolvesOn(s: Sys, m: Sys, e: Sys)
    requires SnapsEvolve(s, m) && SnapsEvolve(m, e)
    ensures SnapsEvolve(s, e)
  {
  }

  /**
    Over any stretch of any run a snapshot's status only goes from opening to cancelled, active or closing
    and from cancelled or active to closing, and its backend handle is closed at most once.
   */
  lemma {:induction false} StatusOnlyAdvances(states: seq<Sys>, events: seq<Event>, i: nat, j: nat)
    requires IsRun(states, events) && i <= j < |states|
    ensures SnapsEvolve(states[i], states[j])
    ensures forall r | r in states[j].snaps :: states[j].snaps[r].handleCloses <= 1
  {
    hide Enabled, Apply, SnapsEvolve, Inv;
    AtMostOneClose(states, events, j);
    if i == j { SweepSame(states[i]); }
    else {
      StatusOnlyAdvances(states, events, i, j - 1);
      assert states[j - 1 + 1] == Apply(states[j - 1], events[j - 1]);
      StepEvolves(states[j - 1], events[j - 1]);
      EvolvesOn(states[i], states[j - 1], states[j]);
    }
  }

  lemma AtMostOneClose(states: seq<Sys>, events: seq<Event>, j: nat)
    requires IsRun(states, events) && j < |states|
    ensures forall r | r in states[j].snaps :: states[j].snaps[r].handleCloses <= 1
  {
    hide Enabled, Apply, RegistryOk, Peopled, Paired, ThreadOk;
    RunKeepsInv(states, events, j);
  }

  /**
    In every run, a snapshot's `closed` event is set only when the handle it had, if any, has been closed
    exactly once.
   */
  lemma ClosedMeansHandleClosed(states: seq<Sys>, events: seq<Event>, i: nat, r: Ref)
    requires IsRun(states, events) && i < |states| && r in states[i].snaps && states[i].snaps[r].closed
    ensures states[i].snaps[r].handleCloses == Handles(states[i].snaps[r]) && !Registered(states[i], r)
  {
    hide Enabled, Apply, Pair, Peopled, Paired, ThreadOk;
    RunKeepsInv(states, events, i);
    RegisteredIffOpen(states[i], r);
  }

  // ----- no read once closing has begun

  predicate ReadsPage(e: Event) {
    e.FirstReadReturns? || e.FirstReadFails? || e.PageReturns? || e.PageFails? || e.PageRaises?
  }

  /** A backend read happens only on a stored handle that nobody has begun to close. */
  lemma ReadsUseOpenHandle(s: Sys, e: Event)
    requires Inv(s) && Enabled(s, e) && ReadsPage(e)
    ensures var r := s.threads[e.t].task.ref;
            r in s.snaps && Registered(s, r) && s.snaps[r].listing && !s.snaps[r].closeStarted
              && s.snaps[r].handleCloses == 0
  {
    hide Inv;
    var r := s.threads[e.t].task.ref;
    NamesExist(s, e.t, r);
    PairOf(s, r, e.t);
    RegisteredIffOpen(s, r);
  }

  /** Once the closing of a snapshot has begun in a run, no later step reads from its handle. */
  lemma NoReadAfterClose(states: seq<Sys>, events: seq<Event>, i: nat, j: nat, r: Ref)
    requires IsRun(states, events) && i <= j < |events| && ReadsPage(events[j])
    requires r in states[i].snaps && states[i].snaps[r].closeStarted
    ensures states[j].threads[events[j].t].task.ref != r
  {
    hide Inv, Apply, SnapsEvolve;
    assert Enabled(states[j], events[j]);
    RunKeepsInv(states, events, j);
    ReadsUseOpenHandle(states[j], events[j]);
    StatusOnlyAdvances(states, events, i, j);
    Evolved(states[i], states[j], r);
  }

  lemma Evolved(s: Sys, s': Sys, r: Ref)
    requires SnapsEvolve(s, s') && r in s.snaps
    ensures r in s'.snaps && Evolves(s.snaps[r], s'.snaps[r])
  {
  }

  /** A continuation past its active check works on a snapshot that stays registered, active or closing. */
  lemma PastCheckStaysRegistered(states: seq<Sys>, events: seq<Event>, i: nat, t: Tid, r: Ref)
    requires IsRun(states, events) && i < |states| && t in states[i].threads && PastCheck(states[i].threads[t].task, r)
    ensures r in states[i].snaps && Registered(states[i], r)
    ensures states[i].snaps[r].status in {Active, Closing} && states[i].snaps[r].lock == Some(t)
  {
    hide Inv, Enabled, Apply;
    RunKeepsInv(states, events, i);
    NamesExist(states[i], t, r);
    PairOf(states[i], r, t);
    RegisteredIffOpen(states[i], r);
  }

  /** So a continuation that has read a page always gets its next cursor. */
  lemma RearmHandsOutCursor(s: Sys, e: Event)
    requires Inv(s) && Enabled(s, e) && e.Rearm?
    ensures var r := s.threads[e.t].task.ref;
            r in s.snaps && Cursor(s.snaps[r].id, s.snaps[r].nextOffset, r) in Apply(s, e).issued
  {
    hide Inv;
    var r := s.threads[e.t].task.ref;
    NamesExist(s, e.t, r);
    PairOf(s, r, e.t);
    RegisteredIffOpen(s, r);
  }

  // ----- somebody is always obliged to close, and nobody waits in vain

  /** The thread is on its way to closing the snapshot: as its opener, as a retiring reader or as an elected closer. */
  predicate Obliged(th: Thread, r: Ref) {
    r in th.debts || StillOpening(th, r) || (th.debts == [] && th.task == Retiring(r))
  }

  /** Every registered snapshot that is cancelled or closing has a thread that is obliged to close it. */
  lemma CloserExists(s: Sys, r: Ref)
    requires Inv(s) && Registered(s, r) && s.snaps[r].status in {Cancelled, Closing}
    ensures exists t :: t in s.threads && Obliged(s.threads[t], r)
  {
    hide Pair, SnapOk, RegistryOk, Names, ThreadOk, Paired, Obliged;
    var n := s.snaps[r];
    RegisteredIffOpen(s, r);
    PairOf(s, r, n.opener);
    if n.status == Closing { ClosingHasCloser(n); }
    var t := if n.status == Cancelled then n.opener else n.closer.value;
    PairOf(s, r, t);
    ObligedBySnap(n, r, t, s.threads[t]);
  }

  lemma ClosingHasCloser(n: Snap)
    requires SnapOk(n) && n.status == Closing && !n.closed
    ensures n.closer.Some?
  {
  }

  lemma ObligedBySnap(n: Snap, r: Ref, t: Tid, th: Thread)
    requires Pair(n, r, t, th) && !n.closed
    requires (n.status == Cancelled && n.opener == t) || (n.status == Closing && n.closer == Some(t))
    ensures Obliged(th, r)
  {
  }

  /** The thread has an enabled step that is not merely a timer or a new request. */
  ghost predicate CanMove(s: Sys, t: Tid) {
    exists e: Event :: e.t == t && Enabled(s, e) && !e.TimerFires? && !e.CancelCursor? && !e.CancelRequest?
      && !e.Discard?
  }

  /** The thread can move, or only needs a lock whose holder can move. */
  ghost predicate Unblocked(s: Sys, t: Tid) {
    CanMove(s, t)
    || exists r, u ::
         && r in s.snaps && u in s.threads && s.snaps[r].lock == Some(u) && u != t
         && HoldsLock(s.threads[u].task, r) && CanMove(s, u)
  }

  lemma Moves(s: Sys, e: Event)
    requires Enabled(s, e) && !e.TimerFires? && !e.CancelCursor? && !e.CancelRequest? && !e.Discard?
    ensures CanMove(s, e.t)
  {
  }

  lemma HolderEnabled(s: Sys, t: Tid, r: Ref)
    requires Free(s, t) && HoldsLock(s.threads[t].task, r)
    ensures var task := s.threads[t].task;
            if task.Checking? then Enabled(s, CheckActive(t))
            else if task.PageRead? then Enabled(s, PageFails(t))
            else if task.Rearming? then Enabled(s, Rearm(t))
            else Enabled(s, EndLocked(t))
  {
    hide Distinct, AtCapacity, Registered, HasStatus;
  }

  lemma HolderMoves(s: Sys, t: Tid, r: Ref)
    requires Inv(s) && t in s.threads && HoldsLock(s.threads[t].task, r)
    ensures CanMove(s, t)
  {
    hide Inv, CanMove, Enabled;
    NamesExist(s, t, r);
    PairOf(s, r, t);
    HolderEnabled(s, t, r);
    var task := s.threads[t].task;
    if task.Checking? { Moves(s, CheckActive(t)); }
    else if task.PageRead? { Moves(s, PageFails(t)); }
    else if task.Rearming? { Moves(s, Rearm(t)); }
    else { Moves(s, EndLocked(t)); }
  }

  lemma LockOrMove(s: Sys, t: Tid, r: Ref, e: Event)
    requires Inv(s) && t in s.threads && r in s.snaps && !HoldsLock(s.threads[t].task, r) && e.t == t
    requires s.snaps[r].lock == None ==> Enabled(s, e)
    requires !e.TimerFires? && !e.CancelCursor? && !e.CancelRequest? && !e.Discard?
    ensures Unblocked(s, t)
  {
    hide CanMove, HoldsLock, Pair, SnapOk, RegistryOk, Names, ThreadOk, Paired, Enabled;
    if s.snaps[r].lock == None { Moves(s, e); }
    else {
      var u := s.snaps[r].lock.value;
      PairOf(s, r, u);
      LockNeedsHolder(s.snaps[r], r, u, s.threads[u]);
      HolderMoves(s, u, r);
    }
  }

  lemma LockNeedsHolder(n: Snap, r: Ref, u: Tid, th: Thread)
    requires Pair(n, r, u, th) && n.lock == Some(u)
    ensures HoldsLock(th.task, r)
  {
  }

  lemma DebtorUnblocked(s: Sys, t: Tid)
    requires Inv(s) && t in s.threads && s.threads[t].debts != []
    ensures Unblocked(s, t)
  {
    hide Inv, CanMove, Unblocked;
    var th := s.threads[t];
    var r := th.debts[0];
    NamesExist(s, t, r);
    PairOf(s, r, t);
    if th.stage == NotBegun { LockOrMove(s, t, r, CloseBegin(t)); }
    else if th.stage.Begun? { Moves(s, CloseHandle(t)); MoverUnblocked(s, t); }
    else { Moves(s, CloseFinish(t)); MoverUnblocked(s, t); }
  }

  lemma MoverUnblocked(s: Sys, t: Tid)
    requires CanMove(s, t)
    ensures Unblocked(s, t)
  {
  }

  lemma OpenerUnblocked(s: Sys, t: Tid, r: Ref)
    requires Inv(s) && Free(s, t)
    requires var task := s.threads[t].task; OpensSnap(task, r) || task == Retiring(r) || task == ReturningFirst(r)
    ensures Unblocked(s, t)
  {
    hide Inv, CanMove, Unblocked;
    NamesExist(s, t, r);
    PairOf(s, r, t);
    var task := s.threads[t].task;
    if task.StoringListing? { LockOrMove(s, t, r, StoreListing(t)); }
    else {
      Moves(s, if task.OpeningCall? then OpenRaises(t) else if task.CheckingCancel? then CheckCancel(t)
               else if task.FirstRead? then FirstReadFails(t) else if task.Publishing? then Publish(t)
               else if task.Retiring? then Retire(t) else ReturnFirst(t));
      MoverUnblocked(s, t);
    }
  }

  lemma ReserverUnblocked(s: Sys, t: Tid)
    requires Inv(s) && Free(s, t) && s.threads[t].task.Reserving?
    ensures Unblocked(s, t)
  {
    hide Inv, CanMove, Unblocked, AtCapacity;
    if AtCapacity(s, s.threads[t].task.owner) { Moves(s, Reject(t)); }
    else {
      FreshNames(s.registry.Keys, s.snaps.Keys);
      var id: Sid, ref: Ref :| id !in s.registry && ref !in s.snaps;
      Moves(s, Insert(t, id, ref, []));
    }
    MoverUnblocked(s, t);
  }

  lemma {:induction false} LongString(ids: set<Sid>) returns (id: Sid)
    ensures forall x | x in ids :: |x| < |id|
  {
    if ids == {} { id := ""; }
    else {
      var x :| x in ids;
      var rest := LongString(ids - {x});
      id := rest + x + "x";
      forall y | y in ids ensures |y| < |id| { if y != x { assert y in ids - {x}; } }
    }
  }

  lemma {:induction false} LargeRef(refs: set<Ref>) returns (ref: Ref)
    ensures forall x | x in refs :: x < ref
  {
    if refs == {} { ref := 0; }
    else {
      var x :| x in refs;
      var rest := LargeRef(refs - {x});
      ref := rest + x + 1;
      forall y | y in refs ensures y < ref { if y != x { assert y in refs - {x}; } }
    }
  }

  lemma FreshNames(ids: set<Sid>, refs: set<Ref>)
    ensures exists id: Sid, ref: Ref :: id !in ids && ref !in refs
  {
    var id := LongString(ids);
    var ref := LargeRef(refs);
    assert id !in ids && ref !in refs;
  }

  lemma WorkerUnblocked(s: Sys, t: Tid)
    requires Inv(s) && Free(s, t) && !s.threads[t].task.Idle? && !s.threads[t].task.Waiting?
    ensures Unblocked(s, t)
  {
    hide Inv, CanMove, Unblocked;
    var task := s.threads[t].task;
    if task.Reserving? { ReserverUnblocked(s, t); }
    else if task.Continuing? { Moves(s, Lookup(t)); MoverUnblocked(s, t); }
    else if task.Locking? { NamesExist(s, t, task.ref); LockOrMove(s, t, task.ref, Acquire(t)); }
    else if HoldsLock(task, task.ref) { HolderMoves(s, t, task.ref); MoverUnblocked(s, t); }
    else { OpenerUnblocked(s, t, task.ref); }
  }

  /** Some thread other than the waiting one will set the snapshot's `closed` event, and nothing stops it. */
  ghost predicate WillBeSet(s: Sys, t: Tid, r: Ref) {
    exists u :: u in s.threads && u != t && Obliged(s.threads[u], r) && Unblocked(s, u)
  }

  lemma ObligedUnblocked(s: Sys, u: Tid, r: Ref)
    requires Inv(s) && u in s.threads && Obliged(s.threads[u], r)
    ensures Unblocked(s, u) && (s.threads[u].debts == [] ==> !s.threads[u].task.Waiting?)
  {
    hide Inv, CanMove, Unblocked;
    var th := s.threads[u];
    if th.debts != [] { DebtorUnblocked(s, u); }
    else { NamesExist(s, u, r); PairOf(s, r, u); OpenerUnblocked(s, u, r); }
  }

  lemma AwaitedIsEnding(s: Sys, t: Tid, r: Ref)
    requires Inv(s) && Free(s, t) && s.threads[t].task.Waiting? && r in s.threads[t].task.refs && !s.snaps[r].closed
    requires r in s.snaps
    ensures WillBeSet(s, t, r)
  {
    hide Inv, CanMove, Unblocked, Obliged;
    PairOf(s, r, t);
    RegisteredIffOpen(s, r);
    CloserExists(s, r);
    var u :| u in s.threads && Obliged(s.threads[u], r);
    ObligedUnblocked(s, u, r);
  }

  /**
    In every state of every run a thread with work to do can go on, or needs a lock whose holder can go on,
    or waits for snapshots each of which is closed already or has another, unblocked thread obliged to close
    it.
   */
  lemma NobodyWaitsInVain(states: seq<Sys>, events: seq<Event>, i: nat, t: Tid)
    requires IsRun(states, events) && i < |states| && t in states[i].threads
    requires var th := states[i].threads[t]; th.debts != [] || !th.task.Idle?
    ensures var s := states[i];
            if Free(s, t) && s.threads[t].task.Waiting? then
              s.threads[t].task.refs != {}
              && forall r | r in s.threads[t].task.refs :: r in s.snaps && (s.snaps[r].closed || WillBeSet(s, t, r))
            else Unblocked(s, t)
  {
    hide Inv, Enabled, Apply, CanMove, Unblocked, WillBeSet;
    RunKeepsInv(states, events, i);
    ProgressOf(states[i], t);
  }

  lemma ProgressOf(s: Sys, t: Tid)
    requires Inv(s) && t in s.threads && (s.threads[t].debts != [] || !s.threads[t].task.Idle?)
    ensures if Free(s, t) && s.threads[t].task.Waiting? then
              s.threads[t].task.refs != {}
              && forall r | r in s.threads[t].task.refs :: r in s.snaps && (s.snaps[r].closed || WillBeSet(s, t, r))
            else Unblocked(s, t)
  {
    hide Inv, CanMove, Unblocked, WillBeSet;
    var th := s.threads[t];
    ThreadOkOf(s, t);
    if th.debts != [] { DebtorUnblocked(s, t); }
    else if th.task.Waiting? {
      forall r | r in th.task.refs ensures r in s.snaps && (s.snaps[r].closed || WillBeSet(s, t, r)) {
        NamesExist(s, t, r);
        if !s.snaps[r].closed { AwaitedIsEnding(s, t, r); }
      }
    }
    else { WorkerUnblocked(s, t); }
  }

  lemma ThreadOkOf(s: Sys, t: Tid)
    requires Inv(s) && t in s.threads
    ensures ThreadOk(s.threads[t])
  {
  }

  // ----- the limits

  ghost predicate WithinLimits(s: Sys) {
    |s.registry| <= s.maxStates && forall owner :: |OwnedBy(s, owner)| <= s.maxPerUser
  }

  /** No entry appears and none is redirected. */
  predicate Shrinks(before: map<Sid, Ref>, now: map<Sid, Ref>) {
    forall id | id in now :: id in before && now[id] == before[id]
  }

  lemma OnlyInsertGrows(s: Sys, e: Event)
    requires Enabled(s, e) && !e.Insert?
    ensures Shrinks(s.registry, Apply(s, e).registry)
  {
    hide Enabled, SnapsEvolve, ApplyOpen, ApplyContinue;
    if OpenEvent(e) { OpenEvolves(s, e); }
    else if ContinueEvent(e) { ContinueEvolves(s, e); }
  }

  lemma ShrinkingKeepsLimits(s: Sys, s': Sys)
    requires Inv(s) && WithinLimits(s) && SnapsEvolve(s, s') && Shrinks(s.registry, s'.registry)
    ensures WithinLimits(s')
  {
    hide Peopled, Paired, SnapOk, ThreadOk, Pair;
    SubsetCard(s'.registry.Keys, s.registry.Keys);
    forall owner ensures |OwnedBy(s', owner)| <= s'.maxPerUser {
      SubsetCard(OwnedBy(s', owner), OwnedBy(s, owner));
      assert |OwnedBy(s, owner)| <= s.maxPerUser;
    }
  }

  lemma InsertEffect(s: Sys, e: Event)
    requires Enabled(s, e) && e.Insert?
    ensures e.t in s.threads
    ensures var s', task := Apply(s, e), s.threads[e.t].task;
            && task.Reserving? && !AtCapacity(s, task.owner) && e.id !in s.registry && e.ref !in s.snaps
            && s'.registry == s.registry[e.id := e.ref] && e.ref in s'.snaps
              && s'.snaps == s.snaps[e.ref := s'.snaps[e.ref]]
            && s'.snaps[e.ref].owner == task.owner && s'.maxStates == s.maxStates && s'.maxPerUser == s.maxPerUser
  {
    hide AtCapacity;
  }

  lemma RegistryOkOf(s: Sys)
    requires Inv(s)
    ensures RegistryOk(s.registry, s.snaps)
  {
  }

  lemma InsertKeepsLimits(s: Sys, e: Event)
    requires Inv(s) && WithinLimits(s) && Enabled(s, e) && e.Insert?
    ensures WithinLimits(Apply(s, e))
  {
    hide Inv, RegistryOk, OwnedBy, Apply, Enabled, AtCapacity;
    InsertEffect(s, e);
    RegistryOkOf(s);
    var s' := Apply(s, e);
    BelowCapacity(s, s.threads[e.t].task.owner);
    OneMoreId(s.registry, e.id, e.ref);
    forall owner ensures |OwnedBy(s', owner)| <= s'.maxPerUser {
      OwnedAfterInsert(s, s', e.id, e.ref, owner);
      assert |OwnedBy(s, owner)| <= s.maxPerUser;
    }
  }

  lemma OneMoreId(registry: map<Sid, Ref>, id: Sid, r: Ref)
    requires id !in registry
    ensures |registry[id := r]| == |registry| + 1
  {
    assert registry[id := r].Keys == registry.Keys + {id};
  }

  lemma BelowCapacity(s: Sys, owner: string)
    requires !AtCapacity(s, owner)
    ensures |OwnedBy(s, owner)| < s.maxPerUser && |s.registry| < s.maxStates
  {
  }

  lemma OwnedAfterInsert(s: Sys, s': Sys, id: Sid, r: Ref, owner: string)
    requires RegistryOk(s.registry, s.snaps) && id !in s.registry && r !in s.snaps && r in s'.snaps
    requires s'.registry == s.registry[id := r] && s'.snaps == s.snaps[r := s'.snaps[r]]
    ensures |OwnedBy(s', owner)| <= |OwnedBy(s, owner)| + if owner == s'.snaps[r].owner then 1 else 0
  {
    var now := OwnedBy(s, owner) + if owner == s'.snaps[r].owner then {id} else {};
    forall x | x in OwnedBy(s', owner) ensures x in now { if x != id { assert s.registry[x] in s.snaps; } }
    SubsetCard(OwnedBy(s', owner), now);
  }

  /** In every state of every run the global and the per-owner limit on registered snapshots hold. */
  lemma {:induction false} LimitsHold(states: seq<Sys>, events: seq<Event>, i: nat)
    requires IsRun(states, events) && i < |states|
    ensures WithinLimits(states[i])
  {
    hide Inv, Enabled, Apply, SnapsEvolve, WithinLimits, Shrinks;
    if i == 0 { EmptyWithinLimits(states[0]); }
    else {
      var s, e := states[i - 1], events[i - 1];
      LimitsHold(states, events, i - 1);
      RunKeepsInv(states, events, i - 1);
      assert states[i - 1 + 1] == Apply(s, e);
      if e.Insert? { InsertKeepsLimits(s, e); }
      else {
        OnlyInsertGrows(s, e);
        StepEvolves(s, e);
        ShrinkingKeepsLimits(s, states[i]);
      }
    }
  }

  lemma EmptyWithinLimits(s: Sys)
    requires Initial(s)
    ensures WithinLimits(s)
  {
    assert forall owner :: OwnedBy(s, owner) == {};
  }
}
