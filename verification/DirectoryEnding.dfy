/** What ends a directory listing, whom a continuation is refused, and when a listing has been delivered whole. */
module DirectoryEnding {

  import opened Collections
  import opened DirectorySnapshots
  import opened DirectorySafety
  import opened DirectoryRuns
  import opened DirectoryProperties
  import opened DirectoryPaging

  // ----- what ends a listing

  /** The step is the expiry, eviction, cancellation or discarding of this snapshot. */
  predicate Selects(s: Sys, e: Event, r: Ref) {
    || (e.Prune? && r in e.expired) || (e.EvictOwn? && r == e.victim)
    || (e.TimerFires? && r == e.ref && Registered(s, r) && HasStatus(s, r, Active))
    || (e.CancelCursor? && Registered(s, r) && HasStatus(s, r, Active) && CursorValid(s, e.cursor, r))
    || ((e.CancelRequest? || e.Discard?) && r in e.matches)
  }

  /** A snapshot that is being opened is cancelled, an active one begins to close, any other stays as it is. */
  function Stopped(status: Status): Status {
    match status
    case Opening => Cancelled
    case Active => Closing
    case _ => status
  }

  lemma SweepStops(s: Sys, t: Tid, close: seq<Ref>, cancel: set<Ref>, flag: set<Ref>, task: Task, r: Ref)
    requires r in s.snaps
    requires r in close ==> HasStatus(s, r, Active)
    requires r in cancel ==> HasStatus(s, r, Opening)
    ensures r in Sweep(s, t, close, cancel, flag, task).snaps
    ensures Sweep(s, t, close, cancel, flag, task).snaps[r].status
         == if r in close || r in cancel then Stopped(s.snaps[r].status) else s.snaps[r].status
  {
  }

  lemma MatchStops(s: Sys, e: Event, r: Ref)
    requires Enabled(s, e) && (e.CancelRequest? || e.Discard?) && r in s.snaps
    ensures r in ApplyCancel(s, e).snaps
    ensures ApplyCancel(s, e).snaps[r].status
         == if r in e.matches then Stopped(s.snaps[r].status) else s.snaps[r].status
  {
    hide Sweep, SelectStatus, Registered, Free, OwnedBy, ToAwait;
    SelectedExactly(s, e.matches, Active);
    var close, cancel := SelectStatus(s, e.matches, Active), set r | r in e.matches && HasStatus(s, r, Opening);
    SweepStops(s, e.t, close, cancel, {}, Idle, r);
    SweepStops(s, e.t, close, cancel, set r | r in e.matches,
               if ToAwait(s, e.matches) == {} then Idle else Waiting(ToAwait(s, e.matches)), r);
  }

  lemma CursorStops(s: Sys, e: Event, r: Ref)
    requires Inv(s) && Enabled(s, e) && e.CancelCursor? && r in s.snaps
    ensures r in ApplyCancel(s, e).snaps
    ensures ApplyCancel(s, e).snaps[r].status
         == if Selects(s, e, r) then Stopped(s.snaps[r].status) else s.snaps[r].status
  {
    hide Inv, Sweep, Free, OwnedBy;
    if e.cursor.id in s.registry && CursorValid(s, e.cursor, s.registry[e.cursor.id]) {
      var q := s.registry[e.cursor.id];
      if s.snaps[q].status == Active { SweepStops(s, e.t, [q], {}, {q}, Idle, r); }
      SweepStops(s, e.t, [], {}, {q}, Waiting({q}), r);
    }
  }

  lemma SingleStops(s: Sys, e: Event, r: Ref)
    requires Enabled(s, e) && (e.Prune? || e.EvictOwn? || e.TimerFires?) && r in s.snaps
    ensures r in ApplyCancel(s, e).snaps
    ensures ApplyCancel(s, e).snaps[r].status
         == if Selects(s, e, r) then Stopped(s.snaps[r].status) else s.snaps[r].status
  {
    hide Sweep, Free, OwnedBy, AtCapacity;
    var task := s.threads[e.t].task;
    if e.Prune? { SweepStops(s, e.t, e.expired, {}, {}, task, r); }
    else if e.EvictOwn? { SweepStops(s, e.t, [e.victim], {}, {}, task, r); }
    else if Registered(s, e.ref) && HasStatus(s, e.ref, Active) { SweepStops(s, e.t, [e.ref], {}, {}, Idle, r); }
  }

  lemma CancelIsApply(s: Sys, e: Event)
    requires Enabled(s, e) && CancelEvent(e)
    ensures Apply(s, e) == ApplyCancel(s, e)
  {
    hide Enabled, ApplyCancel;
  }

  /** Expiry, eviction, cancellation and discarding stop exactly the snapshots they select. */
  lemma SelectedAreStopped(s: Sys, e: Event, r: Ref)
    requires Inv(s) && Enabled(s, e) && CancelEvent(e) && r in s.snaps
    ensures r in Apply(s, e).snaps
    ensures Apply(s, e).snaps[r].status == if Selects(s, e, r) then Stopped(s.snaps[r].status) else s.snaps[r].status
  {
    hide Enabled, Apply, ApplyCancel, Stopped, Inv, Registered, HasStatus, CursorValid;
    CancelIsApply(s, e);
    if e.CancelCursor? { CursorStops(s, e, r); }
    else if e.CancelRequest? || e.Discard? { MatchStops(s, e, r); }
    else { SingleStops(s, e, r); }
  }

  predicate Over(s: Sys, r: Ref) { r in s.snaps && s.snaps[r].status in {Cancelled, Closing} }

  /** The step publishes the snapshot, or lets a continuation of it past its active check. */
  predicate Serves(s: Sys, e: Event, r: Ref)
    requires Enabled(s, e)
  {
    var s' := Apply(s, e);
    && e.t in s'.threads && ((e.Publish? && s'.threads[e.t].task == ReturningFirst(r))
      || (e.CheckActive? && s'.threads[e.t].task.PageRead? && s'.threads[e.t].task.ref == r))
  }

  lemma OverServesNothing(s: Sys, e: Event, r: Ref)
    requires Enabled(s, e) && Over(s, r)
    ensures !Serves(s, e, r)
  {
    hide Free, CursorValid, OwnedBy;
  }

  lemma StoppedIsOver(status: Status)
    ensures Stopped(status) in {Cancelled, Closing}
  {
  }

  /**
    In every run, once a snapshot has been selected it is never published afterwards, and every continuation
    whose active check comes afterwards is refused.
   */
  lemma SelectedServesNoMore(states: seq<Sys>, events: seq<Event>, i: nat, j: nat, r: Ref)
    requires IsRun(states, events) && i < j < |events| && r in states[i].snaps
    requires CancelEvent(events[i]) && Selects(states[i], events[i], r)
    ensures Over(states[j], r) && !Serves(states[j], events[j], r)
  {
    hide Inv, Apply, Enabled, Selects, Serves, Stopped, SnapsEvolve, Initial;
    assert states[i + 1] == Apply(states[i], events[i]) && Enabled(states[j], events[j]);
    RunKeepsInv(states, events, i);
    SelectedAreStopped(states[i], events[i], r);
    StoppedIsOver(states[i].snaps[r].status);
    StatusOnlyAdvances(states, events, i + 1, j);
    Evolved(states[i + 1], states[j], r);
    OverServesNothing(states[j], events[j], r);
  }

  // ----- who gets a page

  lemma CheckAtOffset(s: Sys, e: Event)
    requires Inv(s) && Pages(s) && Enabled(s, e) && e.CheckActive?
    ensures var task := s.threads[e.t].task;
            && task.ref in s.snaps
            && var n := s.snaps[task.ref];
            !n.disturbed && n.status == Active ==> n.nextOffset == |n.served|
  {
    hide Inv, Pages, CursorValid, OwnedBy;
    var t, r := e.t, s.threads[e.t].task.ref;
    NamesExist(s, t, r);
    LockFacts(s, t, r);
    OffsetCounts(s.snaps[r], r, t, s.threads[t].task, s.issued);
  }

  lemma OffsetCounts(n: Snap, r: Ref, t: Tid, task: Task, issued: set<Cursor>)
    requires SnapPages(n) && TaskPages(n, r, t, task, issued) && task.Checking? && task.ref == r && n.lock == Some(t)
    ensures !n.disturbed && n.status == Active ==> n.nextOffset == |n.served|
  {
  }

  /**
    In every run, a continuation gets to read a page exactly if its snapshot is active and its cursor was handed out
    for that snapshot, at the number of entries delivered so far; otherwise it ends and gives the lock back.
   */
  lemma ContinuesIff(states: seq<Sys>, events: seq<Event>, i: nat)
    requires IsRun(states, events) && i < |events| && events[i].CheckActive?
    ensures var s, s', t := states[i], states[i + 1], events[i].t;
            && t in s.threads && s.threads[t].task.Checking? && t in s'.threads
            && var r, c := s.threads[t].task.ref, s.threads[t].task.cursor;
            && r in s.snaps && r in s'.snaps
            && (!s.snaps[r].disturbed ==>
                  (s'.threads[t].task == PageRead(r, c)
                   <==> s.snaps[r].status == Active && c in s.issued && c.key == r && c.id == s.snaps[r].id
                        && c.offset == |s.snaps[r].served|))
            && (s'.threads[t].task == PageRead(r, c) || (s'.threads[t].task == Idle && s'.snaps[r].lock == None))
  {
    hide Inv, Pages, Apply, TaskPages, SnapPages, Initial;
    assert Enabled(states[i], events[i]) && states[i + 1] == Apply(states[i], events[i]);
    RunKeepsPages(states, events, i);
    CheckIsChecking(states[i], events[i]);
    CheckAtOffset(states[i], events[i]);
    LockFacts(states[i], events[i].t, states[i].threads[events[i].t].task.ref);
    CheckOutcome(states[i], events[i]);
    CheckIsContinue(states[i], events[i]);
  }

  lemma CheckIsChecking(s: Sys, e: Event)
    requires Enabled(s, e) && e.CheckActive?
    ensures e.t in s.threads && s.threads[e.t].task.Checking?
  {
    hide Registered, HasStatus, AtCapacity, Free;
  }

  lemma CheckIsContinue(s: Sys, e: Event)
    requires Enabled(s, e) && e.CheckActive?
    ensures Apply(s, e) == ApplyContinue(s, e)
  {
    hide Enabled, ApplyContinue;
  }

  lemma CheckOutcome(s: Sys, e: Event)
    requires Enabled(s, e) && e.CheckActive? && e.t in s.threads && s.threads[e.t].task.Checking?
    requires var r := s.threads[e.t].task.ref; r in s.snaps && (s.snaps[r].status == Active ==> Registered(s, r))
    ensures var s', t, r, c := ApplyContinue(s, e), e.t, s.threads[e.t].task.ref, s.threads[e.t].task.cursor;
            && t in s'.threads && r in s'.snaps
            && (s'.threads[t].task == PageRead(r, c)
                <==> s.snaps[r].status == Active && CursorValid(s, c, r) && c.offset == s.snaps[r].nextOffset)
            && (s'.threads[t].task == PageRead(r, c) || (s'.threads[t].task == Idle && s'.snaps[r].lock == None))
  {
    hide Enabled, Registered, CursorValid;
  }

  // ----- when the listing is complete

  /** The step reads what the backend gives as the last of the listing. */
  predicate ReadsLast(s: Sys, e: Event, r: Ref) {
    && e.t in s.threads && ((e.PageReturns? && s.threads[e.t].task.PageRead? && s.threads[e.t].task.ref == r && !e.more)
      || (e.FirstReadReturns? && s.threads[e.t].task == FirstRead(r) && !e.more))
  }

  lemma LastRead(s: Sys, e: Event, r: Ref)
    requires Enabled(s, e) && ReadsLast(s, e, r)
    requires r in s.snaps && SnapPages(s.snaps[r]) && !s.snaps[r].disturbed
    requires e.PageReturns? ==> s.snaps[r].nextOffset > 0
    ensures var s' := Apply(s, e);
            && r in s'.snaps && s'.snaps[r].content == s.snaps[r].content
            && s'.snaps[r].served == s.snaps[r].content[..s'.snaps[r].position]
            && s'.snaps[r].position == (if e.PageReturns? then s.snaps[r].position else 0) + e.count
            && s'.snaps[r].position <= |s.snaps[r].content|
  {
    hide Enabled, ApplyOpen, ApplyContinue;
    if e.PageReturns? { PageShape(s, e); } else { FirstReadShape(s, e); }
  }

  lemma PageHasOffset(s: Sys, e: Event, r: Ref)
    requires Inv(s) && Pages(s) && Enabled(s, e) && ReadsLast(s, e, r)
    ensures r in s.snaps && SnapPages(s.snaps[r]) && (e.PageReturns? ==> s.snaps[r].nextOffset > 0)
  {
    hide Inv, Pages, OwnedBy, CursorValid;
    NamesExist(s, e.t, r);
    LockFacts(s, e.t, r);
    hide SnapPages;
  }

  /**
    In every run, when a page is the last and no read raised, the entries delivered are the whole listing exactly
    if the backend has been read to its end, and otherwise a part of it from the beginning.
   */
  lemma LastPageCompletes(states: seq<Sys>, events: seq<Event>, i: nat, r: Ref)
    requires IsRun(states, events) && i < |events| && ReadsLast(states[i], events[i], r)
    requires r in states[i].snaps && !states[i].snaps[r].disturbed
    ensures var n, m := states[i].snaps[r], states[i + 1].snaps;
            var read := (if events[i].PageReturns? then n.position else 0) + events[i].count;
            && r in m && read <= |n.content| && m[r].served == n.content[..read]
            && (m[r].served == n.content <==> read == |n.content|)
  {
    hide Inv, Enabled, Apply, Pages, SnapPages, TaskPages, ReadsLast;
    assert Enabled(states[i], events[i]) && states[i + 1] == Apply(states[i], events[i]);
    RunKeepsPages(states, events, i);
    PageHasOffset(states[i], events[i], r);
    LastRead(states[i], events[i], r);
  }
}
