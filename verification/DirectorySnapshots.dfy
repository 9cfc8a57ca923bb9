/**
  Paginated directory listings (`FileService` in `app/file_service.py`) as a system of threads. Every region
  under the registry lock, and every region under a snapshot's own lock that nothing interrupts, is one
  step; the snapshot lock is explicit where it is held across a backend read.
 */
module DirectorySnapshots {

  import opened Collections

  type Tid = nat
  type Ref = nat
  type Sid = string
  type Name = string

  datatype Status = Opening | Active | Cancelled | Closing

  /** A signed cursor; `key` is the snapshot whose signing key made the signature. */
  datatype Cursor = Cursor(id: Sid, offset: nat, key: Ref)

  datatype Snap = Snap(
    id: Sid,
    owner: string,
    content: seq<Name>,       // what the backend's listing yields, in order
    status: Status,
    cancelWaiter: bool,
    closeStarted: bool,
    closed: bool,             // the `closed` event
    listing: bool,            // the backend handle is stored
    stored: bool,             // a backend handle has been stored at some time
    lock: Option<Tid>,
    position: nat,            // how far the backend handle has been read
    nextOffset: nat,
    served: seq<Name>,        // the entries delivered to the client
    disturbed: bool,          // a read has raised
    final: bool,              // the last page has been delivered
    handleCloses: nat,
    opener: Tid,
    closer: Option<Tid>       // the thread that took on the closing
  )

  /** What a thread is about to do. */
  datatype Task =
    | Idle
    | Reserving(owner: string)
    | OpeningCall(ref: Ref)
    | StoringListing(ref: Ref, ok: bool)
    | CheckingCancel(ref: Ref)
    | FirstRead(ref: Ref)
    | Publishing(ref: Ref, count: nat)
    | ReturningFirst(ref: Ref)
    | Retiring(ref: Ref)
    | Continuing(cursor: Cursor)
    | Locking(ref: Ref, cursor: Cursor)
    | Checking(ref: Ref, cursor: Cursor)
    | PageRead(ref: Ref, cursor: Cursor)
    | Rearming(ref: Ref, cursor: Cursor)
    | Ending(ref: Ref)
    | Waiting(refs: set<Ref>)

  /** How far a thread is with closing its first debt. */
  datatype Stage = NotBegun | Begun(handle: bool) | HandleClosed

  /** A thread first closes the snapshots it took on, then goes on with its task. */
  datatype Thread = Thread(task: Task, debts: seq<Ref>, stage: Stage)

  datatype Sys = Sys(
    maxStates: nat,
    maxPerUser: nat,
    registry: map<Sid, Ref>,
    snaps: map<Ref, Snap>,
    threads: map<Tid, Thread>,
    issued: set<Cursor>,
    yielded: set<(Ref, nat)>
  )

  // ----- vocabulary

  predicate Registered(s: Sys, r: Ref) {
    r in s.snaps && s.snaps[r].id in s.registry && s.registry[s.snaps[r].id] == r
  }

  predicate HasStatus(s: Sys, r: Ref, status: Status) { r in s.snaps && s.snaps[r].status == status }

  /** The opener is still between reserving the snapshot and handing it over. */
  predicate OpensSnap(task: Task, r: Ref) {
    match task
    case OpeningCall(x) => x == r
    case StoringListing(x, _) => x == r
    case CheckingCancel(x) => x == r
    case FirstRead(x) => x == r
    case Publishing(x, _) => x == r
    case _ => false
  }

  predicate HoldsLock(task: Task, r: Ref) {
    match task
    case Checking(x, _) => x == r
    case PageRead(x, _) => x == r
    case Rearming(x, _) => x == r
    case Ending(x) => x == r
    case _ => false
  }

  /** The continuation is past its active check. */
  predicate PastCheck(task: Task, r: Ref) { HoldsLock(task, r) && !task.Checking? }

  predicate Free(s: Sys, t: Tid) { t in s.threads && s.threads[t].debts == [] && s.threads[t].stage == NotBegun }

  function OwnedBy(s: Sys, owner: string): set<Sid> {
    set id | id in s.registry && s.registry[id] in s.snaps && s.snaps[s.registry[id]].owner == owner
  }

  predicate AtCapacity(s: Sys, owner: string) {
    |OwnedBy(s, owner)| >= s.maxPerUser || |s.registry| >= s.maxStates
  }

  function Put(s: Sys, r: Ref, snap: Snap): Sys { s.(snaps := s.snaps[r := snap]) }

  function Does(s: Sys, t: Tid, task: Task): Sys
    requires t in s.threads
  {
    s.(threads := s.threads[t := s.threads[t].(task := task)])
  }

  /** A valid cursor of the snapshot: the signature cannot be forged, so it has been issued. */
  predicate CursorValid(s: Sys, cursor: Cursor, r: Ref) {
    r in s.snaps && cursor in s.issued && cursor.key == r && cursor.id == s.snaps[r].id
  }

  // ----- one region that moves several snapshots at once

  function SweepSnap(snap: Snap, r: Ref, t: Tid, close: seq<Ref>, cancel: set<Ref>, flag: set<Ref>): Snap {
    snap.(
      status := if r in close then Closing else if r in cancel then Cancelled else snap.status,
      closer := if r in close then Some(t) else snap.closer,
      cancelWaiter := snap.cancelWaiter || r in flag)
  }

  /** Prune, eviction, timer, cancellation and discard all do this with the snapshots they select. */
  function Sweep(s: Sys, t: Tid, close: seq<Ref>, cancel: set<Ref>, flag: set<Ref>, task: Task): Sys {
    s.(
      snaps := map r | r in s.snaps :: SweepSnap(s.snaps[r], r, t, close, cancel, flag),
      threads := s.threads[t := Thread(task, close, NotBegun)])
  }

  predicate Distinct(refs: seq<Ref>) { forall i, j | 0 <= i < j < |refs| :: refs[i] != refs[j] }

  /** The selections that these regions make: active snapshots to close, opening ones to cancel. */
  predicate SweepOk(s: Sys, t: Tid, close: seq<Ref>, cancel: set<Ref>, flag: set<Ref>) {
    && Free(s, t) && Distinct(close)
    && (forall r | r in close :: HasStatus(s, r, Active) && Registered(s, r))
    && (forall r | r in cancel :: HasStatus(s, r, Opening) && Registered(s, r))
    && (forall r | r in flag :: r in s.snaps && Registered(s, r) && (s.snaps[r].status == Active ==> r in close)
                                && (s.snaps[r].status == Opening ==> r in cancel))
  }

  // ----- events

  datatype Event =
    | BeginList(t: Tid, owner: string)
    | BeginContinue(t: Tid, cursor: Cursor)
    | Prune(t: Tid, expired: seq<Ref>)
    | EvictOwn(t: Tid, victim: Ref)
    | Reject(t: Tid)
    | Insert(t: Tid, id: Sid, ref: Ref, content: seq<Name>)
    | OpenReturns(t: Tid, ok: bool)
    | OpenRaises(t: Tid)
    | StoreListing(t: Tid)
    | CheckCancel(t: Tid)
    | FirstReadReturns(t: Tid, count: nat, more: bool)
    | FirstReadFails(t: Tid)
    | Publish(t: Tid)
    | ReturnFirst(t: Tid)
    | Retire(t: Tid)
    | Lookup(t: Tid)
    | Acquire(t: Tid)
    | CheckActive(t: Tid)
    | PageReturns(t: Tid, count: nat, more: bool)
    | PageFails(t: Tid)
    | PageRaises(t: Tid, position: nat)
    | Rearm(t: Tid)
    | EndLocked(t: Tid)
    | TimerFires(t: Tid, ref: Ref)
    | CancelCursor(t: Tid, cursor: Cursor)
    | CancelRequest(t: Tid, matches: seq<Ref>)
    | Discard(t: Tid, matches: seq<Ref>)
    | CloseBegin(t: Tid)
    | CloseHandle(t: Tid)
    | CloseFinish(t: Tid)
    | WaitDone(t: Tid, ref: Ref)

  function SelectStatus(s: Sys, refs: seq<Ref>, status: Status): seq<Ref> {
    if refs == [] then []
    else
      var init := SelectStatus(s, refs[..|refs| - 1], status);
      if HasStatus(s, refs[|refs| - 1], status) then init + [refs[|refs| - 1]] else init
  }

  /** The snapshots whose closing the caller of `cancel_directory_request` waits for. */
  function ToAwait(s: Sys, refs: seq<Ref>): set<Ref> {
    set r | r in refs && r in s.snaps && s.snaps[r].status != Active && !s.snaps[r].cancelWaiter
  }

  predicate Enabled(s: Sys, e: Event) {
    && e.t in s.threads
    && (e.CloseBegin? || e.CloseHandle? || e.CloseFinish? || Free(s, e.t))
    && var task := s.threads[e.t].task;
    match e
    case BeginList(_, _) => task.Idle?
    case BeginContinue(_, _) => task.Idle?
    case Prune(_, expired) =>
      (task.Reserving? || task.Continuing?) && expired != [] && Distinct(expired)
      && forall r | r in expired :: Registered(s, r) && HasStatus(s, r, Active)
    case EvictOwn(_, victim) =>
      task.Reserving? && AtCapacity(s, task.owner)
      && Registered(s, victim) && HasStatus(s, victim, Active) && s.snaps[victim].owner == task.owner
    case Reject(_) => task.Reserving? && AtCapacity(s, task.owner)
    case Insert(_, id, ref, _) =>
      task.Reserving? && !AtCapacity(s, task.owner) && id !in s.registry && ref !in s.snaps
    case OpenReturns(_, _) => task.OpeningCall?
    case OpenRaises(_) => task.OpeningCall?
    case StoreListing(_) => task.StoringListing? && task.ref in s.snaps && s.snaps[task.ref].lock == None
    case CheckCancel(_) => task.CheckingCancel?
    case FirstReadReturns(_, count, more) =>
      task.FirstRead? && task.ref in s.snaps && count <= |s.snaps[task.ref].content| && (more ==> count > 0)
    case FirstReadFails(_) => task.FirstRead?
    case Publish(_) => task.Publishing?
    case ReturnFirst(_) => task.ReturningFirst?
    case Retire(_) => task.Retiring?
    case Lookup(_) => task.Continuing?
    case Acquire(_) => task.Locking? && task.ref in s.snaps && s.snaps[task.ref].lock == None
    case CheckActive(_) => task.Checking?
    case PageReturns(_, count, more) =>
      task.PageRead? && task.ref in s.snaps && s.snaps[task.ref].position + count <= |s.snaps[task.ref].content|
      && (more ==> count > 0)
    case PageFails(_) => task.PageRead?
    case PageRaises(_, _) => task.PageRead?
    case Rearm(_) => task.Rearming?
    case EndLocked(_) => task.Ending?
    case TimerFires(_, _) => task.Idle?
    case CancelCursor(_, _) => task.Idle?
    case CancelRequest(_, matches) => task.Idle? && Distinct(matches) && forall r | r in matches :: Registered(s, r)
    case Discard(_, matches) => task.Idle? && Distinct(matches) && forall r | r in matches :: Registered(s, r)
    case CloseBegin(_) =>
      var th := s.threads[e.t];
      th.debts != [] && th.stage == NotBegun && th.debts[0] in s.snaps && s.snaps[th.debts[0]].lock == None
    case CloseHandle(_) => s.threads[e.t].debts != [] && s.threads[e.t].stage.Begun?
    case CloseFinish(_) => s.threads[e.t].debts != [] && s.threads[e.t].stage == HandleClosed
    case WaitDone(_, ref) => task.Waiting? && ref in task.refs && ref in s.snaps && s.snaps[ref].closed
  }

  /** `_retire_directory_snapshot`: mark as closing and take on the closing, if still registered. */
  function RetireSnap(s: Sys, t: Tid, r: Ref): Sys
    requires t in s.threads
  {
    if !Registered(s, r) then Does(s, t, Idle)
    else
      Put(s, r, s.snaps[r].(status := Closing, closer := if s.snaps[r].closeStarted then s.snaps[r].closer
        else Some(t)))
        .(threads := s.threads[t := Thread(Idle, [r], NotBegun)])
  }

  /** A snapshot that has just been reserved. */
  function Reserved(id: Sid, owner: string, content: seq<Name>, t: Tid): Snap {
    Snap(id, owner, content, Opening, false, false, false, false, false, None, 0, 0, [], false, false, 0, t, None)
  }

  /** The first page has been read. */
  function ReadFirst(snap: Snap, count: nat, more: bool): Snap
    requires count <= |snap.content|
  {
    if more then snap.(position := count) else snap.(position := count, served := snap.content[..count])
  }

  function AfterFirstRead(s: Sys, t: Tid, r: Ref, count: nat, more: bool): Sys
    requires t in s.threads && r in s.snaps && count <= |s.snaps[r].content|
  {
    Does(Put(s, r, ReadFirst(s.snaps[r], count, more)), t, if more then Publishing(r, count) else Retiring(r))
  }

  function ApplyOpen(s: Sys, e: Event): Sys
    requires Enabled(s, e)
  {
    var t := e.t;
    var task := s.threads[t].task;
    match e
    case BeginList(_, owner) => Does(s, t, Reserving(owner))
    case BeginContinue(_, cursor) => Does(s, t, Continuing(cursor))
    case Reject(_) => Does(s, t, Idle)
    case Insert(_, id, ref, content) =>
      Does(Put(s, ref, Reserved(id, task.owner, content, t)).(registry := s.registry[id := ref]), t, OpeningCall(ref))
    case OpenReturns(_, ok) => Does(s, t, StoringListing(task.ref, ok))
    case OpenRaises(_) => Does(s, t, Retiring(task.ref))
    case StoreListing(_) =>
      Does(Put(s, task.ref, s.snaps[task.ref].(listing := task.ok, stored := task.ok)), t,
           if task.ok then CheckingCancel(task.ref) else Retiring(task.ref))
    case CheckCancel(_) =>
      Does(s, t, if Registered(s, task.ref) && HasStatus(s, task.ref, Opening) then FirstRead(task.ref)
        else Retiring(task.ref))
    case FirstReadReturns(_, count, more) =>
      AfterFirstRead(s, t, task.ref, count, more)
    case FirstReadFails(_) => Does(s, t, Retiring(task.ref))
    case Publish(_) =>
      if Registered(s, task.ref) && HasStatus(s, task.ref, Opening) && task.count <= |s.snaps[task.ref].content| then
        Does(Put(s, task.ref, s.snaps[task.ref].(status := Active, nextOffset := task.count,
          served := s.snaps[task.ref].content[..task.count])),
             t, ReturningFirst(task.ref))
      else Does(s, t, Retiring(task.ref))
    case ReturnFirst(_) =>
      if task.ref in s.snaps then
        Does(s, t, Idle).(issued := s.issued + {Cursor(s.snaps[task.ref].id, s.snaps[task.ref].nextOffset, task.ref)})
      else s
    case Retire(_) => RetireSnap(s, t, task.ref)
    case _ => s
  }

  function Unlock(s: Sys, t: Tid, r: Ref, task: Task): Sys
    requires t in s.threads && r in s.snaps
  {
    Does(Put(s, r, s.snaps[r].(lock := None)), t, task)
  }

  /** A page has been read for a cursor; `more` says that the listing goes on. */
  function ReadPage(snap: Snap, count: nat, more: bool): Snap
    requires snap.position + count <= |snap.content|
  {
    var page := snap.content[snap.position..snap.position + count];
    var read := snap.(position := snap.position + count, served := snap.served + page);
    if more then read.(nextOffset := snap.nextOffset + count) else read.(final := true)
  }

  function AfterPage(s: Sys, t: Tid, r: Ref, cursor: Cursor, count: nat, more: bool): Sys
    requires t in s.threads && r in s.snaps && s.snaps[r].position + count <= |s.snaps[r].content|
  {
    var next := Put(s.(yielded := s.yielded + {(r, cursor.offset)}), r, ReadPage(s.snaps[r], count, more));
    Does(next, t, if more then Rearming(r, cursor) else Ending(r))
  }

  function ApplyContinue(s: Sys, e: Event): Sys
    requires Enabled(s, e)
  {
    var t := e.t;
    var task := s.threads[t].task;
    match e
    case Lookup(_) =>
      Does(s, t, if task.cursor.id in s.registry then Locking(s.registry[task.cursor.id], task.cursor) else Idle)
    case Acquire(_) =>
      Does(Put(s, task.ref, s.snaps[task.ref].(lock := Some(t))), t, Checking(task.ref, task.cursor))
    case CheckActive(_) =>
      if task.ref !in s.snaps then s
      else if Registered(s, task.ref) && HasStatus(s, task.ref, Active)
        && CursorValid(s, task.cursor, task.ref) && task.cursor.offset == s.snaps[task.ref].nextOffset
      then Does(s, t, PageRead(task.ref, task.cursor))
      else Unlock(s, t, task.ref, Idle)
    case PageReturns(_, count, more) =>
      AfterPage(s, t, task.ref, task.cursor, count, more)
    case PageFails(_) => Does(s, t, Ending(task.ref))
    case PageRaises(_, position) =>
      if task.ref !in s.snaps then s
      else Unlock(Put(s, task.ref, s.snaps[task.ref].(position := position, disturbed := true)), t, task.ref, Idle)
    case Rearm(_) =>
      if task.ref !in s.snaps then s
      else if Registered(s, task.ref) && s.snaps[task.ref].status in {Active, Closing} then
        Unlock(s, t, task.ref, Idle).(issued := s.issued
          + {Cursor(s.snaps[task.ref].id, s.snaps[task.ref].nextOffset, task.ref)})
      else Unlock(s, t, task.ref, Idle)
    case EndLocked(_) =>
      if task.ref !in s.snaps then s
      else if Registered(s, task.ref) && HasStatus(s, task.ref, Active) then
        var closing := s.snaps[task.ref].(status := Closing, cancelWaiter := true, closer := Some(t));
        Unlock(Put(s, task.ref, closing), t, task.ref, Retiring(task.ref))
      else Unlock(s, t, task.ref, Retiring(task.ref))
    case _ => s
  }

  function ApplyCancel(s: Sys, e: Event): Sys
    requires Enabled(s, e)
  {
    var t := e.t;
    var task := s.threads[t].task;
    match e
    case Prune(_, expired) => Sweep(s, t, expired, {}, {}, task)
    case EvictOwn(_, victim) => Sweep(s, t, [victim], {}, {}, task)
    case TimerFires(_, ref) =>
      if Registered(s, ref) && HasStatus(s, ref, Active) then Sweep(s, t, [ref], {}, {}, Idle) else s
    case CancelCursor(_, cursor) =>
      if cursor.id !in s.registry || !CursorValid(s, cursor, s.registry[cursor.id]) then s
      else
        var r := s.registry[cursor.id];
        var snap := s.snaps[r];
        if snap.status == Active then
          (if snap.cancelWaiter then Put(s, r, snap.(status := Closing))
           else Sweep(s, t, [r], {}, {r}, Idle))
        else if snap.status in {Cancelled, Closing} && !snap.cancelWaiter then Sweep(s, t, [], {}, {r}, Waiting({r}))
        else s
    case CancelRequest(_, matches) =>
      Sweep(s, t, SelectStatus(s, matches, Active), set r | r in matches && HasStatus(s, r, Opening),
            set r | r in matches, if ToAwait(s, matches) == {} then Idle else Waiting(ToAwait(s, matches)))
    case Discard(_, matches) =>
      Sweep(s, t, SelectStatus(s, matches, Active), (set r | r in matches && HasStatus(s, r, Opening)), {}, Idle)
    case _ => s
  }

  function ApplyClose(s: Sys, e: Event): Sys
    requires Enabled(s, e)
  {
    var t := e.t;
    var th := s.threads[t];
    match e
    case CloseBegin(_) =>
      var r := th.debts[0];
      var snap := s.snaps[r];
      if snap.closeStarted then s.(threads := s.threads[t := th.(debts := th.debts[1..])])
      else
        Put(s, r, snap.(closeStarted := true, cancelWaiter := true, listing := false, closer := Some(t)))
          .(threads := s.threads[t := th.(stage := Begun(snap.listing))])
    case CloseHandle(_) =>
      var r := th.debts[0];
      if r !in s.snaps then s
      else
        Put(s, r, s.snaps[r].(handleCloses := s.snaps[r].handleCloses + if th.stage.handle then 1 else 0))
          .(threads := s.threads[t := th.(stage := HandleClosed)])
    case CloseFinish(_) =>
      var r := th.debts[0];
      if r !in s.snaps then s
      else
        Put(s, r, s.snaps[r].(closed := true))
          .(registry := if Registered(s, r) then s.registry - {s.snaps[r].id} else s.registry,
            threads := s.threads[t := th.(debts := th.debts[1..], stage := NotBegun)])
    case WaitDone(_, ref) =>
      Does(s, t, if th.task.refs == {ref} then Idle else Waiting(th.task.refs - {ref}))
    case _ => s
  }

  predicate OpenEvent(e: Event) {
    e.BeginList? || e.BeginContinue? || e.Reject? || e.Insert? || e.OpenReturns? || e.OpenRaises? || e.StoreListing?
    || e.CheckCancel? || e.FirstReadReturns? || e.FirstReadFails? || e.Publish? || e.ReturnFirst? || e.Retire?
  }

  predicate ContinueEvent(e: Event) {
    e.Lookup? || e.Acquire? || e.CheckActive? || e.PageReturns? || e.PageFails? || e.PageRaises? || e.Rearm?
      || e.EndLocked?
  }

  predicate CancelEvent(e: Event) {
    e.Prune? || e.EvictOwn? || e.TimerFires? || e.CancelCursor? || e.CancelRequest? || e.Discard?
  }

  function Apply(s: Sys, e: Event): Sys
    requires Enabled(s, e)
  {
    if OpenEvent(e) then ApplyOpen(s, e)
    else if ContinueEvent(e) then ApplyContinue(s, e)
    else if CancelEvent(e) then ApplyCancel(s, e)
    else ApplyClose(s, e)
  }
}
