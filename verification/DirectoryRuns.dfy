/** Every step keeps the invariant of the directory-listing threads, so every run does. */
module DirectoryRuns {

  import opened Collections
  import opened DirectorySnapshots
  import opened DirectorySafety

  // ----- closing a snapshot

  function CloseBegun(n: Snap, t: Tid): Snap {
    n.(closeStarted := true, cancelWaiter := true, listing := false, closer := Some(t))
  }

  lemma BeginOther(n: Snap, r: Ref, t: Tid, u: Tid, th: Thread)
    requires Pair(n, r, u, th) && u != t && SnapOk(n) && n.status == Closing && !n.closeStarted && n.lock == None
    ensures Pair(CloseBegun(n, t), r, u, th)
  {
  }

  lemma BeginSelf(n: Snap, q: Ref, t: Tid, th: Thread, handle: bool)
    requires Pair(n, q, t, th) && SnapOk(n) && ThreadOk(th) && th.debts != [] && th.stage == NotBegun
    ensures ThreadOk(th.(stage := Begun(handle)))
    ensures q == th.debts[0] ==> n.status == Closing
    ensures q == th.debts[0] && !n.closeStarted && handle == n.listing ==>
              SnapOk(CloseBegun(n, t)) && Pair(CloseBegun(n, t), q, t, th.(stage := Begun(handle)))
    ensures q != th.debts[0] ==> Pair(n, q, t, th.(stage := Begun(handle)))
  {
  }

  lemma SameNames(th: Thread, stage: Stage)
    ensures forall q :: Names(th.(stage := stage), q) <==> Names(th, q)
  {
  }

  lemma BeginStep(s: Sys, t: Tid, r: Ref, s': Sys)
    requires Inv(s) && t in s.threads && s.threads[t].debts != [] && s.threads[t].stage == NotBegun
    requires r == s.threads[t].debts[0] && r in s.snaps && s.snaps[r].lock == None && !s.snaps[r].closeStarted
    requires s'.registry == s.registry && s'.snaps == s.snaps[r := CloseBegun(s.snaps[r], t)]
    requires s'.threads == s.threads[t := s.threads[t].(stage := Begun(s.snaps[r].listing))]
    ensures Inv(s')
  {
    hide Pair, SnapOk, RegistryOk, Names, ThreadOk, Paired, Peopled;
    var th, n := s.threads[t], s.snaps[r];
    var after := th.(stage := Begun(n.listing));
    SameNames(th, after.stage);
    PairOf(s, r, t);
    BeginSelf(n, r, t, th, n.listing);
    forall q | Names(after, q) ensures q in s.snaps { NamesExist(s, t, q); }
    forall u | u in s.threads && u != t && Pair(n, r, u, s.threads[u])
      ensures Pair(CloseBegun(n, t), r, u, s.threads[u])
    {
      BeginOther(n, r, t, u, s.threads[u]);
    }
    forall q | q in s.snaps && q != r && Pair(s.snaps[q], q, t, th) ensures Pair(s.snaps[q], q, t, after) {
      PairOf(s, q, t);
      BeginSelf(s.snaps[q], q, t, th, n.listing);
    }
    ChangeKeepsInv(s, r, CloseBegun(n, t), t, after, s');
  }

  function HandleDone(n: Snap, handle: bool): Snap { n.(handleCloses := n.handleCloses + if handle then 1 else 0) }

  lemma HandleOther(n: Snap, r: Ref, t: Tid, u: Tid, th: Thread, handle: bool)
    requires Pair(n, r, u, th) && u != t && n.closer == Some(t)
    ensures Pair(HandleDone(n, handle), r, u, th)
  {
  }

  lemma HandleSelf(n: Snap, q: Ref, t: Tid, th: Thread)
    requires Pair(n, q, t, th) && SnapOk(n) && ThreadOk(th) && th.debts != [] && th.stage.Begun?
    ensures ThreadOk(th.(stage := HandleClosed))
    ensures q == th.debts[0] ==>
              var m := HandleDone(n, th.stage.handle);
              n.closer == Some(t) && SnapOk(m) && Pair(m, q, t, th.(stage := HandleClosed))
    ensures q != th.debts[0] ==> Pair(n, q, t, th.(stage := HandleClosed))
  {
  }

  lemma HandleStep(s: Sys, t: Tid, r: Ref, s': Sys)
    requires Inv(s) && t in s.threads && s.threads[t].debts != [] && s.threads[t].stage.Begun?
    requires r == s.threads[t].debts[0] && r in s.snaps
    requires s'.registry == s.registry && s'.snaps == s.snaps[r := HandleDone(s.snaps[r], s.threads[t].stage.handle)]
    requires s'.threads == s.threads[t := s.threads[t].(stage := HandleClosed)]
    ensures Inv(s')
  {
    hide Pair, SnapOk, RegistryOk, Names, ThreadOk, Paired, Peopled;
    var th, n := s.threads[t], s.snaps[r];
    var after, m := th.(stage := HandleClosed), HandleDone(n, th.stage.handle);
    SameNames(th, HandleClosed);
    PairOf(s, r, t);
    HandleSelf(n, r, t, th);
    forall q | Names(after, q) ensures q in s.snaps { NamesExist(s, t, q); }
    forall u | u in s.threads && u != t && Pair(n, r, u, s.threads[u]) ensures Pair(m, r, u, s.threads[u]) {
      HandleOther(n, r, t, u, s.threads[u], th.stage.handle);
    }
    forall q | q in s.snaps && q != r && Pair(s.snaps[q], q, t, th) ensures Pair(s.snaps[q], q, t, after) {
      PairOf(s, q, t);
      HandleSelf(s.snaps[q], q, t, th);
    }
    ChangeKeepsInv(s, r, m, t, after, s');
  }

  lemma FinishOther(n: Snap, r: Ref, t: Tid, u: Tid, th: Thread)
    requires Pair(n, r, u, th) && u != t && n.closer == Some(t) && n.closeStarted
    ensures Pair(n.(closed := true), r, u, th)
  {
  }

  lemma FinishSelf(n: Snap, q: Ref, t: Tid, th: Thread)
    requires Pair(n, q, t, th) && SnapOk(n) && ThreadOk(th) && th.debts != [] && th.stage == HandleClosed
    ensures var after := th.(debts := th.debts[1..], stage := NotBegun);
            if q == th.debts[0]
            then n.closer == Some(t) && n.closeStarted && !n.closed && SnapOk(n.(closed := true))
              && Pair(n.(closed := true), q, t, after)
            else Pair(n, q, t, after)
  {
    assert th.debts == [th.debts[0]] + th.debts[1..];
  }

  lemma UnregisteredKeepsRegistry(registry: map<Sid, Ref>, snaps: map<Ref, Snap>, r: Ref)
    requires RegistryOk(registry, snaps) && r in snaps && snaps[r].id in registry && registry[snaps[r].id] == r
    ensures RegistryOk(registry - {snaps[r].id}, snaps[r := snaps[r].(closed := true)])
  {
  }

  lemma FinishStep(s: Sys, t: Tid, r: Ref, s': Sys)
    requires Inv(s) && t in s.threads && s.threads[t].debts != [] && s.threads[t].stage == HandleClosed
    requires r == s.threads[t].debts[0] && r in s.snaps
    requires s'.registry == if Registered(s, r) then s.registry - {s.snaps[r].id} else s.registry
    requires s'.snaps == s.snaps[r := s.snaps[r].(closed := true)]
    requires s'.threads == s.threads[t := s.threads[t].(debts := s.threads[t].debts[1..], stage := NotBegun)]
    ensures Inv(s') && Registered(s, r)
  {
    hide Pair, SnapOk, RegistryOk, Names, ThreadOk, Paired, Peopled;
    var th, n := s.threads[t], s.snaps[r];
    var after, m := th.(debts := th.debts[1..], stage := NotBegun), n.(closed := true);
    PairOf(s, r, t);
    FinishSelf(n, r, t, th);
    RegisteredIffOpen(s, r);
    UnregisteredKeepsRegistry(s.registry, s.snaps, r);
    FewerNames(th, after);
    forall q | Names(after, q) ensures q in s.snaps { NamesExist(s, t, q); }
    forall u | u in s.threads && u != t && Pair(n, r, u, s.threads[u]) ensures Pair(m, r, u, s.threads[u]) {
      FinishOther(n, r, t, u, s.threads[u]);
    }
    forall q | q in s.snaps && q != r && Pair(s.snaps[q], q, t, th) ensures Pair(s.snaps[q], q, t, after) {
      PairOf(s, q, t);
      FinishSelf(s.snaps[q], q, t, th);
    }
    PeopledKept(s.snaps, s.threads, r, m, t, after);
    PairedKept(s.snaps, s.threads, r, m, t, after);
  }

  // ----- reserving a snapshot

  lemma ReservedOther(n: Snap, r: Ref, t: Tid, u: Tid, th: Thread)
    requires u != t && !Names(th, r) && n == Reserved(n.id, n.owner, n.content, t)
    ensures Pair(n, r, u, th)
  {
  }

  lemma ReservedSelf(n: Snap, r: Ref, t: Tid)
    requires n == Reserved(n.id, n.owner, n.content, t)
    ensures SnapOk(n) && Pair(n, r, t, Thread(OpeningCall(r), [], NotBegun))
  {
  }

  lemma ReservedQuiet(n: Snap, q: Ref, t: Tid, th: Thread, r: Ref)
    requires Pair(n, q, t, th) && q != r && th.debts == [] && th.stage == NotBegun && th.task.Reserving?
    ensures Pair(n, q, t, Thread(OpeningCall(r), [], NotBegun))
  {
  }

  lemma RegisteredKeepsRegistry(registry: map<Sid, Ref>, snaps: map<Ref, Snap>, r: Ref, m: Snap)
    requires RegistryOk(registry, snaps) && r !in snaps && m.id !in registry && !m.closed
    ensures RegistryOk(registry[m.id := r], snaps[r := m])
  {
  }

  lemma NewcomerPeopled(snaps: map<Ref, Snap>, threads: map<Tid, Thread>, r: Ref, m: Snap, t: Tid, after: Thread)
    requires Peopled(snaps, threads) && t in threads && m.opener == t && m.closer == None && m.lock == None
    requires forall q :: Names(after, q) ==> q == r
    ensures Peopled(snaps[r := m], threads[t := after])
  {
    hide Names;
  }

  lemma InsertStep(s: Sys, t: Tid, r: Ref, m: Snap, s': Sys)
    requires Inv(s) && Free(s, t) && s.threads[t].task.Reserving? && r !in s.snaps && m.id !in s.registry
    requires m == Reserved(m.id, m.owner, m.content, t)
    requires s'.registry == s.registry[m.id := r] && s'.snaps == s.snaps[r := m]
    requires s'.threads == s.threads[t := s.threads[t].(task := OpeningCall(r))]
    ensures Inv(s')
  {
    hide Pair, SnapOk, RegistryOk, Names, ThreadOk, Peopled;
    var after := Thread(OpeningCall(r), [], NotBegun);
    OneName(OpeningCall(r), r);
    RegisteredKeepsRegistry(s.registry, s.snaps, r, m);
    NewcomerPeopled(s.snaps, s.threads, r, m, t, after);
    ReservedSelf(m, r, t);
    forall q, u | q in s'.snaps && u in s'.threads ensures Pair(s'.snaps[q], q, u, s'.threads[u]) {
      if q != r { PairOf(s, q, u); }
      if q != r && u == t { ReservedQuiet(s.snaps[q], q, t, s.threads[t], r); }
      if q == r && u != t {
        if Names(s.threads[u], r) { NamesExist(s, u, r); }
        ReservedOther(m, r, t, u, s.threads[u]);
      }
    }
  }

  // ----- moving several snapshots at once

  lemma SweepOther(n: Snap, m: Snap, r: Ref, t: Tid, u: Tid, th: Thread, close: seq<Ref>, cancel: set<Ref>,
                   flag: set<Ref>)
    requires Pair(n, r, u, th) && u != t && SnapOk(n) && m == SweepSnap(n, r, t, close, cancel, flag)
    requires (r in close ==> n.status == Active) && (r in cancel ==> n.status == Opening)
    ensures Pair(m, r, u, th)
  {
  }

  lemma SweepSnapOk(n: Snap, r: Ref, t: Tid, close: seq<Ref>, cancel: set<Ref>, flag: set<Ref>)
    requires SnapOk(n)
    requires (r in close ==> n.status == Active) && (r in cancel ==> n.status == Opening)
    requires r in flag ==> (n.status == Active ==> r in close) && (n.status == Opening ==> r in cancel)
    ensures SnapOk(SweepSnap(n, r, t, close, cancel, flag))
  {
  }

  predicate Roaming(task: Task) { task.Idle? || task.Reserving? || task.Continuing? }

  lemma SweepSelf(n: Snap, m: Snap, r: Ref, t: Tid, th: Thread, close: seq<Ref>, cancel: set<Ref>, flag: set<Ref>,
                  task: Task)
    requires Pair(n, r, t, th) && SnapOk(n) && m == SweepSnap(n, r, t, close, cancel, flag)
    requires (r in close ==> n.status == Active) && (r in cancel ==> n.status == Opening)
    requires th.debts == [] && th.stage == NotBegun && Roaming(th.task)
    requires Roaming(task) || (task.Waiting? && (r in task.refs ==> m.status in {Cancelled, Closing}))
    ensures Pair(m, r, t, Thread(task, close, NotBegun))
  {
  }

  lemma SweepNames(task: Task, close: seq<Ref>)
    requires Roaming(task) || (task.Waiting? && task.refs != {})
    ensures var th := Thread(task, close, NotBegun);
            ThreadOk(th) && forall q :: Names(th, q) ==> q in close || (task.Waiting? && q in task.refs)
  {
  }

  lemma SweepRegistry(registry: map<Sid, Ref>, snaps: map<Ref, Snap>, t: Tid, close: seq<Ref>, cancel: set<Ref>,
                      flag: set<Ref>)
    requires RegistryOk(registry, snaps)
    ensures RegistryOk(registry, map r | r in snaps :: SweepSnap(snaps[r], r, t, close, cancel, flag))
  {
  }

  lemma SweepPeopled(snaps: map<Ref, Snap>, threads: map<Tid, Thread>, t: Tid, close: seq<Ref>, cancel: set<Ref>,
                     flag: set<Ref>,
                     after: Thread)
    requires Peopled(snaps, threads) && t in threads
    requires forall q | Names(after, q) :: q in snaps
    ensures Peopled(map r | r in snaps :: SweepSnap(snaps[r], r, t, close, cancel, flag), threads[t := after])
  {
    hide Names;
  }

  /** What the snapshots to await will look like: on their way to being closed. */
  ghost predicate AwaitOk(s: Sys, t: Tid, close: seq<Ref>, cancel: set<Ref>, flag: set<Ref>, task: Task) {
    Roaming(task)
    || (task.Waiting? && task.refs != {}
        && forall r | r in task.refs ::
             r in s.snaps && SweepSnap(s.snaps[r], r, t, close, cancel, flag).status in {Cancelled, Closing})
  }

  lemma SweepStep(s: Sys, t: Tid, close: seq<Ref>, cancel: set<Ref>, flag: set<Ref>, task: Task)
    requires Inv(s) && SweepOk(s, t, close, cancel, flag) && Roaming(s.threads[t].task)
    requires AwaitOk(s, t, close, cancel, flag, task)
    ensures Inv(Sweep(s, t, close, cancel, flag, task))
  {
    hide Pair, SnapOk, RegistryOk, Names, ThreadOk, Peopled, Registered, SweepSnap, Distinct;
    var after, s' := Thread(task, close, NotBegun), Sweep(s, t, close, cancel, flag, task);
    SweepNames(task, close);
    SweepRegistry(s.registry, s.snaps, t, close, cancel, flag);
    SweepPeopled(s.snaps, s.threads, t, close, cancel, flag, after);
    forall q | q in s.snaps ensures SnapOk(s'.snaps[q]) {
      SweepSnapOk(s.snaps[q], q, t, close, cancel, flag);
    }
    forall q, u | q in s'.snaps && u in s'.threads ensures Pair(s'.snaps[q], q, u, s'.threads[u]) {
      PairOf(s, q, u);
      if u == t { SweepSelf(s.snaps[q], s'.snaps[q], q, t, s.threads[t], close, cancel, flag, task); }
      else { SweepOther(s.snaps[q], s'.snaps[q], q, t, u, s.threads[u], close, cancel, flag); }
    }
  }

  lemma {:induction false} SelectedExactly(s: Sys, refs: seq<Ref>, status: Status)
    requires Distinct(refs)
    ensures Distinct(SelectStatus(s, refs, status))
    ensures forall r :: r in SelectStatus(s, refs, status) <==> r in refs && HasStatus(s, r, status)
  {
    if refs != [] {
      var init, last := refs[..|refs| - 1], refs[|refs| - 1];
      SelectedExactly(s, init, status);
      assert refs == init + [last];
      assert last !in init;
    }
  }

  // ----- every step keeps the invariant

  lemma OpeningKeepsInv(s: Sys, e: Event)
    requires Inv(s) && Enabled(s, e) && OpenEvent(e) && !OpenerEvent(e)
    ensures Inv(ApplyOpen(s, e))
  {
    hide Inv;
    var t := e.t;
    var task, s' := s.threads[t].task, ApplyOpen(s, e);
    if e.BeginList? || e.BeginContinue? || e.Reject? { QuietStep(s, t, s'.threads[t].task, s'); }
    else if e.Insert? { InsertStep(s, t, e.ref, Reserved(e.id, task.owner, e.content, t), s'); }
    else {
      NamesExist(s, t, task.ref);
      if e.ReturnFirst? { QuietStep(s, t, Idle, s'); }
      else if Registered(s, task.ref) { RetireStep(s, t, task.ref, s'); }
      else { RetireGone(s, t, task.ref, s'); }
    }
  }

  predicate OpenerEvent(e: Event) {
    e.OpenReturns? || e.OpenRaises? || e.StoreListing? || e.CheckCancel? || e.FirstReadReturns? || e.FirstReadFails?
      || e.Publish?
  }

  lemma StoringKeepsInv(s: Sys, e: Event)
    requires Inv(s) && Enabled(s, e) && e.StoreListing?
    ensures Inv(ApplyOpen(s, e))
  {
    hide Inv, Distinct, AtCapacity;
    var t, task := e.t, s.threads[e.t].task;
    NamesExist(s, t, task.ref);
    PairOf(s, task.ref, t);
    StoreStep(s, t, task.ref, task.ok, ApplyOpen(s, e));
  }

  lemma FirstReadShape(s: Sys, e: Event)
    requires Enabled(s, e) && e.FirstReadReturns?
    ensures Free(s, e.t) && s.threads[e.t].task.FirstRead? && s.threads[e.t].task.ref in s.snaps
    ensures var r := s.threads[e.t].task.ref;
            && e.count <= |s.snaps[r].content| && (e.more ==> e.count > 0)
            && ApplyOpen(s, e) == AfterFirstRead(s, e.t, r, e.count, e.more)
  {
    hide Distinct, AtCapacity, Registered, HasStatus, AfterFirstRead;
  }

  lemma FirstReadKeepsInv(s: Sys, e: Event)
    requires Inv(s) && Enabled(s, e) && e.FirstReadReturns?
    ensures Inv(ApplyOpen(s, e))
  {
    hide Inv, Enabled, ApplyOpen;
    FirstReadShape(s, e);
    var t, r, s' := e.t, s.threads[e.t].task.ref, ApplyOpen(s, e);
    PairOf(s, r, t);
    OpenerReads(s, t, r, s'.snaps[r], s'.threads[t].task, s');
  }

  lemma PublishingKeepsInv(s: Sys, e: Event)
    requires Inv(s) && Enabled(s, e) && e.Publish?
    ensures Inv(ApplyOpen(s, e))
  {
    hide Inv, Distinct, AtCapacity;
    var t, r, s' := e.t, s.threads[e.t].task.ref, ApplyOpen(s, e);
    NamesExist(s, t, r);
    PairOf(s, r, t);
    var after := s'.threads[t].task;
    if after == ReturningFirst(r) { PublishStep(s, t, r, s'.snaps[r], s'); }
    else { OpenerStep(s, t, after, r, s'); }
  }

  lemma OpenerKeepsInv(s: Sys, e: Event)
    requires Inv(s) && Enabled(s, e) && OpenerEvent(e)
    ensures Inv(ApplyOpen(s, e))
  {
    if e.StoreListing? {
      hide ApplyOpen, Enabled, Inv;
      StoringKeepsInv(s, e);
    } else if e.FirstReadReturns? {
      hide ApplyOpen, Enabled, Inv;
      FirstReadKeepsInv(s, e);
    } else if e.Publish? {
      hide ApplyOpen, Enabled, Inv;
      PublishingKeepsInv(s, e);
    } else {
      hide Inv, Distinct, AtCapacity;
      var t, r, s' := e.t, s.threads[e.t].task.ref, ApplyOpen(s, e);
      NamesExist(s, t, r);
      PairOf(s, r, t);
      OpenerStep(s, t, s'.threads[t].task, r, s');
    }
  }

  lemma LookupKeepsInv(s: Sys, e: Event)
    requires Inv(s) && Enabled(s, e) && e.Lookup?
    ensures Inv(ApplyContinue(s, e))
  {
    hide Inv, Distinct, AtCapacity;
    var t, s' := e.t, ApplyContinue(s, e);
    var after := s'.threads[t].task;
    if after.Locking? {
      RegistryNames(s, s.threads[t].task.cursor.id);
      LockingStep(s, t, after, s');
    } else { QuietStep(s, t, Idle, s'); }
  }

  lemma PageShape(s: Sys, e: Event)
    requires Enabled(s, e) && e.PageReturns?
    ensures Free(s, e.t) && s.threads[e.t].task.PageRead? && s.threads[e.t].task.ref in s.snaps
    ensures e.more ==> e.count > 0
    ensures var task := s.threads[e.t].task;
            && s.snaps[task.ref].position + e.count <= |s.snaps[task.ref].content|
            && ApplyContinue(s, e) == AfterPage(s, e.t, task.ref, task.cursor, e.count, e.more)
  {
    hide Distinct, AtCapacity, Registered, HasStatus, AfterPage;
  }

  lemma PageKeepsInv(s: Sys, e: Event)
    requires Inv(s) && Enabled(s, e) && e.PageReturns?
    ensures Inv(ApplyContinue(s, e))
  {
    hide Inv, Enabled, ApplyContinue;
    PageShape(s, e);
    var t, r, s' := e.t, s.threads[e.t].task.ref, ApplyContinue(s, e);
    ReaderReads(s, t, r, s'.snaps[r], s'.threads[t].task, s');
  }

  lemma ContinuingKeepsInv(s: Sys, e: Event)
    requires Inv(s) && Enabled(s, e) && (e.Lookup? || e.Acquire? || e.PageReturns? || e.PageFails?)
    ensures Inv(ApplyContinue(s, e))
  {
    if e.Lookup? {
      hide ApplyContinue, Enabled, Inv;
      LookupKeepsInv(s, e);
    } else if e.PageReturns? {
      hide ApplyContinue, Enabled, Inv;
      PageKeepsInv(s, e);
    } else {
      hide Inv, Distinct, AtCapacity, CursorValid;
      var t, task, s' := e.t, s.threads[e.t].task, ApplyContinue(s, e);
      NamesExist(s, t, task.ref);
      if e.Acquire? { AcquireStep(s, t, task.ref, task.cursor, s'); }
      else { ReaderStep(s, t, Ending(task.ref), task.ref, s'); }
    }
  }

  lemma RegistryNames(s: Sys, id: Sid)
    requires Inv(s) && id in s.registry
    ensures s.registry[id] in s.snaps && Registered(s, s.registry[id])
  {
    hide Pair, SnapOk, Names, ThreadOk, Paired, Peopled;
  }

  lemma CheckKeepsInv(s: Sys, e: Event)
    requires Inv(s) && Enabled(s, e) && e.CheckActive?
    ensures Inv(ApplyContinue(s, e))
  {
    hide Inv, Distinct, AtCapacity, CursorValid;
    var t, r, s' := e.t, s.threads[e.t].task.ref, ApplyContinue(s, e);
    var after := s'.threads[t].task;
    NamesExist(s, t, r);
    if after.PageRead? { ReaderStep(s, t, after, r, s'); }
    else { UnlockStep(s, t, r, s'.snaps[r], Idle, s'); }
  }

  lemma RaiseShape(s: Sys, e: Event)
    requires Enabled(s, e) && e.PageRaises? && s.threads[e.t].task.ref in s.snaps
    ensures var task, s' := s.threads[e.t].task, ApplyContinue(s, e);
            && Free(s, e.t) && task.PageRead? && s'.registry == s.registry
            && s'.maxStates == s.maxStates && s'.maxPerUser == s.maxPerUser
            && s'.snaps == s.snaps[task.ref :=
                             s.snaps[task.ref].(position := e.position, disturbed := true, lock := None)]
            && s'.threads == Does(s, e.t, Idle).threads
  {
    hide Distinct, AtCapacity, Registered, HasStatus, CursorValid;
  }

  lemma RearmShape(s: Sys, e: Event)
    requires Enabled(s, e) && e.Rearm? && s.threads[e.t].task.ref in s.snaps
    ensures var task, s' := s.threads[e.t].task, ApplyContinue(s, e);
            && Free(s, e.t) && task.Rearming? && s'.registry == s.registry
            && s'.maxStates == s.maxStates && s'.maxPerUser == s.maxPerUser
            && s'.snaps == s.snaps[task.ref := s.snaps[task.ref].(lock := None)]
            && s'.threads == Does(s, e.t, Idle).threads
  {
    hide Distinct, AtCapacity, Registered, HasStatus, CursorValid;
  }

  /** The thread holds the lock of a snapshot that exists. */
  lemma HolderNames(s: Sys, e: Event)
    requires Inv(s) && Enabled(s, e) && (e.PageRaises? || e.Rearm? || e.EndLocked?)
    ensures s.threads[e.t].task.PageRead? || s.threads[e.t].task.Rearming? || s.threads[e.t].task.Ending?
    ensures s.threads[e.t].task.ref in s.snaps
  {
    hide Inv, Distinct, AtCapacity, Registered, HasStatus;
    NamesExist(s, e.t, s.threads[e.t].task.ref);
  }

  lemma RaiseKeepsInv(s: Sys, e: Event)
    requires Inv(s) && Enabled(s, e) && e.PageRaises?
    ensures Inv(ApplyContinue(s, e))
  {
    hide Inv, Enabled, ApplyContinue;
    HolderNames(s, e);
    RaiseShape(s, e);
    var t, r, s' := e.t, s.threads[e.t].task.ref, ApplyContinue(s, e);
    UnlockStep(s, t, r, s'.snaps[r], Idle, s');
  }

  lemma LeavingKeepsInv(s: Sys, e: Event)
    requires Inv(s) && Enabled(s, e) && (e.CheckActive? || e.PageRaises? || e.Rearm?)
    ensures Inv(ApplyContinue(s, e))
  {
    if e.CheckActive? {
      hide ApplyContinue, Enabled, Inv;
      CheckKeepsInv(s, e);
    } else if e.PageRaises? {
      hide ApplyContinue, Enabled, Inv;
      RaiseKeepsInv(s, e);
    } else {
      hide ApplyContinue, Enabled, Inv;
      RearmKeepsInv(s, e);
    }
  }

  lemma RearmKeepsInv(s: Sys, e: Event)
    requires Inv(s) && Enabled(s, e) && e.Rearm?
    ensures Inv(ApplyContinue(s, e))
  {
    hide Inv, Enabled, ApplyContinue;
    HolderNames(s, e);
    RearmShape(s, e);
    var t, r, s' := e.t, s.threads[e.t].task.ref, ApplyContinue(s, e);
    UnlockStep(s, t, r, s'.snaps[r], Idle, s');
  }

  function Ended(s: Sys, t: Tid, r: Ref): Snap
    requires r in s.snaps
  {
    if Registered(s, r) && HasStatus(s, r, Active)
    then s.snaps[r].(status := Closing, cancelWaiter := true, closer := Some(t), lock := None)
    else s.snaps[r].(lock := None)
  }

  lemma EndShape(s: Sys, e: Event)
    requires Enabled(s, e) && e.EndLocked? && s.threads[e.t].task.ref in s.snaps
    ensures var task, s' := s.threads[e.t].task, ApplyContinue(s, e);
            && Free(s, e.t) && task.Ending? && s'.registry == s.registry
            && s'.maxStates == s.maxStates && s'.maxPerUser == s.maxPerUser
            && s'.snaps == s.snaps[task.ref := Ended(s, e.t, task.ref)]
            && s'.threads == Does(s, e.t, Retiring(task.ref)).threads
  {
    hide Distinct, AtCapacity, Registered;
  }

  lemma EndingKeepsInv(s: Sys, e: Event)
    requires Inv(s) && Enabled(s, e) && e.EndLocked?
    ensures Inv(ApplyContinue(s, e))
  {
    hide Inv, Enabled, ApplyContinue, Registered;
    HolderNames(s, e);
    EndShape(s, e);
    var t, r := e.t, s.threads[e.t].task.ref;
    PairOf(s, r, t);
    RegisteredIffOpen(s, r);
    UnlockStep(s, t, r, Ended(s, t, r), Retiring(r), ApplyContinue(s, e));
  }

  lemma CancellingKeepsInv(s: Sys, e: Event)
    requires Inv(s) && Enabled(s, e) && (e.Prune? || e.EvictOwn? || e.TimerFires?)
    ensures Inv(ApplyCancel(s, e))
  {
    hide Inv, Sweep, Registered;
    var t := e.t;
    var task := s.threads[t].task;
    if e.Prune? { SweepStep(s, t, e.expired, {}, {}, task); }
    else if e.EvictOwn? { SweepStep(s, t, [e.victim], {}, {}, task); }
    else if Registered(s, e.ref) && HasStatus(s, e.ref, Active) { SweepStep(s, t, [e.ref], {}, {}, Idle); }
  }

  lemma CursorCancelKeepsInv(s: Sys, e: Event)
    requires Inv(s) && Enabled(s, e) && e.CancelCursor?
    ensures Inv(ApplyCancel(s, e))
  {
    hide Inv, Sweep;
    var t := e.t;
    if e.cursor.id in s.registry && CursorValid(s, e.cursor, s.registry[e.cursor.id]) {
      var r := s.registry[e.cursor.id];
      RegistryNames(s, e.cursor.id);
      PairOf(s, r, t);
      if s.snaps[r].status == Active { SweepStep(s, t, [r], {}, {r}, Idle); }
      else if s.snaps[r].status in {Cancelled, Closing} && !s.snaps[r].cancelWaiter {
        SweepStep(s, t, [], {}, {r}, Waiting({r}));
      }
    }
  }

  lemma MatchCancelKeepsInv(s: Sys, e: Event)
    requires Inv(s) && Enabled(s, e) && (e.CancelRequest? || e.Discard?)
    ensures Inv(ApplyCancel(s, e))
  {
    hide Inv, Sweep, SelectStatus, Distinct, Registered;
    var t, close := e.t, SelectStatus(s, e.matches, Active);
    var cancel := set r | r in e.matches && HasStatus(s, r, Opening);
    SelectedExactly(s, e.matches, Active);
    if e.Discard? { SweepStep(s, t, close, cancel, {}, Idle); }
    else {
      var await := ToAwait(s, e.matches);
      var flag, task := set r | r in e.matches, if await == {} then Idle else Waiting(await);
      forall r | r in e.matches ensures r in s.snaps { assert Registered(s, r); RegisteredExists(s, r); }
      SweepStep(s, t, close, cancel, flag, task);
    }
  }

  lemma RegisteredExists(s: Sys, r: Ref)
    requires Registered(s, r)
    ensures r in s.snaps
  {
  }

  lemma ClosingKeepsInv(s: Sys, e: Event)
    requires Inv(s) && Enabled(s, e) && (e.CloseBegin? || e.CloseHandle? || e.CloseFinish? || e.WaitDone?)
    ensures Inv(ApplyClose(s, e))
  {
    hide Inv, Distinct, AtCapacity, HasStatus;
    var t := e.t;
    var th, s' := s.threads[t], ApplyClose(s, e);
    if e.WaitDone? {
      if th.task.refs == {e.ref} { QuietStep(s, t, Idle, s'); } else { WaitStep(s, t, s'.threads[t].task, s'); }
    } else {
      var r := th.debts[0];
      NamesExist(s, t, r);
      PairOf(s, r, t);
      if e.CloseHandle? { HandleStep(s, t, r, s'); }
      else if e.CloseFinish? { FinishStep(s, t, r, s'); }
      else if s.snaps[r].closeStarted { SkipDebt(s, t, s'); }
      else { BeginStep(s, t, r, s'); }
    }
  }

  /** Every step of every thread keeps the invariant. */
  lemma StepKeepsInv(s: Sys, e: Event)
    requires Inv(s) && Enabled(s, e)
    ensures Inv(Apply(s, e))
  {
    hide Inv, Enabled, ApplyOpen, ApplyContinue, ApplyCancel, ApplyClose;
    if OpenerEvent(e) { OpenerKeepsInv(s, e); }
    else if OpenEvent(e) { OpeningKeepsInv(s, e); }
    else if e.CheckActive? || e.PageRaises? || e.Rearm? { LeavingKeepsInv(s, e); }
    else if e.EndLocked? { EndingKeepsInv(s, e); }
    else if ContinueEvent(e) { ContinuingKeepsInv(s, e); }
    else if e.Prune? || e.EvictOwn? || e.TimerFires? { CancellingKeepsInv(s, e); }
    else if e.CancelCursor? { CursorCancelKeepsInv(s, e); }
    else if CancelEvent(e) { MatchCancelKeepsInv(s, e); }
    else { ClosingKeepsInv(s, e); }
  }

  // ----- runs

  ghost predicate Initial(s: Sys) {
    && s.registry == map[] && s.snaps == map[] && s.issued == {} && s.yielded == {}
    && forall t | t in s.threads :: s.threads[t] == Thread(Idle, [], NotBegun)
  }

  /** The states of a run: any thread may take any enabled step at any point. */
  ghost predicate IsRun(states: seq<Sys>, events: seq<Event>) {
    && |states| == |events| + 1 && Initial(states[0])
    && forall i | 0 <= i < |events| :: Enabled(states[i], events[i]) && states[i + 1] == Apply(states[i], events[i])
  }

  lemma {:induction false} RunKeepsInv(states: seq<Sys>, events: seq<Event>, i: nat)
    requires IsRun(states, events) && i < |states|
    ensures Inv(states[i])
  {
    hide Inv, Enabled, Apply;
    if i == 0 { InitialInv(states[0]); }
    else {
      RunKeepsInv(states, events, i - 1);
      StepKeepsInv(states[i - 1], events[i - 1]);
      assert states[i - 1 + 1] == Apply(states[i - 1], events[i - 1]);
    }
  }

  lemma InitialInv(s: Sys)
    requires Initial(s)
    ensures Inv(s)
  {
  }
}
