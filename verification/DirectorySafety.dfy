/** What holds in every reachable state of the directory-listing threads. */
module DirectorySafety {

  import opened Collections
  import opened DirectorySnapshots

  // ----- the invariant: facts about each snapshot, about each thread, and about each pair of the two

  /** How many backend handles the snapshot has had. */
  function Handles(n: Snap): nat { if n.stored then 1 else 0 }

  predicate SnapOk(n: Snap) {
    && (n.status in {Opening, Cancelled} ==> !n.closeStarted)
    && (n.status == Opening ==> !n.cancelWaiter)
    && (n.status == Active ==> !n.closeStarted && !n.cancelWaiter && n.listing)
    && (n.status == Closing && !n.closed ==> n.closer.Some?)
    && (n.closeStarted ==> n.status == Closing)
    && (n.closed ==> n.closeStarted)
    && (!n.closeStarted ==> n.handleCloses == 0 && n.listing == n.stored) && n.handleCloses <= 1
    && (n.closed ==> n.handleCloses == Handles(n))
  }

  predicate DebtorTask(task: Task) { task.Idle? || task.Reserving? || task.Continuing? || task.Waiting? }

  predicate ThreadOk(th: Thread) {
    && (th.debts != [] ==> DebtorTask(th.task))
    && (th.stage != NotBegun ==> th.debts != [])
    && (th.task.Waiting? ==> th.task.refs != {})
  }

  /** The snapshots that a thread's task or debts name. */
  predicate Names(th: Thread, r: Ref) {
    || r in th.debts || OpensSnap(th.task, r) || HoldsLock(th.task, r)
    || th.task == ReturningFirst(r) || th.task == Retiring(r)
    || (th.task.Locking? && th.task.ref == r) || (th.task.Waiting? && r in th.task.refs)
  }

  /** The thread will still close the snapshot. */
  predicate Owes(th: Thread, r: Ref) { r in th.debts || (th.debts == [] && th.task == Retiring(r)) }

  predicate StillOpening(th: Thread, r: Ref) {
    th.debts == [] && th.stage == NotBegun && (OpensSnap(th.task, r) || th.task == Retiring(r))
  }

  predicate ClosingNow(th: Thread, r: Ref) { th.debts != [] && th.debts[0] == r && th.stage != NotBegun }

  /** What snapshot `n` needs of thread `t`. */
  predicate SnapNeeds(n: Snap, r: Ref, t: Tid, th: Thread) {
    && (n.opener == t && n.status in {Opening, Cancelled} ==> StillOpening(th, r))
    && (n.closer == Some(t) && n.status == Closing && !n.closed ==> Owes(th, r))
    && (n.closer == Some(t) && n.closeStarted && !n.closed ==> ClosingNow(th, r))
    && (n.lock == Some(t) ==> HoldsLock(th.task, r))
  }

  /** What thread `t` needs of snapshot `n`. */
  predicate ThreadNeeds(n: Snap, r: Ref, t: Tid, th: Thread) {
    && (OpensSnap(th.task, r) ==> n.opener == t && n.status in {Opening, Cancelled})
    && (OpensSnap(th.task, r) && !th.task.OpeningCall? && !th.task.StoringListing? ==> n.listing)
    && (th.task == ReturningFirst(r) ==> n.status in {Active, Closing})
    && (th.task == Retiring(r) ==> n.status != Active && (n.status != Closing ==> n.opener == t))
    && (HoldsLock(th.task, r) ==> n.lock == Some(t))
    && (PastCheck(th.task, r) ==> n.status in {Active, Closing} && !n.closeStarted && n.listing)
    && (th.task.Waiting? && r in th.task.refs ==> n.status in {Cancelled, Closing})
    && (r in th.debts ==> n.status == Closing)
    && (ClosingNow(th, r) ==> n.closeStarted && !n.closed && n.closer == Some(t))
    && (ClosingNow(th, r) && th.stage.Begun? ==> n.handleCloses == 0 && th.stage.handle == n.stored)
    && (ClosingNow(th, r) && th.stage == HandleClosed ==> n.handleCloses == Handles(n))
  }

  predicate Pair(n: Snap, r: Ref, t: Tid, th: Thread) { SnapNeeds(n, r, t, th) && ThreadNeeds(n, r, t, th) }

  ghost predicate RegistryOk(registry: map<Sid, Ref>, snaps: map<Ref, Snap>) {
    && (forall id | id in registry :: registry[id] in snaps && snaps[registry[id]].id == id)
    && (forall r | r in snaps :: (snaps[r].id in registry && registry[snaps[r].id] == r) <==> !snaps[r].closed)
  }

  ghost predicate Peopled(snaps: map<Ref, Snap>, threads: map<Tid, Thread>) {
    && (forall r | r in snaps :: snaps[r].opener in threads)
    && (forall r | r in snaps && snaps[r].closer.Some? :: snaps[r].closer.value in threads)
    && (forall r | r in snaps && snaps[r].lock.Some? :: snaps[r].lock.value in threads)
    && (forall t, r | t in threads && Names(threads[t], r) :: r in snaps)
  }

  ghost predicate Paired(snaps: map<Ref, Snap>, threads: map<Tid, Thread>) {
    forall r, t | r in snaps && t in threads :: Pair(snaps[r], r, t, threads[t])
  }

  ghost predicate Inv(s: Sys) {
    && RegistryOk(s.registry, s.snaps)
    && Peopled(s.snaps, s.threads)
    && (forall r | r in s.snaps :: SnapOk(s.snaps[r]))
    && (forall t | t in s.threads :: ThreadOk(s.threads[t]))
    && Paired(s.snaps, s.threads)
  }

  // ----- one snapshot and one thread change

  /** The change of one snapshot keeps what every other thread needs, and needs nothing new of it. */
  ghost predicate Harmless(n: Snap, m: Snap, r: Ref, t: Tid, threads: map<Tid, Thread>) {
    && m.id == n.id && m.closed == n.closed && m.opener == n.opener && SnapOk(m)
    && m.closer in {n.closer, Some(t)} && m.lock in {n.lock, None, Some(t)}
    && forall u | u in threads && u != t && Pair(n, r, u, threads[u]) :: Pair(m, r, u, threads[u])
  }

  /** The change of one thread keeps what every other snapshot needs, and needs nothing new of it. */
  ghost predicate Discreet(th: Thread, after: Thread, t: Tid, r: Ref, snaps: map<Ref, Snap>) {
    && ThreadOk(after)
    && (forall q | q != r && Names(after, q) :: q in snaps)
    && (forall q | q in snaps && q != r && Pair(snaps[q], q, t, th) :: Pair(snaps[q], q, t, after))
  }

  lemma RegistryKept(registry: map<Sid, Ref>, snaps: map<Ref, Snap>, r: Ref, m: Snap)
    requires RegistryOk(registry, snaps) && r in snaps && m.id == snaps[r].id && m.closed == snaps[r].closed
    ensures RegistryOk(registry, snaps[r := m])
  {
  }

  lemma PeopledKept(snaps: map<Ref, Snap>, threads: map<Tid, Thread>, r: Ref, m: Snap, t: Tid, after: Thread)
    requires Peopled(snaps, threads) && r in snaps && t in threads
    requires m.opener == snaps[r].opener && m.closer in {snaps[r].closer, Some(t)}
    requires m.lock in {snaps[r].lock, None, Some(t)}
    requires forall q | q != r && Names(after, q) :: q in snaps
    ensures Peopled(snaps[r := m], threads[t := after])
  {
    hide Names;
  }

  lemma PairedKept(snaps: map<Ref, Snap>, threads: map<Tid, Thread>, r: Ref, m: Snap, t: Tid, after: Thread)
    requires Paired(snaps, threads) && r in snaps && t in threads
    requires forall u | u in threads && u != t && Pair(snaps[r], r, u, threads[u]) :: Pair(m, r, u, threads[u])
    requires forall q | q in snaps && q != r && Pair(snaps[q], q, t, threads[t]) :: Pair(snaps[q], q, t, after)
    requires Pair(m, r, t, after)
    ensures Paired(snaps[r := m], threads[t := after])
  {
    hide Pair;
    var snaps', threads' := snaps[r := m], threads[t := after];
    forall q, u | q in snaps' && u in threads' ensures Pair(snaps'[q], q, u, threads'[u]) {
      assert Pair(snaps[q], q, u, threads[u]);
    }
  }

  lemma ChangeKeepsInv(s: Sys, r: Ref, m: Snap, t: Tid, after: Thread, s': Sys)
    requires Inv(s) && r in s.snaps && t in s.threads
    requires Harmless(s.snaps[r], m, r, t, s.threads)
    requires Discreet(s.threads[t], after, t, r, s.snaps)
    requires Pair(m, r, t, after)
    requires s'.registry == s.registry && s'.snaps == s.snaps[r := m] && s'.threads == s.threads[t := after]
    ensures Inv(s')
  {
    hide Pair, SnapOk, ThreadOk, Paired, Peopled, RegistryOk, Names;
    RegistryKept(s.registry, s.snaps, r, m);
    PeopledKept(s.snaps, s.threads, r, m, t, after);
    PairedKept(s.snaps, s.threads, r, m, t, after);
  }

  lemma ThreadChangeKeepsInv(s: Sys, t: Tid, after: Thread, s': Sys)
    requires Inv(s) && t in s.threads && ThreadOk(after)
    requires forall q | Names(after, q) :: q in s.snaps
    requires forall q | q in s.snaps && Pair(s.snaps[q], q, t, s.threads[t]) :: Pair(s.snaps[q], q, t, after)
    requires s'.registry == s.registry && s'.snaps == s.snaps && s'.threads == s.threads[t := after]
    ensures Inv(s')
  {
    hide Pair, SnapOk, ThreadOk, RegistryOk, Names;
    forall q, u | q in s'.snaps && u in s'.threads ensures Pair(s'.snaps[q], q, u, s'.threads[u]) {
      assert Pair(s.snaps[q], q, u, s.threads[u]);
    }
  }

  // ----- small steps of one thread, seen from one snapshot

  /** Tasks on which no snapshot depends. */
  predicate Neutral(task: Task) {
    task.Idle? || task.Reserving? || task.Continuing? || task.Locking? || task.ReturningFirst? || task.Waiting?
  }

  lemma NeutralPair(n: Snap, q: Ref, t: Tid, th: Thread, task: Task)
    requires Pair(n, q, t, th) && th.debts == [] && th.stage == NotBegun && Neutral(th.task)
    requires task.Idle? || task.Reserving? || task.Continuing? || task.Locking?
             || (task.Waiting? && th.task.Waiting? && task.refs <= th.task.refs)
    ensures Pair(n, q, t, Thread(task, [], NotBegun))
  {
  }

  lemma OpenerPair(n: Snap, q: Ref, t: Tid, th: Thread, task: Task, r: Ref)
    requires Pair(n, q, t, th) && th.debts == [] && th.stage == NotBegun && OpensSnap(th.task, r)
    requires task == Retiring(r) || (OpensSnap(task, r) && (task.StoringListing? || (q == r ==> n.listing)))
    ensures Pair(n, q, t, Thread(task, [], NotBegun))
  {
  }

  lemma ReaderPair(n: Snap, q: Ref, t: Tid, th: Thread, task: Task, r: Ref)
    requires Pair(n, q, t, th) && th.debts == [] && th.stage == NotBegun && HoldsLock(th.task, r) && HoldsLock(task, r)
    requires q == r && PastCheck(task, r) && th.task.Checking? ==> n.status == Active && SnapOk(n)
    ensures Pair(n, q, t, Thread(task, [], NotBegun))
  {
  }

  lemma GoneSnapPair(n: Snap, q: Ref, t: Tid, th: Thread, r: Ref)
    requires Pair(n, q, t, th) && SnapOk(n) && th.debts == [] && th.stage == NotBegun && th.task == Retiring(r)
    requires q == r ==> n.closed
    ensures Pair(n, q, t, Thread(Idle, [], NotBegun))
  {
  }

  lemma SkipPair(n: Snap, q: Ref, t: Tid, th: Thread)
    requires Pair(n, q, t, th) && th.debts != [] && th.stage == NotBegun && DebtorTask(th.task)
    requires q == th.debts[0] ==> n.closeStarted
    ensures Pair(n, q, t, th.(debts := th.debts[1..]))
  {
    assert th.debts == [th.debts[0]] + th.debts[1..];
  }

  lemma OneName(task: Task, r: Ref)
    requires OpensSnap(task, r) || HoldsLock(task, r) || task == Retiring(r) || task == ReturningFirst(r)
             || (task.Locking? && task.ref == r)
    ensures var th := Thread(task, [], NotBegun); ThreadOk(th) && forall q :: Names(th, q) ==> q == r
  {
  }

  lemma NoName(task: Task)
    requires task.Idle? || task.Reserving? || task.Continuing?
    ensures var th := Thread(task, [], NotBegun); ThreadOk(th) && forall q :: !Names(th, q)
  {
  }

  lemma FewerNames(th: Thread, after: Thread)
    requires ThreadOk(th) && after.stage == NotBegun
    requires (th.debts != [] && after == th.(debts := th.debts[1..], stage := NotBegun))
             || (th.task.Waiting? && after.task.Waiting? && after.task.refs <= th.task.refs && after.task.refs != {}
               && after.debts == th.debts)
    ensures ThreadOk(after) && forall q :: Names(after, q) ==> Names(th, q)
  {
    if th.debts != [] { assert forall q | q in th.debts[1..] :: q in th.debts; }
  }

  // ----- steps that change only the thread

  lemma QuietStep(s: Sys, t: Tid, task: Task, s': Sys)
    requires Inv(s) && Free(s, t) && Neutral(s.threads[t].task) && (task.Idle? || task.Reserving? || task.Continuing?)
    requires s'.registry == s.registry && s'.snaps == s.snaps
    requires s'.threads == s.threads[t := s.threads[t].(task := task)]
    ensures Inv(s')
  {
    hide Pair, SnapOk, RegistryOk, Names, ThreadOk, Paired, Peopled, Neutral;
    var after := Thread(task, [], NotBegun);
    NoName(task);
    forall q | q in s.snaps && Pair(s.snaps[q], q, t, s.threads[t]) ensures Pair(s.snaps[q], q, t, after) {
      NeutralPair(s.snaps[q], q, t, s.threads[t], task);
    }
    ThreadChangeKeepsInv(s, t, after, s');
  }

  lemma LockingStep(s: Sys, t: Tid, task: Task, s': Sys)
    requires Inv(s) && Free(s, t) && s.threads[t].task.Continuing? && task.Locking? && task.ref in s.snaps
    requires s'.registry == s.registry && s'.snaps == s.snaps
    requires s'.threads == s.threads[t := s.threads[t].(task := task)]
    ensures Inv(s')
  {
    hide Pair, SnapOk, RegistryOk, Names, ThreadOk, Paired, Peopled;
    var after := Thread(task, [], NotBegun);
    OneName(task, task.ref);
    forall q | q in s.snaps && Pair(s.snaps[q], q, t, s.threads[t]) ensures Pair(s.snaps[q], q, t, after) {
      NeutralPair(s.snaps[q], q, t, s.threads[t], task);
    }
    ThreadChangeKeepsInv(s, t, after, s');
  }

  lemma NamesExist(s: Sys, t: Tid, q: Ref)
    requires Inv(s) && t in s.threads && Names(s.threads[t], q)
    ensures q in s.snaps
  {
    hide Pair, SnapOk, RegistryOk, Names, ThreadOk, Paired;
  }

  lemma WaitStep(s: Sys, t: Tid, task: Task, s': Sys)
    requires Inv(s) && Free(s, t) && s.threads[t].task.Waiting? && task.Waiting?
    requires task.refs <= s.threads[t].task.refs && task.refs != {}
    requires s'.registry == s.registry && s'.snaps == s.snaps
    requires s'.threads == s.threads[t := s.threads[t].(task := task)]
    ensures Inv(s')
  {
    hide Pair, SnapOk, RegistryOk, Names, ThreadOk, Paired, Peopled;
    var after := Thread(task, [], NotBegun);
    FewerNames(s.threads[t], after);
    forall q | Names(after, q) ensures q in s.snaps { NamesExist(s, t, q); }
    forall q | q in s.snaps && Pair(s.snaps[q], q, t, s.threads[t]) ensures Pair(s.snaps[q], q, t, after) {
      NeutralPair(s.snaps[q], q, t, s.threads[t], task);
    }
    ThreadChangeKeepsInv(s, t, after, s');
  }

  lemma OpenerStep(s: Sys, t: Tid, task: Task, r: Ref, s': Sys)
    requires Inv(s) && Free(s, t) && OpensSnap(s.threads[t].task, r) && r in s.snaps
    requires task == Retiring(r) || (OpensSnap(task, r) && (task.StoringListing? || s.snaps[r].listing))
    requires s'.registry == s.registry && s'.snaps == s.snaps
    requires s'.threads == s.threads[t := s.threads[t].(task := task)]
    ensures Inv(s')
  {
    hide Pair, SnapOk, RegistryOk, Names, ThreadOk, Paired, Peopled, OpensSnap;
    var after := Thread(task, [], NotBegun);
    OneName(task, r);
    forall q | q in s.snaps && Pair(s.snaps[q], q, t, s.threads[t]) ensures Pair(s.snaps[q], q, t, after) {
      OpenerPair(s.snaps[q], q, t, s.threads[t], task, r);
    }
    ThreadChangeKeepsInv(s, t, after, s');
  }

  lemma ReaderStep(s: Sys, t: Tid, task: Task, r: Ref, s': Sys)
    requires Inv(s) && Free(s, t) && HoldsLock(s.threads[t].task, r) && HoldsLock(task, r) && r in s.snaps
    requires PastCheck(task, r) && s.threads[t].task.Checking? ==> s.snaps[r].status == Active
    requires s'.registry == s.registry && s'.snaps == s.snaps
    requires s'.threads == s.threads[t := s.threads[t].(task := task)]
    ensures Inv(s')
  {
    hide Pair, SnapOk, RegistryOk, Names, ThreadOk, Paired, Peopled, HoldsLock, PastCheck;
    var after := Thread(task, [], NotBegun);
    OneName(task, r);
    forall q | q in s.snaps && Pair(s.snaps[q], q, t, s.threads[t]) ensures Pair(s.snaps[q], q, t, after) {
      ReaderPair(s.snaps[q], q, t, s.threads[t], task, r);
    }
    ThreadChangeKeepsInv(s, t, after, s');
  }

  lemma RegisteredIffOpen(s: Sys, r: Ref)
    requires Inv(s) && r in s.snaps
    ensures Registered(s, r) <==> !s.snaps[r].closed
  {
    hide Pair, SnapOk, Names, ThreadOk, Paired, Peopled;
  }

  lemma RetireGone(s: Sys, t: Tid, r: Ref, s': Sys)
    requires Inv(s) && Free(s, t) && s.threads[t].task == Retiring(r) && r in s.snaps && !Registered(s, r)
    requires s'.registry == s.registry && s'.snaps == s.snaps
    requires s'.threads == s.threads[t := s.threads[t].(task := Idle)]
    ensures Inv(s')
  {
    hide Pair, SnapOk, RegistryOk, Names, ThreadOk, Paired, Peopled;
    var after := Thread(Idle, [], NotBegun);
    RegisteredIffOpen(s, r);
    NoName(Idle);
    forall q | q in s.snaps && Pair(s.snaps[q], q, t, s.threads[t]) ensures Pair(s.snaps[q], q, t, after) {
      GoneSnapPair(s.snaps[q], q, t, s.threads[t], r);
    }
    ThreadChangeKeepsInv(s, t, after, s');
  }

  lemma SkipDebt(s: Sys, t: Tid, s': Sys)
    requires Inv(s) && t in s.threads && s.threads[t].debts != [] && s.threads[t].stage == NotBegun
    requires DebtorTask(s.threads[t].task)
    requires s.threads[t].debts[0] in s.snaps && s.snaps[s.threads[t].debts[0]].closeStarted
    requires s'.registry == s.registry && s'.snaps == s.snaps
    requires s'.threads == s.threads[t := s.threads[t].(debts := s.threads[t].debts[1..])]
    ensures Inv(s')
  {
    hide Pair, SnapOk, RegistryOk, Names, ThreadOk, Paired, Peopled;
    var th := s.threads[t];
    var after := th.(debts := th.debts[1..]);
    FewerNames(th, after);
    forall q | Names(after, q) ensures q in s.snaps { NamesExist(s, t, q); }
    forall q | q in s.snaps && Pair(s.snaps[q], q, t, th) ensures Pair(s.snaps[q], q, t, after) {
      SkipPair(s.snaps[q], q, t, th);
    }
    ThreadChangeKeepsInv(s, t, after, s');
  }

  // ----- steps that change one snapshot and one thread

  /** The two snapshots differ only in what has been read and delivered. */
  predicate SameControl(n: Snap, m: Snap) {
    && m.id == n.id && m.status == n.status && m.cancelWaiter == n.cancelWaiter && m.closeStarted == n.closeStarted
    && m.closed == n.closed && m.listing == n.listing && m.stored == n.stored && m.lock == n.lock
      && m.handleCloses == n.handleCloses
    && m.opener == n.opener && m.closer == n.closer
  }

  lemma SameControlPair(n: Snap, m: Snap, r: Ref, u: Tid, th: Thread)
    requires SameControl(n, m)
    ensures Pair(n, r, u, th) == Pair(m, r, u, th) && SnapOk(n) == SnapOk(m)
  {
  }

  /** Only what has been read and delivered changes, and the opener moves on. */
  lemma OpenerReads(s: Sys, t: Tid, r: Ref, m: Snap, task: Task, s': Sys)
    requires Inv(s) && Free(s, t) && OpensSnap(s.threads[t].task, r) && r in s.snaps && SameControl(s.snaps[r], m)
    requires task == Retiring(r) || (OpensSnap(task, r) && s.snaps[r].listing)
    requires s'.registry == s.registry && s'.snaps == s.snaps[r := m]
    requires s'.threads == s.threads[t := s.threads[t].(task := task)]
    ensures Inv(s')
  {
    hide Pair, SnapOk, RegistryOk, Names, ThreadOk, Paired, Peopled, OpensSnap;
    var after := Thread(task, [], NotBegun);
    OneName(task, r);
    forall u, th ensures Pair(s.snaps[r], r, u, th) == Pair(m, r, u, th) { SameControlPair(s.snaps[r], m, r, u, th); }
    SameControlPair(s.snaps[r], m, r, t, after);
    assert Paired(s.snaps, s.threads);
    forall q | q in s.snaps && Pair(s.snaps[q], q, t, s.threads[t]) ensures Pair(s.snaps[q], q, t, after) {
      OpenerPair(s.snaps[q], q, t, s.threads[t], task, r);
    }
    PairOf(s, r, t);
    ChangeKeepsInv(s, r, m, t, after, s');
  }

  lemma PairOf(s: Sys, r: Ref, t: Tid)
    requires Inv(s) && r in s.snaps && t in s.threads
    ensures Pair(s.snaps[r], r, t, s.threads[t]) && SnapOk(s.snaps[r]) && ThreadOk(s.threads[t])
  {
    hide Pair, SnapOk, RegistryOk, Names, ThreadOk, Peopled;
  }

  lemma PastHolds(task: Task, r: Ref)
    requires PastCheck(task, r)
    ensures HoldsLock(task, r) && !task.Checking?
  {
  }

  lemma ReaderReads(s: Sys, t: Tid, r: Ref, m: Snap, task: Task, s': Sys)
    requires Inv(s) && Free(s, t) && PastCheck(s.threads[t].task, r) && PastCheck(task, r) && r in s.snaps
    requires SameControl(s.snaps[r], m)
    requires s'.registry == s.registry && s'.snaps == s.snaps[r := m]
    requires s'.threads == s.threads[t := s.threads[t].(task := task)]
    ensures Inv(s')
  {
    hide Pair, SnapOk, RegistryOk, Names, ThreadOk, Paired, Peopled, HoldsLock, PastCheck;
    var after := Thread(task, [], NotBegun);
    PastHolds(task, r);
    PastHolds(s.threads[t].task, r);
    OneName(task, r);
    forall u, th ensures Pair(s.snaps[r], r, u, th) == Pair(m, r, u, th) { SameControlPair(s.snaps[r], m, r, u, th); }
    SameControlPair(s.snaps[r], m, r, t, after);
    PairOf(s, r, t);
    forall q | q in s.snaps && Pair(s.snaps[q], q, t, s.threads[t]) ensures Pair(s.snaps[q], q, t, after) {
      ReaderPair(s.snaps[q], q, t, s.threads[t], task, r);
    }
    ChangeKeepsInv(s, r, m, t, after, s');
  }

  // storing the backend handle

  lemma StoreOther(n: Snap, r: Ref, u: Tid, th: Thread, ok: bool)
    requires Pair(n, r, u, th) && n.opener != u && n.status in {Opening, Cancelled}
    ensures Pair(n.(listing := ok, stored := ok), r, u, th)
  {
  }

  lemma StoreSelf(n: Snap, r: Ref, t: Tid, th: Thread)
    requires Pair(n, r, t, th) && SnapOk(n) && th.debts == [] && th.stage == NotBegun && th.task.StoringListing?
    requires th.task.ref == r
    ensures var m := n.(listing := th.task.ok, stored := th.task.ok);
            n.opener == t && n.status in {Opening, Cancelled} && SnapOk(m)
            && Pair(m, r, t, Thread(if th.task.ok then CheckingCancel(r) else Retiring(r), [], NotBegun))
  {
  }

  lemma StoreStep(s: Sys, t: Tid, r: Ref, ok: bool, s': Sys)
    requires Inv(s) && Free(s, t) && s.threads[t].task == StoringListing(r, ok) && r in s.snaps
    requires s'.registry == s.registry && s'.snaps == s.snaps[r := s.snaps[r].(listing := ok, stored := ok)]
    requires s'.threads == s.threads[t := s.threads[t].(task := if ok then CheckingCancel(r) else Retiring(r))]
    ensures Inv(s')
  {
    hide Pair, SnapOk, RegistryOk, Names, ThreadOk, Paired, Peopled;
    var task := if ok then CheckingCancel(r) else Retiring(r);
    var after, n := Thread(task, [], NotBegun), s.snaps[r];
    OneName(task, r);
    PairOf(s, r, t);
    StoreSelf(n, r, t, s.threads[t]);
    forall u | u in s.threads && u != t && Pair(n, r, u, s.threads[u])
      ensures Pair(n.(listing := ok, stored := ok), r, u, s.threads[u])
    {
      StoreOther(n, r, u, s.threads[u], ok);
    }
    forall q | q in s.snaps && q != r && Pair(s.snaps[q], q, t, s.threads[t]) ensures Pair(s.snaps[q], q, t, after) {
      OpenerPair(s.snaps[q], q, t, s.threads[t], task, r);
    }
    ChangeKeepsInv(s, r, n.(listing := ok, stored := ok), t, after, s');
  }

  // publishing

  lemma PublishOther(n: Snap, m: Snap, r: Ref, u: Tid, th: Thread)
    requires Pair(n, r, u, th) && n.opener != u && n.status == Opening && SameControl(n.(status := Active), m)
    ensures Pair(m, r, u, th)
  {
  }

  lemma PublishSelf(n: Snap, m: Snap, r: Ref, t: Tid, th: Thread)
    requires Pair(n, r, t, th) && SnapOk(n) && th.debts == [] && th.stage == NotBegun && th.task.Publishing?
    requires th.task.ref == r
    requires n.status == Opening && SameControl(n.(status := Active), m)
    ensures n.opener == t && SnapOk(m) && Pair(m, r, t, Thread(ReturningFirst(r), [], NotBegun))
  {
  }

  lemma PublishQuiet(n: Snap, q: Ref, t: Tid, th: Thread, r: Ref)
    requires Pair(n, q, t, th) && q != r && th.debts == [] && th.stage == NotBegun && OpensSnap(th.task, r)
    ensures Pair(n, q, t, Thread(ReturningFirst(r), [], NotBegun))
  {
  }

  lemma PublishStep(s: Sys, t: Tid, r: Ref, m: Snap, s': Sys)
    requires Inv(s) && Free(s, t) && s.threads[t].task.Publishing? && s.threads[t].task.ref == r && r in s.snaps
    requires s.snaps[r].status == Opening && SameControl(s.snaps[r].(status := Active), m)
    requires s'.registry == s.registry && s'.snaps == s.snaps[r := m]
    requires s'.threads == s.threads[t := s.threads[t].(task := ReturningFirst(r))]
    ensures Inv(s')
  {
    hide Pair, SnapOk, RegistryOk, Names, ThreadOk, Paired, Peopled;
    var after, n := Thread(ReturningFirst(r), [], NotBegun), s.snaps[r];
    OneName(ReturningFirst(r), r);
    PairOf(s, r, t);
    PublishSelf(n, m, r, t, s.threads[t]);
    forall u | u in s.threads && u != t && Pair(n, r, u, s.threads[u]) ensures Pair(m, r, u, s.threads[u]) {
      PublishOther(n, m, r, u, s.threads[u]);
    }
    forall q | q in s.snaps && q != r && Pair(s.snaps[q], q, t, s.threads[t]) ensures Pair(s.snaps[q], q, t, after) {
      PublishQuiet(s.snaps[q], q, t, s.threads[t], r);
    }
    ChangeKeepsInv(s, r, m, t, after, s');
  }

  // retiring

  function Retired(n: Snap, t: Tid): Snap {
    n.(status := Closing, closer := if n.closeStarted then n.closer else Some(t))
  }

  lemma RetireOther(n: Snap, r: Ref, t: Tid, u: Tid, th: Thread)
    requires Pair(n, r, u, th) && u != t && SnapOk(n) && n.status != Active && (n.status != Closing ==> n.opener == t)
    ensures Pair(Retired(n, t), r, u, th)
  {
  }

  lemma RetireSelf(n: Snap, r: Ref, t: Tid, th: Thread)
    requires Pair(n, r, t, th) && SnapOk(n) && th == Thread(Retiring(r), [], NotBegun) && !n.closed
    ensures n.status != Active && (n.status != Closing ==> n.opener == t)
    ensures SnapOk(Retired(n, t)) && Pair(Retired(n, t), r, t, Thread(Idle, [r], NotBegun))
  {
  }

  lemma RetireQuiet(n: Snap, q: Ref, t: Tid, r: Ref)
    requires Pair(n, q, t, Thread(Retiring(r), [], NotBegun)) && q != r
    ensures Pair(n, q, t, Thread(Idle, [r], NotBegun))
  {
  }

  lemma RetireNames(r: Ref)
    ensures var th := Thread(Idle, [r], NotBegun); ThreadOk(th) && forall q :: Names(th, q) ==> q == r
  {
  }

  lemma RetireStep(s: Sys, t: Tid, r: Ref, s': Sys)
    requires Inv(s) && Free(s, t) && s.threads[t].task == Retiring(r) && r in s.snaps && Registered(s, r)
    requires s'.registry == s.registry && s'.snaps == s.snaps[r := Retired(s.snaps[r], t)]
    requires s'.threads == s.threads[t := Thread(Idle, [r], NotBegun)]
    ensures Inv(s')
  {
    hide Pair, SnapOk, RegistryOk, Names, ThreadOk, Paired, Peopled, Registered;
    RegisteredIffOpen(s, r);
    PairOf(s, r, t);
    var after, n := Thread(Idle, [r], NotBegun), s.snaps[r];
    RetireNames(r);
    RetireSelf(n, r, t, s.threads[t]);
    forall u | u in s.threads && u != t && Pair(n, r, u, s.threads[u]) ensures Pair(Retired(n, t), r, u, s.threads[u]) {
      RetireOther(n, r, t, u, s.threads[u]);
    }
    forall q | q in s.snaps && q != r && Pair(s.snaps[q], q, t, s.threads[t]) ensures Pair(s.snaps[q], q, t, after) {
      RetireQuiet(s.snaps[q], q, t, r);
    }
    ChangeKeepsInv(s, r, Retired(n, t), t, after, s');
  }

  // taking and releasing the snapshot lock

  lemma AcquireOther(n: Snap, r: Ref, t: Tid, u: Tid, th: Thread)
    requires Pair(n, r, u, th) && u != t && n.lock == None
    ensures Pair(n.(lock := Some(t)), r, u, th)
  {
  }

  lemma AcquireSelf(n: Snap, q: Ref, t: Tid, th: Thread, r: Ref, cursor: Cursor)
    requires Pair(n, q, t, th) && SnapOk(n) && th == Thread(Locking(r, cursor), [], NotBegun)
    ensures q == r && n.lock == None ==>
              SnapOk(n.(lock := Some(t))) && Pair(n.(lock := Some(t)), q, t, Thread(Checking(r, cursor), [], NotBegun))
    ensures q != r ==> Pair(n, q, t, Thread(Checking(r, cursor), [], NotBegun))
  {
  }

  lemma AcquireStep(s: Sys, t: Tid, r: Ref, cursor: Cursor, s': Sys)
    requires Inv(s) && Free(s, t) && s.threads[t].task == Locking(r, cursor) && r in s.snaps && s.snaps[r].lock == None
    requires s'.registry == s.registry && s'.snaps == s.snaps[r := s.snaps[r].(lock := Some(t))]
    requires s'.threads == s.threads[t := s.threads[t].(task := Checking(r, cursor))]
    ensures Inv(s')
  {
    hide Pair, SnapOk, RegistryOk, Names, ThreadOk, Paired, Peopled;
    var after, n := Thread(Checking(r, cursor), [], NotBegun), s.snaps[r];
    OneName(Checking(r, cursor), r);
    PairOf(s, r, t);
    AcquireSelf(n, r, t, s.threads[t], r, cursor);
    forall u | u in s.threads && u != t && Pair(n, r, u, s.threads[u])
      ensures Pair(n.(lock := Some(t)), r, u, s.threads[u])
    {
      AcquireOther(n, r, t, u, s.threads[u]);
    }
    forall q | q in s.snaps && q != r && Pair(s.snaps[q], q, t, s.threads[t]) ensures Pair(s.snaps[q], q, t, after) {
      PairOf(s, q, t);
      AcquireSelf(s.snaps[q], q, t, s.threads[t], r, cursor);
    }
    ChangeKeepsInv(s, r, n.(lock := Some(t)), t, after, s');
  }

  /** The snapshot as its last reader leaves it: an active one is closed by that thread. */
  function Left(n: Snap, t: Tid): Snap {
    if n.status == Active then n.(lock := None, status := Closing, cancelWaiter := true, closer := Some(t))
    else n.(lock := None)
  }

  lemma UnlockOther(n: Snap, m: Snap, r: Ref, t: Tid, u: Tid, th: Thread)
    requires Pair(n, r, u, th) && u != t && n.lock == Some(t) && SnapOk(n)
    requires SameControl(n.(lock := None), m) || SameControl(Left(n, t), m)
    ensures Pair(m, r, u, th)
  {
  }

  lemma UnlockSelf(n: Snap, m: Snap, r: Ref, t: Tid, th: Thread, task: Task)
    requires Pair(n, r, t, th) && SnapOk(n) && th.debts == [] && th.stage == NotBegun && HoldsLock(th.task, r)
    requires (task == Idle && SameControl(n.(lock := None), m))
             || (task == Retiring(r) && PastCheck(th.task, r) && SameControl(Left(n, t), m))
    ensures n.lock == Some(t) && SnapOk(m) && Pair(m, r, t, Thread(task, [], NotBegun))
  {
  }

  lemma UnlockQuiet(n: Snap, q: Ref, t: Tid, th: Thread, r: Ref, task: Task)
    requires Pair(n, q, t, th) && q != r && th.debts == [] && th.stage == NotBegun && HoldsLock(th.task, r)
    requires task == Idle || task == Retiring(r)
    ensures Pair(n, q, t, Thread(task, [], NotBegun))
  {
  }

  lemma UnlockStep(s: Sys, t: Tid, r: Ref, m: Snap, task: Task, s': Sys)
    requires Inv(s) && Free(s, t) && HoldsLock(s.threads[t].task, r) && r in s.snaps
    requires (task == Idle && SameControl(s.snaps[r].(lock := None), m))
             || (task == Retiring(r) && PastCheck(s.threads[t].task, r) && SameControl(Left(s.snaps[r], t), m))
    requires s'.registry == s.registry && s'.snaps == s.snaps[r := m]
    requires s'.threads == s.threads[t := s.threads[t].(task := task)]
    ensures Inv(s')
  {
    hide Pair, SnapOk, RegistryOk, Names, ThreadOk, Paired, Peopled, HoldsLock, PastCheck;
    var after, n := Thread(task, [], NotBegun), s.snaps[r];
    if task == Idle { NoName(Idle); } else { OneName(task, r); }
    PairOf(s, r, t);
    UnlockSelf(n, m, r, t, s.threads[t], task);
    forall u | u in s.threads && u != t && Pair(n, r, u, s.threads[u]) ensures Pair(m, r, u, s.threads[u]) {
      UnlockOther(n, m, r, t, u, s.threads[u]);
    }
    forall q | q in s.snaps && q != r && Pair(s.snaps[q], q, t, s.threads[t]) ensures Pair(s.snaps[q], q, t, after) {
      UnlockQuiet(s.snaps[q], q, t, s.threads[t], r, task);
    }
    ChangeKeepsInv(s, r, m, t, after, s');
  }
}
