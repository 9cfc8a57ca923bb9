/**
  Durable validation and invalidation of LDAP accounts as threads over the revocation fence, with process
  death at any point (`app/ldap_session.py`). The per-user validation lock is not needed for these results.
 */
module LdapRuns {

  import opened Collections
  import opened Faults
  import opened LdapFence

  type Tid = nat

  /**
    `read` is the generation in the account row that an invalidation has loaded, `before` the account's
    generation when it marked the user. Where a thread is in `_perform_durable_validation` or
    `persist_ldap_authentication_invalidation`.
   */
  datatype Job =
    | Resting
    | LookingUp(user: User, token: Token, key: Key)
    | Failing(user: User, token: Token)
    | Loaded(user: User, read: nat)
    | Bumping(user: User, before: nat, read: nat)
    | Discarding(user: User, before: nat, read: nat)

  /** `marks` counts the marks of each user; `begun` and `basis` say after how many a validation and a receipt began. */
  datatype Sys = Sys(
    fence: State,
    generation: map<User, nat>,
    jobs: map<Tid, Job>,
    marks: map<User, nat>,
    begun: map<Token, nat>,
    basis: map<User, nat>
  )

  datatype Event =
    | BeginV(t: Tid, user: User, key: Key, unreadable: bool, fate: Survived)
    | LookupFails(t: Tid)
    | CompleteV(t: Tid, fate: Survived, epoch: int, now: int)
    | FailV(t: Tid)
    | LoadI(t: Tid, user: User)
    | MarkI(t: Tid, fate: Survived)
    | ReloadI(t: Tid)
    | Commit(t: Tid)
    | CommitRaises(t: Tid, late: bool)
    | DiscardI(t: Tid, fate: Survived)
    | CommitElsewhere(user: User, read: nat)
    | AskV(user: User, key: Key, unreadable: bool)
    | Die                      // between two marker operations
    | DieWriting(user: User)   // after a marker has been written
    | DieRemoving(t: Tid)      // after a marker has been removed

  predicate Doing(s: Sys, t: Tid, job: Job) { t in s.jobs && s.jobs[t] == job }

  /** The thread is in the middle of removing the marker of its user. */
  predicate MayRemove(s: Sys, t: Tid) {
    t in s.jobs && (s.jobs[t].Discarding? || (s.jobs[t].LookingUp? && Current(s.fence, s.jobs[t].user, s.jobs[t].token)
                                              && s.jobs[t].user !in s.fence.pending))
  }

  predicate Enabled(s: Sys, e: Event) {
    match e
    case BeginV(t, _, _, _, _) => Doing(s, t, Resting)
    case LookupFails(t) => t in s.jobs && s.jobs[t].LookingUp?
    case CompleteV(t, _, _, _) => t in s.jobs && s.jobs[t].LookingUp?
    case FailV(t) => t in s.jobs && s.jobs[t].Failing?
    case LoadI(t, _) => Doing(s, t, Resting)
    case MarkI(t, _) => t in s.jobs && s.jobs[t].Loaded?
    case ReloadI(t) => t in s.jobs && s.jobs[t].Bumping?
    case Commit(t) => t in s.jobs && s.jobs[t].Bumping?
    case CommitRaises(t, _) => t in s.jobs && s.jobs[t].Bumping?
    case DiscardI(t, _) => t in s.jobs && s.jobs[t].Discarding?
    case DieRemoving(t) => MayRemove(s, t)
    case _ => true
  }

  function Goes(s: Sys, t: Tid, job: Job): Sys { s.(jobs := s.jobs[t := job]) }

  /** The commit writes one more than what was read. */
  function Bumped(s: Sys, user: User, read: nat): Sys { s.(generation := s.generation[user := read + 1]) }

  function Rebooted(s: Sys, markers: set<User>): Sys {
    s.(fence := Restart(s.fence.(markers := markers)), jobs := map t | t in s.jobs :: Resting, basis := map[])
  }

  predicate OfValidation(e: Event) { e.BeginV? || e.LookupFails? || e.CompleteV? || e.FailV? }

  predicate OfDeath(e: Event) { e.Die? || e.DieWriting? || e.DieRemoving? }

  function AfterValidation(s: Sys, e: Event): Sys
    requires Enabled(s, e) && OfValidation(e)
  {
    match e
    case BeginV(t, user, key, unreadable, fate) =>
      var (f, result) := Begin(s.fence, user, unreadable, fate);
      var s' := s.(fence := f);
      if result.Token?
      then Goes(s', t, LookingUp(user, result.token, key)).(begun := s.begun[result.token := Get(s.marks, user)])
      else s'
    case LookupFails(t) => Goes(s.(fence := Fail(s.fence, s.jobs[t].user, s.jobs[t].token)), t, Resting)
    case FailV(t) => Goes(s.(fence := Fail(s.fence, s.jobs[t].user, s.jobs[t].token)), t, Resting)
    case CompleteV(t, fate, epoch, now) =>
      var job := s.jobs[t];
      var (f, result) := Complete(s.fence, job.user, job.token, job.key, fate, epoch, now);
      if result.Published? then
        var began := if job.token in s.begun then s.begun[job.token] else 0;
        Goes(s.(fence := f), t, Resting).(basis := s.basis[job.user := began])
      else Goes(s.(fence := f), t, Failing(job.user, job.token))
  }

  function AfterInvalidation(s: Sys, e: Event): Sys
    requires Enabled(s, e) && !OfValidation(e) && !OfDeath(e)
  {
    match e
    case LoadI(t, user) => Goes(s, t, Loaded(user, Get(s.generation, user)))
    case MarkI(t, fate) =>
      var user := s.jobs[t].user;
      Goes(s.(fence := Mark(s.fence, user, fate), marks := s.marks[user := Get(s.marks, user) + 1]),
           t, Bumping(user, Get(s.generation, user), s.jobs[t].read))
    case ReloadI(t) => Goes(s, t, Bumping(s.jobs[t].user, s.jobs[t].before, Get(s.generation, s.jobs[t].user)))
    case Commit(t) =>
      var job := s.jobs[t];
      Goes(Bumped(s, job.user, job.read), t, Discarding(job.user, job.before, job.read))
    case CommitRaises(t, late) => Goes(if late then Bumped(s, s.jobs[t].user, s.jobs[t].read) else s, t, Resting)
    case DiscardI(t, fate) => Goes(s.(fence := Discard(s.fence, s.jobs[t].user, fate)), t, Resting)
    case CommitElsewhere(user, read) => Bumped(s, user, read)
    case AskV(user, key, unreadable) => s.(fence := Asked(s.fence, user, key, unreadable))
  }

  function AfterDeath(s: Sys, e: Event): Sys
    requires Enabled(s, e) && OfDeath(e)
  {
    match e
    case Die => Rebooted(s, s.fence.markers)
    case DieWriting(user) => Rebooted(s, s.fence.markers + {user})
    case DieRemoving(t) => Rebooted(s, s.fence.markers - {s.jobs[t].user})
  }

  function Apply(s: Sys, e: Event): Sys
    requires Enabled(s, e)
  {
    if OfValidation(e) then AfterValidation(s, e)
    else if OfDeath(e) then AfterDeath(s, e)
    else AfterInvalidation(s, e)
  }

  /** A step of a validation changes the job of its own thread alone, and nothing that invalidations go by. */
  predicate OnlyValidates(s: Sys, s': Sys, t: Tid) {
    && s'.generation == s.generation && s'.marks == s.marks && t in s.jobs && t in s'.jobs
    && (forall u | u != t && u in s'.jobs :: u in s.jobs && s'.jobs[u] == s.jobs[u])
    && (s'.jobs[t].Resting? || s'.jobs[t].LookingUp? || s'.jobs[t].Failing?)
    && (s'.jobs[t].LookingUp? ==> s'.begun == s.begun[s'.jobs[t].token := Get(s.marks, s'.jobs[t].user)])
  }

  lemma BeginFrame(s: Sys, e: Event)
    requires Enabled(s, e) && e.BeginV?
    ensures OnlyValidates(s, Apply(s, e), e.t)
  {
    hide AfterInvalidation, AfterDeath, Begin, Get;
  }

  lemma CompleteFrame(s: Sys, e: Event)
    requires Enabled(s, e) && e.CompleteV?
    ensures OnlyValidates(s, Apply(s, e), e.t)
  {
    hide AfterInvalidation, AfterDeath, Complete, Get;
  }

  lemma ValidationFrame(s: Sys, e: Event)
    requires Enabled(s, e) && OfValidation(e)
    ensures OnlyValidates(s, Apply(s, e), e.t)
  {
    if e.BeginV? {
      hide Apply, OnlyValidates;
      BeginFrame(s, e);
    } else if e.CompleteV? {
      hide Apply, OnlyValidates;
      CompleteFrame(s, e);
    } else {
      hide AfterInvalidation, AfterDeath, Fail, Get;
    }
  }

  /** A death leaves every thread at rest. */
  lemma DeathFrame(s: Sys, e: Event)
    requires Enabled(s, e) && OfDeath(e)
    ensures var s' := Apply(s, e);
            && s'.generation == s.generation && s'.marks == s.marks && s'.begun == s.begun
            && s'.jobs.Keys == s.jobs.Keys && forall t | t in s'.jobs :: s'.jobs[t] == Resting
  {
    hide AfterInvalidation, AfterValidation, MayRemove, Restart;
  }

  /** What the other steps do to the job of a thread. */
  lemma InvalidationJobs(s: Sys, e: Event, t: Tid)
    requires Enabled(s, e) && !OfValidation(e) && !OfDeath(e) && t in Apply(s, e).jobs
    ensures Apply(s, e).begun == s.begun && t in s.jobs
    ensures var job, before := Apply(s, e).jobs[t], s.jobs[t];
            || job == before || job.Resting? || job.Loaded?
            || (e.MarkI? && e.t == t && job == Bumping(before.user, Get(s.generation, before.user), before.read))
            || (e.ReloadI? && e.t == t && before.Bumping?
                && job == Bumping(before.user, before.before, Get(s.generation, before.user)))
            || (e.Commit? && e.t == t && before.Bumping? && job == Discarding(before.user, before.before, before.read))
  {
    hide AfterValidation, AfterDeath, Mark, Discard, MayRemove, Get;
  }

  // ----- the invariant

  predicate FenceOk(f: State) {
    && (forall u | u in f.pending :: u !in f.receipts)
    && (forall u | u in f.validating :: f.validating[u] < f.nextToken)
  }

  /** Every validation in progress and every receipt began after the latest mark of its user. */
  predicate UpToDate(s: Sys) {
    && (forall u | u in s.fence.validating :: s.fence.validating[u] in s.begun
          && s.begun[s.fence.validating[u]] == Get(s.marks, u))
    && (forall u | u in s.fence.receipts :: u in s.basis && s.basis[u] == Get(s.marks, u))
    && (forall k | k in s.begun :: k < s.fence.nextToken)
  }

  /** Every validation in progress is on record. */
  predicate Recorded(s: Sys) {
    forall t | t in s.jobs && s.jobs[t].LookingUp? ::
      s.jobs[t].token in s.begun && s.begun[s.jobs[t].token] <= Get(s.marks, s.jobs[t].user)
  }

  predicate Inv(s: Sys) { FenceOk(s.fence) && UpToDate(s) && Recorded(s) }

  lemma OperationsKeepFenceOk(f: State, user: User, token: Token, key: Key,
                              unreadable: bool, fate: Survived, epoch: int, now: int)
    requires FenceOk(f)
    ensures FenceOk(Begin(f, user, unreadable, fate).0) && FenceOk(Fail(f, user, token))
    ensures FenceOk(Complete(f, user, token, key, fate, epoch, now).0)
    ensures FenceOk(Mark(f, user, fate)) && FenceOk(Discard(f, user, fate)) && FenceOk(Restart(f))
    ensures FenceOk(Asked(f, user, key, unreadable))
  {
  }

  lemma FenceStays(s: Sys, e: Event)
    requires FenceOk(s.fence) && Enabled(s, e)
    ensures FenceOk(Apply(s, e).fence)
  {
    hide FenceOk, Begin, Fail, Complete, Mark, Discard, Asked, Restart, MayRemove, Get;
    var f, k := s.fence, Key(0, 0, "", "", "");
    if e.BeginV? { OperationsKeepFenceOk(f, e.user, 0, e.key, e.unreadable, e.fate, 0, 0); }
    else if OfValidation(e) {
      hide AfterInvalidation, AfterDeath;
      var job := s.jobs[e.t];
      if e.CompleteV? { OperationsKeepFenceOk(f, job.user, job.token, job.key, true, e.fate, e.epoch, e.now); }
      else { OperationsKeepFenceOk(f, job.user, job.token, k, true, Works, 0, 0); }
    } else {
      hide AfterValidation;
      if e.MarkI? { OperationsKeepFenceOk(f, s.jobs[e.t].user, 0, k, true, e.fate, 0, 0); }
      if e.DiscardI? { OperationsKeepFenceOk(f, s.jobs[e.t].user, 0, k, true, e.fate, 0, 0); }
      if e.AskV? { OperationsKeepFenceOk(f, e.user, 0, e.key, e.unreadable, Works, 0, 0); }
      RestartedOk(f);
    }
  }

  lemma RestartedOk(f: State)
    ensures forall markers :: FenceOk(Restart(f.(markers := markers)))
  {
  }

  predicate SubMap<V(==)>(m: map<User, V>, n: map<User, V>) { forall u | u in m :: u in n && m[u] == n[u] }

  /** No new validation and no new receipt: nothing can get out of date. */
  lemma FewerStayUpToDate(s: Sys, s': Sys)
    requires UpToDate(s) && SubMap(s'.fence.validating, s.fence.validating)
    requires SubMap(s'.fence.receipts, s.fence.receipts)
    requires s'.marks == s.marks && s'.begun == s.begun && s'.fence.nextToken == s.fence.nextToken
    requires s'.basis == s.basis || s'.fence.receipts == map[]
    ensures UpToDate(s')
  {
  }

  lemma BeginCases(f: State, user: User, unreadable: bool, fate: Survived)
    ensures var (g, begun) := Begin(f, user, unreadable, fate);
            && SubMap(g.receipts, f.receipts)
            && if begun.Token?
               then begun.token == f.nextToken && g.nextToken == f.nextToken + 1
                    && g.validating == f.validating[user := f.nextToken]
               else f.nextToken <= g.nextToken && SubMap(g.validating, f.validating)
  {
  }

  lemma BeginUpToDate(s: Sys, e: Event)
    requires FenceOk(s.fence) && UpToDate(s) && Enabled(s, e) && e.BeginV?
    ensures UpToDate(Apply(s, e))
  {
    hide AfterInvalidation, AfterDeath, MayRemove, Begin, Get;
    BeginCases(s.fence, e.user, e.unreadable, e.fate);
  }

  lemma CompleteUpToDate(s: Sys, e: Event)
    requires FenceOk(s.fence) && UpToDate(s) && Enabled(s, e) && e.CompleteV?
    ensures UpToDate(Apply(s, e))
  {
  }

  lemma MarkUpToDate(s: Sys, e: Event)
    requires UpToDate(s) && Enabled(s, e) && e.MarkI?
    ensures UpToDate(Apply(s, e))
  {
  }

  lemma UpToDateStays(s: Sys, e: Event)
    requires FenceOk(s.fence) && UpToDate(s) && Enabled(s, e)
    ensures UpToDate(Apply(s, e))
  {
    hide FenceOk, UpToDate;
    if e.BeginV? { BeginUpToDate(s, e); }
    else if e.CompleteV? { CompleteUpToDate(s, e); }
    else if e.MarkI? { MarkUpToDate(s, e); }
    else { FewerStayUpToDate(s, Apply(s, e)); }
  }

  lemma RecordStays(s: Sys, e: Event)
    requires UpToDate(s) && Recorded(s) && Enabled(s, e)
    ensures Recorded(Apply(s, e))
  {
    hide Apply, Enabled, UpToDate, Get;
    HistoryGrows(s, e);
    var s' := Apply(s, e);
    forall t | t in s'.jobs && s'.jobs[t].LookingUp?
      ensures s'.jobs[t].token in s'.begun && s'.begun[s'.jobs[t].token] <= Get(s'.marks, s'.jobs[t].user)
    {
      if OfValidation(e) { ValidationFrame(s, e); }
      else if OfDeath(e) { DeathFrame(s, e); }
      else { InvalidationJobs(s, e, t); }
      if s.jobs[t] == s'.jobs[t] { assert s.begun[s.jobs[t].token] <= Get(s.marks, s.jobs[t].user); }
    }
  }

  /** Every step keeps the invariant. */
  lemma StepKeepsInv(s: Sys, e: Event)
    requires Inv(s) && Enabled(s, e)
    ensures Inv(Apply(s, e))
  {
    hide FenceOk, UpToDate, Recorded, Enabled, Apply;
    RecordStays(s, e);
    FenceStays(s, e);
    UpToDateStays(s, e);
  }

  // ----- runs

  ghost predicate Initial(s: Sys) {
    && s.fence.pending == {} && s.fence.validating == map[] && s.fence.receipts == map[] && s.begun == map[]
    && forall t | t in s.jobs :: s.jobs[t] == Resting
  }

  ghost predicate IsRun(states: seq<Sys>, events: seq<Event>) {
    && |states| == |events| + 1 && Initial(states[0])
    && forall i | 0 <= i < |events| :: Enabled(states[i], events[i]) && states[i + 1] == Apply(states[i], events[i])
  }

  lemma {:induction false} RunKeepsInv(states: seq<Sys>, events: seq<Event>, i: nat)
    requires IsRun(states, events) && i < |states|
    ensures Inv(states[i])
  {
    hide Enabled, Apply, Inv;
    if i == 0 { InitialInv(states[0]); }
    else {
      RunKeepsInv(states, events, i - 1);
      StepKeepsInv(states[i - 1], events[i - 1]);
      assert states[i - 1 + 1] == Apply(states[i - 1], events[i - 1]);
    }
  }

  lemma InitialInv(s: Sys)
    requires Initial(s)
    ensures Inv(s)
  {
  }

  /** In every state of every run no pending user has a receipt. */
  lemma PendingHaveNoReceipt(states: seq<Sys>, events: seq<Event>, i: nat, user: User, key: Key, notBefore: int,
                             unreadable: bool)
    requires IsRun(states, events) && i < |states| && user in states[i].fence.pending
    ensures user !in states[i].fence.receipts && Recent(states[i].fence, user, key, notBefore, unreadable) == None
  {
    hide Enabled, Apply;
    RunKeepsInv(states, events, i);
  }

  // ----- a mark stops every validation that began before it

  /** The thread's validation is out of date: a mark of its user has come since it began. */
  predicate Overtaken(s: Sys, t: Tid) {
    t in s.jobs && s.jobs[t].LookingUp? && s.jobs[t].token in s.begun
      && s.begun[s.jobs[t].token] < Get(s.marks, s.jobs[t].user)
  }

  lemma OvertakenCannotPublish(s: Sys, t: Tid, fate: Survived, epoch: int, now: int)
    requires Inv(s) && Overtaken(s, t)
    ensures var job := s.jobs[t];
            Complete(s.fence, job.user, job.token, job.key, fate, epoch, now) == (s.fence, Refused) && !MayRemove(s, t)
  {
  }

  /** The tokens handed out keep their place in the history, and marks are only added. */
  lemma HistoryGrows(s: Sys, e: Event)
    requires UpToDate(s) && Enabled(s, e)
    ensures forall k | k in s.begun :: k in Apply(s, e).begun && Apply(s, e).begun[k] == s.begun[k]
    ensures forall u :: Get(s.marks, u) <= Get(Apply(s, e).marks, u)
  {
    hide FenceOk, Fail, Complete, Mark, Discard, Restart, MayRemove;
  }

  lemma {:induction false} HistoryOverRun(states: seq<Sys>, events: seq<Event>, i: nat, j: nat)
    requires IsRun(states, events) && i <= j < |states|
    ensures forall k | k in states[i].begun :: k in states[j].begun && states[j].begun[k] == states[i].begun[k]
    ensures forall u :: Get(states[i].marks, u) <= Get(states[j].marks, u)
  {
    hide Enabled, Apply, FenceOk, UpToDate, Recorded;
    if i < j {
      HistoryOverRun(states, events, i, j - 1);
      RunKeepsInv(states, events, j - 1);
      HistoryGrows(states[j - 1], events[j - 1]);
      assert states[j - 1 + 1] == Apply(states[j - 1], events[j - 1]);
      forall u ensures Get(states[i].marks, u) <= Get(states[j].marks, u) {
        assert Get(states[i].marks, u) <= Get(states[j - 1].marks, u);
      }
    }
  }

  predicate MarksUser(s: Sys, e: Event, user: User) {
    e.MarkI? && e.t in s.jobs && s.jobs[e.t].Loaded? && s.jobs[e.t].user == user
  }

  /**
    In every run, a validation that was in progress when its user was marked publishes no receipt and
    removes no marker at any later point.
   */
  lemma MarkStopsValidation(states: seq<Sys>, events: seq<Event>, i: nat, m: nat, j: nat, t: Tid, user: User,
                            token: Token, key: Key)
    requires IsRun(states, events) && i <= m < j < |states| && MarksUser(states[m], events[m], user)
    requires Doing(states[i], t, LookingUp(user, token, key)) && Doing(states[j], t, LookingUp(user, token, key))
    ensures !MayRemove(states[j], t)
    ensures forall fate, epoch, now ::
              Complete(states[j].fence, user, token, key, fate, epoch, now) == (states[j].fence, Refused)
  {
    hide FenceOk, UpToDate, Complete;
    RunKeepsInv(states, events, i);
    HistoryOverRun(states, events, i, m);
    assert states[m + 1] == Apply(states[m], events[m]);
    assert Get(states[m + 1].marks, user) == Get(states[m].marks, user) + 1;
    HistoryOverRun(states, events, i, j);
    HistoryOverRun(states, events, m + 1, j);
    RunKeepsInv(states, events, j);
    assert Overtaken(states[j], t);
    forall fate, epoch, now
      ensures Complete(states[j].fence, user, token, key, fate, epoch, now) == (states[j].fence, Refused)
    {
      OvertakenCannotPublish(states[j], t, fate, epoch, now);
    }
    OvertakenCannotPublish(states[j], t, Works, 0, 0);
  }

  // ----- a marker stays until it is removed on purpose

  /** The step may remove the user's marker: a valid completion, or a discard. */
  predicate CompletesUser(s: Sys, e: Event, user: User) {
    || (e.CompleteV? && MayRemove(s, e.t) && s.jobs[e.t].user == user && e.fate != Fails)
    || (e.DieRemoving? && MayRemove(s, e.t) && s.jobs[e.t].user == user && s.jobs[e.t].LookingUp?)
  }

  predicate DiscardsUser(s: Sys, e: Event, user: User) {
    (e.DiscardI? || e.DieRemoving?) && e.t in s.jobs && s.jobs[e.t].Discarding? && s.jobs[e.t].user == user
  }

  lemma OperationsKeepMarker(f: State, user: User, other: User, token: Token, key: Key,
                             unreadable: bool, fate: Survived, epoch: int, now: int)
    requires user in f.markers
    ensures user in Begin(f, other, unreadable, fate).0.markers && user in Fail(f, other, token).markers
    ensures user in Mark(f, other, fate).markers
    ensures user != other || fate == Fails || !Current(f, other, token) || other in f.pending ==>
              user in Complete(f, other, token, key, fate, epoch, now).0.markers
    ensures user != other ==> user in Discard(f, other, fate).markers
    ensures user !in f.validating ==>
              && user !in Begin(f, other, unreadable, fate).0.validating && user !in Fail(f, other, token).validating
              && user !in Complete(f, other, token, key, fate, epoch, now).0.validating
              && user !in Mark(f, other, fate).validating && user !in Discard(f, other, fate).validating
  {
  }

  lemma ValidationKeepsMarker(s: Sys, e: Event, user: User)
    requires Enabled(s, e) && OfValidation(e) && user in s.fence.markers && !CompletesUser(s, e, user)
    ensures user in Apply(s, e).fence.markers
    ensures user !in s.fence.validating ==> user !in Apply(s, e).fence.validating
  {
    hide AfterInvalidation, AfterDeath, Begin, Fail, Complete, Get;
    var f, k := s.fence, Key(0, 0, "", "", "");
    if e.BeginV? { OperationsKeepMarker(f, user, e.user, 0, e.key, e.unreadable, e.fate, 0, 0); }
    else {
      var job := s.jobs[e.t];
      if e.CompleteV? { OperationsKeepMarker(f, user, job.user, job.token, job.key, true, e.fate, e.epoch, e.now); }
      else { OperationsKeepMarker(f, user, job.user, job.token, k, true, Works, 0, 0); }
    }
  }

  lemma MarkerStays(s: Sys, e: Event, user: User)
    requires Enabled(s, e) && user in s.fence.markers && !CompletesUser(s, e, user) && !DiscardsUser(s, e, user)
    ensures user in Apply(s, e).fence.markers
    ensures user !in s.fence.validating ==> user !in Apply(s, e).fence.validating
  {
    if OfValidation(e) {
      hide Apply, CompletesUser;
      ValidationKeepsMarker(s, e, user);
    } else {
      hide AfterValidation, Mark, Discard, Get;
      var f, k := s.fence, Key(0, 0, "", "", "");
      if e.MarkI? { OperationsKeepMarker(f, user, s.jobs[e.t].user, 0, k, true, e.fate, 0, 0); }
      if e.DiscardI? { OperationsKeepMarker(f, user, s.jobs[e.t].user, 0, k, true, e.fate, 0, 0); }
    }
  }

  /** In every run a marker stays on disk, across deaths of the process, until a completion or a discard removes it. */
  lemma {:induction false} MarkerStaysOverRun(states: seq<Sys>, events: seq<Event>, i: nat, j: nat, user: User)
    requires IsRun(states, events) && i <= j < |states| && user in states[i].fence.markers
    requires forall k | i <= k < j :: !CompletesUser(states[k], events[k], user)
               && !DiscardsUser(states[k], events[k], user)
    ensures user in states[j].fence.markers
  {
    hide Enabled, Apply, CompletesUser, DiscardsUser;
    if i < j {
      MarkerStaysOverRun(states, events, i, j - 1, user);
      assert states[j - 1 + 1] == Apply(states[j - 1], events[j - 1]);
      MarkerStays(states[j - 1], events[j - 1], user);
    }
  }

  /** A validation that has begun is fenced durably. */
  lemma BegunIsMarked(s: Sys, e: Event)
    requires Enabled(s, e) && e.BeginV? && Apply(s, e).jobs[e.t].LookingUp?
    ensures e.user in Apply(s, e).fence.markers
  {
    hide AfterInvalidation, AfterDeath, MayRemove, Fail;
  }

  /** The fence holds without help from this process: only a discard can open it. */
  predicate Shut(s: Sys, user: User) { user in s.fence.markers && user !in s.fence.validating }

  lemma ShutStays(s: Sys, e: Event, user: User)
    requires Enabled(s, e) && Shut(s, user) && !DiscardsUser(s, e, user)
    ensures Shut(Apply(s, e), user)
  {
    ShutNotCompleted(s, e, user);
    hide Apply, Enabled, CompletesUser;
    MarkerStays(s, e, user);
  }

  lemma ShutNotCompleted(s: Sys, e: Event, user: User)
    requires Enabled(s, e) && Shut(s, user) && !DiscardsUser(s, e, user)
    ensures !CompletesUser(s, e, user)
  {
  }

  /**
    After a death of the process every marked user is denied, by every request and every new validation,
    until a discard.
   */
  lemma {:induction false} FencedAfterRestart(states: seq<Sys>, events: seq<Event>, i: nat, j: nat, user: User)
    requires IsRun(states, events) && i < j < |states| && user in states[i + 1].fence.markers
    requires events[i].Die? || events[i].DieWriting? || events[i].DieRemoving?
    requires forall k | i < k < j :: !DiscardsUser(states[k], events[k], user)
    ensures Shut(states[j], user)
    ensures forall unreadable :: Contains(states[j].fence, user, unreadable)
    ensures forall unreadable, fate :: Begin(states[j].fence, user, unreadable, fate).1 == Pending
  {
    hide Enabled, Apply, Initial, DiscardsUser;
    assert states[j - 1 + 1] == Apply(states[j - 1], events[j - 1]);
    if i + 1 < j {
      FencedAfterRestart(states, events, i, j - 1, user);
      ShutStays(states[j - 1], events[j - 1], user);
    } else {
      DeathShuts(states[i], events[i], user);
    }
    ShutDenies(states[j], user);
  }

  lemma DeathShuts(s: Sys, e: Event, user: User)
    requires Enabled(s, e) && OfDeath(e) && user in Apply(s, e).fence.markers
    ensures Shut(Apply(s, e), user)
  {
    hide AfterValidation, AfterInvalidation, MayRemove;
  }

  lemma ShutDenies(s: Sys, user: User)
    requires Shut(s, user)
    ensures forall unreadable :: Contains(s.fence, user, unreadable)
    ensures forall unreadable, fate :: Begin(s.fence, user, unreadable, fate).1 == Pending
  {
  }

  /**
    In every run, when the process dies after a validation of the user has begun, and before a completion or a
    discard, the user is denied and refused validation until a discard.
   */
  lemma DeathInValidationFences(states: seq<Sys>, events: seq<Event>, i: nat, d: nat, j: nat, user: User)
    requires IsRun(states, events) && i < d < j < |states|
    requires events[i].BeginV? && events[i].user == user && states[i + 1].jobs[events[i].t].LookingUp?
    requires forall k | i < k < j :: !DiscardsUser(states[k], events[k], user)
    requires OfDeath(events[d]) && forall k | i < k <= d :: !CompletesUser(states[k], events[k], user)
    ensures Shut(states[j], user) && forall unreadable :: Contains(states[j].fence, user, unreadable)
    ensures forall unreadable, fate :: Begin(states[j].fence, user, unreadable, fate).1 == Pending
  {
    hide Enabled, Apply, Initial, CompletesUser, DiscardsUser, Begin, Contains;
    assert states[i + 1] == Apply(states[i], events[i]);
    BegunIsMarked(states[i], events[i]);
    MarkerStaysOverRun(states, events, i + 1, d + 1, user);
    FencedAfterRestart(states, events, d, j, user);
  }

  // ----- the fence of an invalidation that has not committed yet

  /** Every invalidation between its mark and its commit is fenced in memory. */
  predicate FencesUp(s: Sys) { forall t | t in s.jobs && s.jobs[t].Bumping? :: s.jobs[t].user in s.fence.pending }

  /** A discard for one invalidation of a user while another one of the same user has not committed. */
  predicate DropsAnother(s: Sys, e: Event) {
    e.DiscardI? && e.fate == Works && e.t in s.jobs && s.jobs[e.t].Discarding?
    && exists t :: t in s.jobs && s.jobs[t].Bumping? && s.jobs[t].user == s.jobs[e.t].user
  }

  lemma OperationsKeepPending(f: State, user: User, other: User, token: Token, key: Key,
                              unreadable: bool, fate: Survived, epoch: int, now: int)
    requires user in f.pending
    ensures user in Begin(f, other, unreadable, fate).0.pending && user in Fail(f, other, token).pending
    ensures user in Complete(f, other, token, key, fate, epoch, now).0.pending && user in Mark(f, other, fate).pending
    ensures user != other || fate != Works ==> user in Discard(f, other, fate).pending
  {
  }

  lemma PendingStays(s: Sys, e: Event, user: User)
    requires Enabled(s, e) && user in s.fence.pending && !e.Die? && !e.DieWriting? && !e.DieRemoving?
    requires e.DiscardI? && e.fate == Works ==> s.jobs[e.t].user != user
    ensures user in Apply(s, e).fence.pending
  {
    hide Begin, Fail, Complete, Mark, Discard, MayRemove, Get;
    var f, k := s.fence, Key(0, 0, "", "", "");
    if e.BeginV? { OperationsKeepPending(f, user, e.user, 0, e.key, e.unreadable, e.fate, 0, 0); }
    else if OfValidation(e) {
      hide AfterInvalidation, AfterDeath;
      var job := s.jobs[e.t];
      if e.CompleteV? { OperationsKeepPending(f, user, job.user, job.token, job.key, true, e.fate, e.epoch, e.now); }
      else { OperationsKeepPending(f, user, job.user, job.token, k, true, Works, 0, 0); }
    } else {
      hide AfterValidation, AfterDeath;
      if e.MarkI? { OperationsKeepPending(f, user, s.jobs[e.t].user, 0, k, true, e.fate, 0, 0); }
      if e.DiscardI? { OperationsKeepPending(f, user, s.jobs[e.t].user, 0, k, true, e.fate, 0, 0); }
    }
  }

  lemma BumpingBefore(s: Sys, e: Event, t: Tid)
    requires Enabled(s, e) && t in Apply(s, e).jobs && Apply(s, e).jobs[t].Bumping?
    ensures !OfDeath(e)
    ensures (e.MarkI? && e.t == t) || (t in s.jobs && s.jobs[t].Bumping? && s.jobs[t].user == Apply(s, e).jobs[t].user)
  {
    hide Apply;
    if OfValidation(e) { ValidationFrame(s, e); }
    else if OfDeath(e) { DeathFrame(s, e); }
    else { InvalidationJobs(s, e, t); }
  }

  /** A step keeps all these fences up if and only if it is not such a discard. */
  lemma FencesStayUnlessDropped(s: Sys, e: Event)
    requires FencesUp(s) && Enabled(s, e)
    ensures FencesUp(Apply(s, e)) <==> !DropsAnother(s, e)
  {
    var s' := Apply(s, e);
    if DropsAnother(s, e) {
      var t :| t in s.jobs && s.jobs[t].Bumping? && s.jobs[t].user == s.jobs[e.t].user;
      assert t in s'.jobs && s'.jobs[t].Bumping? && s'.jobs[t].user !in s'.fence.pending;
    } else {
      hide Apply, Enabled;
      forall t | t in s'.jobs && s'.jobs[t].Bumping? ensures s'.jobs[t].user in s'.fence.pending {
        BumpingBefore(s, e, t);
        if e.MarkI? && e.t == t { MarkPends(s, e); }
        else { PendingStays(s, e, s'.jobs[t].user); }
      }
    }
  }

  lemma MarkPends(s: Sys, e: Event)
    requires Enabled(s, e) && e.MarkI?
    ensures Apply(s, e).jobs[e.t].user in Apply(s, e).fence.pending
  {
  }

  lemma Extend(states: seq<Sys>, events: seq<Event>, e: Event)
    requires IsRun(states, events) && Enabled(states[|states| - 1], e)
    ensures IsRun(states + [Apply(states[|states| - 1], e)], events + [e])
  {
    hide Apply, Enabled, Initial;
  }

  lemma InvalidationSteps(s: Sys, t: Tid, user: User)
    requires Doing(s, t, Resting)
    ensures var s1 := Apply(s, LoadI(t, user));
            && s1 == s.(jobs := s.jobs[t := Loaded(user, Get(s.generation, user))]) && Enabled(s1, MarkI(t, Works))
            && var s2 := Apply(s1, MarkI(t, Works));
               && s2.jobs == s.jobs[t := Bumping(user, Get(s.generation, user), Get(s.generation, user))]
               && s2.generation == s.generation && s2.fence == Mark(s.fence, user, Works) && Enabled(s2, Commit(t))
  {
    hide AfterValidation, AfterDeath, Mark;
  }

  lemma CommitStep(s: Sys, t: Tid)
    requires t in s.jobs && s.jobs[t].Bumping?
    ensures var job := s.jobs[t];
            && Enabled(s, Commit(t)) && Apply(s, Commit(t)).generation == s.generation[job.user := job.read + 1]
            && Apply(s, Commit(t)).jobs == s.jobs[t := Discarding(job.user, job.before, job.read)]
            && Apply(s, Commit(t)).fence == s.fence
  {
    hide AfterValidation, AfterDeath;
  }

  /** A run goes on with a whole invalidation by one thread, up to its commit. */
  lemma Invalidates(before: seq<Sys>, steps: seq<Event>, t: Tid, user: User)
    returns (states: seq<Sys>, events: seq<Event>)
    requires IsRun(before, steps) && Doing(before[|before| - 1], t, Resting)
    ensures |states| == |before| + 3 && |events| == |steps| + 3 && IsRun(states, events)
    ensures var s, s' := before[|before| - 1], states[|states| - 1];
            var g := Get(s.generation, user);
            && s'.jobs == s.jobs[t := Discarding(user, g, g)] && s'.generation == s.generation[user := g + 1]
            && s'.fence == Mark(s.fence, user, Works)
    ensures events == steps + [LoadI(t, user)] + [MarkI(t, Works)] + [Commit(t)]
    ensures states[|before|].generation == before[|before| - 1].generation
    ensures MarksUser(states[|before|], MarkI(t, Works), user)
  {
    var s := before[|before| - 1];
    hide IsRun, Apply, Enabled, Mark, Get;
    var e1, e2, e3 := LoadI(t, user), MarkI(t, Works), Commit(t);
    LoadEnabled(s, t, user);
    InvalidationSteps(s, t, user);
    Extend(before, steps, e1);
    var s1 := Apply(s, e1);
    Extend(before + [s1], steps + [e1], e2);
    var s2 := Apply(s1, e2);
    CommitStep(s2, t);
    Extend(before + [s1] + [s2], steps + [e1] + [e2], e3);
    states, events := before + [s1] + [s2] + [Apply(s2, e3)], steps + [e1] + [e2] + [e3];
  }

  lemma LoadEnabled(s: Sys, t: Tid, user: User)
    ensures Doing(s, t, Resting) ==> Enabled(s, LoadI(t, user))
  {
  }

  const QUIET := Sys(State({}, map[], map[], {}, 0), map[], map[0 := Resting, 1 := Resting], map[], map[], map[])

  /** The first of two invalidations of user 7, up to its commit. */
  lemma OneInvalidation() returns (states: seq<Sys>, events: seq<Event>)
    ensures |states| == 4 && IsRun(states, events)
    ensures var s := states[3];
            && s.jobs == map[0 := Discarding(7, 0, 0), 1 := Resting] && s.generation == map[7 := 1]
            && s.fence == State({7}, map[], map[], {7}, 0)
  {
    hide IsRun;
    OneStateRun(QUIET);
    states, events := Invalidates([QUIET], [], 0, 7);
  }

  lemma TwoInvalidations() returns (states: seq<Sys>, events: seq<Event>)
    ensures |states| == 6 && IsRun(states, events)
    ensures var s := states[5];
            && s.jobs == map[0 := Discarding(7, 0, 0), 1 := Bumping(7, 1, 1)] && s.generation == map[7 := 1]
            && s.fence == State({7}, map[], map[], {7}, 0)
  {
    hide IsRun;
    var before, steps := OneInvalidation();
    var s3 := before[3];
    Extend(before, steps, LoadI(1, 7));
    var s4 := Apply(s3, LoadI(1, 7));
    Extend(before + [s4], steps + [LoadI(1, 7)], MarkI(1, Works));
    states, events := before + [s4] + [Apply(s4, MarkI(1, Works))], steps + [LoadI(1, 7)] + [MarkI(1, Works)];
  }

  lemma OneStateRun(s: Sys)
    requires Initial(s)
    ensures IsRun([s], [])
  {
  }

  /** Two overlapping invalidations of user 7: the first one's discard opens the fence of the second. */
  lemma OverlapOpensFence() returns (states: seq<Sys>, events: seq<Event>)
    ensures IsRun(states, events) && Doing(states[|states| - 1], 1, Bumping(7, 1, 1))
    ensures Get(states[|states| - 1].generation, 7) == 1
    ensures !Contains(states[|states| - 1].fence, 7, false)
    ensures Begin(states[|states| - 1].fence, 7, false, Works).1.Token?
  {
    hide IsRun;
    var before, steps := TwoInvalidations();
    var s := before[|before| - 1];
    Extend(before, steps, DiscardI(0, Works));
    states, events := before + [Apply(s, DiscardI(0, Works))], steps + [DiscardI(0, Works)];
  }

  // ----- the generation that an invalidation leaves behind

  predicate CommitsUser(s: Sys, e: Event, user: User) {
    || (e.Commit? && e.t in s.jobs && s.jobs[e.t].Bumping? && s.jobs[e.t].user == user)
    || (e.CommitRaises? && e.late && e.t in s.jobs && s.jobs[e.t].Bumping? && s.jobs[e.t].user == user)
    || (e.CommitElsewhere? && e.user == user)
  }

  /** The generation that a commit had loaded. */
  function ReadBy(s: Sys, e: Event, user: User): nat
    requires CommitsUser(s, e, user)
  {
    if e.CommitElsewhere? then e.read else s.jobs[e.t].read
  }

  /** The generation of the account is still the one that the committing invalidation has loaded. */
  predicate Undisturbed(s: Sys, e: Event, user: User) {
    CommitsUser(s, e, user) ==> Get(s.generation, user) == ReadBy(s, e, user)
  }

  /** Every invalidation of the user has the generation of its mark behind it once it has committed. */
  predicate Advanced(s: Sys, user: User) {
    && (forall t | t in s.jobs && s.jobs[t].Bumping? && s.jobs[t].user == user ::
          s.jobs[t].before <= Get(s.generation, user))
    && (forall t | t in s.jobs && s.jobs[t].Discarding? && s.jobs[t].user == user ::
          s.jobs[t].before < Get(s.generation, user))
  }

  lemma GenerationStep(s: Sys, e: Event, user: User)
    requires Enabled(s, e)
    ensures Get(Apply(s, e).generation, user)
         == if CommitsUser(s, e, user) then ReadBy(s, e, user) + 1 else Get(s.generation, user)
  {
    if OfValidation(e) {
      hide Apply;
      ValidationFrame(s, e);
    } else if OfDeath(e) {
      hide Apply;
      DeathFrame(s, e);
    } else {
      hide AfterValidation, AfterDeath, Mark, Discard, MayRemove;
    }
  }

  /** What a step can do to the jobs of invalidations. */
  lemma JobStep(s: Sys, e: Event, t: Tid)
    requires Enabled(s, e) && t in Apply(s, e).jobs
    ensures t in s.jobs
    ensures var before, job := s.jobs[t], Apply(s, e).jobs[t];
            && (job.Bumping? ==>
                  || (before.Bumping? && before.user == job.user && before.before == job.before)
                  || (e.MarkI? && e.t == t && job.before == Get(s.generation, job.user)))
            && (job.Discarding? ==>
                  || before == job
                  || (e.Commit? && e.t == t && before.Bumping?
                      && before.user == job.user && before.before == job.before))
  {
    hide Apply;
    if OfValidation(e) { ValidationFrame(s, e); }
    else if OfDeath(e) { DeathFrame(s, e); }
    else { InvalidationJobs(s, e, t); }
  }

  lemma AdvancedStays(s: Sys, e: Event, user: User)
    requires Advanced(s, user) && Enabled(s, e) && Undisturbed(s, e, user)
    ensures Advanced(Apply(s, e), user)
  {
    var s' := Apply(s, e);
    GenerationStep(s, e, user);
    forall t | t in s'.jobs ensures s'.jobs[t].Bumping? && s'.jobs[t].user == user ==>
      s'.jobs[t].before <= Get(s'.generation, user)
      ensures s'.jobs[t].Discarding? && s'.jobs[t].user == user ==> s'.jobs[t].before < Get(s'.generation, user)
    {
      JobStep(s, e, t);
      if s'.jobs[t].Discarding? && s'.jobs[t].user == user && s.jobs[t] != s'.jobs[t] {
        assert CommitsUser(s, e, user);
      }
    }
  }

  /**
    In every run in which the commits of the user's generation are undisturbed, a discard comes only after
    the generation has risen above what it was at the discarding invalidation's own mark.
   */
  lemma {:induction false} DiscardAfterAdvance(states: seq<Sys>, events: seq<Event>, i: nat, user: User)
    requires IsRun(states, events) && i < |states|
    requires forall k | 0 <= k < i :: Undisturbed(states[k], events[k], user)
    ensures Advanced(states[i], user)
    ensures i < |events| && DiscardsUser(states[i], events[i], user) ==>
              states[i].jobs[events[i].t].before < Get(states[i].generation, user)
  {
    hide Enabled, Apply, Undisturbed;
    if i > 0 {
      DiscardAfterAdvance(states, events, i - 1, user);
      AdvancedStays(states[i - 1], events[i - 1], user);
      assert states[i - 1 + 1] == Apply(states[i - 1], events[i - 1]);
    }
  }

  /** The invalidation marked its user at `m` and has not begun another one up to `j`. */
  ghost predicate MarkedAt(states: seq<Sys>, events: seq<Event>, t: Tid, user: User, m: nat, j: nat)
    requires |states| == |events| + 1
  {
    && m < j < |states| && MarksUser(states[m], events[m], user) && events[m].t == t
    && forall k | m < k < j :: !(events[k].MarkI? && events[k].t == t)
  }

  lemma MarkBumps(s: Sys, e: Event, user: User)
    requires Enabled(s, e) && MarksUser(s, e, user)
    ensures e.t in Apply(s, e).jobs && Apply(s, e).jobs[e.t].Bumping? && Apply(s, e).jobs[e.t].user == user
    ensures Apply(s, e).jobs[e.t].before == Get(s.generation, user)
  {
    hide AfterValidation, AfterDeath, Mark;
  }

  /** From its mark on, the invalidation keeps the generation of the mark, and it discards only after its own commit. */
  lemma {:induction false} OwnCommit(states: seq<Sys>, events: seq<Event>, t: Tid, user: User, m: nat, j: nat)
    requires IsRun(states, events) && MarkedAt(states, events, t, user, m, j) && t in states[j].jobs
    ensures var job := states[j].jobs[t];
            && (job.Bumping? || job.Discarding? ==>
                  job.user == user && job.before == Get(states[m].generation, user))
            && (job.Discarding? ==> exists c :: m < c < j && CommitsUser(states[c], events[c], user))
  {
    hide Enabled, Apply, Get, Initial;
    assert states[j - 1 + 1] == Apply(states[j - 1], events[j - 1]);
    if j == m + 1 { MarkBumps(states[m], events[m], user); }
    else {
      JobStep(states[j - 1], events[j - 1], t);
      OwnCommit(states, events, t, user, m, j - 1);
      if states[j].jobs[t].Discarding? && states[j].jobs[t] != states[j - 1].jobs[t] {
        assert CommitsUser(states[j - 1], events[j - 1], user);
      }
    }
  }

  /** The last commit of the user's generation between the two points of the run. */
  ghost predicate LastCommit(states: seq<Sys>, events: seq<Event>, user: User, m: nat, j: nat, c: nat)
    requires |states| == |events| + 1 && j < |states|
  {
    && m < c < j && CommitsUser(states[c], events[c], user)
    && forall k | c < k < j :: !CommitsUser(states[k], events[k], user)
  }

  lemma {:induction false} LastCommitExists(states: seq<Sys>, events: seq<Event>, user: User, m: nat, j: nat)
    returns (c: nat)
    requires |states| == |events| + 1 && j < |states|
    requires exists k :: m < k < j && CommitsUser(states[k], events[k], user)
    ensures LastCommit(states, events, user, m, j, c)
  {
    hide CommitsUser;
    if CommitsUser(states[j - 1], events[j - 1], user) { c := j - 1; }
    else { c := LastCommitExists(states, events, user, m, j - 1); }
  }

  lemma {:induction false} SinceLastCommit(states: seq<Sys>, events: seq<Event>, user: User, m: nat, j: nat, c: nat)
    requires IsRun(states, events) && j < |states| && LastCommit(states, events, user, m, j, c)
    ensures Get(states[j].generation, user) == ReadBy(states[c], events[c], user) + 1
  {
    hide Enabled, Apply, Get, CommitsUser, Initial;
    assert states[j - 1 + 1] == Apply(states[j - 1], events[j - 1]);
    GenerationStep(states[j - 1], events[j - 1], user);
    if c < j - 1 { SinceLastCommit(states, events, user, m, j - 1, c); }
  }

  /**
    In every run, when an invalidation comes to its discard, the generation is above what it was at its mark if
    and only if the last commit of the user since that mark had loaded no less than that. There is such a
    commit, though it need not be the invalidation's own.
   */
  lemma DiscardAdvancedIff(states: seq<Sys>, events: seq<Event>, t: Tid, user: User, m: nat, j: nat) returns (c: nat)
    requires IsRun(states, events) && MarkedAt(states, events, t, user, m, j)
    requires t in states[j].jobs && states[j].jobs[t].Discarding?
    ensures LastCommit(states, events, user, m, j, c)
    ensures states[j].jobs[t].user == user && states[j].jobs[t].before == Get(states[m].generation, user)
    ensures Get(states[m].generation, user) < Get(states[j].generation, user)
       <==> Get(states[m].generation, user) <= ReadBy(states[c], events[c], user)
  {
    hide Enabled, Apply, Initial, Get, CommitsUser, ReadBy;
    OwnCommit(states, events, t, user, m, j);
    c := LastCommitExists(states, events, user, m, j);
    SinceLastCommit(states, events, user, m, j, c);
  }

  /** Thread 1 loads the account, and thread 0 invalidates it. */
  lemma LoadedTooEarly() returns (states: seq<Sys>, events: seq<Event>)
    ensures |states| == 5 && |events| == 4 && IsRun(states, events)
    ensures states[4].jobs == map[0 := Discarding(7, 0, 0), 1 := Loaded(7, 0)] && states[4].generation == map[7 := 1]
  {
    hide IsRun;
    OneStateRun(QUIET);
    Extend([QUIET], [], LoadI(1, 7));
    var s1 := Apply(QUIET, LoadI(1, 7));
    states, events := Invalidates([QUIET] + [s1], [] + [LoadI(1, 7)], 0, 7);
  }

  /** Its own invalidation then commits the generation that was there already at its mark. */
  lemma StaleCommitDoesNotAdvance() returns (states: seq<Sys>, events: seq<Event>)
    ensures |states| == 7 && |events| == 6 && IsRun(states, events)
    ensures Doing(states[6], 1, Discarding(7, 1, 0)) && Get(states[6].generation, 7) == 1
  {
    hide IsRun;
    var before, steps := LoadedTooEarly();
    var s4 := before[4];
    Extend(before, steps, MarkI(1, Works));
    var s5 := Apply(s4, MarkI(1, Works));
    Extend(before + [s5], steps + [MarkI(1, Works)], Commit(1));
    states, events := before + [s5] + [Apply(s5, Commit(1))], steps + [MarkI(1, Works)] + [Commit(1)];
  }

  /**
    Nor is an own commit that does raise the generation enough: another invalidation that loaded the account
    before can set it back ahead of the discard.
   */
  lemma LaterCommitFallsBack() returns (states: seq<Sys>, events: seq<Event>)
    ensures |states| == 5 && |events| == 4 && IsRun(states, events) && MarkedAt(states, events, 0, 7, 1, 4)
    ensures Get(states[1].generation, 7) == 1 && Get(states[3].generation, 7) == 2
    ensures Doing(states[4], 0, Discarding(7, 1, 1)) && Get(states[4].generation, 7) == 1
  {
    hide IsRun, AfterValidation, AfterDeath;
    var s0 := QUIET.(generation := map[7 := 1]);
    OneStateRun(s0);
    var before, steps := Invalidates([s0], [], 0, 7);
    var e := CommitElsewhere(7, 0);
    Extend(before, steps, e);
    states, events := before + [Apply(before[3], e)], steps + [e];
    assert states[1] == before[1] && events[1] == MarkI(0, Works) && events[2] == Commit(0) && events[3] == e;
  }
}
