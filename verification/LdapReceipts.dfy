/** Which receipts the LDAP fence hands out, and whom it denies, over whole runs. */
module LdapReceipts {

  import opened Collections
  import opened Faults
  import opened LdapFence
  import opened LdapRuns

  // ----- where a receipt comes from

  /** The step completes the validation of the user for this key and publishes its receipt. */
  predicate Publishes(s: Sys, e: Event, user: User, key: Key) {
    && e.CompleteV? && e.t in s.jobs && s.jobs[e.t].LookingUp? && s.jobs[e.t].user == user && s.jobs[e.t].key == key
    && Current(s.fence, user, s.jobs[e.t].token) && user !in s.fence.pending && e.fate == Works
  }

  lemma OperationsAddNoReceipt(f: State, user: User, other: User, token: Token, key: Key, unreadable: bool,
                               fate: Survived, epoch: int, now: int)
    ensures var g := Begin(f, other, unreadable, fate).0;
            user in g.receipts ==> user in f.receipts && g.receipts[user] == f.receipts[user]
    ensures var g := Fail(f, other, token);
            user in g.receipts ==> user in f.receipts && g.receipts[user] == f.receipts[user]
    ensures var (g, done) := Complete(f, other, token, key, fate, epoch, now);
            && (done.Published? <==> Current(f, other, token) && other !in f.pending && fate == Works)
            && (done.Published? && user == other ==> user in g.receipts && g.receipts[user] == Receipt(epoch, now, key))
            && (!(done.Published? && user == other) && user in g.receipts ==>
                  user in f.receipts && g.receipts[user] == f.receipts[user])
    ensures var g := Mark(f, other, fate);
            user in g.receipts ==> user != other && user in f.receipts && g.receipts[user] == f.receipts[user]
    ensures var g := Discard(f, other, fate);
            user in g.receipts ==> user in f.receipts && g.receipts[user] == f.receipts[user]
  {
  }

  /** The receipt was there before the step, and its user was not marked, or the step has just published it. */
  predicate Explained(s: Sys, e: Event, s': Sys, user: User) {
    user in s'.fence.receipts ==>
      var receipt := s'.fence.receipts[user];
      || (user in s.fence.receipts && s.fence.receipts[user] == receipt && !MarksUser(s, e, user))
      || (Publishes(s, e, user, receipt.key) && receipt == Receipt(e.epoch, e.now, receipt.key))
  }

  lemma CompletionExplained(s: Sys, e: Event, user: User)
    requires Enabled(s, e) && e.CompleteV?
    ensures Explained(s, e, Apply(s, e), user)
  {
    hide AfterInvalidation, AfterDeath, Begin, Fail, Complete, MayRemove, Get;
    var job := s.jobs[e.t];
    OperationsAddNoReceipt(s.fence, user, job.user, job.token, job.key, true, e.fate, e.epoch, e.now);
  }

  lemma ValidationExplained(s: Sys, e: Event, user: User)
    requires Enabled(s, e) && OfValidation(e) && !e.CompleteV?
    ensures Explained(s, e, Apply(s, e), user)
  {
    hide AfterInvalidation, AfterDeath, Begin, Fail, Complete, MayRemove, Get;
    var k := Key(0, 0, "", "", "");
    if e.BeginV? { OperationsAddNoReceipt(s.fence, user, e.user, 0, e.key, e.unreadable, e.fate, 0, 0); }
    else { OperationsAddNoReceipt(s.fence, user, s.jobs[e.t].user, s.jobs[e.t].token, k, true, Works, 0, 0); }
  }

  lemma InvalidationExplained(s: Sys, e: Event, user: User)
    requires Enabled(s, e) && !OfValidation(e)
    ensures Explained(s, e, Apply(s, e), user)
  {
    hide AfterValidation, Mark, Discard, MayRemove, Get;
    var k := Key(0, 0, "", "", "");
    if e.MarkI? || e.DiscardI? { OperationsAddNoReceipt(s.fence, user, s.jobs[e.t].user, 0, k, true, e.fate, 0, 0); }
  }

  lemma ReceiptStep(s: Sys, e: Event, user: User)
    requires Enabled(s, e)
    ensures Explained(s, e, Apply(s, e), user)
  {
    hide Apply, Enabled, Explained;
    if e.CompleteV? { CompletionExplained(s, e, user); }
    else if OfValidation(e) { ValidationExplained(s, e, user); }
    else { InvalidationExplained(s, e, user); }
  }

  /** The receipt was published at `i`, and the user has not been marked since. */
  ghost predicate PublishedAt(states: seq<Sys>, events: seq<Event>, user: User, receipt: Receipt, i: nat, j: nat)
    requires |states| == |events| + 1
  {
    && i < j < |states| && Publishes(states[i], events[i], user, receipt.key)
    && receipt == Receipt(events[i].epoch, events[i].now, receipt.key)
    && forall k | i < k < j :: !MarksUser(states[k], events[k], user)
  }

  lemma {:induction false} ReceiptsArePublished(states: seq<Sys>, events: seq<Event>, j: nat, user: User)
    returns (i: nat)
    requires IsRun(states, events) && j < |states| && user in states[j].fence.receipts
    ensures PublishedAt(states, events, user, states[j].fence.receipts[user], i, j)
  {
    hide Enabled, Apply, Current, MarksUser;
    assert j > 0;
    assert states[j - 1 + 1] == Apply(states[j - 1], events[j - 1]);
    ReceiptStep(states[j - 1], events[j - 1], user);
    var receipt := states[j].fence.receipts[user];
    if events[j - 1].CompleteV? && Publishes(states[j - 1], events[j - 1], user, receipt.key)
       && receipt == Receipt(events[j - 1].epoch, events[j - 1].now, receipt.key) { i := j - 1; }
    else { i := ReceiptsArePublished(states, events, j - 1, user); }
  }

  // ----- and the validation behind it

  lemma LookupStep(s: Sys, e: Event, t: Tid, job: Job)
    requires Enabled(s, e) && job.LookingUp? && Doing(Apply(s, e), t, job)
    ensures Doing(s, t, job) || (e.BeginV? && e.t == t && e.user == job.user && e.key == job.key)
  {
    if e.BeginV? && e.t == t { hide AfterInvalidation, AfterDeath, Fail, Complete; }
    else {
      hide Apply;
      if OfValidation(e) {
        ValidationFrame(s, e);
        if e.t == t { NotBegunHere(s, e); }
      } else if OfDeath(e) { DeathFrame(s, e); }
      else { InvalidationJobs(s, e, t); }
    }
  }

  lemma NotBegunHere(s: Sys, e: Event)
    requires Enabled(s, e) && OfValidation(e) && !e.BeginV?
    ensures !Apply(s, e).jobs[e.t].LookingUp?
  {
    hide AfterInvalidation, AfterDeath, Fail, Complete, Begin, Get;
  }

  /** The validation that is being looked up began at `b`, and the thread has been at it since. */
  ghost predicate BegunAt(states: seq<Sys>, events: seq<Event>, t: Tid, job: Job, b: nat, i: nat)
    requires |states| == |events| + 1
  {
    && b < i < |states| && events[b].BeginV? && events[b].t == t && job.LookingUp?
    && events[b].user == job.user && events[b].key == job.key
    && forall k | b < k <= i :: Doing(states[k], t, job)
  }

  lemma {:induction false} LookupsAreBegun(states: seq<Sys>, events: seq<Event>, t: Tid, job: Job, i: nat)
    returns (b: nat)
    requires IsRun(states, events) && i < |states| && job.LookingUp? && Doing(states[i], t, job)
    ensures BegunAt(states, events, t, job, b, i)
  {
    hide Enabled, Apply;
    assert i > 0;
    assert states[i - 1 + 1] == Apply(states[i - 1], events[i - 1]);
    LookupStep(states[i - 1], events[i - 1], t, job);
    if Doing(states[i - 1], t, job) { b := LookupsAreBegun(states, events, t, job, i - 1); }
    else { b := i - 1; }
  }

  /**
    In every run a receipt that is handed out was published by an earlier completion, for the same user and key and
    later than asked for, of a validation since whose beginning the user has not been marked.
   */
  lemma HandedOutIsFresh(states: seq<Sys>, events: seq<Event>, j: nat, user: User, key: Key, notBefore: int,
                         unreadable: bool)
    returns (b: nat, i: nat)
    requires IsRun(states, events) && j < |states| && Recent(states[j].fence, user, key, notBefore, unreadable).Some?
    ensures b < i < j && events[b].BeginV? && events[b].user == user && events[b].key == key
    ensures events[i].CompleteV? && events[i].t == events[b].t && events[i].now > notBefore
    ensures Recent(states[j].fence, user, key, notBefore, unreadable)
         == Some(Receipt(events[i].epoch, events[i].now, key))
    ensures forall k | b <= k < j :: !MarksUser(states[k], events[k], user)
  {
    hide Enabled, Apply, Contains, Complete, MarksUser;
    i := ReceiptsArePublished(states, events, j, user);
    var t := events[i].t;
    var job := states[i].jobs[t];
    b := LookupsAreBegun(states, events, t, job, i);
    assert Doing(states[i], t, job);
    forall k | b <= k < j ensures !MarksUser(states[k], events[k], user) {
      if b < k < i { NoMarkBefore(states, events, b, k, i, t, job); }
      if k == b || k == i { NotAMark(states[k], events[k], user); }
    }
  }

  lemma NotAMark(s: Sys, e: Event, user: User)
    requires e.BeginV? || e.CompleteV?
    ensures !MarksUser(s, e, user)
  {
  }

  lemma NoMarkBefore(states: seq<Sys>, events: seq<Event>, b: nat, m: nat, i: nat, t: Tid, job: Job)
    requires IsRun(states, events) && BegunAt(states, events, t, job, b, i) && b < m < i < |events|
    requires Publishes(states[i], events[i], job.user, job.key) && events[i].t == t
    ensures !MarksUser(states[m], events[m], job.user)
  {
    hide Enabled, Apply, MarksUser, IsRun, Complete;
    assert Doing(states[m], t, job) && Doing(states[i], t, job);
    OperationsAddNoReceipt(states[i].fence, job.user, job.user, job.token, job.key, true, events[i].fate, 0, 0);
    if MarksUser(states[m], events[m], job.user) {
      MarkStopsValidation(states, events, m, m, i, t, job.user, job.token, job.key);
    }
  }

  // ----- a validation that nothing disturbs publishes its receipt

  /** The validation that has this token is the user's latest, and nothing has denied the user. */
  predicate InProgress(f: State, user: User, token: Token) { Current(f, user, token) && user !in f.pending }

  /** The step denies the user, or ends or replaces its validation. */
  predicate Disturbs(s: Sys, e: Event, user: User, token: Token) {
    || OfDeath(e) || MarksUser(s, e, user) || DiscardsUser(s, e, user) || (e.BeginV? && e.user == user)
    || ((e.FailV? || e.LookupFails? || e.CompleteV?) && e.t in s.jobs
        && (s.jobs[e.t].LookingUp? || s.jobs[e.t].Failing?) && s.jobs[e.t].user == user && s.jobs[e.t].token == token)
  }

  lemma OperationsKeepProgress(f: State, user: User, token: Token, other: User, theirs: Token, key: Key,
                               unreadable: bool, fate: Survived, epoch: int, now: int)
    requires InProgress(f, user, token)
    ensures other != user ==> InProgress(Begin(f, other, unreadable, fate).0, user, token)
    ensures other != user || theirs != token ==> InProgress(Fail(f, other, theirs), user, token)
    ensures other != user || theirs != token ==>
              InProgress(Complete(f, other, theirs, key, fate, epoch, now).0, user, token)
    ensures other != user ==>
              InProgress(Mark(f, other, fate), user, token) && InProgress(Discard(f, other, fate), user, token)
    ensures InProgress(Asked(f, other, key, unreadable), user, token)
  {
  }

  lemma ValidationKeepsProgress(s: Sys, e: Event, user: User, token: Token)
    requires Enabled(s, e) && OfValidation(e) && InProgress(s.fence, user, token) && !Disturbs(s, e, user, token)
    ensures InProgress(Apply(s, e).fence, user, token)
  {
    hide AfterInvalidation, AfterDeath, Begin, Fail, Complete, MayRemove, Get, InProgress;
    var f, k := s.fence, Key(0, 0, "", "", "");
    if e.BeginV? { OperationsKeepProgress(f, user, token, e.user, 0, e.key, e.unreadable, e.fate, 0, 0); }
    else {
      var job := s.jobs[e.t];
      if e.CompleteV? {
        OperationsKeepProgress(f, user, token, job.user, job.token, job.key, true, e.fate, e.epoch, e.now);
      } else { OperationsKeepProgress(f, user, token, job.user, job.token, k, true, Works, 0, 0); }
    }
  }

  lemma ProgressStays(s: Sys, e: Event, user: User, token: Token)
    requires Enabled(s, e) && InProgress(s.fence, user, token) && !Disturbs(s, e, user, token)
    ensures InProgress(Apply(s, e).fence, user, token)
  {
    if OfValidation(e) {
      hide Apply, Enabled, InProgress, Disturbs;
      ValidationKeepsProgress(s, e, user, token);
    } else {
      hide AfterValidation, AfterDeath, Mark, Discard, Asked, MayRemove, Get, InProgress;
      var f, k := s.fence, Key(0, 0, "", "", "");
      if e.MarkI? || e.DiscardI? {
        OperationsKeepProgress(f, user, token, s.jobs[e.t].user, 0, k, true, e.fate, 0, 0);
      } else if e.AskV? { OperationsKeepProgress(f, user, token, e.user, 0, e.key, e.unreadable, Works, 0, 0); }
    }
  }

  lemma {:induction false} ProgressOverRun(states: seq<Sys>, events: seq<Event>, i: nat, j: nat, user: User,
                                           token: Token)
    requires IsRun(states, events) && i <= j < |states| && InProgress(states[i].fence, user, token)
    requires forall k | i <= k < j :: !Disturbs(states[k], events[k], user, token)
    ensures InProgress(states[j].fence, user, token)
  {
    hide Enabled, Apply, InProgress, Disturbs;
    if i < j {
      ProgressOverRun(states, events, i, j - 1, user, token);
      ProgressStays(states[j - 1], events[j - 1], user, token);
      assert states[j - 1 + 1] == Apply(states[j - 1], events[j - 1]);
    }
  }

  lemma BegunIsInProgress(s: Sys, e: Event, job: Job)
    requires Enabled(s, e) && e.BeginV? && job.LookingUp? && Doing(Apply(s, e), e.t, job)
    ensures InProgress(Apply(s, e).fence, e.user, job.token)
  {
    hide AfterInvalidation, AfterDeath, Fail, Complete, Mark, Discard, Asked;
  }

  /** A validation is begun exactly if the user is not denied, has no marker, and the new marker can be written. */
  lemma BeginsIff(s: Sys, e: Event)
    requires Enabled(s, e) && e.BeginV?
    ensures (exists token :: Doing(Apply(s, e), e.t, LookingUp(e.user, token, e.key)))
       <==> e.user !in s.fence.pending && e.user !in s.fence.markers && !e.unreadable && e.fate == Works
  {
    hide AfterInvalidation, AfterDeath, Fail, Complete, Mark, Discard, Asked, Get;
    if e.user !in s.fence.pending && e.user !in s.fence.markers && !e.unreadable && e.fate == Works {
      assert Doing(Apply(s, e), e.t, LookingUp(e.user, s.fence.nextToken, e.key));
    }
  }

  /**
    In every run a completion whose marker removal works publishes the receipt, unless something has disturbed the
    validation since it began.
   */
  lemma UndisturbedPublishes(states: seq<Sys>, events: seq<Event>, c: nat) returns (b: nat)
    requires IsRun(states, events) && c < |events| && events[c].CompleteV? && events[c].fate == Works
    ensures var t := events[c].t;
            && t in states[c].jobs && states[c].jobs[t].LookingUp?
            && var job := states[c].jobs[t];
            && BegunAt(states, events, t, job, b, c)
            && ((forall k | b < k < c :: !Disturbs(states[k], events[k], job.user, job.token)) ==>
                  Publishes(states[c], events[c], job.user, job.key))
  {
    assert Enabled(states[c], events[c]);
    var t := events[c].t;
    var job := states[c].jobs[t];
    hide Enabled, Apply, Disturbs;
    b := LookupsAreBegun(states, events, t, job, c);
    assert states[b + 1] == Apply(states[b], events[b]) && Doing(states[b + 1], t, job);
    BegunIsInProgress(states[b], events[b], job);
    if forall k | b < k < c :: !Disturbs(states[k], events[k], job.user, job.token) {
      ProgressOverRun(states, events, b + 1, c, job.user, job.token);
    }
  }

  // ----- a receipt is handed out until something takes it back

  /** The step takes back the user's receipt, or replaces it. */
  predicate TakesBack(s: Sys, e: Event, user: User) {
    || OfDeath(e) || MarksUser(s, e, user) || DiscardsUser(s, e, user)
    || (e.AskV? && e.user == user && user in s.fence.receipts && s.fence.receipts[user].key != e.key)
    || (e.BeginV? && e.user == user && (e.fate != Works || e.unreadable || user in s.fence.markers))
    || ((e.FailV? || e.LookupFails?) && e.t in s.jobs && (s.jobs[e.t].LookingUp? || s.jobs[e.t].Failing?)
        && s.jobs[e.t].user == user && Current(s.fence, user, s.jobs[e.t].token))
    || (e.CompleteV? && e.t in s.jobs && s.jobs[e.t].LookingUp? && Publishes(s, e, user, s.jobs[e.t].key))
  }

  /** The user has this receipt, and nothing denies it. */
  predicate Holds(f: State, user: User, receipt: Receipt) {
    && user in f.receipts && f.receipts[user] == receipt && user !in f.pending
    && (user in f.validating || user !in f.markers)
  }

  lemma OperationsKeepReceipt(f: State, user: User, receipt: Receipt, other: User, token: Token, key: Key,
                              unreadable: bool, fate: Survived, epoch: int, now: int)
    requires Holds(f, user, receipt)
    ensures other != user || (fate == Works && !unreadable && user !in f.markers) ==>
              Holds(Begin(f, other, unreadable, fate).0, user, receipt)
    ensures other != user || !Current(f, other, token) ==> Holds(Fail(f, other, token), user, receipt)
    ensures !(other == user && Current(f, other, token) && fate == Works) ==>
              Holds(Complete(f, other, token, key, fate, epoch, now).0, user, receipt)
    ensures other != user ==>
              Holds(Mark(f, other, fate), user, receipt) && Holds(Discard(f, other, fate), user, receipt)
  {
  }

  lemma ValidationKeepsReceipt(s: Sys, e: Event, user: User, receipt: Receipt)
    requires Enabled(s, e) && OfValidation(e) && Holds(s.fence, user, receipt) && !TakesBack(s, e, user)
    ensures Holds(Apply(s, e).fence, user, receipt)
  {
    hide AfterInvalidation, AfterDeath, Begin, Fail, Complete, MayRemove, Get, Holds;
    var f, k := s.fence, Key(0, 0, "", "", "");
    HoldsMeans(f, user, receipt);
    if e.BeginV? { OperationsKeepReceipt(f, user, receipt, e.user, 0, e.key, e.unreadable, e.fate, 0, 0); }
    else {
      var job := s.jobs[e.t];
      if e.CompleteV? {
        OperationsKeepReceipt(f, user, receipt, job.user, job.token, job.key, true, e.fate, e.epoch, e.now);
      } else { OperationsKeepReceipt(f, user, receipt, job.user, job.token, k, true, Works, 0, 0); }
    }
  }

  lemma HoldsMeans(f: State, user: User, receipt: Receipt)
    requires Holds(f, user, receipt)
    ensures user !in f.pending && user in f.receipts && f.receipts[user] == receipt
  {
  }

  lemma AskingKeepsReceipt(f: State, user: User, receipt: Receipt, other: User, key: Key, unreadable: bool)
    requires Holds(f, user, receipt) && !(other == user && receipt.key != key)
    ensures Holds(Asked(f, other, key, unreadable), user, receipt)
  {
  }

  lemma ReceiptStays(s: Sys, e: Event, user: User, receipt: Receipt)
    requires Enabled(s, e) && Holds(s.fence, user, receipt) && !TakesBack(s, e, user)
    ensures Holds(Apply(s, e).fence, user, receipt)
  {
    if OfValidation(e) {
      hide Apply, Enabled, Holds, TakesBack;
      ValidationKeepsReceipt(s, e, user, receipt);
    } else {
      hide AfterValidation, AfterDeath, Mark, Discard, Asked, MayRemove, Get, Holds;
      var f, k := s.fence, Key(0, 0, "", "", "");
      HoldsMeans(f, user, receipt);
      if e.MarkI? || e.DiscardI? {
        OperationsKeepReceipt(f, user, receipt, s.jobs[e.t].user, 0, k, true, e.fate, 0, 0);
      } else if e.AskV? { AskingKeepsReceipt(f, user, receipt, e.user, e.key, e.unreadable); }
    }
  }

  lemma PublishedHolds(s: Sys, e: Event, user: User, key: Key)
    requires Enabled(s, e) && Publishes(s, e, user, key)
    ensures Holds(Apply(s, e).fence, user, Receipt(e.epoch, e.now, key))
  {
    hide AfterInvalidation, AfterDeath;
  }

  lemma {:induction false} HeldOverRun(states: seq<Sys>, events: seq<Event>, i: nat, j: nat, user: User,
                                       receipt: Receipt)
    requires IsRun(states, events) && i <= j < |states| && Holds(states[i].fence, user, receipt)
    requires forall k | i <= k < j :: !TakesBack(states[k], events[k], user)
    ensures Holds(states[j].fence, user, receipt)
  {
    hide Enabled, Apply, Holds, TakesBack;
    if i < j {
      HeldOverRun(states, events, i, j - 1, user, receipt);
      ReceiptStays(states[j - 1], events[j - 1], user, receipt);
      assert states[j - 1 + 1] == Apply(states[j - 1], events[j - 1]);
    }
  }

  lemma HeldIsHandedOut(f: State, user: User, receipt: Receipt, notBefore: int)
    requires Holds(f, user, receipt)
    ensures Recent(f, user, receipt.key, notBefore, false)
         == if receipt.completed > notBefore then Some(receipt) else None
  {
  }

  /**
    In every run a published receipt is handed out for its key, exactly when it is late enough, for as long as no
    death, mark, discard, failure, new validation or request with another key has taken it back.
   */
  lemma PublishedIsHandedOut(states: seq<Sys>, events: seq<Event>, i: nat, j: nat, user: User, key: Key, notBefore: int)
    requires IsRun(states, events) && i < j < |states| && Publishes(states[i], events[i], user, key)
    requires forall k | i < k < j :: !TakesBack(states[k], events[k], user)
    ensures Recent(states[j].fence, user, key, notBefore, false)
         == if events[i].now > notBefore then Some(Receipt(events[i].epoch, events[i].now, key)) else None
  {
    hide Enabled, Apply, Holds, TakesBack, Current;
    assert states[i + 1] == Apply(states[i], events[i]);
    PublishedHolds(states[i], events[i], user, key);
    HeldOverRun(states, events, i + 1, j, user, Receipt(events[i].epoch, events[i].now, key));
    HeldIsHandedOut(states[j].fence, user, Receipt(events[i].epoch, events[i].now, key), notBefore);
  }

  // ----- a failed validation and a mark deny the user

  /** The step denies the user: a failure of the validation in progress, or a mark. */
  predicate Denies(s: Sys, e: Event, user: User) {
    || MarksUser(s, e, user)
    || ((e.FailV? || e.LookupFails?) && e.t in s.jobs && (s.jobs[e.t].LookingUp? || s.jobs[e.t].Failing?)
        && s.jobs[e.t].user == user && Current(s.fence, user, s.jobs[e.t].token))
  }

  lemma DeniedIsPending(s: Sys, e: Event, user: User)
    requires Enabled(s, e) && Denies(s, e, user)
    ensures user in Apply(s, e).fence.pending
  {
    hide Begin, Complete, Discard, MayRemove, AfterDeath;
  }

  /** The step can end the denial: a discard that works, or a death of the process. */
  predicate EndsDenial(s: Sys, e: Event, user: User) {
    OfDeath(e) || (e.DiscardI? && e.fate == Works && DiscardsUser(s, e, user))
  }

  lemma {:induction false} PendingOverRun(states: seq<Sys>, events: seq<Event>, i: nat, j: nat, user: User)
    requires IsRun(states, events) && i <= j < |states| && user in states[i].fence.pending
    requires forall k | i <= k < j :: !EndsDenial(states[k], events[k], user)
    ensures user in states[j].fence.pending
  {
    hide Enabled, Apply, Initial;
    if i < j {
      PendingOverRun(states, events, i, j - 1, user);
      assert !EndsDenial(states[j - 1], events[j - 1], user);
      PendingGoesOn(states[j - 1], events[j - 1], user);
      assert states[j - 1 + 1] == Apply(states[j - 1], events[j - 1]);
    }
  }

  lemma PendingGoesOn(s: Sys, e: Event, user: User)
    requires Enabled(s, e) && user in s.fence.pending && !EndsDenial(s, e, user)
    ensures user in Apply(s, e).fence.pending
  {
    if e.DiscardI? { DiscardsSomebody(s, e); }
    hide Enabled, Apply;
    PendingStays(s, e, user);
  }

  lemma DiscardsSomebody(s: Sys, e: Event)
    requires Enabled(s, e) && e.DiscardI?
    ensures e.t in s.jobs && s.jobs[e.t].Discarding?
  {
    hide MayRemove;
  }

  /**
    In every run, after a mark of the user, or a failure of the validation in progress, the user is denied by every
    request, has no receipt, and is refused every validation, until a discard works or the process dies.
   */
  lemma DeniedUntilDropped(states: seq<Sys>, events: seq<Event>, i: nat, j: nat, user: User)
    requires IsRun(states, events) && i < j < |states| && Denies(states[i], events[i], user)
    requires forall k | i < k < j :: !EndsDenial(states[k], events[k], user)
    ensures forall unreadable :: Contains(states[j].fence, user, unreadable)
    ensures forall key, notBefore, unreadable :: Recent(states[j].fence, user, key, notBefore, unreadable).None?
    ensures forall unreadable, fate :: Begin(states[j].fence, user, unreadable, fate).1 == Pending
  {
    hide Enabled, Apply, Denies, EndsDenial;
    assert states[i + 1] == Apply(states[i], events[i]);
    DeniedIsPending(states[i], events[i], user);
    PendingOverRun(states, events, i + 1, j, user);
  }
}
