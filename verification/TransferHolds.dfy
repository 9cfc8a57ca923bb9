/**
  The hold sets of transfers (`SourceHoldSet` in `app/file_sources.py`) over the connection pool. Taking and
  releasing one hold is one step, so that other threads can come between the holds of a set.
 */
module TransferHolds {

  import opened Collections
  import opened Quota
  import opened ConnectionPool

  // ----- hold sets

  datatype Stage = Acquiring | Held | Releasing

  /** The sources asked for, each once, and those on which a hold is live. */
  datatype HoldSet = HoldSet(user: User, asked: seq<Id>, held: seq<Id>, stage: Stage)

  type Sets = map<nat, HoldSet>

  predicate Unique(ids: seq<Id>) { forall i, j | 0 <= i < j < |ids| :: ids[i] != ids[j] }

  /** Holds are taken in the order asked for, and a set that is held holds all of it. */
  predicate SetOk(h: HoldSet) {
    Unique(h.asked) && h.held <= h.asked && (h.stage == Held ==> h.held == h.asked)
  }

  function Holders(sets: Sets, id: Id): set<nat> { set k | k in sets && id in sets[k].held }

  /** The count of every connection is the number of the live holds on it, and their owners are its owner. */
  predicate HoldersOk(stored: Table, sets: Sets) {
    && (forall id | id in stored :: stored[id].holds == |Holders(sets, id)|)
    && (forall k, id | k in sets && id in sets[k].held && id in stored :: stored[id].user == sets[k].user)
  }

  predicate SetsOk(b: Books, sets: Sets) {
    && (forall k | k in sets :: SetOk(sets[k]))
    && (forall k, id | k in sets && id in sets[k].held :: Known(b, id))
    && HoldersOk(b.stored, sets)
  }

  /** The connection is the user's, and nobody has asked to close it. */
  predicate Free(stored: Table, id: Id, user: User) {
    id in stored && stored[id].user == user && !stored[id].closeRequested
  }

  /** One set changes what it holds. */
  lemma HoldersChange(sets: Sets, k: nat, after: HoldSet, id: Id)
    requires k in sets
    ensures |Holders(sets[k := after], id)|
         == |Holders(sets, id)| - (if id in sets[k].held then 1 else 0) + (if id in after.held then 1 else 0)
  {
    var sets' := sets[k := after];
    forall x | x != k ensures x in Holders(sets, id) <==> x in Holders(sets', id) {}
    CardBut(Holders(sets, id), Holders(sets', id), k);
  }

  lemma HolderCounts(sets: Sets, k: nat, id: Id)
    requires k in sets && id in sets[k].held
    ensures |Holders(sets, id)| > 0
  {
    assert k in Holders(sets, id);
  }

  /** The pool's own steps: a connection that stays keeps its count and owner, and a new one has no holds. */
  ghost predicate CountsKept(b: Books, b': Books) {
    && (forall id | id in b'.stored && id in b.stored ::
          b'.stored[id].holds == b.stored[id].holds && b'.stored[id].user == b.stored[id].user)
    && (forall id | id in b'.stored && id !in b.stored :: b'.stored[id].holds == 0 && !Known(b, id))
    && (forall id | Known(b, id) :: Known(b', id))
  }

  lemma PoolStepKeepsSets(b: Books, b': Books, sets: Sets)
    requires SetsOk(b, sets) && CountsKept(b, b')
    ensures SetsOk(b', sets)
  {
    forall id | id in b'.stored ensures b'.stored[id].holds == |Holders(sets, id)| {
      if id !in b.stored { assert Holders(sets, id) == {}; }
    }
  }

  lemma TakeKeepsSets(b: Books, b': Books, sets: Sets, k: nat, id: Id, stage: Stage)
    requires SetsOk(b, sets) && k in sets && sets[k].stage == Acquiring && |sets[k].held| < |sets[k].asked|
    requires id == sets[k].asked[|sets[k].held|] && id in b.stored && b.stored[id].user == sets[k].user
    requires b' == b.(stored := b.stored[id := b.stored[id].(holds := b.stored[id].holds + 1)])
    requires stage == if |sets[k].held| + 1 == |sets[k].asked| then Held else Acquiring
    ensures SetsOk(b', sets[k := sets[k].(held := sets[k].held + [id], stage := stage)])
  {
    hide Holders;
    var after := sets[k].(held := sets[k].held + [id], stage := stage);
    assert SetOk(sets[k]);
    assert after.held == sets[k].asked[..|after.held|];
    assert SetOk(after);
    forall x | Known(b, x) ensures Known(b', x) {}
    assert forall i | 0 <= i < |sets[k].held| :: sets[k].held[i] == sets[k].asked[i];
    forall x | x in b'.stored ensures b'.stored[x].holds == |Holders(sets[k := after], x)| {
      HoldersChange(sets, k, after, x);
    }
  }

  /** The hold set as it is after giving up its last hold. */
  function Shorter(h: HoldSet): HoldSet
    requires h.held != []
  {
    h.(held := h.held[..|h.held| - 1])
  }

  lemma DropKeepsSets(b: Books, b': Books, sets: Sets, k: nat, id: Id)
    requires SetsOk(b, sets) && k in sets && sets[k].stage == Releasing && sets[k].held != []
    requires id == sets[k].held[|sets[k].held| - 1] && (forall x | Known(b, x) :: Known(b', x))
    requires forall x | x in b'.stored && x != id :: x in b.stored && b'.stored[x] == b.stored[x]
    requires id in b'.stored ==> id in b.stored && b'.stored[id].holds == b.stored[id].holds - 1
                                 && b'.stored[id].user == b.stored[id].user
    ensures SetsOk(b', sets[k := Shorter(sets[k])])
  {
    hide Known, Holders;
    var before, after := sets[k], Shorter(sets[k]);
    assert SetOk(before);
    assert before.held == after.held + [id];
    assert forall i | 0 <= i < |before.held| :: before.held[i] == before.asked[i];
    forall x | x in b'.stored ensures b'.stored[x].holds == |Holders(sets[k := after], x)| {
      HoldersChange(sets, k, after, x);
    }
  }

  lemma StageKeepsSets(b: Books, sets: Sets, k: nat, stage: Stage)
    requires SetsOk(b, sets) && k in sets && stage != Held
    ensures SetsOk(b, sets[k := sets[k].(stage := stage)])
  {
    var after := sets[k].(stage := stage);
    forall x | x in b.stored ensures b.stored[x].holds == |Holders(sets[k := after], x)| {
      HoldersChange(sets, k, after, x);
    }
  }

  lemma OpenKeepsSets(b: Books, sets: Sets, k: nat, h: HoldSet)
    requires SetsOk(b, sets) && k !in sets && h.held == [] && SetOk(h)
    ensures SetsOk(b, sets[k := h])
  {
    forall x | x in b.stored ensures b.stored[x].holds == |Holders(sets[k := h], x)| {
      assert Holders(sets[k := h], x) == Holders(sets, x);
    }
  }

  // ----- the steps of all threads

  datatype Step =
    | Create(user: User)
    | Fail(ticket: nat)
    | Keep(ticket: nat, id: Id, now: int, accepting: bool)
    | Ask(holder: nat, user: User, ids: seq<Id>)
    | TakeNext(holder: nat)
    | Release(holder: nat)
    | DropLast(holder: nat)
    | Close(id: Id, owner: Option<User>)
    | Expire(now: int, interval: int)
    | Use(id: Id, alive: bool, now: int)
    | CloseNow(matching: set<Id>)
    | Finish(id: Id)

  class Transfers {
    const pool: TemporaryConnectionPool
    var sets: Sets

    ghost predicate Valid()
      reads this, pool, pool.quota
    {
      pool.Valid() && SetsOk(pool.Value(), sets)
    }

    constructor (pool: TemporaryConnectionPool)
      requires pool.Valid() && pool.connections == map[]
      ensures Valid() && this.pool == pool && sets == map[]
    {
      this.pool := pool;
      sets := map[];
    }

    /** `acquire_transfer_holds` for one or two sources, each counted once; refused for any other number. */
    method Begin(k: nat, user: User, ids: seq<Id>) returns (ok: bool)
      requires Valid() && k !in sets
      modifies this
      ensures Valid() && ok == (1 <= |ids| <= 2)
      ensures ok ==> k in sets && sets == old(sets)[k := sets[k]] && sets[k].user == user && sets[k].held == []
                     && sets[k].stage == Acquiring && sets[k].asked <= ids
                     && forall id | id in ids :: id in sets[k].asked
      ensures !ok ==> sets == old(sets)
    {
      hide BooksOk, Counted, WithinLimits;
      if !(1 <= |ids| <= 2) { return false; }
      var asked := if |ids| == 2 && ids[0] == ids[1] then ids[..1] else ids;
      OpenKeepsSets(pool.Value(), sets, k, HoldSet(user, asked, [], Acquiring));
      sets := sets[k := HoldSet(user, asked, [], Acquiring)];
      return true;
    }

    /** The next hold of the set; if it is refused, the set goes on to give back what it has. */
    method AcquireNext(k: nat)
      requires Valid() && k in sets && sets[k].stage == Acquiring
      modifies this, pool`connections
      ensures Valid() && k in sets && sets == old(sets)[k := sets[k]] && sets[k].asked == old(sets)[k].asked
      ensures var h, stored := old(sets)[k], old(pool.connections);
              if |h.held| < |h.asked| && Free(stored, h.asked[|h.held|], h.user)
              then
                var id := h.asked[|h.held|];
                && sets[k].held == h.held + [id]
                && pool.connections == stored[id := stored[id].(holds := stored[id].holds + 1)]
                && sets[k].stage == if sets[k].held == h.asked then Held else Acquiring
              else sets[k] == h.(stage := Releasing) && pool.connections == stored
    {
      hide BooksOk, Counted, WithinLimits, SetsOk;
      var h := sets[k];
      SetOf(pool.Value(), sets, k);
      if |h.held| == |h.asked| {
        StageKeepsSets(pool.Value(), sets, k, Releasing);
        sets := sets[k := h.(stage := Releasing)];
        return;
      }
      var id := h.asked[|h.held|];
      ghost var b := pool.Value();
      var ok := pool.AcquireHold(id, h.user);
      if ok {
        var stage := if |h.held| + 1 == |h.asked| then Held else Acquiring;
        TakeKeepsSets(b, pool.Value(), sets, k, id, stage);
        assert stage == Held <==> h.held + [id] == h.asked;
        sets := sets[k := h.(held := h.held + [id], stage := stage)];
      } else {
        StageKeepsSets(pool.Value(), sets, k, Releasing);
        sets := sets[k := h.(stage := Releasing)];
      }
    }

    /** `SourceHoldSet.release`: only the first call starts giving back the holds. */
    method ReleaseSet(k: nat) returns (first: bool)
      requires Valid() && k in sets && sets[k].stage != Acquiring
      modifies this
      ensures Valid() && first == (old(sets)[k].stage == Held)
      ensures sets == old(sets)[k := old(sets)[k].(stage := Releasing)]
    {
      hide BooksOk, Counted, WithinLimits, SetsOk;
      first := sets[k].stage == Held;
      StageKeepsSets(pool.Value(), sets, k, Releasing);
      sets := sets[k := sets[k].(stage := Releasing)];
    }

    /** One callback of the release, last hold first; it goes on whatever the others did. */
    method ReleaseLast(k: nat)
      requires Valid() && k in sets && sets[k].stage == Releasing && sets[k].held != []
      modifies this, pool`connections, pool`leaving
      ensures Valid() && sets == old(sets)[k := Shorter(old(sets)[k])]
      ensures forall id | id in old(pool.connections) :: id !in pool.connections <==>
                && id == old(sets)[k].held[|old(sets)[k].held| - 1]
                && old(pool.connections)[id].closeRequested && Holders(old(sets), id) == {k}
    {
      hide BooksOk, Counted, WithinLimits, SetsOk;
      var h := sets[k];
      var id := h.held[|h.held| - 1];
      ghost var b := pool.Value();
      HoldOf(b, sets, k, id);
      var ok := pool.ReleaseHold(id, h.user);
      DropKeepsSets(b, pool.Value(), sets, k, id);
      if id in b.stored && id !in pool.connections { OnlyHolder(sets, k, id); }
      sets := sets[k := Shorter(h)];
    }

    /** A connection is being made, is stored or not, or is over. */
    method MakingStep(step: Step)
      requires Valid()
      modifies pool, pool.quota
      ensures Valid() && forall id | id in old(pool.connections) :: id in pool.connections
      ensures (step.Fail? || step.Keep?) && step.ticket in old(pool.making) && Fresh(step, old(pool.Value())) ==>
                step.ticket !in pool.making && (step.Keep? && step.accepting ==> step.id in pool.connections)
      ensures step.Finish? && step.id in old(pool.leaving) ==> step.id in pool.closes
    {
      hide BooksOk, Counted, WithinLimits, SetsOk;
      ghost var b := pool.Value();
      if step.Create? { var r := pool.BeginCreate(step.user); }
      else if step.Fail? && step.ticket in pool.making { pool.AbandonCreate(step.ticket); }
      else if step.Keep? && step.ticket in pool.making && step.id !in pool.connections && step.id !in pool.leaving
              && step.id !in pool.closes {
        var ok := pool.Store(step.ticket, step.id, step.now, step.accepting);
      } else if step.Finish? && step.id in pool.leaving { pool.FinishClose(step.id); }
      PoolStepKeepsSets(b, pool.Value(), sets);
    }

    /** A step of the pool alone. */
    method PoolStep(step: Step)
      requires Valid()
      modifies pool, pool.quota
      ensures Valid()
      ensures forall id | id in old(pool.connections) && id !in pool.connections ::
                old(pool.connections)[id].holds == 0 || Forced(step, id)
      ensures forall id | id in old(pool.connections) && ToClose(step, old(pool.connections), id) ::
                if old(pool.connections)[id].holds == 0 || Forced(step, id) then id in pool.leaving
                else id in pool.connections && pool.connections[id].closeRequested
      ensures (step.Fail? || step.Keep?) && step.ticket in old(pool.making) && Fresh(step, old(pool.Value())) ==>
                step.ticket !in pool.making && (step.Keep? && step.accepting ==> step.id in pool.connections)
      ensures step.Finish? && step.id in old(pool.leaving) ==> step.id in pool.closes
    {
      hide BooksOk, Counted, WithinLimits, SetsOk, Known, GlobalTotal, UserTotal;
      if step.Create? || step.Fail? || step.Keep? || step.Finish? { MakingStep(step); }
      else if step.Expire? || step.CloseNow? { SweepStep(step); }
      else { ClosingStep(step); }
    }

    /** One connection is to be closed: it leaves the pool if nobody holds it, or if its transport is dead. */
    method ClosingStep(step: Step)
      requires Valid()
      modifies pool`connections, pool`leaving
      requires !step.Expire? && !step.CloseNow?
      ensures Valid()
      ensures forall id | id in old(pool.connections) && id !in pool.connections ::
                old(pool.connections)[id].holds == 0 || Forced(step, id)
      ensures forall id | id in old(pool.connections) && ToClose(step, old(pool.connections), id) ::
                if old(pool.connections)[id].holds == 0 || Forced(step, id) then id in pool.leaving
                else id in pool.connections && pool.connections[id].closeRequested
    {
      hide BooksOk, Counted, WithinLimits, SetsOk;
      ghost var b := pool.Value();
      if step.Close? { var result := pool.RequestClose(step.id, step.owner); }
      else if step.Use? { var ok := pool.Touch(step.id, step.alive, step.now); }
      PoolStepKeepsSets(b, pool.Value(), sets);
    }

    /** Several are to be closed: those that nobody holds leave the pool, or all of them. */
    method SweepStep(step: Step)
      requires Valid()
      modifies pool`connections, pool`leaving
      requires step.Expire? || step.CloseNow?
      ensures Valid()
      ensures forall id | id in old(pool.connections) && id !in pool.connections ::
                old(pool.connections)[id].holds == 0 || Forced(step, id)
      ensures forall id | id in old(pool.connections) && ToClose(step, old(pool.connections), id) ::
                if old(pool.connections)[id].holds == 0 || Forced(step, id) then id in pool.leaving
                else id in pool.connections && pool.connections[id].closeRequested
    {
      hide BooksOk, Counted, WithinLimits, SetsOk, Staying, Going;
      ghost var b := pool.Value();
      if step.Expire? {
        StayingKeeps(b, Idle(pool.connections, step.now, step.interval), true);
        pool.CleanupExpired(step.now, step.interval);
      } else {
        StayingKeeps(b, step.matching, false);
        pool.Detach(step.matching, false);
      }
      PoolStepKeepsSets(b, pool.Value(), sets);
    }
  }

  /** A connection that is stored has a new name. */
  predicate Fresh(step: Step, b: Books) { step.Keep? ==> !Known(b, step.id) }

  /** The connections that the step is to close: those named, idle or dead. */
  predicate ToClose(step: Step, stored: Table, id: Id)
    requires id in stored
  {
    || (step.Close? && id == step.id && (step.owner.None? || step.owner.value == stored[id].user))
    || (step.Expire? && step.now - stored[id].lastUsed > step.interval)
    || (step.Use? && id == step.id && !step.alive) || (step.CloseNow? && id in step.matching)
  }

  /** The steps that take a connection away from its holders: its transport is dead, or it is to be closed at once. */
  predicate Forced(step: Step, id: Id) {
    (step.Use? && !step.alive && step.id == id) || (step.CloseNow? && id in step.matching)
  }

  /** Taking out what matches keeps the counts of what stays. */
  lemma StayingKeeps(b: Books, matching: set<Id>, deferHeld: bool)
    ensures var b' := b.(stored := Staying(b.stored, matching, deferHeld),
                         leaving := b.leaving + Going(b.stored, matching, deferHeld));
            && CountsKept(b, b')
            && forall id | id in b.stored && id !in b'.stored ::
                 id in matching && (deferHeld ==> b.stored[id].holds == 0)
  {
  }

  lemma SetOf(b: Books, sets: Sets, k: nat)
    requires SetsOk(b, sets) && k in sets
    ensures SetOk(sets[k])
  {
  }

  lemma HoldOf(b: Books, sets: Sets, k: nat, id: Id)
    requires SetsOk(b, sets) && k in sets && id in sets[k].held
    ensures id in b.stored ==> b.stored[id].user == sets[k].user && b.stored[id].holds == |Holders(sets, id)| > 0
  {
    HolderCounts(sets, k, id);
  }

  lemma OnlyHolder(sets: Sets, k: nat, id: Id)
    requires k in sets && id in sets[k].held && |Holders(sets, id)| == 1
    ensures Holders(sets, id) == {k}
  {
    CardWithout(Holders(sets, id), k);
  }

  // ----- whole runs

  /** One step of any thread; a step that is not possible does nothing. */
  method Take(s: Transfers, step: Step)
    requires s.Valid()
    modifies s, s.pool, s.pool.quota
    ensures s.Valid()
    ensures forall id | id in old(s.pool.connections) && id !in s.pool.connections && Holders(old(s.sets), id) != {} ::
              Forced(step, id) || (step.DropLast? && Holders(old(s.sets), id) == {step.holder})
    ensures forall id | id in old(s.pool.connections) && ToClose(step, old(s.pool.connections), id) ::
              if Holders(old(s.sets), id) == {} || Forced(step, id) then id in s.pool.leaving
              else id in s.pool.connections && s.pool.connections[id].closeRequested
    ensures step.TakeNext? && step.holder in old(s.sets) && old(s.sets)[step.holder].stage == Acquiring ==>
              step.holder in s.sets && s.sets[step.holder] != old(s.sets)[step.holder]
    ensures step.DropLast? && step.holder in old(s.sets) && old(s.sets)[step.holder].stage == Releasing
              && old(s.sets)[step.holder].held != [] ==>
              s.sets == old(s.sets)[step.holder := Shorter(old(s.sets)[step.holder])]
  {
    hide BooksOk, Counted, WithinLimits, SetsOk, Known, GlobalTotal, UserTotal;
    var ok;
    if step.Ask? {
      if step.holder !in s.sets { ok := s.Begin(step.holder, step.user, step.ids); }
    } else if step.TakeNext? {
      if step.holder in s.sets && s.sets[step.holder].stage == Acquiring { s.AcquireNext(step.holder); }
    } else if step.Release? {
      if step.holder in s.sets && s.sets[step.holder].stage != Acquiring { ok := s.ReleaseSet(step.holder); }
    } else if step.DropLast? {
      if step.holder in s.sets && s.sets[step.holder].stage == Releasing && s.sets[step.holder].held != [] {
        s.ReleaseLast(step.holder);
      }
    } else {
      HoldersPositive(s.pool.Value(), s.sets);
      s.PoolStep(step);
    }
  }

  lemma HoldersPositive(b: Books, sets: Sets)
    requires SetsOk(b, sets)
    ensures forall id | id in b.stored :: b.stored[id].holds > 0 <==> Holders(sets, id) != {}
  {
  }

  /**
    Any interleaving of requests, transfers, cleanups and closings: the quota in use is the number of
    connections, no connection is closed twice, and the hold count of each is the number of its live
    holders.
   */
  method Serve(s: Transfers, steps: seq<Step>)
    requires s.Valid()
    modifies s, s.pool, s.pool.quota
    ensures s.Valid() && forall id | id in s.pool.closes :: s.pool.closes[id] == 1
    ensures forall id | id in s.pool.connections :: s.pool.connections[id].holds == |Holders(s.sets, id)|
    ensures forall k | k in s.sets && s.sets[k].stage == Held :: s.sets[k].held == s.sets[k].asked
    ensures GlobalTotal(s.pool.quota.ledger, QuickConnection)
              == |s.pool.connections| + |s.pool.leaving| + |s.pool.making|
    ensures QuickConnection in s.pool.quota.limits
            && |s.pool.connections| <= s.pool.quota.limits[QuickConnection].global
  {
    hide BooksOk, Counted;
    for i := 0 to |steps|
      invariant s.Valid()
    {
      Take(s, steps[i]);
    }
    QuotaCountsConnections(s.pool.Value(), s.pool.quota.ledger);
  }
}
