/**
  `_ordered_source_locks` in `app/remote_transfer.py`: transfers take the locks of their sources in sorted
  order from a reference-counted registry. A region under the guard is one step, and so is taking or
  releasing one lock. Source ids are represented by their rank in the sort order.
 */
module SourceLocks {

  import opened Collections

  type Tid = nat
  type SourceId = int

  /** One lock object; `serial` tells apart the objects made for the same source at different times. */
  datatype Lock = Lock(source: SourceId, serial: nat)

  datatype Entry = Entry(lock: Lock, count: int)

  type Registry = map<SourceId, Entry>

  /** A transfer holds the first `got` of its locks; `leaving` once it is releasing them. */
  datatype Thread = Idle | Inside(ids: seq<SourceId>, locks: seq<Lock>, got: nat, leaving: bool)

  datatype Sys = Sys(registry: Registry, serial: nat, owner: map<Lock, Tid>, threads: map<Tid, Thread>)

  predicate Sorted(ids: seq<SourceId>) { forall i, j | 0 <= i < j < |ids| :: ids[i] < ids[j] }

  // ----- the registry

  function EntryFor(registry: Registry, id: SourceId, serial: nat): Entry {
    if id in registry then Entry(registry[id].lock, registry[id].count + 1) else Entry(Lock(id, serial), 1)
  }

  function Enter(registry: Registry, ids: seq<SourceId>, serial: nat): Registry {
    map id | id in registry.Keys + (set x | x in ids) :: if id in ids then EntryFor(registry, id, serial)
      else registry[id]
  }

  function LocksOf(registry: Registry, ids: seq<SourceId>, serial: nat): seq<Lock> {
    seq(|ids|, i requires 0 <= i < |ids| => EntryFor(registry, ids[i], serial).lock)
  }

  function Leave(registry: Registry, ids: seq<SourceId>): Registry {
    map id | id in registry && (id in ids ==> registry[id].count != 1) ::
      if id in ids then Entry(registry[id].lock, registry[id].count - 1) else registry[id]
  }

  /** The two loops under the guard. */
  class SourceRegistry {
    var entries: Registry
    var serial: nat

    method Register(ids: seq<SourceId>) returns (locks: seq<Lock>)
      requires Sorted(ids)
      modifies this
      ensures entries == Enter(old(entries), ids, old(serial)) && locks == LocksOf(old(entries), ids, old(serial))
      ensures serial == old(serial) + 1
    {
      hide Enter;
      locks := [];
      EnterNone(entries, serial);
      for i := 0 to |ids|
        invariant entries == Enter(old(entries), ids[..i], serial) && serial == old(serial)
        invariant locks == LocksOf(old(entries), ids[..i], serial)
      {
        EnterOne(old(entries), ids, i, serial);
        LocksOne(old(entries), ids, i, serial);
        if ids[i] !in entries { entries := entries[ids[i] := Entry(Lock(ids[i], serial), 0)]; }
        entries := entries[ids[i] := Entry(entries[ids[i]].lock, entries[ids[i]].count + 1)];
        locks := locks + [entries[ids[i]].lock];
      }
      assert ids[..|ids|] == ids;
      serial := serial + 1;
    }

    method Cleanup(ids: seq<SourceId>)
      requires Sorted(ids) && forall id | id in ids :: id in entries
      modifies this`entries
      ensures entries == Leave(old(entries), ids)
    {
      LeaveNone(entries);
      for i := 0 to |ids|
        invariant entries == Leave(old(entries), ids[..i])
      {
        assert ids[i] in ids;
        LeaveOne(old(entries), ids, i);
        entries := entries[ids[i] := Entry(entries[ids[i]].lock, entries[ids[i]].count - 1)];
        if entries[ids[i]].count == 0 { entries := entries - {ids[i]}; }
      }
      assert ids[..|ids|] == ids;
    }
  }

  lemma EnterNone(registry: Registry, serial: nat)
    ensures Enter(registry, [], serial) == registry && LocksOf(registry, [], serial) == []
  {
  }

  lemma EnterOne(registry: Registry, ids: seq<SourceId>, i: nat, serial: nat)
    requires i < |ids| && Sorted(ids)
    ensures var before, id := Enter(registry, ids[..i], serial), ids[i];
            && (id in before <==> id in registry) && (id in before ==> before[id] == registry[id])
            && Enter(registry, ids[..i + 1], serial) == before[id := EntryFor(registry, id, serial)]
  {
    hide EntryFor, Enter;
    NextId(ids, i);
    EnterAt(registry, ids[..i], serial);
    EnterAt(registry, ids[..i + 1], serial);
    var before, after, id := Enter(registry, ids[..i], serial), Enter(registry, ids[..i + 1], serial), ids[i];
    var next := before[id := EntryFor(registry, id, serial)];
    forall x ensures x in after <==> x in next { assert x in ids[..i + 1] <==> x in ids[..i] || x == id; }
    forall x | x in after ensures after[x] == next[x] { assert x in ids[..i + 1] <==> x in ids[..i] || x == id; }
    assert after == next;
  }

  lemma EnterAt(registry: Registry, ids: seq<SourceId>, serial: nat)
    ensures var now := Enter(registry, ids, serial);
            && (forall x :: x in now <==> x in registry || x in ids)
            && forall x | x in now :: now[x] == if x in ids then EntryFor(registry, x, serial) else registry[x]
  {
    hide EntryFor;
  }

  lemma NextId(ids: seq<SourceId>, i: nat)
    requires i < |ids| && Sorted(ids)
    ensures ids[i] !in ids[..i] && forall x :: x in ids[..i + 1] <==> x in ids[..i] || x == ids[i]
  {
    assert ids[..i + 1] == ids[..i] + [ids[i]];
  }

  lemma LocksOne(registry: Registry, ids: seq<SourceId>, i: nat, serial: nat)
    requires i < |ids|
    ensures LocksOf(registry, ids[..i + 1], serial)
              == LocksOf(registry, ids[..i], serial) + [EntryFor(registry, ids[i], serial).lock]
  {
    hide EntryFor;
  }

  lemma LeaveNone(registry: Registry)
    ensures Leave(registry, []) == registry
  {
  }

  lemma LeaveOne(registry: Registry, ids: seq<SourceId>, i: nat)
    requires i < |ids| && Sorted(ids) && ids[i] in registry
    ensures var before, id := Leave(registry, ids[..i]), ids[i];
            && id in before && before[id] == registry[id]
            && Leave(registry, ids[..i + 1]) ==
                 if registry[id].count == 1 then before - {id}
                   else before[id := Entry(registry[id].lock, registry[id].count - 1)]
  {
    assert ids[..i + 1] == ids[..i] + [ids[i]];
    assert ids[i] !in ids[..i];
  }

  // ----- steps

  datatype Event =
    | Register(t: Tid, ids: seq<SourceId>)
    | Acquire(t: Tid)
    | Stop(t: Tid)        // the transfer is over, or cancelled while it waits
    | Release(t: Tid)
    | Cleanup(t: Tid)

  predicate Enabled(s: Sys, e: Event) {
    e.t in s.threads && var th := s.threads[e.t];
    match e
    case Register(_, ids) => th.Idle? && Sorted(ids) && ids != []
    case Acquire(_) => th.Inside? && !th.leaving && th.got < |th.locks| && th.locks[th.got] !in s.owner
    case Stop(_) => th.Inside? && !th.leaving
    case Release(_) => th.Inside? && th.leaving && 0 < th.got <= |th.locks|
    case Cleanup(_) => th.Inside? && th.leaving && th.got == 0
  }

  function Apply(s: Sys, e: Event): Sys
    requires Enabled(s, e)
  {
    var t, th := e.t, s.threads[e.t];
    match e
    case Register(_, ids) =>
      s.(registry := Enter(s.registry, ids, s.serial), serial := s.serial + 1,
         threads := s.threads[t := Inside(ids, LocksOf(s.registry, ids, s.serial), 0, false)])
    case Acquire(_) => s.(owner := s.owner[th.locks[th.got] := t], threads := s.threads[t := th.(got := th.got + 1)])
    case Stop(_) => s.(threads := s.threads[t := th.(leaving := true)])
    case Release(_) => s.(owner := s.owner - {th.locks[th.got - 1]}, threads := s.threads[t := th.(got := th.got - 1)])
    case Cleanup(_) => s.(registry := Leave(s.registry, th.ids), threads := s.threads[t := Idle])
  }

  // ----- the invariant

  predicate Uses(th: Thread, id: SourceId) { th.Inside? && id in th.ids }

  function Users(threads: map<Tid, Thread>, id: SourceId): set<Tid> { set t | t in threads && Uses(threads[t], id) }

  predicate EntryOk(registry: Registry, threads: map<Tid, Thread>, id: SourceId) {
    && (id in registry <==> Users(threads, id) != {})
    && (id in registry ==> registry[id].lock.source == id && registry[id].count == |Users(threads, id)|)
  }

  predicate ThreadOk(registry: Registry, th: Thread) {
    th.Inside? ==>
      && Sorted(th.ids) && |th.locks| == |th.ids| && th.got <= |th.ids|
      && forall i | 0 <= i < |th.ids| :: th.ids[i] in registry && registry[th.ids[i]].lock == th.locks[i]
  }

  predicate Holds(th: Thread, lock: Lock) { th.Inside? && th.got <= |th.locks| && lock in th.locks[..th.got] }

  predicate OwnerOk(owner: map<Lock, Tid>, threads: map<Tid, Thread>, lock: Lock) {
    && (lock in owner ==> owner[lock] in threads)
    && forall t | t in threads :: Holds(threads[t], lock) <==> lock in owner && owner[lock] == t
  }

  ghost predicate Inv(s: Sys) {
    && (forall id :: EntryOk(s.registry, s.threads, id))
    && (forall t | t in s.threads :: ThreadOk(s.registry, s.threads[t]))
    && (forall lock :: OwnerOk(s.owner, s.threads, lock))
  }

  /** How the users of a source change when one thread changes. */
  lemma UsersChange(threads: map<Tid, Thread>, t: Tid, after: Thread, id: SourceId)
    requires t in threads
    ensures var a, b := Users(threads, id), Users(threads[t := after], id);
            && a - {t} == b - {t} && (t in a <==> Uses(threads[t], id)) && (t in b <==> Uses(after, id))
            && |b| == |a| - (if Uses(threads[t], id) then 1 else 0) + (if Uses(after, id) then 1 else 0)
  {
    var a, b := Users(threads, id), Users(threads[t := after], id);
    forall u | u != t ensures u in a <==> u in b {}
    CardWithout(a, t);
    CardWithout(b, t);
  }

  lemma EnterKeepsEntry(registry: Registry, threads: map<Tid, Thread>, t: Tid, ids: seq<SourceId>, locks: seq<Lock>,
                        serial: nat, id: SourceId)
    requires EntryOk(registry, threads, id) && t in threads && threads[t].Idle?
    ensures EntryOk(Enter(registry, ids, serial), threads[t := Inside(ids, locks, 0, false)], id)
  {
    var after := Inside(ids, locks, 0, false);
    UsersChange(threads, t, after, id);
    var a, b := Users(threads, id), Users(threads[t := after], id);
    if id !in ids { assert a == b; } else { assert t in b; if id !in registry { assert |a| == 0; } }
  }

  lemma LeaveKeepsEntry(registry: Registry, threads: map<Tid, Thread>, t: Tid, id: SourceId)
    requires EntryOk(registry, threads, id) && t in threads && threads[t].Inside?
    ensures EntryOk(Leave(registry, threads[t].ids), threads[t := Idle], id)
  {
    UsersChange(threads, t, Idle, id);
    var a, b := Users(threads, id), Users(threads[t := Idle], id);
    if id !in threads[t].ids { assert a == b; } else { assert t in a; }
  }

  lemma SameUsersKeepEntry(registry: Registry, threads: map<Tid, Thread>, t: Tid, after: Thread, id: SourceId)
    requires EntryOk(registry, threads, id) && t in threads && Uses(after, id) == Uses(threads[t], id)
    ensures EntryOk(registry, threads[t := after], id)
  {
    UsersChange(threads, t, after, id);
    assert Users(threads, id) == Users(threads[t := after], id);
  }

  lemma EnterKeepsThread(registry: Registry, ids: seq<SourceId>, serial: nat, th: Thread)
    requires ThreadOk(registry, th)
    ensures ThreadOk(Enter(registry, ids, serial), th)
  {
  }

  lemma EnteredThread(registry: Registry, ids: seq<SourceId>, serial: nat)
    requires Sorted(ids)
    ensures ThreadOk(Enter(registry, ids, serial), Inside(ids, LocksOf(registry, ids, serial), 0, false))
  {
  }

  lemma LeaveKeepsThread(registry: Registry, threads: map<Tid, Thread>, t: Tid, u: Tid)
    requires t in threads && u in threads && t != u && threads[t].Inside? && ThreadOk(registry, threads[u])
    requires forall id :: EntryOk(registry, threads, id)
    ensures ThreadOk(Leave(registry, threads[t].ids), threads[u])
  {
    var th := threads[u];
    if th.Inside? {
      forall i | 0 <= i < |th.ids| && th.ids[i] in threads[t].ids ensures registry[th.ids[i]].count != 1 {
        var id := th.ids[i];
        assert EntryOk(registry, threads, id) && {t, u} <= Users(threads, id);
        CardWithout(Users(threads, id), t);
        CardWithout(Users(threads, id) - {t}, u);
      }
    }
  }

  // ----- owners

  lemma OwnerUnchanged(owner: map<Lock, Tid>, threads: map<Tid, Thread>, t: Tid, after: Thread, lock: Lock)
    requires OwnerOk(owner, threads, lock) && t in threads && Holds(after, lock) == Holds(threads[t], lock)
    ensures OwnerOk(owner, threads[t := after], lock)
  {
  }

  lemma AcquireKeepsOwner(owner: map<Lock, Tid>, threads: map<Tid, Thread>, t: Tid, lock: Lock)
    requires OwnerOk(owner, threads, lock) && t in threads && threads[t].Inside? && threads[t].got < |threads[t].locks|
    requires threads[t].locks[threads[t].got] !in owner
    ensures OwnerOk(owner[threads[t].locks[threads[t].got] := t],
                    threads[t := threads[t].(got := threads[t].got + 1)], lock)
  {
    var th := threads[t];
    assert th.locks[..th.got + 1] == th.locks[..th.got] + [th.locks[th.got]];
  }

  lemma LocksDiffer(registry: Registry, threads: map<Tid, Thread>, th: Thread, i: nat, j: nat)
    requires ThreadOk(registry, th) && th.Inside? && i < j < |th.locks|
    requires forall id :: EntryOk(registry, threads, id)
    ensures th.locks[i] != th.locks[j]
  {
    assert EntryOk(registry, threads, th.ids[i]) && EntryOk(registry, threads, th.ids[j]);
  }

  lemma ReleaseKeepsOwner(owner: map<Lock, Tid>, threads: map<Tid, Thread>, t: Tid, lock: Lock)
    requires OwnerOk(owner, threads, lock) && t in threads && threads[t].Inside?
    requires 0 < threads[t].got <= |threads[t].locks|
    requires threads[t].locks[threads[t].got - 1] !in threads[t].locks[..threads[t].got - 1]
    ensures OwnerOk(owner - {threads[t].locks[threads[t].got - 1]},
              threads[t := threads[t].(got := threads[t].got - 1)], lock)
  {
    var th := threads[t];
    assert th.locks[..th.got] == th.locks[..th.got - 1] + [th.locks[th.got - 1]];
  }

  // ----- every step keeps the invariant

  lemma RegisterKeepsInv(s: Sys, e: Event)
    requires Inv(s) && Enabled(s, e) && e.Register?
    ensures Inv(Apply(s, e))
  {
    hide EntryOk, ThreadOk, OwnerOk, Enter, LocksOf;
    var s', locks := Apply(s, e), LocksOf(s.registry, e.ids, s.serial);
    forall id ensures EntryOk(s'.registry, s'.threads, id) {
      EnterKeepsEntry(s.registry, s.threads, e.t, e.ids, locks, s.serial, id);
    }
    forall t | t in s'.threads ensures ThreadOk(s'.registry, s'.threads[t]) {
      if t == e.t { EnteredThread(s.registry, e.ids, s.serial); }
        else { EnterKeepsThread(s.registry, e.ids, s.serial, s.threads[t]); }
    }
    forall lock ensures OwnerOk(s'.owner, s'.threads, lock) {
      OwnerUnchanged(s.owner, s.threads, e.t, s'.threads[e.t], lock);
    }
  }

  lemma CleanupKeepsInv(s: Sys, e: Event)
    requires Inv(s) && Enabled(s, e) && e.Cleanup?
    ensures Inv(Apply(s, e))
  {
    hide EntryOk, ThreadOk, OwnerOk, Leave;
    var s' := Apply(s, e);
    forall id ensures EntryOk(s'.registry, s'.threads, id) { LeaveKeepsEntry(s.registry, s.threads, e.t, id); }
    forall t | t in s'.threads ensures ThreadOk(s'.registry, s'.threads[t]) {
      if t == e.t { IdleOk(s'.registry); } else { LeaveKeepsThread(s.registry, s.threads, e.t, t); }
    }
    forall lock ensures OwnerOk(s'.owner, s'.threads, lock) { OwnerUnchanged(s.owner, s.threads, e.t, Idle, lock); }
  }

  lemma IdleOk(registry: Registry)
    ensures ThreadOk(registry, Idle)
  {
  }

  lemma LockStepKeepsInv(s: Sys, e: Event)
    requires Inv(s) && Enabled(s, e) && (e.Acquire? || e.Stop? || e.Release?)
    ensures Inv(Apply(s, e))
  {
    hide EntryOk, OwnerOk;
    var s', th := Apply(s, e), s.threads[e.t];
    forall id ensures EntryOk(s'.registry, s'.threads, id) {
      SameUsersKeepEntry(s.registry, s.threads, e.t, s'.threads[e.t], id);
    }
    if e.Release? {
      forall i | 0 <= i < th.got - 1 ensures th.locks[i] != th.locks[th.got - 1] {
        LocksDiffer(s.registry, s.threads, th, i, th.got - 1);
      }
    }
    forall lock ensures OwnerOk(s'.owner, s'.threads, lock) {
      if e.Acquire? { AcquireKeepsOwner(s.owner, s.threads, e.t, lock); }
      else if e.Stop? { OwnerUnchanged(s.owner, s.threads, e.t, s'.threads[e.t], lock); }
      else { ReleaseKeepsOwner(s.owner, s.threads, e.t, lock); }
    }
  }

  lemma StepKeepsInv(s: Sys, e: Event)
    requires Inv(s) && Enabled(s, e)
    ensures Inv(Apply(s, e))
  {
    hide Inv, Enabled, Apply;
    if e.Register? { RegisterKeepsInv(s, e); }
    else if e.Cleanup? { CleanupKeepsInv(s, e); }
    else { LockStepKeepsInv(s, e); }
  }

  // ----- runs

  ghost predicate IsRun(states: seq<Sys>, events: seq<Event>) {
    && |states| == |events| + 1
    && states[0].registry == map[] && states[0].owner == map[]
      && (forall t | t in states[0].threads :: states[0].threads[t].Idle?)
    && forall i | 0 <= i < |events| :: Enabled(states[i], events[i]) && states[i + 1] == Apply(states[i], events[i])
  }

  lemma {:induction false} RunKeepsInv(states: seq<Sys>, events: seq<Event>, i: nat)
    requires IsRun(states, events) && i < |states|
    ensures Inv(states[i])
  {
    if i > 0 {
      hide Inv, Enabled, Apply;
      RunKeepsInv(states, events, i - 1);
      assert states[i - 1 + 1] == Apply(states[i - 1], events[i - 1]);
      StepKeepsInv(states[i - 1], events[i - 1]);
    }
  }

  /**
    In every state of every run: transfers that touch the same source use the same lock object, at most one
    of them holds it, and the registry has an entry, counting the users, exactly for the sources in use.
   */
  lemma LocksAreShared(states: seq<Sys>, events: seq<Event>, i: nat, t: Tid, u: Tid, a: nat, b: nat)
    requires IsRun(states, events) && i < |states| && t in states[i].threads && u in states[i].threads && t != u
    requires var th, uh := states[i].threads[t], states[i].threads[u];
             th.Inside? && uh.Inside? && a < |th.ids| && b < |uh.ids| && th.ids[a] == uh.ids[b]
    ensures var s, th, uh := states[i], states[i].threads[t], states[i].threads[u];
            && a < |th.locks| && b < |uh.locks| && th.locks[a] == uh.locks[b] && !(a < th.got && b < uh.got)
            && th.ids[a] in s.registry && s.registry[th.ids[a]].count == |Users(s.threads, th.ids[a])|
  {
    hide Enabled, Apply;
    RunKeepsInv(states, events, i);
    var s, th, uh := states[i], states[i].threads[t], states[i].threads[u];
    assert EntryOk(s.registry, s.threads, th.ids[a]) && ThreadOk(s.registry, th) && ThreadOk(s.registry, uh);
    assert OwnerOk(s.owner, s.threads, th.locks[a]);
    assert a < th.got ==> th.locks[a] in th.locks[..th.got];
    assert b < uh.got ==> uh.locks[b] in uh.locks[..uh.got];
  }

  // ----- nobody waits in a circle

  predicate Wants(th: Thread) { th.Inside? && !th.leaving && th.got < |th.ids| && th.got < |th.locks| }

  predicate WaitsFor(s: Sys, t: Tid, u: Tid) {
    t in s.threads && u in s.threads && Wants(s.threads[t]) && var lock := s.threads[t].locks[s.threads[t].got];
    lock in s.owner && s.owner[lock] == u
  }

  function Wanted(th: Thread): SourceId
    requires Wants(th)
  {
    th.ids[th.got]
  }

  lemma WaitingGoesUp(s: Sys, t: Tid, u: Tid)
    requires Inv(s) && WaitsFor(s, t, u) && Wants(s.threads[u])
    ensures Wanted(s.threads[t]) < Wanted(s.threads[u])
  {
    var th, uh := s.threads[t], s.threads[u];
    var lock := th.locks[th.got];
    assert OwnerOk(s.owner, s.threads, lock) && Holds(uh, lock);
    var j :| 0 <= j < uh.got && uh.locks[j] == lock;
    assert ThreadOk(s.registry, th) && ThreadOk(s.registry, uh);
    assert EntryOk(s.registry, s.threads, th.ids[th.got]) && EntryOk(s.registry, s.threads, uh.ids[j]);
  }

  predicate WaitPath(s: Sys, path: seq<Tid>) {
    |path| > 0 && forall i | 0 <= i < |path| - 1 :: WaitsFor(s, path[i], path[i + 1])
  }

  lemma {:induction false} PathGoesUp(s: Sys, path: seq<Tid>)
    requires Inv(s) && WaitPath(s, path) && |path| >= 2 && path[|path| - 1] in s.threads
    requires Wants(s.threads[path[|path| - 1]])
    ensures path[0] in s.threads && Wants(s.threads[path[0]])
    ensures Wanted(s.threads[path[0]]) < Wanted(s.threads[path[|path| - 1]])
  {
    hide Inv;
    assert WaitsFor(s, path[0], path[1]);
    if |path| == 2 { WaitingGoesUp(s, path[0], path[1]); }
    else {
      var rest := path[1..];
      forall i | 0 <= i < |rest| - 1 ensures WaitsFor(s, rest[i], rest[i + 1]) {
        assert WaitsFor(s, path[i + 1], path[i + 1 + 1]);
      }
      PathGoesUp(s, rest);
      WaitingGoesUp(s, path[0], path[1]);
    }
  }

  /** In every reachable state the wait-for graph has no cycle. */
  lemma NoCycle(states: seq<Sys>, events: seq<Event>, i: nat, path: seq<Tid>)
    requires IsRun(states, events) && i < |states| && WaitPath(states[i], path) && |path| >= 2
    ensures path[0] != path[|path| - 1]
  {
    hide Inv, Enabled, Apply;
    RunKeepsInv(states, events, i);
    assert WaitsFor(states[i], path[0], path[0 + 1]);
    if path[0] == path[|path| - 1] { PathGoesUp(states[i], path); }
  }

  // ----- and somebody always goes on

  /** The transfer has all its locks, or is giving them back, or can take its next one. */
  predicate GoesOn(s: Sys, t: Tid) {
    && t in s.threads && s.threads[t].Inside?
    && (s.threads[t].leaving || s.threads[t].got == |s.threads[t].ids| || Enabled(s, Acquire(t)))
  }

  function WantMore(s: Sys, id: SourceId): set<Tid> {
    set t | t in s.threads && Wants(s.threads[t]) && Wanted(s.threads[t]) > id
  }

  lemma FewerWantMore(s: Sys, t: Tid, u: Tid)
    requires Inv(s) && WaitsFor(s, t, u) && Wants(s.threads[u])
    ensures |WantMore(s, Wanted(s.threads[u]))| < |WantMore(s, Wanted(s.threads[t]))|
  {
    WaitingGoesUp(s, t, u);
    hide Inv;
    var more := WantMore(s, Wanted(s.threads[t]));
    SubsetCard(WantMore(s, Wanted(s.threads[u])), more - {u});
    CardWithout(more, u);
  }

  lemma WaitsForHolder(s: Sys, t: Tid) returns (u: Tid)
    requires Inv(s) && t in s.threads && s.threads[t].Inside? && !GoesOn(s, t)
    ensures WaitsFor(s, t, u) && s.threads[u].Inside? && (Wants(s.threads[u]) || GoesOn(s, u))
  {
    var th := s.threads[t];
    assert ThreadOk(s.registry, th);
    var lock := th.locks[th.got];
    assert OwnerOk(s.owner, s.threads, lock);
    u := s.owner[lock];
    assert ThreadOk(s.registry, s.threads[u]) && Holds(s.threads[u], lock);
  }

  lemma {:induction false} SomebodyAbove(s: Sys, t: Tid) returns (u: Tid)
    requires Inv(s) && t in s.threads && Wants(s.threads[t])
    ensures GoesOn(s, u)
    decreases |WantMore(s, Wanted(s.threads[t]))|
  {
    if GoesOn(s, t) { u := t; }
    else {
      u := WaitsForHolder(s, t);
      hide Inv, GoesOn;
      if Wants(s.threads[u]) {
        FewerWantMore(s, t, u);
        u := SomebodyAbove(s, u);
      }
    }
  }

  /** In every state of every run, if some transfer is inside, some transfer can go on without another's lock. */
  lemma SomebodyGoesOn(states: seq<Sys>, events: seq<Event>, i: nat, t: Tid) returns (u: Tid)
    requires IsRun(states, events) && i < |states| && t in states[i].threads && states[i].threads[t].Inside?
    ensures GoesOn(states[i], u)
  {
    hide Enabled, Apply, EntryOk, OwnerOk;
    RunKeepsInv(states, events, i);
    assert ThreadOk(states[i].registry, states[i].threads[t]);
    hide Inv;
    if Wants(states[i].threads[t]) { u := SomebodyAbove(states[i], t); } else { u := t; }
  }
}
