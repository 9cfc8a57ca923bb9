/**
  `_SnapshotBarrier` in `app/backup_coordination.py`: many writers or one snapshot, with a condition
  variable. A region under the condition's lock is one step; a thread that waits is asleep until it is
  notified, and then re-checks its guard.
 */
module SnapshotBarrier {

  import opened Collections

  type Tid = nat

  /** `Leaving` has given up its write depth but not yet its place among the readers. */
  datatype Place = Outside | WaitingWrite | Writing(depth: nat) | Leaving | WaitingSnapshot | Snapping

  datatype Sys = Sys(readers: int, writer: bool, waitingWriters: int, place: map<Tid, Place>, asleep: set<Tid>)

  datatype Event =
    | BeginWrite(t: Tid)
    | RecheckWrite(t: Tid)
    | NestWrite(t: Tid)
    | EndNested(t: Tid)
    | DropDepth(t: Tid)
    | EndWrite(t: Tid)
    | BeginSnapshot(t: Tid)
    | RecheckSnapshot(t: Tid)
    | EndSnapshot(t: Tid)
    | AbandonSnapshot(t: Tid)   // the wait itself raises

  predicate MayWrite(s: Sys) { !s.writer && s.waitingWriters == 0 }

  predicate MaySnapshot(s: Sys) { !s.writer && s.readers == 0 }

  predicate Counts(p: Place) { p == Leaving || (p.Writing? && p.depth > 0) }

  function Readers(place: map<Tid, Place>): set<Tid> { set t | t in place && Counts(place[t]) }

  function At(place: map<Tid, Place>, p: Place): set<Tid> { set t | t in place && place[t] == p }

  predicate Enabled(s: Sys, e: Event) {
    e.t in s.place && var p := s.place[e.t];
    match e
    case BeginWrite(_) => p == Outside
    case RecheckWrite(_) => p == WaitingWrite && e.t !in s.asleep
    case NestWrite(_) => p.Writing? && p.depth > 0
    case EndNested(_) => p.Writing? && p.depth > 1
    case DropDepth(_) => p == Writing(1)
    case EndWrite(_) => p == Leaving
    case BeginSnapshot(_) => p == Outside
    case RecheckSnapshot(_) => p == WaitingSnapshot && e.t !in s.asleep
    case EndSnapshot(_) => p == Snapping
    case AbandonSnapshot(_) => p == WaitingSnapshot
  }

  function Moves(s: Sys, t: Tid, p: Place): Sys { s.(place := s.place[t := p], asleep := s.asleep - {t}) }

  function Sleeps(s: Sys, t: Tid, p: Place): Sys { s.(place := s.place[t := p], asleep := s.asleep + {t}) }

  function NotifyAll(s: Sys): Sys { s.(asleep := {}) }

  function Apply(s: Sys, e: Event): Sys
    requires Enabled(s, e)
  {
    var t := e.t;
    match e
    case BeginWrite(_) => TryWrite(s, t)
    case RecheckWrite(_) => TryWrite(s, t)
    case NestWrite(_) => Moves(s, t, Writing(s.place[t].depth + 1))
    case EndNested(_) => Moves(s, t, Writing(s.place[t].depth - 1))
    case DropDepth(_) => Moves(s, t, Leaving)
    case EndWrite(_) =>
      var s' := Moves(s, t, Outside).(readers := s.readers - 1);
      if s'.readers == 0 then NotifyAll(s') else s'
    case BeginSnapshot(_) => TrySnapshot(s.(waitingWriters := s.waitingWriters + 1), t)
    case RecheckSnapshot(_) => TrySnapshot(s, t)
    case EndSnapshot(_) => NotifyAll(Moves(s, t, Outside).(writer := false))
    case AbandonSnapshot(_) => Moves(s, t, Outside).(waitingWriters := s.waitingWriters - 1)
  }

  function TryWrite(s: Sys, t: Tid): Sys {
    if MayWrite(s) then Moves(s, t, Writing(1)).(readers := s.readers + 1) else Sleeps(s, t, WaitingWrite)
  }

  function TrySnapshot(s: Sys, t: Tid): Sys {
    if MaySnapshot(s) then Moves(s, t, Snapping).(writer := true, waitingWriters := s.waitingWriters - 1)
      else Sleeps(s, t, WaitingSnapshot)
  }

  // ----- the invariant

  predicate Counted(s: Sys) {
    && s.readers == |Readers(s.place)| && s.waitingWriters == |At(s.place, WaitingSnapshot)|
    && |At(s.place, Snapping)| == if s.writer then 1 else 0
  }

  predicate Exclusive(s: Sys) { s.writer ==> s.readers == 0 }

  predicate DepthsPositive(s: Sys) { forall t | t in s.place && s.place[t].Writing? :: s.place[t].depth > 0 }

  predicate SleepersWait(s: Sys) {
    forall t | t in s.asleep :: t in s.place && s.place[t] in {WaitingWrite, WaitingSnapshot}
  }

  predicate Inv(s: Sys) { Counted(s) && Exclusive(s) && DepthsPositive(s) && SleepersWait(s) }

  /** Whoever sleeps could not go on if it were awake. */
  predicate NobodyOverslept(s: Sys) {
    forall t | t in s.asleep && t in s.place ::
      (s.place[t] == WaitingWrite ==> !MayWrite(s)) && (s.place[t] == WaitingSnapshot ==> !MaySnapshot(s))
  }

  lemma MoveCounts(place: map<Tid, Place>, t: Tid, p: Place)
    requires t in place
    ensures |Readers(place[t := p])|
              == |Readers(place)| - (if Counts(place[t]) then 1 else 0) + (if Counts(p) then 1 else 0)
  {
    var place' := place[t := p];
    forall u | u != t ensures u in Readers(place) <==> u in Readers(place') {}
    CardBut(Readers(place), Readers(place'), t);
  }

  lemma MoveAt(place: map<Tid, Place>, t: Tid, p: Place, q: Place)
    requires t in place
    ensures |At(place[t := p], q)| == |At(place, q)| - (if place[t] == q then 1 else 0) + (if p == q then 1 else 0)
  {
    var place' := place[t := p];
    forall u | u != t ensures u in At(place, q) <==> u in At(place', q) {}
    CardBut(At(place, q), At(place', q), t);
  }

  lemma StepKeepsCounts(s: Sys, e: Event)
    requires Inv(s) && Enabled(s, e)
    ensures Counted(Apply(s, e))
  {
    hide Readers, At, Exclusive, SleepersWait;
    var p' := Apply(s, e).place[e.t];
    MoveCounts(s.place, e.t, p');
    MoveAt(s.place, e.t, p', WaitingSnapshot);
    MoveAt(s.place, e.t, p', Snapping);
  }

  lemma ReaderCounts(s: Sys, t: Tid)
    requires Counted(s) && t in s.place && Counts(s.place[t])
    ensures s.readers > 0
  {
    assert t in Readers(s.place);
  }

  lemma ExclusionStays(s: Sys, e: Event)
    requires Inv(s) && Enabled(s, e)
    ensures Exclusive(Apply(s, e))
  {
    hide Counted, Readers, At, SleepersWait, DepthsPositive;
    if e.EndWrite? { ReaderCounts(s, e.t); }
  }

  lemma PlacesStayInOrder(s: Sys, e: Event)
    requires DepthsPositive(s) && SleepersWait(s) && Enabled(s, e)
    ensures DepthsPositive(Apply(s, e)) && SleepersWait(Apply(s, e))
  {
  }

  /** Every step keeps the counts, the exclusion of writers and snapshots, and who may sleep. */
  lemma StepKeepsInv(s: Sys, e: Event)
    requires Inv(s) && Enabled(s, e)
    ensures Inv(Apply(s, e))
  {
    hide Counted, Exclusive, DepthsPositive, SleepersWait, Apply, Enabled;
    StepKeepsCounts(s, e);
    ExclusionStays(s, e);
    PlacesStayInOrder(s, e);
  }

  lemma SnapperIsWriter(s: Sys, t: Tid)
    requires Counted(s) && t in s.place && s.place[t] == Snapping
    ensures s.writer
  {
    assert t in At(s.place, Snapping);
  }

  // ----- nobody sleeps through its chance

  /** The one step that can let a sleeper oversleep: a waiting snapshot that gives up with an exception. */
  predicate GivesUpUnnoticed(s: Sys, e: Event) {
    && e.AbandonSnapshot? && !s.writer && s.waitingWriters == 1
    && exists t :: t in s.asleep && t in s.place && s.place[t] == WaitingWrite
  }

  lemma SleeperStays(s: Sys, e: Event, t: Tid)
    requires Inv(s) && Enabled(s, e) && t in Apply(s, e).asleep && t != e.t
    ensures t in s.asleep && t in s.place && Apply(s, e).place[t] == s.place[t]
    ensures !e.EndSnapshot? && (e.EndWrite? ==> s.readers != 1)
  {
    hide Counted;
  }

  /** Every step keeps every sleeper's guard false, if and only if it is not such a giving up. */
  lemma OversleptOnlyByGivingUp(s: Sys, e: Event)
    requires Inv(s) && NobodyOverslept(s) && Enabled(s, e)
    ensures NobodyOverslept(Apply(s, e)) <==> !GivesUpUnnoticed(s, e)
  {
    var s' := Apply(s, e);
    if GivesUpUnnoticed(s, e) {
      var t :| t in s.asleep && t in s.place && s.place[t] == WaitingWrite;
      assert t in s'.asleep && t in s'.place && s'.place[t] == WaitingWrite && MayWrite(s');
    } else {
      forall t | t in s'.asleep && t in s'.place
        ensures (s'.place[t] == WaitingWrite ==> !MayWrite(s')) && (s'.place[t] == WaitingSnapshot ==> !MaySnapshot(s'))
      {
        if t == e.t { SelfAsleep(s, e); } else { SleeperStays(s, e, t); OtherAsleep(s, e, t); }
      }
    }
  }

  lemma SelfAsleep(s: Sys, e: Event)
    requires Inv(s) && Enabled(s, e) && e.t in Apply(s, e).asleep
    ensures var s' := Apply(s, e);
            (s'.place[e.t] == WaitingWrite ==> !MayWrite(s')) && (s'.place[e.t] == WaitingSnapshot ==> !MaySnapshot(s'))
  {
    hide Counted;
  }

  lemma OtherAsleep(s: Sys, e: Event, t: Tid)
    requires Inv(s) && NobodyOverslept(s) && Enabled(s, e) && t in s.asleep && t in s.place && t != e.t
    requires !GivesUpUnnoticed(s, e)
    requires !e.EndSnapshot? && (e.EndWrite? ==> s.readers != 1)
    ensures var s' := Apply(s, e);
            (s.place[t] == WaitingWrite ==> !MayWrite(s')) && (s.place[t] == WaitingSnapshot ==> !MaySnapshot(s'))
  {
    WaitingNotNegative(s);
    if e.AbandonSnapshot? { assert s.place[t] == WaitingWrite && !s.writer ==> s.waitingWriters != 1; }
    hide Counted, Readers, At;
  }

  lemma WaitingNotNegative(s: Sys)
    requires Counted(s)
    ensures s.waitingWriters >= 0 && s.readers >= 0
    ensures forall t | t in s.place && s.place[t] == WaitingSnapshot :: s.waitingWriters > 0
  {
    forall t | t in s.place && s.place[t] == WaitingSnapshot ensures s.waitingWriters > 0 {
      assert t in At(s.place, WaitingSnapshot);
    }
  }

  // ----- runs

  predicate Initial(s: Sys) {
    s.readers == 0 && !s.writer && s.waitingWriters == 0 && s.asleep == {}
      && forall t | t in s.place :: s.place[t] == Outside
  }

  ghost predicate IsRun(states: seq<Sys>, events: seq<Event>) {
    && |states| == |events| + 1 && Initial(states[0])
    && forall i | 0 <= i < |events| :: Enabled(states[i], events[i]) && states[i + 1] == Apply(states[i], events[i])
  }

  lemma InitialInv(s: Sys)
    requires Initial(s)
    ensures Inv(s) && NobodyOverslept(s)
  {
    assert Readers(s.place) == {} && At(s.place, WaitingSnapshot) == {} && At(s.place, Snapping) == {};
  }

  /**
    In every state of every run: the readers are the threads with a write in progress, a snapshot never
    coexists with one of them or with another snapshot, and without an abandoned wait nobody oversleeps.
   */
  lemma {:induction false} BarrierHolds(states: seq<Sys>, events: seq<Event>, i: nat)
    requires IsRun(states, events) && i < |states|
    ensures Inv(states[i])
    ensures (forall k | 0 <= k < i :: !events[k].AbandonSnapshot?) ==> NobodyOverslept(states[i])
  {
    hide Inv, Enabled, Apply, NobodyOverslept, Initial;
    if i == 0 { InitialInv(states[0]); }
    else {
      BarrierHolds(states, events, i - 1);
      assert Enabled(states[i - 1], events[i - 1]) && states[i - 1 + 1] == Apply(states[i - 1], events[i - 1]);
      StepKeepsInv(states[i - 1], events[i - 1]);
      if forall k | 0 <= k < i :: !events[k].AbandonSnapshot? { OversleptOnlyByGivingUp(states[i - 1], events[i - 1]); }
    }
  }

  lemma SnapshotIsAlone(s: Sys, t: Tid, u: Tid)
    requires Inv(s) && t in s.place && u in s.place && t != u && s.place[t] == Snapping
    ensures s.place[u] != Snapping && !Counts(s.place[u])
  {
    SnapperIsWriter(s, t);
    CardWithout(At(s.place, Snapping), t);
    CardWithout(At(s.place, Snapping) - {t}, u);
    CardWithout(Readers(s.place), u);
  }

  /** While a snapshot waits no outermost write gets in, and a nested write never waits. */
  lemma WritesYieldToWaitingSnapshot(s: Sys, e: Event)
    requires Inv(s) && Enabled(s, e)
    ensures s.waitingWriters > 0 && (e.BeginWrite? || e.RecheckWrite?) ==>
              Apply(s, e).place[e.t] == WaitingWrite && Apply(s, e).readers == s.readers
    ensures e.NestWrite? ==> Counts(Apply(s, e).place[e.t]) && Apply(s, e).readers == s.readers
  {
  }

  /** A snapshot is being taken, or waits to be. */
  predicate AnySnapshot(place: map<Tid, Place>) { exists u :: u in place && place[u] in {Snapping, WaitingSnapshot} }

  /** A snapshot is being taken, or a write is in progress. */
  predicate AnyInside(place: map<Tid, Place>) { exists u :: u in place && (place[u] == Snapping || Counts(place[u])) }

  lemma CountersTell(s: Sys)
    requires Inv(s)
    ensures MayWrite(s) <==> !AnySnapshot(s.place)
    ensures MaySnapshot(s) <==> !AnyInside(s.place)
  {
    WaitingNotNegative(s);
    if s.writer { var u := OneOf(At(s.place, Snapping)); }
    if s.waitingWriters > 0 { var u := OneOf(At(s.place, WaitingSnapshot)); }
    if s.readers > 0 { var u := OneOf(Readers(s.place)); }
    forall u | u in s.place ensures (s.place[u] == Snapping ==> s.writer) && (Counts(s.place[u]) ==> s.readers > 0) {
      if s.place[u] == Snapping { SnapperIsWriter(s, u); }
      if Counts(s.place[u]) { ReaderCounts(s, u); }
    }
    hide Counted, Readers, At;
  }

  /**
    Whoever asks, or asks again when woken, gets in exactly if it may, and otherwise goes to sleep: a write if no
    snapshot is being taken or waits, a snapshot if none is being taken and no write is in progress.
   */
  lemma EntersIff(s: Sys, e: Event)
    requires Inv(s) && Enabled(s, e)
    ensures var s' := Apply(s, e);
            && e.t in s'.place
            && (e.BeginWrite? || e.RecheckWrite? ==>
                  && s'.place[e.t] == (if AnySnapshot(s.place) then WaitingWrite else Writing(1))
                  && (e.t in s'.asleep <==> AnySnapshot(s.place)))
            && (e.BeginSnapshot? || e.RecheckSnapshot? ==>
                  && s'.place[e.t] == (if AnyInside(s.place) then WaitingSnapshot else Snapping)
                  && (e.t in s'.asleep <==> AnyInside(s.place)))
            && s'.place - {e.t} == s.place - {e.t}
  {
    CountersTell(s);
    hide Inv, AnySnapshot, AnyInside, MayWrite, MaySnapshot;
  }

  /** When everyone who waits is asleep and nobody has overslept, some thread is inside and will notify. */
  lemma SomebodyIsInside(s: Sys, t: Tid)
    requires Inv(s) && NobodyOverslept(s) && t in s.asleep
    ensures exists u :: u in s.place
              && (s.place[u] == Snapping || Counts(s.place[u]) || (s.place[u] == WaitingSnapshot && u !in s.asleep))
  {
    if s.writer { var u := OneOf(At(s.place, Snapping)); }
    else if s.readers > 0 { var u := OneOf(Readers(s.place)); }
    else {
      assert s.place[t] == WaitingWrite;
      WaitingNotNegative(s);
      var u := OneOf(At(s.place, WaitingSnapshot));
    }
  }

  lemma OneOf(threads: set<Tid>) returns (u: Tid)
    requires |threads| > 0
    ensures u in threads
  {
    u :| u in threads;
  }

  // ----- a run in which a sleeper misses its chance

  lemma Extend(states: seq<Sys>, events: seq<Event>, e: Event)
    requires IsRun(states, events) && Enabled(states[|states| - 1], e)
    ensures IsRun(states + [Apply(states[|states| - 1], e)], events + [e])
  {
    hide Enabled, Apply, Initial;
  }

  lemma OneStateRun(s: Sys)
    requires Initial(s)
    ensures IsRun([s], [])
  {
  }

  /** A writer is inside, a snapshot waits for it, and a second writer waits for the snapshot. */
  lemma AllWait() returns (states: seq<Sys>, events: seq<Event>)
    ensures |states| == 4 && |events| == 3 && IsRun(states, events)
    ensures states[3] == Sys(1, false, 1, map[0 := Writing(1), 1 := WaitingSnapshot, 2 := WaitingWrite], {1, 2})
  {
    hide IsRun;
    var s0 := Sys(0, false, 0, map[0 := Outside, 1 := Outside, 2 := Outside], {});
    OneStateRun(s0);
    Extend([s0], [], BeginWrite(0));
    var s1 := Apply(s0, BeginWrite(0));
    Extend([s0] + [s1], [] + [BeginWrite(0)], BeginSnapshot(1));
    var s2 := Apply(s1, BeginSnapshot(1));
    Extend([s0] + [s1] + [s2], [] + [BeginWrite(0)] + [BeginSnapshot(1)], BeginWrite(2));
    states := [s0] + [s1] + [s2] + [Apply(s2, BeginWrite(2))];
    events := [] + [BeginWrite(0)] + [BeginSnapshot(1)] + [BeginWrite(2)];
  }

  /** The writer leaves, and the second one finds the snapshot still waiting and goes back to sleep. */
  lemma WriterSleepsAgain() returns (states: seq<Sys>, events: seq<Event>)
    ensures |states| == 7 && |events| == 6 && IsRun(states, events)
    ensures states[6] == Sys(0, false, 1, map[0 := Outside, 1 := WaitingSnapshot, 2 := WaitingWrite], {2})
  {
    hide IsRun;
    var before, steps := AllWait();
    var s3 := before[3];
    Extend(before, steps, DropDepth(0));
    var s4 := Apply(s3, DropDepth(0));
    Extend(before + [s4], steps + [DropDepth(0)], EndWrite(0));
    var s5 := Apply(s4, EndWrite(0));
    Extend(before + [s4] + [s5], steps + [DropDepth(0)] + [EndWrite(0)], RecheckWrite(2));
    states := before + [s4] + [s5] + [Apply(s5, RecheckWrite(2))];
    events := steps + [DropDepth(0)] + [EndWrite(0)] + [RecheckWrite(2)];
  }

  /** Then the snapshot gives up before it has rechecked: the writer sleeps, though it may write. */
  lemma SleeperMissesItsChance() returns (states: seq<Sys>, events: seq<Event>)
    ensures |states| == 8 && |events| == 7 && IsRun(states, events) && GivesUpUnnoticed(states[6], events[6])
    ensures 2 in states[7].asleep && 2 in states[7].place && states[7].place[2] == WaitingWrite && MayWrite(states[7])
    ensures !NobodyOverslept(states[7])
  {
    hide IsRun;
    var before, steps := WriterSleepsAgain();
    var s6 := before[6];
    Extend(before, steps, AbandonSnapshot(1));
    states, events := before + [Apply(s6, AbandonSnapshot(1))], steps + [AbandonSnapshot(1)];
    assert 2 in s6.asleep && 2 in s6.place && s6.place[2] == WaitingWrite;
  }
}
