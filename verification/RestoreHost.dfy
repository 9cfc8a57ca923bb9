/**
  The machine that a restore runs on: the data directory, the durable restore status and operation
  directories, and a fate for every single step, so that one proof covers every failure and crash.
 */
module RestoreHost {

  import opened Collections
  import opened Faults

  /** The components of a file's path below the data directory. */
  datatype Path = Path(parts: seq<string>)

  /** A file, or the SQLite database with its durable rows, its transient rows and its generations. */
  datatype Content = File(bytes: string) | Database(durable: string, transient: string, generation: nat)

  type Tree = map<Path, Content>

  type OpId = string

  datatype Entry = Entry(path: Path, content: Content)

  /** A backup archive: the manifest's files in manifest order, by the path they name on disk. */
  datatype Archive = Archive(entries: seq<Entry>)

  datatype OpDir = OpDir(upload: Archive, rollback: Option<Archive>)

  datatype Phase = Preparing | InProgress | Succeeded | Failed | RollbackFailed

  datatype Status = Status(phase: Phase, op: OpId, fingerprint: Option<string>, rollback: Option<OpId>)

  /** The fates of the steps to come; they may depend on the step, the data directory and the status. */
  type Oracle = (nat, Tree, Option<Status>) -> Fate

  /** From here on nothing goes wrong for as long as the status is this one. */
  ghost predicate SmoothFrom(fate: Oracle, tick: nat, st: Option<Status>) {
    forall n: nat, d: Tree | n >= tick :: fate(n, d, st) == Works
  }

  /** From here on nothing goes wrong. */
  ghost predicate Faultless(fate: Oracle, tick: nat) {
    forall st: Option<Status> :: SmoothFrom(fate, tick, st)
  }

  lemma StillFaultless(fate: Oracle, tick: nat, later: nat)
    requires tick <= later
    ensures Faultless(fate, tick) ==> Faultless(fate, later)
  {
    if Faultless(fate, tick) {
      forall st ensures SmoothFrom(fate, later, st) { assert SmoothFrom(fate, tick, st); }
    }
  }

  /** A trap for a run: the process dies at the first step that finds the data caught. */
  datatype Trap = Trap(caught: Tree -> bool, goal: Tree -> bool)

  /** The change of one file does not lead from data that is not caught to the goal. */
  ghost predicate NoLeap(trap: Trap, d: Tree, p: Path, c: Content) {
    !trap.goal(d) && !trap.caught(d) ==> !trap.goal(d[p := c]) && !trap.goal(d - {p})
  }

  ghost predicate Barrier(trap: Trap) { forall d, p, c :: NoLeap(trap, d, p, c) }

  class Host {
    var fate: Oracle
    ghost var trap: Trap
    // the step that fails, when it is the only one that does
    ghost var failAt: nat
    const fingerprint: string
    var tick: nat
    var data: Tree
    var status: Option<Status>
    var ops: map<OpId, OpDir>
    // the process's own copy of the status, lost when the process ends
    var cached: Option<Status>

    /** From here on nothing goes wrong for as long as the status is this one. */
    ghost predicate Smooth(st: Option<Status>)
      reads this`tick, this`fate
    {
      SmoothFrom(fate, tick, st)
    }

    /** From here on nothing goes wrong. */
    ghost predicate AllWork()
      reads this`tick, this`fate
    {
      Faultless(fate, tick)
    }

    /** Everything works until the data is caught, and the goal has not been reached. */
    ghost predicate Trapped()
      reads this`tick, this`fate, this`trap, this`data, this`status
    {
      && (forall n: nat, d: Tree | n >= tick :: fate(n, d, status) == if trap.caught(d) then Dies else Works)
      && Barrier(trap) && !trap.goal(data)
    }

    /** How a piece of code ends in a trap: it never raises, and dies only when the data is caught. */
    ghost predicate Sprung(o: Outcome)
      reads this`trap, this`data
    {
      o != Raised && (o == Dead ==> trap.caught(data))
    }

    /** One step fails and no other. */
    ghost predicate Cued()
      reads this`fate, this`failAt
    {
      forall n: nat, d: Tree, st: Option<Status> :: fate(n, d, st) == if n == failAt then Fails else Works
    }

    /** How a piece of code ends when one step fails and no other: it raises only behind that step. */
    ghost predicate Excused(o: Outcome)
      reads this`tick, this`failAt
    {
      o != Dead && (o == Raised ==> failAt < tick)
    }

    lemma SpentFault()
      requires Cued() && failAt < tick
      ensures Faultless(fate, tick)
    {
    }

    /** The fate of the next step. */
    function Next(): Fate
      reads this`tick, this`fate, this`data, this`status
    {
      fate(tick, data, status)
    }

    method Turn() returns (f: Fate)
      modifies this`tick
      ensures f == old(Next()) && tick == old(tick) + 1
      ensures old(Smooth(status)) ==> f == Works && Smooth(status)
      ensures old(Trapped()) ==> Trapped() && f == if trap.caught(data) then Dies else Works
    {
      f := fate(tick, data, status);
      tick := tick + 1;
    }

    /** A step with no effect that matters here. */
    method Pass() returns (o: Outcome)
      modifies this`tick
      ensures o == OutcomeOf(old(Next())) && tick == old(tick) + 1
      ensures old(Smooth(status)) ==> o == Done && Smooth(status)
      ensures old(Trapped()) ==> Trapped() && Sprung(o)
      ensures Cued() ==> o == if old(tick) == failAt then Raised else Done
    {
      var f := Turn();
      o := OutcomeOf(f);
    }

    /** `atomic_copy_file` or `atomic_write_bytes` onto a path of the data directory. */
    method Put(p: Path, content: Content) returns (o: Outcome)
      modifies this`tick, this`data
      ensures o == OutcomeOf(old(Next())) && tick == old(tick) + 1
      ensures data == if TakesEffect(old(Next())) then old(data)[p := content] else old(data)
      ensures old(Smooth(status)) ==> o == Done && Smooth(status)
      ensures old(Trapped()) ==> Trapped() && Sprung(o)
      ensures Cued() ==> o == if old(tick) == failAt then Raised else Done
    {
      var f := Turn();
      assert Barrier(trap) ==> NoLeap(trap, data, p, content);
      if TakesEffect(f) { data := data[p := content]; }
      o := OutcomeOf(f);
    }

    /** `Path.unlink` */
    method Unlink(p: Path, missingOk: bool) returns (o: Outcome)
      modifies this`tick, this`data
      ensures tick == old(tick) + 1
      ensures data == if TakesEffect(old(Next())) then old(data) - {p} else old(data)
      ensures missingOk || p in old(data) ==> o == OutcomeOf(old(Next()))
      ensures o == Done ==> data == old(data) - {p}
      ensures old(Smooth(status)) && (missingOk || p in old(data)) ==> o == Done && Smooth(status)
      ensures old(Trapped()) && (missingOk || p in old(data)) ==> Trapped() && Sprung(o)
      ensures Cued() && (missingOk || p in old(data)) ==> Excused(o)
    {
      var f := Turn();
      if p !in data && !missingOk {
        assert data - {p} == data;
        return if f in {Dies, DiesLate} then Dead else Raised;
      }
      assert Barrier(trap) ==> NoLeap(trap, data, p, File(""));
      if TakesEffect(f) { data := data - {p}; }
      o := OutcomeOf(f);
    }

    /** `_copy_for_rollback`: a copy of a data file in the operation's own rollback directory. */
    method SaveCopy(p: Path, saved: Tree) returns (o: Outcome, copies: Tree)
      requires p in data
      modifies this`tick
      ensures o == OutcomeOf(old(Next())) && tick == old(tick) + 1
      ensures copies == if TakesEffect(old(Next())) then saved[p := data[p]] else saved
      ensures old(Smooth(status)) ==> o == Done && Smooth(status)
      ensures old(Trapped()) ==> Trapped() && Sprung(o)
      ensures Cued() ==> o == if old(tick) == failAt then Raised else Done
    {
      var f := Turn();
      copies := if TakesEffect(f) then saved[p := data[p]] else saved;
      o := OutcomeOf(f);
    }

    /** `maintenance_mode._write`: the process's own copy changes only when the write returns normally. */
    method WriteStatus(document: Status) returns (o: Outcome)
      modifies this`tick, this`status, this`cached
      ensures o == OutcomeOf(old(Next())) && tick == old(tick) + 1
      ensures status == if TakesEffect(old(Next())) then Some(document) else old(status)
      ensures cached == if o == Done then Some(document) else old(cached)
      ensures old(Smooth(status)) ==> o == Done
      ensures Cued() ==> o == if old(tick) == failAt then Raised else Done
    {
      var f := Turn();
      if TakesEffect(f) { status := Some(document); }
      if f == Works { cached := Some(document); }
      o := OutcomeOf(f);
    }
  }
}
