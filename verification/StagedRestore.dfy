/** `_restore_staged_files` and `restore_backup` (`app/backup_manager.py`). */
module StagedRestore {

  import opened Collections
  import opened Faults
  import opened RestoreHost

  // ----- what a restore has to do with a tree

  const PRESERVED := {"logs", "tmp"}
  const DISCARDED := {".ldap-revocation-fences"}
  const DATABASE_PATH: Path := Path(["app.db"])

  /** A file under a top-level directory that a restore leaves alone. */
  predicate IsPreserved(p: Path) { |p.parts| > 1 && p.parts[0] in PRESERVED }

  function PathSet(paths: seq<Path>): set<Path> { set p | p in paths }

  predicate SameAt(a: Tree, b: Tree, p: Path) { (p in a <==> p in b) && (p in a ==> a[p] == b[p]) }

  /** The path occurs twice among the first `k` entries of the manifest. */
  ghost predicate Doubled(manifest: seq<Path>, k: nat, p: Path) {
    exists i, j :: 0 <= i < j < k && j < |manifest| && manifest[i] == p && manifest[j] == p
  }

  /** What the undo steps put back when the backups of the first `k` manifest entries took effect. */
  ghost function PutBack(before: Tree, stage: Tree, manifest: seq<Path>, k: nat, p: Path): Content
    requires p in before && forall q | q in manifest :: q in stage
  {
    if Doubled(manifest, k, p) then stage[p] else before[p]
  }

  ghost function AfterUndo(before: Tree, stage: Tree, manifest: seq<Path>, k: nat): Tree
    requires forall q | q in manifest :: q in stage
  {
    map p | p in before :: PutBack(before, stage, manifest, k, p)
  }

  function Installed(before: Tree, stage: Tree, manifest: seq<Path>, extra: set<Path>): Tree
    requires forall q | q in manifest :: q in stage
  {
    map p | p in before.Keys + PathSet(manifest) && (p in manifest || p !in extra) ::
      if p in manifest then stage[p] else before[p]
  }

  /** No file that existed before is named by two manifest entries with other content. */
  ghost predicate NoAliasedOverwrite(before: Tree, stage: Tree, manifest: seq<Path>)
    requires forall q | q in manifest :: q in stage
  {
    forall p | p in before && Doubled(manifest, |manifest|, p) :: stage[p] == before[p]
  }

  /**
    However far the restore came, undoing it gives every file back its earlier content, exactly when no
    existing file is named twice by the manifest with different content.
   */
  lemma UndoIsExact(before: Tree, stage: Tree, manifest: seq<Path>)
    requires forall q | q in manifest :: q in stage
    ensures NoAliasedOverwrite(before, stage, manifest)
       <==> forall k: nat | k <= |manifest| :: AfterUndo(before, stage, manifest, k) == before
  {
    if NoAliasedOverwrite(before, stage, manifest) {
      forall k: nat | k <= |manifest| ensures AfterUndo(before, stage, manifest, k) == before {
        forall p | p in before && Doubled(manifest, k, p) ensures stage[p] == before[p] {
          assert Doubled(manifest, |manifest|, p);
        }
      }
    }
    if forall k: nat | k <= |manifest| :: AfterUndo(before, stage, manifest, k) == before {
      assert AfterUndo(before, stage, manifest, |manifest|) == before;
      forall p | p in before && Doubled(manifest, |manifest|, p) ensures stage[p] == before[p] {
        assert AfterUndo(before, stage, manifest, |manifest|)[p] == stage[p];
      }
    }
  }

  /** Entry `j` names an existing file again, with content other than the file's. */
  predicate AliasAt(before: Tree, stage: Tree, manifest: seq<Path>, j: nat)
    requires j < |manifest| && forall q | q in manifest :: q in stage
  {
    manifest[j] in before && manifest[j] in manifest[..j] && stage[manifest[j]] != before[manifest[j]]
  }

  lemma AliasedSomewhere(before: Tree, stage: Tree, manifest: seq<Path>)
    requires forall q | q in manifest :: q in stage
    ensures NoAliasedOverwrite(before, stage, manifest)
       <==> forall j | 0 <= j < |manifest| :: !AliasAt(before, stage, manifest, j)
  {
    forall j | 0 <= j < |manifest| && AliasAt(before, stage, manifest, j)
      ensures Doubled(manifest, |manifest|, manifest[j])
    {
      DoubledStep(manifest, j, manifest[j]);
      DoubledLater(manifest, j + 1, manifest[j]);
    }
    forall p | p in before && Doubled(manifest, |manifest|, p) && stage[p] != before[p]
      ensures exists j :: 0 <= j < |manifest| && AliasAt(before, stage, manifest, j)
    {
      var i, j :| 0 <= i < j < |manifest| && manifest[i] == p && manifest[j] == p;
      assert manifest[..j][i] == p;
      assert AliasAt(before, stage, manifest, j);
    }
  }

  lemma DoubledLater(manifest: seq<Path>, k: nat, p: Path)
    requires k <= |manifest| && Doubled(manifest, k, p)
    ensures Doubled(manifest, |manifest|, p)
  {
  }

  /** Undoing the restore from there leaves the new content. */
  lemma AliasUndone(before: Tree, stage: Tree, manifest: seq<Path>, j: nat)
    requires j < |manifest| && (forall q | q in manifest :: q in stage) && AliasAt(before, stage, manifest, j)
    ensures AfterUndo(before, stage, manifest, j + 1) != before
  {
    DoubledStep(manifest, j, manifest[j]);
    assert AfterUndo(before, stage, manifest, j + 1)[manifest[j]] == stage[manifest[j]];
  }

  /** Every file has its earlier content or its staged one; only files to be removed can be missing. */
  ghost predicate Between(before: Tree, now: Tree, stage: Tree, manifest: seq<Path>, extra: set<Path>) {
    forall p :: SameAt(before, now, p) || (p in manifest && SameAt(stage, now, p)) || (p in extra && p !in now)
  }

  // ----- the undo log

  /** The state that the undo steps rely on while the restore is under way. */
  ghost predicate Undoable(before: Tree, now: Tree, stage: Tree, manifest: seq<Path>, k: nat,
                           saved: Tree, kept: set<Path>, added: set<Path>)
    requires forall q | q in manifest :: q in stage
  {
    && (forall p | p in kept :: p in saved && (p in before ==> saved[p] == PutBack(before, stage, manifest, k, p)))
    && (forall p | p in kept && p !in before :: p in added && p in manifest && saved[p] == stage[p])
    && (forall p | p in added :: p !in before)
    && (forall p | p !in kept && p !in added :: SameAt(before, now, p))
    && (forall p | p in before && p !in kept :: !Doubled(manifest, k, p))
  }

  lemma UndoneIsAfterUndo(before: Tree, now: Tree, final: Tree, stage: Tree, manifest: seq<Path>, k: nat,
                          saved: Tree, kept: set<Path>, added: set<Path>)
    requires forall q | q in manifest :: q in stage
    requires Undoable(before, now, stage, manifest, k, saved, kept, added)
    requires forall p | p in added :: p !in final
    requires forall p | p in kept && p !in added :: p in final && final[p] == saved[p]
    requires forall p | p !in kept && p !in added :: SameAt(now, final, p)
    ensures final == AfterUndo(before, stage, manifest, k)
  {
    var target := AfterUndo(before, stage, manifest, k);
    forall p ensures SameAt(target, final, p) {
      if p !in kept && p !in added {
        assert SameAt(before, now, p) && SameAt(now, final, p);
      }
    }
    assert final.Keys == target.Keys by {
      forall p ensures p in final.Keys <==> p in target.Keys { assert SameAt(target, final, p); }
    }
    forall p | p in final ensures final[p] == target[p] { assert SameAt(target, final, p); }
  }

  lemma DoubledStep(manifest: seq<Path>, i: nat, p: Path)
    requires i < |manifest|
    ensures Doubled(manifest, i + 1, p) <==> Doubled(manifest, i, p) || (p == manifest[i] && p in manifest[..i])
  {
    if p == manifest[i] && p in manifest[..i] {
      var j :| 0 <= j < i && manifest[..i][j] == p;
      assert manifest[j] == p;
    }
    if Doubled(manifest, i + 1, p) && !Doubled(manifest, i, p) {
      var a, b :| 0 <= a < b < i + 1 && b < |manifest| && manifest[a] == p && manifest[b] == p;
      assert b == i;
      assert manifest[..i][a] == p;
    }
  }

  /** The data while the first `i` manifest entries are in place. */
  ghost predicate Progress(before: Tree, now: Tree, stage: Tree, manifest: seq<Path>, i: nat)
    requires i <= |manifest| && forall q | q in manifest :: q in stage
  {
    && (forall p | p in manifest[..i] :: p in now && now[p] == stage[p])
    && (forall p | p !in manifest[..i] :: SameAt(before, now, p))
  }

  /** One path is done, and one less is to be done. */
  lemma OneMoreDone(all: set<Path>, todo: set<Path>, p: Path)
    requires todo <= all && p in todo
    ensures all - todo + {p} == all - (todo - {p}) && |todo - {p}| == |todo| - 1 && |todo| <= |all|
  {
    SubsetCard(todo, all);
  }

  /** `saved` has a copy of each of these files. */
  ghost predicate Copied(data: Tree, saved: Tree, kept: set<Path>)
    requires kept <= data.Keys
  {
    forall p | p in kept :: p in saved && saved[p] == data[p]
  }

  lemma CopyNothing(data: Tree)
    ensures Copied(data, map[], {})
  {
  }

  lemma CopyOneMore(data: Tree, saved: Tree, kept: set<Path>, p: Path)
    requires kept <= data.Keys && p in data && Copied(data, saved, kept)
    ensures Copied(data, saved[p := data[p]], kept) && Copied(data, saved[p := data[p]], kept + {p})
  {
  }

  /** First loop: every file that the manifest does not name is copied aside. */
  method SaveExtras(h: Host, extra: set<Path>) returns (o: Outcome, saved: Tree, kept: set<Path>)
    requires extra <= h.data.Keys
    modifies h`tick
    ensures kept <= extra && (o == Done ==> kept == extra) && Copied(h.data, saved, kept)
    ensures h.Cued() && h.failAt >= old(h.tick) + |extra| ==> o == Done && h.tick == old(h.tick) + |extra|
    ensures h.tick >= old(h.tick) && (old(h.Smooth(h.status)) ==> o == Done && h.Smooth(h.status))
    ensures old(h.Trapped()) ==> h.Trapped() && h.Sprung(o)
    ensures h.Cued() ==> h.Excused(o)
  {
    hide Copied, Host.Trapped, Host.Smooth, Host.Next, Host.Cued;
    CopyNothing(h.data);
    o, saved, kept := Done, map[], {};
    var todo := extra;
    while todo != {}
      invariant o == Done && todo <= extra && kept == extra - todo && Copied(h.data, saved, kept)
      invariant h.tick == old(h.tick) + |extra| - |todo|
      invariant h.tick >= old(h.tick) && (old(h.Smooth(h.status)) ==> h.Smooth(h.status))
      invariant old(h.Trapped()) ==> h.Trapped()
      decreases |todo|
    {
      var p :| p in todo;
      OneMoreDone(extra, todo, p);
      CopyOneMore(h.data, saved, kept, p);
      o, saved := h.SaveCopy(p, saved);
      if o != Done { return; }
      kept, todo := kept + {p}, todo - {p};
    }
  }

  lemma DoublesOnce(manifest: seq<Path>, i: nat)
    requires i < |manifest|
    ensures forall q :: Doubled(manifest, i + 1, q) <==>
              Doubled(manifest, i, q) || (q == manifest[i] && manifest[i] in manifest[..i])
  {
    forall q
      ensures Doubled(manifest, i + 1, q) <==>
                Doubled(manifest, i, q) || (q == manifest[i] && manifest[i] in manifest[..i])
    {
      DoubledStep(manifest, i, q);
    }
  }

  /** The copy of an existing file has been saved, whether or not it is on record yet. */
  lemma SavedKeepsUndoable(before: Tree, now: Tree, stage: Tree, manifest: seq<Path>, i: nat,
                           saved: Tree, kept: set<Path>, kept': set<Path>, added: set<Path>)
    requires i < |manifest| && (forall q | q in manifest :: q in stage) && manifest[i] in now
    requires kept' == kept + {manifest[i]}
    requires Progress(before, now, stage, manifest, i) && Undoable(before, now, stage, manifest, i, saved, kept, added)
    ensures Undoable(before, now, stage, manifest, i + 1, saved[manifest[i] := now[manifest[i]]], kept', added)
  {
    DoublesOnce(manifest, i);
    hide Doubled, Progress, SameAt;
    ProgressAt(before, now, stage, manifest, i);
  }

  /** The file that comes next is as before, or as staged if an earlier entry has named it. */
  lemma ProgressAt(before: Tree, now: Tree, stage: Tree, manifest: seq<Path>, i: nat)
    requires i < |manifest| && (forall q | q in manifest :: q in stage) && Progress(before, now, stage, manifest, i)
    ensures manifest[i] in manifest[..i] ==> manifest[i] in now && now[manifest[i]] == stage[manifest[i]]
    ensures manifest[i] !in manifest[..i] ==> (manifest[i] in before <==> manifest[i] in now)
    ensures manifest[i] !in manifest[..i] && manifest[i] in now ==> now[manifest[i]] == before[manifest[i]]
  {
    if manifest[i] !in manifest[..i] { assert SameAt(before, now, manifest[i]); }
  }

  lemma UnrecordedCopy(before: Tree, now: Tree, stage: Tree, manifest: seq<Path>, k: nat,
                       saved: Tree, kept: set<Path>, added: set<Path>, p: Path, c: Content)
    requires (forall q | q in manifest :: q in stage) && Undoable(before, now, stage, manifest, k, saved, kept, added)
    requires p !in kept
    ensures Undoable(before, now, stage, manifest, k, saved[p := c], kept, added)
  {
    hide Doubled, SameAt;
  }

  lemma PutKeepsUndoable(before: Tree, now: Tree, stage: Tree, manifest: seq<Path>, k: nat,
                         saved: Tree, kept: set<Path>, added: set<Path>, p: Path, c: Content)
    requires (forall q | q in manifest :: q in stage) && Undoable(before, now, stage, manifest, k, saved, kept, added)
    requires p in kept || p in added
    ensures Undoable(before, now[p := c], stage, manifest, k, saved, kept, added)
  {
    hide Doubled;
  }

  lemma AddedKeepsUndoable(before: Tree, now: Tree, stage: Tree, manifest: seq<Path>, i: nat,
                           saved: Tree, kept: set<Path>, added: set<Path>)
    requires i < |manifest| && (forall q | q in manifest :: q in stage) && manifest[i] !in now
    requires Progress(before, now, stage, manifest, i) && Undoable(before, now, stage, manifest, i, saved, kept, added)
    ensures Undoable(before, now, stage, manifest, i + 1, saved, kept, added + {manifest[i]})
  {
    DoublesOnce(manifest, i);
    hide Doubled;
    if manifest[i] !in manifest[..i] { assert SameAt(before, now, manifest[i]); }
  }

  // ----- the steps that the entries take

  /** A missing target needs no copy. */
  function EntrySteps(before: Tree, manifest: seq<Path>, i: nat): nat
    requires i < |manifest|
  {
    if manifest[i] in before || manifest[i] in manifest[..i] then 3 else 2
  }

  function StepsBefore(before: Tree, manifest: seq<Path>, i: nat): nat
    requires i <= |manifest|
  {
    if i == 0 then 0 else StepsBefore(before, manifest, i - 1) + EntrySteps(before, manifest, i - 1)
  }

  /** The step, among those of all entries, that puts entry `i` in place. */
  function PutStep(before: Tree, manifest: seq<Path>, i: nat): nat
    requires i < |manifest|
  {
    StepsBefore(before, manifest, i) + EntrySteps(before, manifest, i) - 1
  }

  lemma {:induction false} StepsGrow(before: Tree, manifest: seq<Path>, i: nat, j: nat)
    requires i <= j < |manifest|
    ensures StepsBefore(before, manifest, i) <= StepsBefore(before, manifest, j) < PutStep(before, manifest, j)
  {
    if i < j { StepsGrow(before, manifest, i, j - 1); }
  }

  lemma PresentSteps(before: Tree, now: Tree, stage: Tree, manifest: seq<Path>, i: nat)
    requires i < |manifest| && (forall q | q in manifest :: q in stage) && Progress(before, now, stage, manifest, i)
    ensures EntrySteps(before, manifest, i) == if manifest[i] in now then 3 else 2
  {
    ProgressAt(before, now, stage, manifest, i);
  }

  /** One entry of the second loop: back up or note the target, then copy the staged file over it. */
  method InstallEntry(h: Host, stage: Tree, manifest: seq<Path>, i: nat, ghost before: Tree,
                      saved0: Tree, kept0: set<Path>, added0: set<Path>)
    returns (o: Outcome, saved: Tree, kept: set<Path>, added: set<Path>, ghost k: nat)
    requires i < |manifest| && forall q | q in manifest :: q in stage
    requires Progress(before, h.data, stage, manifest, i)
    requires Undoable(before, h.data, stage, manifest, i, saved0, kept0, added0)
    modifies h`tick, h`data
    ensures i <= k <= i + 1 && Undoable(before, h.data, stage, manifest, k, saved, kept, added)
    ensures Progress(before, h.data, stage, manifest, i) || Progress(before, h.data, stage, manifest, i + 1)
    ensures o == Done ==> k == i + 1 && Progress(before, h.data, stage, manifest, i + 1)
    ensures kept <= kept0 + {manifest[i]} && added <= added0 + {manifest[i]}
    ensures kept0 <= kept && added0 <= added
    ensures h.Cued() && h.failAt >= old(h.tick) + EntrySteps(before, manifest, i) ==>
              o == Done && h.tick == old(h.tick) + EntrySteps(before, manifest, i)
    ensures h.Cued() && h.failAt == old(h.tick) + EntrySteps(before, manifest, i) - 1 ==>
              o == Raised && k == i + 1 && h.tick == h.failAt + 1
    ensures h.tick >= old(h.tick) && (old(h.Smooth(h.status)) ==> o == Done && h.Smooth(h.status))
    ensures old(h.Trapped()) ==> h.Trapped() && h.Sprung(o)
    ensures h.Cued() ==> h.Excused(o)
  {
    hide Undoable, Progress, SameAt, Host.Trapped, Host.Smooth, Host.Next, Host.Cued, EntrySteps;
    PresentSteps(before, h.data, stage, manifest, i);
    saved, kept, added, k := saved0, kept0, added0, i;
    var p := manifest[i];
    o := h.Pass();                       // creating missing parent directories
    if o != Done { return; }
    if p in h.data {
      SavedKeepsUndoable(before, h.data, stage, manifest, i, saved, kept, kept + {p}, added);
      o, saved := h.SaveCopy(p, saved);
      if o != Done {
        if p in kept && saved != saved0 {
          assert kept + {p} == kept;
          k := i + 1;
        } else if saved != saved0 {
          UnrecordedCopy(before, h.data, stage, manifest, i, saved0, kept, added, p, h.data[p]);
        }
        return;
      }
      kept := kept + {p};
    } else {
      AddedKeepsUndoable(before, h.data, stage, manifest, i, saved, kept, added);
      added := added + {p};
    }
    k := i + 1;
    ghost var now := h.data;
    PutKeepsUndoable(before, now, stage, manifest, k, saved, kept, added, p, stage[p]);
    o := h.Put(p, stage[p]);
    assert manifest[..i + 1] == manifest[..i] + [p];
    ProgressStep(before, now, h.data, stage, manifest, i);
  }

  lemma ProgressStep(before: Tree, now: Tree, next: Tree, stage: Tree, manifest: seq<Path>, i: nat)
    requires i < |manifest| && forall q | q in manifest :: q in stage
    requires Progress(before, now, stage, manifest, i)
    requires next == now || next == now[manifest[i] := stage[manifest[i]]]
    ensures next == now[manifest[i] := stage[manifest[i]]] ==> Progress(before, next, stage, manifest, i + 1)
    ensures Progress(before, next, stage, manifest, i) || Progress(before, next, stage, manifest, i + 1)
  {
    assert manifest[..i + 1] == manifest[..i] + [manifest[i]];
  }

  /** Where the loop stands after `i` entries, and how it ends, when one step fails and no other. */
  ghost predicate OnSchedule(failAt: nat, start: nat, before: Tree, manifest: seq<Path>, i: nat, o: Outcome, k: nat,
                             tick: nat)
    requires i <= |manifest|
  {
    && (failAt >= start + StepsBefore(before, manifest, i) ==>
          o == Done && tick == start + StepsBefore(before, manifest, i))
    && forall j | 0 <= j < i && failAt == start + PutStep(before, manifest, j) ::
         o == Raised && k == j + 1 && tick == failAt + 1
  }

  /** When the step that fails is the one that puts an entry in place, the loop ends there. */
  ghost predicate EndsAtPut(failAt: nat, start: nat, before: Tree, manifest: seq<Path>, o: Outcome, k: nat, tick: nat) {
    forall j | 0 <= j < |manifest| && failAt == start + PutStep(before, manifest, j) ::
      o == Raised && k == j + 1 && tick == failAt + 1
  }

  lemma FailsBeforePut(failAt: nat, start: nat, before: Tree, manifest: seq<Path>, o: Outcome, k: nat, tick: nat)
    requires failAt < start
    ensures EndsAtPut(failAt, start, before, manifest, o, k, tick)
  {
  }

  lemma LaterBegun(failAt: nat, start: nat, begun: nat, before: Tree, manifest: seq<Path>, o: Outcome, k: nat,
                   tick: nat)
    requires (failAt >= start ==> begun == start) && EndsAtPut(failAt, begun, before, manifest, o, k, tick)
    ensures EndsAtPut(failAt, start, before, manifest, o, k, tick)
  {
  }

  lemma NoPutFailed(failAt: nat, start: nat, before: Tree, manifest: seq<Path>, k: nat, tick: nat, o: Outcome,
                    tick': nat)
    requires EndsAtPut(failAt, start, before, manifest, Done, k, tick)
    ensures EndsAtPut(failAt, start, before, manifest, o, k, tick')
  {
  }

  lemma ScheduleBegins(failAt: nat, start: nat, before: Tree, manifest: seq<Path>)
    ensures OnSchedule(failAt, start, before, manifest, 0, Done, 0, start)
  {
  }

  lemma NextOnSchedule(failAt: nat, start: nat, before: Tree, manifest: seq<Path>, i: nat, tick: nat, o: Outcome,
                       k: nat, tick': nat)
    requires i < |manifest| && OnSchedule(failAt, start, before, manifest, i, Done, i, tick)
    requires failAt >= tick + EntrySteps(before, manifest, i) ==>
               o == Done && tick' == tick + EntrySteps(before, manifest, i)
    requires failAt == tick + EntrySteps(before, manifest, i) - 1 ==> o == Raised && k == i + 1 && tick' == failAt + 1
    ensures OnSchedule(failAt, start, before, manifest, i + 1, o, k, tick')
  {
    forall j | 0 <= j < i + 1 && failAt == start + PutStep(before, manifest, j)
      ensures o == Raised && k == j + 1 && tick' == failAt + 1
    {
      assert j == i;
    }
  }

  lemma ScheduleEnds(failAt: nat, start: nat, before: Tree, manifest: seq<Path>, i: nat, o: Outcome, k: nat, tick: nat)
    requires i <= |manifest| && OnSchedule(failAt, start, before, manifest, i, o, k, tick)
    requires o == Done ==> i == |manifest|
    ensures EndsAtPut(failAt, start, before, manifest, o, k, tick)
  {
    forall j | 0 <= j < |manifest| && failAt == start + PutStep(before, manifest, j)
      ensures o == Raised && k == j + 1 && tick == failAt + 1
    {
      if i <= j { StepsGrow(before, manifest, i, j); }
    }
  }

  lemma NothingDone(before: Tree, stage: Tree, manifest: seq<Path>)
    requires forall q | q in manifest :: q in stage
    ensures Progress(before, before, stage, manifest, 0)
  {
  }

  method InstallFiles(h: Host, stage: Tree, manifest: seq<Path>, saved0: Tree, kept0: set<Path>)
    returns (o: Outcome, saved: Tree, kept: set<Path>, added: set<Path>, ghost k: nat)
    requires forall q | q in manifest :: q in stage
    requires Undoable(h.data, h.data, stage, manifest, 0, saved0, kept0, {})
    modifies h`tick, h`data
    ensures k <= |manifest| && Undoable(old(h.data), h.data, stage, manifest, k, saved, kept, added)
    ensures o == Done ==> k == |manifest| && Progress(old(h.data), h.data, stage, manifest, |manifest|)
    ensures exists i: nat | i <= |manifest| :: Progress(old(h.data), h.data, stage, manifest, i)
    ensures kept <= kept0 + PathSet(manifest) && added <= PathSet(manifest) && kept0 <= kept
    ensures h.Cued() ==> EndsAtPut(h.failAt, old(h.tick), old(h.data), manifest, o, k, h.tick)
    ensures h.tick >= old(h.tick) && (old(h.Smooth(h.status)) ==> o == Done && h.Smooth(h.status))
    ensures old(h.Trapped()) ==> h.Trapped() && h.Sprung(o)
    ensures h.Cued() ==> h.Excused(o)
  {
    hide Undoable, Progress, EndsAtPut, OnSchedule, Host.Cued, Host.Trapped, Host.Smooth;
    ghost var before := h.data;
    o, saved, kept, added, k := Done, saved0, kept0, {}, 0;
    NothingDone(before, stage, manifest);
    ScheduleBegins(h.failAt, h.tick, before, manifest);
    var i := 0;
    ghost var at := 0;
    while i < |manifest| && o == Done
      invariant i <= |manifest| && k <= i && at <= i
      invariant Undoable(before, h.data, stage, manifest, k, saved, kept, added)
      invariant Progress(before, h.data, stage, manifest, at)
      invariant o == Done ==> k == i == at
      invariant kept <= kept0 + PathSet(manifest) && added <= PathSet(manifest) && kept0 <= kept
      invariant h.Cued() ==> h.Excused(o)
      invariant h.Cued() ==> OnSchedule(h.failAt, old(h.tick), before, manifest, i, o, k, h.tick)
      invariant h.tick >= old(h.tick) && (old(h.Smooth(h.status)) ==> o == Done && h.Smooth(h.status))
      invariant (old(h.Trapped()) ==> h.Trapped() && h.Sprung(o))
    {
      ghost var tick := h.tick;
      o, saved, kept, added, k := InstallEntry(h, stage, manifest, i, before, saved, kept, added);
      if h.Cued() { NextOnSchedule(h.failAt, old(h.tick), before, manifest, i, tick, o, k, h.tick); }
      at := if Progress(before, h.data, stage, manifest, i + 1) then i + 1 else i;
      i := i + 1;
    }
    if h.Cued() { ScheduleEnds(h.failAt, old(h.tick), before, manifest, i, o, k, h.tick); }
  }

  lemma LessAgain(tree: Tree, gone: set<Path>, p: Path)
    ensures tree - gone - {p} == tree - (gone + {p})
  {
  }

  /** Third loop: the files that the manifest does not name are deleted. */
  method RemoveExtras(h: Host, extra: set<Path>) returns (o: Outcome, ghost gone: set<Path>)
    requires extra <= h.data.Keys
    modifies h`tick, h`data
    ensures gone <= extra && h.data == old(h.data) - gone
    ensures o == Done ==> gone == extra
    ensures h.tick >= old(h.tick) && (old(h.Smooth(h.status)) ==> o == Done && h.Smooth(h.status))
    ensures old(h.Trapped()) ==> h.Trapped() && h.Sprung(o)
    ensures h.Cued() ==> h.Excused(o)
  {
    hide Host.Trapped, Host.Smooth, Host.Next;
    o, gone := Done, {};
    var todo := extra;
    while todo != {}
      invariant o == Done && todo <= extra && gone == extra - todo && h.data == old(h.data) - gone
      invariant h.tick >= old(h.tick) && (old(h.Smooth(h.status)) ==> h.Smooth(h.status))
      invariant old(h.Trapped()) ==> h.Trapped()
      decreases |todo|
    {
      var p :| p in todo;
      assert p in h.data;
      LessAgain(old(h.data), gone, p);
      OneMoreDone(extra, todo, p);
      ghost var f := h.Next();
      o := h.Unlink(p, false);
      gone := if TakesEffect(f) then gone + {p} else gone;
      if o != Done { return; }
      todo := todo - {p};
    }
  }

  /** The undo steps that put the saved copies back. */
  method PutSavedBack(h: Host, saved: Tree, kept: set<Path>) returns (dead: bool, failed: bool)
    requires forall p | p in kept :: p in saved
    modifies h`tick, h`data
    ensures forall p | p !in kept :: SameAt(old(h.data), h.data, p)
    ensures forall p | p in kept :: SameAt(old(h.data), h.data, p) || SameAt(saved, h.data, p)
    ensures !dead && !failed ==> forall p | p in kept :: SameAt(saved, h.data, p)
    ensures h.tick >= old(h.tick) && (old(h.Smooth(h.status)) ==> !dead && !failed && h.Smooth(h.status))
  {
    hide Host.Trapped, Host.Smooth, Host.Next;
    dead, failed := false, false;
    var todo := kept;
    while todo != {} && !dead
      invariant todo <= kept
      invariant forall p | p !in kept :: SameAt(old(h.data), h.data, p)
      invariant forall p | p in kept :: SameAt(old(h.data), h.data, p) || SameAt(saved, h.data, p)
      invariant !dead && !failed ==> forall p | p in kept - todo :: p in h.data && h.data[p] == saved[p]
      invariant h.tick >= old(h.tick) && (old(h.Smooth(h.status)) ==> !dead && !failed && h.Smooth(h.status))
      decreases |todo|
    {
      var p :| p in todo;
      todo := todo - {p};
      var o := h.Put(p, saved[p]);
      dead, failed := o == Dead, failed || o == Raised;
    }
  }

  /** The undo steps that remove what was added. */
  method RemoveAdded(h: Host, added: set<Path>) returns (dead: bool, failed: bool)
    modifies h`tick, h`data
    ensures forall p | p !in added :: SameAt(old(h.data), h.data, p)
    ensures forall p | p in added :: SameAt(old(h.data), h.data, p) || p !in h.data
    ensures !dead && !failed ==> forall p | p in added :: p !in h.data
    ensures h.tick >= old(h.tick) && (old(h.Smooth(h.status)) ==> !dead && !failed && h.Smooth(h.status))
  {
    hide Host.Trapped, Host.Smooth, Host.Next;
    dead, failed := false, false;
    var todo := added;
    while todo != {} && !dead
      invariant todo <= added
      invariant forall p | p !in added :: SameAt(old(h.data), h.data, p)
      invariant forall p | p in added :: SameAt(old(h.data), h.data, p) || p !in h.data
      invariant !dead && !failed ==> forall p | p in added - todo :: p !in h.data
      invariant h.tick >= old(h.tick) && (old(h.Smooth(h.status)) ==> !dead && !failed && h.Smooth(h.status))
      decreases |todo|
    {
      var p :| p in todo;
      todo := todo - {p};
      var o := h.Unlink(p, true);
      dead, failed := o == Dead, failed || o == Raised;
    }
  }

  /** The undo steps: each runs whatever the others did; `failed` says that one of them raised. */
  method Undo(h: Host, saved: Tree, kept: set<Path>, added: set<Path>) returns (dead: bool, failed: bool)
    requires forall p | p in kept :: p in saved
    modifies h`tick, h`data
    ensures forall p | p !in kept && p !in added :: SameAt(old(h.data), h.data, p)
    ensures forall p | p in kept ::
              SameAt(old(h.data), h.data, p) || SameAt(saved, h.data, p) || (p in added && p !in h.data)
    ensures forall p | p in added && p !in kept :: SameAt(old(h.data), h.data, p) || p !in h.data
    ensures !dead && !failed ==> forall p | p in added :: p !in h.data
    ensures !dead && !failed ==> forall p | p in kept && p !in added :: p in h.data && h.data[p] == saved[p]
    ensures h.tick >= old(h.tick) && (old(h.Smooth(h.status)) ==> !dead && !failed && h.Smooth(h.status))
  {
    hide Host.Trapped, Host.Smooth, Host.Next;
    dead, failed := PutSavedBack(h, saved, kept);
    if !dead {
      var raised;
      dead, raised := RemoveAdded(h, added);
      failed := failed || raised;
    }
  }

  /** The first two loops, with the undo log they leave behind. */
  method SaveAndInstall(h: Host, stage: Tree, manifest: seq<Path>, extra: set<Path>)
    returns (o: Outcome, saved: Tree, kept: set<Path>, added: set<Path>, ghost k: nat)
    requires forall q | q in manifest :: q in stage
    requires extra <= h.data.Keys && extra !! PathSet(manifest)
    modifies h`tick, h`data
    ensures k <= |manifest| && Undoable(old(h.data), h.data, stage, manifest, k, saved, kept, added)
    ensures o == Done ==> extra <= kept && Progress(old(h.data), h.data, stage, manifest, |manifest|)
    ensures Between(old(h.data), h.data, stage, manifest, extra)
    ensures kept + added <= extra + PathSet(manifest)
    ensures h.Cued() ==> EndsAtPut(h.failAt, old(h.tick) + |extra|, old(h.data), manifest, o, k, h.tick)
    ensures h.tick >= old(h.tick) && (old(h.Smooth(h.status)) ==> o == Done && h.Smooth(h.status))
    ensures old(h.Trapped()) ==> h.Trapped() && h.Sprung(o)
    ensures h.Cued() ==> h.Excused(o)
  {
    hide Copied, Undoable, Progress, Between, SameAt, PathSet, Host.Trapped, Host.Smooth, Host.Sprung, Host.Cued,
      EndsAtPut;
    ghost var before, start := h.data, h.tick + |extra|;
    added, k := {}, 0;
    o, saved, kept := SaveExtras(h, extra);
    NothingToUndo(before, stage, manifest, extra, saved, kept);
    if o != Done {
      if h.Cued() { FailsBeforePut(h.failAt, start, before, manifest, o, k, h.tick); }
      return;
    }
    ghost var begun := h.tick;
    o, saved, kept, added, k := InstallFiles(h, stage, manifest, saved, kept);
    if h.Cued() { LaterBegun(h.failAt, start, begun, before, manifest, o, k, h.tick); }
    ProgressIsBetween(before, h.data, stage, manifest, extra);
  }

  /** `try`: the three loops. */
  method RestoreForward(h: Host, stage: Tree, manifest: seq<Path>, extra: set<Path>)
    returns (o: Outcome, saved: Tree, kept: set<Path>, added: set<Path>, ghost k: nat)
    requires forall q | q in manifest :: q in stage
    requires extra <= h.data.Keys && extra !! PathSet(manifest)
    modifies h`tick, h`data
    ensures k <= |manifest| && Undoable(old(h.data), h.data, stage, manifest, k, saved, kept, added)
    ensures o == Done ==> h.data == Installed(old(h.data), stage, manifest, extra)
    ensures Between(old(h.data), h.data, stage, manifest, extra)
    ensures kept + added <= extra + PathSet(manifest)
    ensures h.Cued() ==> EndsAtPut(h.failAt, old(h.tick) + |extra|, old(h.data), manifest, o, k, h.tick)
    ensures h.tick >= old(h.tick) && (old(h.Smooth(h.status)) ==> o == Done && h.Smooth(h.status))
    ensures old(h.Trapped()) ==> h.Trapped() && h.Sprung(o)
    ensures h.Cued() ==> h.Excused(o)
  {
    hide Copied, Undoable, Progress, Between, Installed, SameAt, PathSet, Host.Trapped, Host.Smooth, Host.Sprung,
      Host.Cued, EndsAtPut;
    ghost var before, start := h.data, h.tick + |extra|;
    o, saved, kept, added, k := SaveAndInstall(h, stage, manifest, extra);
    if o != Done { return; }
    ghost var installed, tick := h.data, h.tick;
    ExtrasStay(before, installed, stage, manifest, extra);
    ghost var gone;
    o, gone := RemoveExtras(h, extra);
    if h.Cued() { NoPutFailed(h.failAt, start, before, manifest, k, tick, o, h.tick); }
    if o == Done {
      InstalledThenRemoved(before, installed, h.data, stage, manifest, extra);
    }
    RemovalIsBetween(before, installed, h.data, stage, manifest, extra, gone);
    RemovalIsUndoable(before, installed, h.data, stage, manifest, k, saved, kept, added, gone);
  }

  /** The saved copies alone. */
  lemma NothingToUndo(before: Tree, stage: Tree, manifest: seq<Path>, extra: set<Path>, saved: Tree, kept: set<Path>)
    requires (forall q | q in manifest :: q in stage) && kept <= before.Keys && Copied(before, saved, kept)
    ensures Undoable(before, before, stage, manifest, 0, saved, kept, {})
    ensures Between(before, before, stage, manifest, extra)
  {
  }

  lemma ExtrasStay(before: Tree, installed: Tree, stage: Tree, manifest: seq<Path>, extra: set<Path>)
    requires (forall q | q in manifest :: q in stage) && extra <= before.Keys && extra !! PathSet(manifest)
    requires Progress(before, installed, stage, manifest, |manifest|)
    ensures extra <= installed.Keys
  {
    assert manifest[..|manifest|] == manifest;
    forall p | p in extra ensures p in installed { assert SameAt(before, installed, p); }
  }

  lemma RemovalIsUndoable(before: Tree, installed: Tree, now: Tree, stage: Tree, manifest: seq<Path>, k: nat,
                          saved: Tree, kept: set<Path>, added: set<Path>, gone: set<Path>)
    requires forall q | q in manifest :: q in stage
    requires Undoable(before, installed, stage, manifest, k, saved, kept, added)
    requires now == installed - gone && gone <= kept
    ensures Undoable(before, now, stage, manifest, k, saved, kept, added)
  {
    hide Doubled;
    forall p | p !in kept && p !in added ensures SameAt(before, now, p) { assert SameAt(before, installed, p); }
  }

  lemma ProgressIsBetween(before: Tree, now: Tree, stage: Tree, manifest: seq<Path>, extra: set<Path>)
    requires forall q | q in manifest :: q in stage
    requires exists i: nat | i <= |manifest| :: Progress(before, now, stage, manifest, i)
    ensures Between(before, now, stage, manifest, extra)
  {
    var i: nat :| i <= |manifest| && Progress(before, now, stage, manifest, i);
    forall p ensures SameAt(before, now, p) || (p in manifest && SameAt(stage, now, p)) {
      if p in manifest[..i] { assert p in manifest; }
    }
  }

  lemma RemovalIsBetween(before: Tree, installed: Tree, now: Tree, stage: Tree, manifest: seq<Path>, extra: set<Path>,
                         gone: set<Path>)
    requires Between(before, installed, stage, manifest, extra) && now == installed - gone && gone <= extra
    ensures Between(before, now, stage, manifest, extra)
  {
    forall p ensures SameAt(before, now, p) || (p in manifest && SameAt(stage, now, p)) || (p in extra && p !in now) {
      assert SameAt(installed, now, p) || (p in extra && p !in now);
    }
  }

  lemma UndoIsBetween(before: Tree, now: Tree, final: Tree, stage: Tree, manifest: seq<Path>, extra: set<Path>, k: nat,
                      saved: Tree, kept: set<Path>, added: set<Path>)
    requires forall q | q in manifest :: q in stage
    requires Between(before, now, stage, manifest, extra)
    requires Undoable(before, now, stage, manifest, k, saved, kept, added)
    requires forall p | p !in kept && p !in added :: SameAt(now, final, p)
    requires forall p | p in kept :: SameAt(now, final, p) || SameAt(saved, final, p) || (p in added && p !in final)
    requires forall p | p in added && p !in kept :: SameAt(now, final, p) || p !in final
    ensures Between(before, final, stage, manifest, extra)
  {
    forall p
      ensures SameAt(before, final, p) || (p in manifest && SameAt(stage, final, p)) || (p in extra && p !in final)
    {
      if SameAt(now, final, p) {
        assert SameAt(before, now, p) || (p in manifest && SameAt(stage, now, p)) || (p in extra && p !in now);
      } else if p in kept && SameAt(saved, final, p) && p in before && Doubled(manifest, k, p) {
        var i, j :| 0 <= i < j < k && j < |manifest| && manifest[i] == p && manifest[j] == p;
        assert p in manifest;
      }
    }
  }

  lemma InstalledThenRemoved(before: Tree, installed: Tree, final: Tree, stage: Tree, manifest: seq<Path>,
                             extra: set<Path>)
    requires (forall q | q in manifest :: q in stage) && extra !! PathSet(manifest)
    requires Progress(before, installed, stage, manifest, |manifest|) && final == installed - extra
    ensures final == Installed(before, stage, manifest, extra)
  {
    assert manifest[..|manifest|] == manifest;
    var target := Installed(before, stage, manifest, extra);
    forall p ensures SameAt(final, target, p) {
      if p !in manifest { assert SameAt(before, installed, p); }
    }
    assert final.Keys == target.Keys by {
      forall p ensures p in final.Keys <==> p in target.Keys { assert SameAt(final, target, p); }
    }
    forall p | p in final ensures final[p] == target[p] { assert SameAt(final, target, p); }
  }

  lemma SavedForUndo(before: Tree, now: Tree, stage: Tree, manifest: seq<Path>, k: nat, saved: Tree, kept: set<Path>,
                     added: set<Path>)
    requires (forall q | q in manifest :: q in stage) && Undoable(before, now, stage, manifest, k, saved, kept, added)
    ensures forall p | p in kept :: p in saved
  {
  }

  /**
    `_restore_staged_files`. On success the tree is the staged one on top of what was not to be removed.
    When a step raises and the undo steps work, the tree is `AfterUndo` of the earlier one, which is the
    earlier one itself unless the manifest names one existing file twice (`UndoIsExact`).
   */
  method RestoreStagedFiles(h: Host, stage: Tree, manifest: seq<Path>, extra: set<Path>)
    returns (o: Outcome, undone: bool, ghost k: nat)
    requires forall q | q in manifest :: q in stage
    requires extra <= h.data.Keys && extra !! PathSet(manifest)
    modifies h`tick, h`data
    ensures o == Done ==> h.data == Installed(old(h.data), stage, manifest, extra)
    ensures o == Raised && undone ==> k <= |manifest| && h.data == AfterUndo(old(h.data), stage, manifest, k)
    ensures o == Raised && undone && NoAliasedOverwrite(old(h.data), stage, manifest) ==> h.data == old(h.data)
    ensures Between(old(h.data), h.data, stage, manifest, extra)
    ensures forall j | 0 <= j < |manifest| && h.Cued()
                && h.failAt == old(h.tick) + |extra| + PutStep(old(h.data), manifest, j) ::
              o == Raised && undone && k == j + 1
    ensures h.tick >= old(h.tick) && (old(h.Smooth(h.status)) ==> o == Done && h.Smooth(h.status))
    ensures old(h.Trapped()) ==> h.Trapped() && h.Sprung(o)
    ensures h.Cued() ==> h.Excused(o)
  {
    hide Undoable, Between, Installed, SameAt, PutStep, NoAliasedOverwrite, AfterUndo;
    ghost var before := h.data;
    var saved, kept, added;
    undone := false;
    o, saved, kept, added, k := RestoreForward(h, stage, manifest, extra);
    if o == Raised {
      ghost var now := h.data;
      if h.Cued() { h.SpentFault(); }
      SavedForUndo(before, now, stage, manifest, k, saved, kept, added);
      var dead, failed := Undo(h, saved, kept, added);
      o, undone := if dead then Dead else Raised, !failed;
      if !dead && !failed {
        UndoneIsAfterUndo(before, now, h.data, stage, manifest, k, saved, kept, added);
        UndoIsExact(before, stage, manifest);
      }
      UndoIsBetween(before, now, h.data, stage, manifest, extra, k, saved, kept, added);
    }
  }
}
