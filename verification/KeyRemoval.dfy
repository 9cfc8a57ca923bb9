/** What a deletion removes, and what a load cleans up. */
module KeyRemoval {

  import opened Collections
  import opened TextOrder
  import opened Faults
  import opened KeyDeletion
  import opened KeyRecovery

  // ----- what the metadata and the directory are like after a deletion

  /** The metadata has lost this one key and is otherwise as before, in its order. */
  ghost predicate OneLess(keys: seq<Key>, i: nat, keys': seq<Key>) {
    i < |keys| && keys' == keys[..i] + keys[i + 1..]
  }

  lemma {:induction false} FoundAt(keys: seq<Key>, id: string) returns (i: nat)
    requires ValidKeys(keys) && Find(keys, id).Some?
    ensures i < |keys| && keys[i].id == id && Find(keys, id) == Some(keys[i].filename)
    ensures OneLess(keys, i, Without(keys, id))
  {
    hide ValidKeys, OneLess;
    TailIsValid(keys);
    if keys[0].id == id {
      FirstIsUnique(keys);
      WithoutAbsent(keys[1..], id);
      i := 0;
    } else {
      i := FoundAt(keys[1..], id);
      OneLessLater(keys, i, Without(keys[1..], id));
      i := i + 1;
    }
  }

  lemma TailIsValid(keys: seq<Key>)
    requires ValidKeys(keys) && keys != []
    ensures ValidKeys(keys[1..]) && OneLess(keys, 0, keys[1..])
  {
    assert keys[..0] + keys[1..] == keys[1..];
    forall k | k in keys[1..] ensures k in keys {}
  }

  lemma OneLessLater(keys: seq<Key>, j: nat, rest: seq<Key>)
    requires keys != [] && OneLess(keys[1..], j, rest)
    ensures OneLess(keys, j + 1, [keys[0]] + rest)
  {
    assert keys[..j + 1] == [keys[0]] + keys[1..][..j] && keys[j + 2..] == keys[1..][j + 1..];
  }

  lemma LoadIsValid(files: Files, keys: seq<Key>, fates: Fates, tick: nat)
    ensures Load(files, keys, fates, tick).o == Done ==> ValidKeys(keys)
  {
    hide Entries;
  }

  /** A finished deletion: the file is gone, and its staged name unless the removal failed. */
  lemma FinishRemoves(files: Files, keys: seq<Key>, id: string, g: Name, p: Name, fates: Fates, tick: nat)
    requires p !in files && p != g
    ensures var staged := if g in files then Moved(files, g, p) else files;
            var d := Finish(staged, keys, id, g in files, g, p, fates, tick);
            && (d.deleted ==> d.o == Done && d.keys == Without(keys, id) && g !in d.files)
            && (d.deleted && p in d.files ==> fates(d.tick - 1) == Fails)
            && (!d.deleted && d.o != Dead ==>
                  d.keys == keys || (d.keys == Without(keys, id) && fates(tick) == FailsLate))
            && (d.keys == keys || d.keys == Without(keys, id)) && tick < d.tick
            && (ValidKeys(Without(keys, id)) && fates(tick) == Works && fates(tick + 1) == Works ==> d.deleted)
  {
    hide ValidKeys, Without;
  }

  /**
    When a deletion reports success, the id was in the metadata, exactly this key has left it, its file is gone,
    and so is the staged name unless the removal of that failed.
   */
  lemma DeletedMeans(files: Files, keys: seq<Key>, id: string, token: string, fates: Fates, tick: nat) returns (i: nat)
    requires FreshToken(token, files, Refs(keys)) && Delete(files, keys, id, token, fates, tick).deleted
    ensures var d := Delete(files, keys, id, token, fates, tick);
            && d.o == Done && OneLess(keys, i, d.keys) && keys[i].id == id && keys[i].filename !in d.files
            && (forall k | k in d.keys :: k.id != id)
            && (StagedName(token, keys[i].filename) in d.files ==> d.tick > 0 && fates(d.tick - 1) == Fails)
  {
    hide Load, Stage, Finish, StagedName, FreshToken, Refs, ValidKeys;
    var loaded := Load(files, keys, fates, tick);
    LoadIsValid(files, keys, fates, tick);
    i := FoundAt(keys, id);
    RemovedId(keys, id);
    var g := keys[i].filename;
    var p := StagedName(token, g);
    LoadShrinks(files, keys, fates, tick);
    FoundIsReferenced(keys, id);
    StagedIsFresh(token, files, loaded.files, Refs(keys), g);
    StageDoneLeaves(loaded.files, g, p, fates, loaded.tick);
    var r := Stage(loaded.files, g, p, fates, loaded.tick);
    FinishRemoves(loaded.files, keys, id, g, p, fates, r.tick);
  }

  lemma {:induction false} RemovedId(keys: seq<Key>, id: string)
    ensures forall k | k in Without(keys, id) :: k.id != id
  {
    if keys != [] { RemovedId(keys[1..], id); }
  }

  lemma OneLessAt(keys: seq<Key>, i: nat, next: seq<Key>)
    requires OneLess(keys, i, next)
    ensures |next| == |keys| - 1
    ensures forall j | 0 <= j < |next| :: next[j] == keys[if j < i then j else j + 1]
  {
  }

  lemma OneLessIsValid(keys: seq<Key>, i: nat, next: seq<Key>)
    requires ValidKeys(keys) && OneLess(keys, i, next)
    ensures ValidKeys(next)
  {
    OneLessAt(keys, i, next);
    hide OneLess, SafeFilename;
    forall k | k in next ensures SafeFilename(k.filename) {
      var j :| 0 <= j < |next| && next[j] == k;
      assert k in keys;
    }
  }

  lemma WithoutIsValid(keys: seq<Key>, id: string)
    requires ValidKeys(keys) && Find(keys, id).Some?
    ensures ValidKeys(Without(keys, id))
  {
    hide ValidKeys, OneLess, Without, Find;
    var i := FoundAt(keys, id);
    OneLessIsValid(keys, i, Without(keys, id));
  }

  /** A deletion in which nothing goes wrong deletes every key that valid metadata has. */
  lemma SmoothDeletes(files: Files, keys: seq<Key>, id: string, token: string, fates: Fates, tick: nat)
    requires FreshToken(token, files, Refs(keys)) && ValidKeys(keys) && forall k | tick <= k :: fates(k) == Works
    ensures Delete(files, keys, id, token, fates, tick).deleted <==> Find(keys, id).Some?
  {
    hide Load, Stage, Finish, StagedName, FreshToken, Refs, ValidKeys;
    var loaded := Load(files, keys, fates, tick);
    LoadAllWorks(files, keys, fates, tick);
    LoadTakesTime(files, keys, fates, tick);
    if Find(keys, id).Some? {
      var g := Find(keys, id).value;
      var p := StagedName(token, g);
      FoundIsReferenced(keys, id);
      LoadShrinks(files, keys, fates, tick);
      StagedIsFresh(token, files, loaded.files, Refs(keys), g);
      StageWorks(loaded.files, g, p, fates, loaded.tick);
      var r := Stage(loaded.files, g, p, fates, loaded.tick);
      StageDoneLeaves(loaded.files, g, p, fates, loaded.tick);
      WithoutIsValid(keys, id);
      FinishRemoves(loaded.files, keys, id, g, p, fates, r.tick);
    }
  }

  lemma StageWorks(files: Files, g: Name, p: Name, fates: Fates, tick: nat)
    requires forall k | tick <= k :: fates(k) == Works
    ensures Stage(files, g, p, fates, tick).o == Done && tick <= Stage(files, g, p, fates, tick).tick
  {
  }

  lemma {:induction false} EntriesTakeTime(files: Files, refs: set<Name>, list: seq<Name>, fates: Fates, tick: nat)
    ensures tick <= Entries(files, refs, list, fates, tick).tick
    decreases |list|
  {
    if list != [] {
      hide PendingFilename;
      var r := Settle(files, refs, list[0], fates(tick), tick);
      if r.o == Done { EntriesTakeTime(r.files, refs, list[1..], fates, r.tick); }
    }
  }

  lemma LoadTakesTime(files: Files, keys: seq<Key>, fates: Fates, tick: nat)
    ensures tick <= Load(files, keys, fates, tick).tick
  {
    hide Entries, ValidKeys;
    EntriesTakeTime(files, Refs(keys), Scan(files), fates, tick + 2);
  }

  /**
    A deletion that does not report success, and has not died, leaves the metadata as it was, unless the save was
    written and reported as failed: then the key is out of it. A death leaves one of the two.
   */
  lemma NotDeletedMeans(files: Files, keys: seq<Key>, id: string, token: string, fates: Fates, tick: nat)
    requires FreshToken(token, files, Refs(keys)) && !Delete(files, keys, id, token, fates, tick).deleted
    ensures var d := Delete(files, keys, id, token, fates, tick);
            || d.keys == keys
            || ((d.o == Dead || exists t :: tick <= t < d.tick && fates(t) == FailsLate)
                && exists i: nat :: OneLess(keys, i, d.keys) && keys[i].id == id)
  {
    hide Load, Stage, Finish, StagedName, FreshToken, Refs, ValidKeys;
    var loaded, d := Load(files, keys, fates, tick), Delete(files, keys, id, token, fates, tick);
    LoadIsValid(files, keys, fates, tick);
    LoadTakesTime(files, keys, fates, tick);
    if d.keys != keys {
      var g := Find(keys, id).value;
      var p := StagedName(token, g);
      var i := FoundAt(keys, id);
      LoadShrinks(files, keys, fates, tick);
      FoundIsReferenced(keys, id);
      StagedIsFresh(token, files, loaded.files, Refs(keys), g);
      StageDoneLeaves(loaded.files, g, p, fates, loaded.tick);
      StageTakesTime(loaded.files, g, p, fates, loaded.tick);
      var r := Stage(loaded.files, g, p, fates, loaded.tick);
      FinishRemoves(loaded.files, keys, id, g, p, fates, r.tick);
      assert OneLess(keys, i, d.keys);
    }
  }

  lemma StageTakesTime(files: Files, g: Name, p: Name, fates: Fates, tick: nat)
    ensures tick <= Stage(files, g, p, fates, tick).tick
  {
  }

  /** The step at which a deletion saves the metadata: its load and its staging have returned by then. */
  ghost predicate SavesAt(files: Files, keys: seq<Key>, id: string, token: string, fates: Fates, tick: nat, save: nat) {
    var loaded := Load(files, keys, fates, tick);
    && loaded.o == Done && Find(keys, id).Some?
    && var g := Find(keys, id).value;
    var staged := Stage(loaded.files, g, StagedName(token, g), fates, loaded.tick);
    staged.o == Done && staged.tick == save
  }

  lemma SaveDecides(files: Files, keys: seq<Key>, id: string, staged: bool, g: Name, p: Name, fates: Fates, tick: nat)
    requires ValidKeys(Without(keys, id)) && Without(keys, id) != keys
    ensures var d := Finish(files, keys, id, staged, g, p, fates, tick);
            d.o != Dead ==> (!d.deleted && d.keys != keys <==> fates(tick) == FailsLate)
  {
    hide ValidKeys, Without;
  }

  /**
    A deletion that comes to its save and does not die takes the key out of the metadata without reporting it exactly
    if the save was written and reported as failed.
   */
  lemma LostIffLateSave(files: Files, keys: seq<Key>, id: string, token: string, fates: Fates, tick: nat, save: nat)
    requires SavesAt(files, keys, id, token, fates, tick, save)
    requires Delete(files, keys, id, token, fates, tick).o != Dead
    ensures var d := Delete(files, keys, id, token, fates, tick);
            !d.deleted && d.keys != keys <==> fates(save) == FailsLate
  {
    hide Load, Stage, Finish, StagedName, Refs, ValidKeys;
    LoadIsValid(files, keys, fates, tick);
    WithoutIsValid(keys, id);
    var i := FoundAt(keys, id);
    var loaded, g := Load(files, keys, fates, tick), Find(keys, id).value;
    var p := StagedName(token, g);
    SaveDecides(Stage(loaded.files, g, p, fates, loaded.tick).files, keys, id, g in loaded.files, g, p, fates, save);
  }

  // ----- what a load cleans up

  lemma {:induction false} EntriesClean(files: Files, refs: set<Name>, list: seq<Name>, fates: Fates, tick: nat)
    requires forall k | tick <= k :: fates(k) == Works
    ensures forall n | n in list && n !in refs && PendingFilename(n).Some? ::
              n !in Entries(files, refs, list, fates, tick).files
    decreases |list|
  {
    if list != [] {
      hide PendingFilename;
      var r := Settle(files, refs, list[0], fates(tick), tick);
      EntriesClean(r.files, refs, list[1..], fates, r.tick);
      EntriesShrink(r.files, refs, list[1..], fates, r.tick);
      assert list == [list[0]] + list[1..];
    }
  }

  /** After a load in which nothing goes wrong no staged entry is left, but for names that keys of the metadata have. */
  lemma SmoothLoadCleans(files: Files, keys: seq<Key>, fates: Fates, tick: nat)
    requires ValidKeys(keys) && forall k | tick <= k :: fates(k) == Works
    ensures var r := Load(files, keys, fates, tick);
            r.o == Done && forall n | n in r.files && PendingFilename(n).Some? :: n in Refs(keys)
  {
    hide Entries, PendingFilename, Refs, ValidKeys;
    LoadAllWorks(files, keys, fates, tick);
    EntriesClean(files, Refs(keys), Scan(files), fates, tick + 2);
    EntriesShrink(files, Refs(keys), Scan(files), fates, tick + 2);
    var r := Load(files, keys, fates, tick);
    forall n | n in r.files && PendingFilename(n).Some? ensures n in Refs(keys) {
      assert n in Refs(keys) || n in Scan(files);
    }
  }
}
