/**
  Staged deletion of stored SSH keys and its reconciliation (`app/key_manager.py`). A fate for every single
  step covers every failure and every death of the process.
 */
module KeyDeletion {

  import opened Collections
  import opened TextOrder
  import opened Faults

  type Name = string
  type Bytes = string

  // ----- names

  const STAGING_PREFIX: string := ".delete-"
  const TOKEN_LENGTH: nat := 32

  predicate SafeFilename(name: Name) {
    name != "" && name !in {".", "..", "keys.json"} && '/' !in name && '\\' !in name && '\0' !in name
  }

  predicate IsToken(token: string) { |token| == TOKEN_LENGTH && forall i | 0 <= i < |token| :: IsHex(token[i]) }

  function StagedName(token: string, name: Name): Name { STAGING_PREFIX + token + "-" + name }

  /** Where the first dash is, or the length. */
  function FirstDash(s: string): (n: nat)
    ensures n <= |s| && (n < |s| ==> s[n] == '-') && forall i | 0 <= i < n :: s[i] != '-'
  {
    if s == "" then 0 else if s[0] == '-' then 0 else 1 + FirstDash(s[1..])
  }

  /** The filename that a staged name stands for. */
  function PendingFilename(name: Name): Option<Name> {
    if !(STAGING_PREFIX <= name) then None
    else
      var rest := name[|STAGING_PREFIX|..];
      var n := FirstDash(rest);
      if n == |rest| || !IsToken(rest[..n]) || !SafeFilename(rest[n + 1..]) then None else Some(rest[n + 1..])
  }

  /** A staged name parses back to its filename, and every name that parses is a staged name. */
  lemma StagedNameParses(token: string, name: Name)
    requires IsToken(token) && SafeFilename(name)
    ensures PendingFilename(StagedName(token, name)) == Some(name)
  {
    var whole := StagedName(token, name);
    var rest := whole[|STAGING_PREFIX|..];
    assert rest == token + "-" + name;
    assert rest[|token|] == '-' && forall i | 0 <= i < |token| :: rest[i] == token[i] && IsHex(rest[i]);
    assert FirstDash(rest) == |token|;
    assert rest[..|token|] == token && rest[|token| + 1..] == name;
  }

  lemma ParsedIsStaged(name: Name) returns (token: string)
    requires PendingFilename(name).Some?
    ensures IsToken(token) && SafeFilename(PendingFilename(name).value)
    ensures name == StagedName(token, PendingFilename(name).value)
  {
    var rest := name[|STAGING_PREFIX|..];
    var n := FirstDash(rest);
    token := rest[..n];
    assert rest == rest[..n] + "-" + rest[n + 1..];
  }

  // ----- what each step does

  datatype Key = Key(id: string, filename: Name)

  type Files = map<Name, Bytes>
  type Fates = nat -> Fate

  function Refs(keys: seq<Key>): set<Name> { set k | k in keys :: k.filename }

  predicate ValidKeys(keys: seq<Key>) {
    && (forall k | k in keys :: SafeFilename(k.filename))
    && (forall i, j | 0 <= i < j < |keys| :: keys[i].id != keys[j].id && keys[i].filename != keys[j].filename)
  }

  function Without(keys: seq<Key>, id: string): seq<Key> {
    if keys == [] then [] else (if keys[0].id == id then [] else [keys[0]]) + Without(keys[1..], id)
  }

  function Find(keys: seq<Key>, id: string): Option<Name> {
    if keys == [] then None else if keys[0].id == id then Some(keys[0].filename) else Find(keys[1..], id)
  }

  function Moved(files: Files, source: Name, target: Name): Files
    requires source in files
  {
    (files - {source})[target := files[source]]
  }

  /** A step that has been run: the files it leaves, how it ended, and the next fate. */
  datatype Ran = Ran(files: Files, o: Outcome, tick: nat)

  function Unless(fate: Fate, o: Outcome): Outcome { if OutcomeOf(fate) == Dead then Dead else o }

  /** `_replace_key_entry` */
  function Move(files: Files, source: Name, target: Name, fate: Fate, tick: nat): Ran {
    if source !in files then Ran(files, Unless(fate, Raised), tick + 1)
    else Ran(if TakesEffect(fate) then Moved(files, source, target) else files, OutcomeOf(fate), tick + 1)
  }

  /** `_remove_pending_key_entry`: a failure is only logged. */
  function Drop(files: Files, n: Name, fate: Fate, tick: nat): Ran {
    Ran(if TakesEffect(fate) then files - {n} else files, Unless(fate, Done), tick + 1)
  }

  /** One staged entry: leave a referenced name alone, drop what is not needed, move the rest back. */
  function Settle(files: Files, refs: set<Name>, n: Name, fate: Fate, tick: nat): Ran {
    if n in refs || n !in files || PendingFilename(n).None? then Ran(files, Done, tick + 1)
    else
      var g := PendingFilename(n).value;
      if g !in refs || g in files then Drop(files, n, fate, tick) else Move(files, n, g, fate, tick)
  }

  /** The loop of `_reconcile_pending_key_deletions` over its sorted entries. */
  function Entries(files: Files, refs: set<Name>, list: seq<Name>, fates: Fates, tick: nat): Ran
    decreases |list|
  {
    if list == [] then Ran(files, Done, tick)
    else
      var r := Settle(files, refs, list[0], fates(tick), tick);
      if r.o != Done then r else Entries(r.files, refs, list[1..], fates, r.tick)
  }

  ghost function SortSet(names: set<Name>): (list: seq<Name>)
    ensures Sorted(list) && forall n :: n in list <==> n in names
  {
    if names == {} then []
    else
      var n :| n in names;
      InsertHolds(SortSet(names - {n}), n);
      Insert(SortSet(names - {n}), n)
  }

  /** The staged entries of the directory, sorted. */
  ghost function Scan(files: Files): seq<Name> { SortSet(set n | n in files && PendingFilename(n).Some?) }

  /** `_load_keys_with_lock_held` */
  ghost function Load(files: Files, keys: seq<Key>, fates: Fates, tick: nat): Ran {
    if fates(tick) != Works || !ValidKeys(keys) then Ran(files, Unless(fates(tick), Raised), tick + 1)
    else if fates(tick + 1) != Works then Ran(files, Unless(fates(tick + 1), Raised), tick + 2)
    else Entries(files, Refs(keys), Scan(files), fates, tick + 2)
  }

  /** `_stage_key_deletion`: on a failure the file is moved back if it has moved, as far as possible. */
  function Stage(files: Files, g: Name, p: Name, fates: Fates, tick: nat): Ran {
    if g !in files then Ran(files, Done, tick)
    else
      var r := Move(files, g, p, fates(tick), tick);
      if r.o == Raised && p in r.files && g !in r.files then
        var back := Move(r.files, p, g, fates(r.tick), r.tick);
        Ran(back.files, Unless(fates(r.tick), Raised), back.tick)
      else r
  }

  /** `_rollback_key_deletion` */
  function RollBack(files: Files, staged: bool, g: Name, p: Name, fates: Fates, tick: nat): Ran {
    if !staged || p !in files then Ran(files, Done, tick)
    else if g in files then Drop(files, p, fates(tick), tick)
    else
      var r := Move(files, p, g, fates(tick), tick);
      r.(o := Unless(fates(tick), Done))
  }

  datatype Deletion = Deletion(files: Files, keys: seq<Key>, o: Outcome, deleted: bool, tick: nat)

  /** `delete_key` from the staged file on; a save that reports an error may have been written. */
  function Finish(files: Files, keys: seq<Key>, id: string, staged: bool, g: Name, p: Name, fates: Fates,
                  tick: nat): Deletion {
    var next := Without(keys, id);
    var f := fates(tick);
    var written := if ValidKeys(next) && TakesEffect(f) then next else keys;
    if OutcomeOf(f) == Dead then Deletion(files, written, Dead, false, tick + 1)
    else if !ValidKeys(next) || f != Works then
      var r := RollBack(files, staged, g, p, fates, tick + 1);
      Deletion(r.files, written, r.o, false, r.tick)
    else if staged then
      var r := Drop(files, p, fates(tick + 1), tick + 1);
      Deletion(r.files, written, r.o, r.o == Done, r.tick)
    else Deletion(files, written, Done, true, tick + 1)
  }

  /** `delete_key` */
  ghost function Delete(files: Files, keys: seq<Key>, id: string, token: string, fates: Fates, tick: nat): Deletion {
    var loaded := Load(files, keys, fates, tick);
    if loaded.o != Done || Find(keys, id).None? then Deletion(loaded.files, keys, loaded.o, false, loaded.tick)
    else
      var g := Find(keys, id).value;
      var p := StagedName(token, g);
      var r := Stage(loaded.files, g, p, fates, loaded.tick);
      if r.o != Done then Deletion(r.files, keys, r.o, false, r.tick)
      else Finish(r.files, keys, id, g in loaded.files, g, p, fates, r.tick)
  }

  // ----- the key directory of one user

  class KeyStore {
    const fates: Fates
    var tick: nat
    var files: Files
    var keys: seq<Key>       // the committed metadata

    method Turn() returns (f: Fate)
      modifies this`tick
      ensures f == fates(old(tick)) && tick == old(tick) + 1
    {
      f := fates(tick);
      tick := tick + 1;
    }

    method MoveEntry(source: Name, target: Name) returns (o: Outcome)
      modifies this`tick, this`files
      ensures Ran(files, o, tick) == Move(old(files), source, target, fates(old(tick)), old(tick))
    {
      var f := Turn();
      if source !in files { return Unless(f, Raised); }
      if TakesEffect(f) { files := Moved(files, source, target); }
      o := OutcomeOf(f);
    }

    method DropEntry(n: Name) returns (o: Outcome)
      modifies this`tick, this`files
      ensures Ran(files, o, tick) == Drop(old(files), n, fates(old(tick)), old(tick))
    {
      var f := Turn();
      if TakesEffect(f) { files := files - {n}; }
      o := Unless(f, Done);
    }

    /** The sorted scan of the directory for staged entries. */
    method ScanPending() returns (pending: seq<Name>)
      ensures pending == Scan(files)
    {
      var rest := files.Keys;
      pending := [];
      while rest != {}
        invariant rest <= files.Keys && Sorted(pending)
        invariant forall n :: n in pending <==> n in files && n !in rest && PendingFilename(n).Some?
        decreases |rest|
      {
        var n :| n in rest;
        rest := rest - {n};
        if PendingFilename(n).Some? {
          InsertHolds(pending, n);
          pending := Insert(pending, n);
        }
      }
      SortedUnique(pending, Scan(files));
    }

    method ReconcileEntry(n: Name) returns (o: Outcome)
      modifies this`tick, this`files
      ensures Ran(files, o, tick) == Settle(old(files), Refs(keys), n, fates(old(tick)), old(tick))
    {
      var refs := Refs(keys);
      if n in refs || n !in files || PendingFilename(n).None? {
        tick := tick + 1;
        return Done;
      }
      var g := PendingFilename(n).value;
      if g !in refs || g in files { o := DropEntry(n); } else { o := MoveEntry(n, g); }
    }

    /** `_reconcile_pending_key_deletions` behind its scan. */
    method Reconcile(pending: seq<Name>) returns (o: Outcome)
      modifies this`tick, this`files
      ensures Ran(files, o, tick) == Entries(old(files), Refs(keys), pending, fates, old(tick))
    {
      hide Settle, Refs;
      var i := 0;
      assert pending[0..] == pending;
      while i < |pending|
        invariant 0 <= i <= |pending|
        invariant Entries(files, Refs(keys), pending[i..], fates, tick)
                    == Entries(old(files), Refs(keys), pending, fates, old(tick))
      {
        assert pending[i..][1..] == pending[i + 1..];
        o := ReconcileEntry(pending[i]);
        if o != Done { return; }
        i := i + 1;
      }
      return Done;
    }

    method LoadKeys() returns (o: Outcome)
      modifies this`tick, this`files
      ensures Ran(files, o, tick) == Load(old(files), keys, fates, old(tick))
    {
      hide Entries, Scan;
      var f := Turn();
      if f != Works || !ValidKeys(keys) { return Unless(f, Raised); }
      f := Turn();
      if f != Works { return Unless(f, Raised); }
      var pending := ScanPending();
      o := Reconcile(pending);
    }

    method StageDeletion(g: Name, p: Name) returns (o: Outcome, staged: bool)
      modifies this`tick, this`files
      ensures Ran(files, o, tick) == Stage(old(files), g, p, fates, old(tick)) && staged == (g in old(files))
    {
      staged := g in files;
      if !staged { return Done, false; }
      o := MoveEntry(g, p);
      if o == Raised && p in files && g !in files {
        var back := MoveEntry(p, g);
        o := if back == Dead then Dead else Raised;
      }
    }

    method RollBackDeletion(staged: bool, g: Name, p: Name) returns (o: Outcome)
      modifies this`tick, this`files
      ensures Ran(files, o, tick) == RollBack(old(files), staged, g, p, fates, old(tick))
    {
      if !staged || p !in files { return Done; }
      if g in files { o := DropEntry(p); return; }
      o := MoveEntry(p, g);
      if o == Raised { o := Done; }
    }

    /** `save_keys`: an error is a plain refusal, whether or not the document was written. */
    method SaveKeys(next: seq<Key>) returns (dead: bool, saved: bool)
      modifies this`tick, this`keys
      ensures var f := fates(old(tick));
              && tick == old(tick) + 1 && keys == (if ValidKeys(next) && TakesEffect(f) then next else old(keys))
              && dead == (OutcomeOf(f) == Dead) && saved == (ValidKeys(next) && f == Works)
    {
      var f := Turn();
      if ValidKeys(next) && TakesEffect(f) { keys := next; }
      dead, saved := OutcomeOf(f) == Dead, ValidKeys(next) && f == Works;
    }

    method DeleteKey(id: string, token: string) returns (o: Outcome, deleted: bool)
      modifies this`tick, this`files, this`keys
      ensures Deletion(files, keys, o, deleted, tick) == Delete(old(files), old(keys), id, token, fates, old(tick))
    {
      hide Load, Stage, RollBack, Refs, ValidKeys;
      deleted := false;
      o := LoadKeys();
      var found := Find(keys, id);
      if o != Done || found.None? { return; }
      var g, p := found.value, StagedName(token, found.value);
      var staged;
      o, staged := StageDeletion(g, p);
      if o != Done { return; }
      var dead, saved := SaveKeys(Without(keys, id));
      if dead { return Dead, false; }
      if !saved { o := RollBackDeletion(staged, g, p); }
      else if staged {
        o := DropEntry(p);
        deleted := o == Done;
      } else { deleted := true; }
    }
  }
}
