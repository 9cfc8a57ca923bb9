/** What deleting keys and loading them again does to the content of the keys that stay. */
module KeyRecovery {

  import opened Collections
  import opened TextOrder
  import opened Faults
  import opened KeyDeletion

  // ----- the content that a load brings back

  /** A staged entry for the key file `f`. */
  predicate StandsFor(n: Name, f: Name, refs: set<Name>) { n !in refs && PendingFilename(n) == Some(f) }

  predicate Own(files: Files, f: Name, c: Bytes) { f in files && files[f] == c }

  /** The first of the staged entries for `f`, in sorted order. */
  predicate First(files: Files, refs: set<Name>, f: Name, n: Name) {
    && n in files && StandsFor(n, f, refs)
    && forall m | m in files && StandsFor(m, f, refs) :: m == n || Less(n, m)
  }

  /** The key has this content, or would have it again after a load. */
  ghost predicate Brings(files: Files, refs: set<Name>, f: Name, c: Bytes) {
    if f in files then files[f] == c else exists n :: First(files, refs, f, n) && files[n] == c
  }

  lemma BringsOne(files: Files, refs: set<Name>, f: Name, c: Bytes, d: Bytes)
    requires Brings(files, refs, f, c) && Brings(files, refs, f, d)
    ensures c == d
  {
    if f !in files {
      var n :| First(files, refs, f, n) && files[n] == c;
      var m :| First(files, refs, f, m) && files[m] == d;
      if n != m { LessStrict(n, m); }
    }
  }

  /** The staged entries for `f` are the same in both directories. */
  ghost predicate SameStaged(files: Files, files': Files, refs: set<Name>, f: Name) {
    && (forall n | StandsFor(n, f, refs) :: n in files <==> n in files')
    && (forall n | n in files && n in files' && StandsFor(n, f, refs) :: files[n] == files'[n])
  }

  lemma SameStagedBrings(files: Files, files': Files, refs: set<Name>, f: Name, c: Bytes)
    requires Brings(files, refs, f, c) && SameStaged(files, files', refs, f)
    requires (f in files <==> f in files') && (f in files ==> files'[f] == files[f])
    ensures Brings(files', refs, f, c)
  {
    hide StandsFor;
    if f !in files {
      var n :| First(files, refs, f, n) && files[n] == c;
      assert First(files', refs, f, n);
    }
  }

  // ----- one entry, and all entries, of a load

  /** Every staged entry for a missing file is still to come. */
  predicate ToCome(files: Files, refs: set<Name>, list: seq<Name>, f: Name) {
    f !in files ==> forall n | n in files && StandsFor(n, f, refs) :: n in list
  }

  lemma ForeignEntryKeeps(files: Files, refs: set<Name>, n: Name, fate: Fate, tick: nat, f: Name, c: Bytes)
    requires f in refs && Brings(files, refs, f, c) && !StandsFor(n, f, refs)
    ensures var r := Settle(files, refs, n, fate, tick);
            && Brings(r.files, refs, f, c) && SameStaged(files, r.files, refs, f)
            && (f in files <==> f in r.files)
  {
    var r := Settle(files, refs, n, fate, tick);
    hide PendingFilename;
    assert SameStaged(files, r.files, refs, f);
    SameStagedBrings(files, r.files, refs, f, c);
  }

  lemma OwnEntryKeeps(files: Files, refs: set<Name>, list: seq<Name>, fate: Fate, tick: nat, f: Name, c: Bytes)
    requires f in refs && Brings(files, refs, f, c) && list != [] && StandsFor(list[0], f, refs)
    requires Sorted(list) && ToCome(files, refs, list, f)
    ensures var r := Settle(files, refs, list[0], fate, tick);
            && Brings(r.files, refs, f, c) && (r.o == Done && list[0] in files ==> Own(r.files, f, c))
  {
    hide PendingFilename;
    var n := list[0];
    if f !in files && n in files {
      var m :| First(files, refs, f, m) && files[m] == c;
      FirstIsLeast(list, m);
      if m != n { LessStrict(n, m); }
      assert m == n;
    }
  }

  lemma EntryKeeps(files: Files, refs: set<Name>, list: seq<Name>, fate: Fate, tick: nat, f: Name, c: Bytes)
    requires f in refs && Brings(files, refs, f, c) && list != [] && Sorted(list) && ToCome(files, refs, list, f)
    ensures var r := Settle(files, refs, list[0], fate, tick);
            Brings(r.files, refs, f, c) && (r.o == Done ==> ToCome(r.files, refs, list[1..], f))
  {
    hide Brings, PendingFilename;
    var r := Settle(files, refs, list[0], fate, tick);
    assert list == [list[0]] + list[1..];
    if StandsFor(list[0], f, refs) { OwnEntryKeeps(files, refs, list, fate, tick, f, c); }
    else { ForeignEntryKeeps(files, refs, list[0], fate, tick, f, c); }
  }

  /** Whatever fails or dies in the loop, the content stays within reach; when it ends, it is in its own file. */
  lemma {:induction false} EntriesKeep(files: Files, refs: set<Name>, list: seq<Name>, fates: Fates, tick: nat,
                                       f: Name, c: Bytes)
    requires f in refs && Brings(files, refs, f, c) && Sorted(list) && ToCome(files, refs, list, f)
    ensures var r := Entries(files, refs, list, fates, tick);
            Brings(r.files, refs, f, c) && (r.o == Done ==> Own(r.files, f, c))
    decreases |list|
  {
    if list != [] {
      hide Brings, Settle, StandsFor;
      EntryKeeps(files, refs, list, fates(tick), tick, f, c);
      SortedTail(list);
      var r := Settle(files, refs, list[0], fates(tick), tick);
      if r.o == Done { EntriesKeep(r.files, refs, list[1..], fates, r.tick, f, c); }
    }
  }

  /** A load keeps within reach what it brings back, and when it succeeds it has brought it back. */
  lemma LoadKeeps(files: Files, keys: seq<Key>, fates: Fates, tick: nat, f: Name, c: Bytes)
    requires f in Refs(keys) && Brings(files, Refs(keys), f, c)
    ensures var r := Load(files, keys, fates, tick);
            Brings(r.files, Refs(keys), f, c) && (r.o == Done ==> ValidKeys(keys) && Own(r.files, f, c))
  {
    hide Entries, Brings, Refs, PendingFilename;
    if fates(tick) == Works && ValidKeys(keys) && fates(tick + 1) == Works {
      assert ToCome(files, Refs(keys), Scan(files), f);
      EntriesKeep(files, Refs(keys), Scan(files), fates, tick + 2, f, c);
    }
  }

  /** A load makes no new staged entry and changes none. */
  predicate Shrinks(files: Files, files': Files, refs: set<Name>) {
    forall n | n in files' && n !in refs :: n in files && files'[n] == files[n]
  }

  lemma {:induction false} EntriesShrink(files: Files, refs: set<Name>, list: seq<Name>, fates: Fates, tick: nat)
    ensures Shrinks(files, Entries(files, refs, list, fates, tick).files, refs)
    decreases |list|
  {
    if list != [] {
      hide PendingFilename;
      var r := Settle(files, refs, list[0], fates(tick), tick);
      if r.o == Done { EntriesShrink(r.files, refs, list[1..], fates, r.tick); }
    }
  }

  lemma LoadShrinks(files: Files, keys: seq<Key>, fates: Fates, tick: nat)
    ensures Shrinks(files, Load(files, keys, fates, tick).files, Refs(keys))
  {
    hide Entries, Refs;
    EntriesShrink(files, Refs(keys), Scan(files), fates, tick + 2);
  }

  // ----- deleting a key takes its filename out of the metadata

  lemma {:induction false} FoundIsReferenced(keys: seq<Key>, id: string)
    requires Find(keys, id).Some? && ValidKeys(keys)
    ensures Find(keys, id).value in Refs(keys) && SafeFilename(Find(keys, id).value)
  {
    if keys[0].id != id {
      assert ValidKeys(keys[1..]);
      FoundIsReferenced(keys[1..], id);
      assert Refs(keys[1..]) <= Refs(keys);
    }
  }

  lemma RefsCons(first: Key, rest: seq<Key>)
    ensures Refs([first] + rest) == {first.filename} + Refs(rest)
  {
  }

  lemma FirstIsUnique(keys: seq<Key>)
    requires ValidKeys(keys) && keys != []
    ensures keys[0].filename !in Refs(keys[1..]) && forall k | k in keys[1..] :: k.id != keys[0].id
  {
    forall k | k in keys[1..] ensures k.id != keys[0].id && k.filename != keys[0].filename {
      var i :| 0 <= i < |keys[1..]| && keys[1..][i] == k;
      assert keys[i + 1] == k;
    }
  }

  lemma {:induction false} WithoutAbsent(keys: seq<Key>, id: string)
    requires forall k | k in keys :: k.id != id
    ensures Without(keys, id) == keys
  {
    if keys != [] { WithoutAbsent(keys[1..], id); }
  }

  /** Deleting a key takes exactly its own filename out of the metadata. */
  lemma {:induction false} WithoutRefs(keys: seq<Key>, id: string)
    requires Find(keys, id).Some? && ValidKeys(keys)
    ensures Refs(Without(keys, id)) == Refs(keys) - {Find(keys, id).value}
  {
    hide Refs;
    var first, rest := keys[0], keys[1..];
    assert keys == [first] + rest && ValidKeys(rest);
    RefsCons(first, rest);
    FirstIsUnique(keys);
    if first.id == id {
      WithoutAbsent(rest, id);
      assert Without(keys, id) == rest;
    } else {
      WithoutRefs(rest, id);
      FoundIsReferenced(rest, id);
      RefsCons(first, Without(rest, id));
    }
  }

  // ----- a deletion, whatever fails or dies

  /** No staged entry and no key has a name with this token. */
  ghost predicate FreshToken(token: string, files: Files, refs: set<Name>) {
    IsToken(token) && forall n :: StagedName(token, n) !in files && StagedName(token, n) !in refs
  }

  /** No staged entry for `f` with other content sorts before the name under which the file will be staged. */
  predicate Clear(files: Files, refs: set<Name>, f: Name, c: Bytes, p: Name) {
    forall n | n in files && StandsFor(n, f, refs) && Less(n, p) :: files[n] == c
  }

  lemma StageLeaves(files: Files, g: Name, p: Name, fates: Fates, tick: nat)
    requires p !in files && p != g
    ensures var r := Stage(files, g, p, fates, tick);
            && (r.files == files || (g in files && r.files == Moved(files, g, p)))
            && (r.o == Done && g in files ==> r.files == Moved(files, g, p))
  {
    if g in files {
      var r := Move(files, g, p, fates(tick), tick);
      if r.o == Raised && p in r.files && g !in r.files { assert Moved(r.files, p, g) == files; }
    }
  }

  /** What can be left of the key's file: as it was, or staged, or, once it is out of the metadata, gone. */
  predicate LeftBehind(files: Files, files': Files, refs: set<Name>, refs': set<Name>, g: Name, p: Name) {
    || files' == files
    || (g in files && files' == Moved(files, g, p))
    || (files' == files - {g} && refs' == refs - {g})
  }

  lemma FinishLeaves(files: Files, keys: seq<Key>, id: string, g: Name, p: Name, fates: Fates, tick: nat)
    requires ValidKeys(keys) && Find(keys, id) == Some(g) && p !in files && p != g
    ensures var staged := if g in files then Moved(files, g, p) else files;
            var d := Finish(staged, keys, id, g in files, g, p, fates, tick);
            && (d.keys == keys || Refs(d.keys) == Refs(keys) - {g})
            && LeftBehind(files, d.files, Refs(keys), Refs(d.keys), g, p)
  {
    hide ValidKeys, Find, Refs, Without, OutcomeOf;
    WithoutRefs(keys, id);
    hide ValidKeys, Refs;
    if g in files {
      assert Moved(Moved(files, g, p), p, g) == files;
      assert Moved(files, g, p) - {p} == files - {g};
    }
  }

  lemma {:induction false} LeastExists(names: set<Name>)
    requires names != {}
    ensures exists n :: n in names && forall m | m in names :: m == n || Less(n, m)
  {
    hide Less;
    var x :| x in names;
    var rest := names - {x};
    if rest == {} { assert names == {x}; }
    else {
      LeastExists(rest);
      var n :| n in rest && forall m | m in rest :: m == n || Less(n, m);
      LessTotal(x, n);
      var least := if Less(x, n) then x else n;
      forall m | m in names ensures m == least || Less(least, m) {
        if m != x && m != n && least == x { LessTransitive(x, n, m); }
        if m != x { assert m in rest; }
      }
    }
  }

  lemma SomeFirst(files: Files, refs: set<Name>, f: Name, p: Name)
    requires p in files && StandsFor(p, f, refs)
    ensures exists n :: First(files, refs, f, n)
  {
    hide Less, StandsFor;
    var names := set n | n in files && StandsFor(n, f, refs);
    assert p in names;
    LeastExists(names);
    var n :| n in names && forall m | m in names :: m == n || Less(n, m);
    assert First(files, refs, f, n);
  }

  /** Staging keeps the content within reach, as long as nothing with other content sorts before it. */
  lemma StagedBrings(start: Files, files: Files, refs: set<Name>, g: Name, p: Name, c: Bytes)
    requires Shrinks(start, files, refs) && Own(files, g, c) && Clear(start, refs, g, c, p)
    requires p !in files && StandsFor(p, g, refs) && g in refs && p != g
    ensures Brings(Moved(files, g, p), refs, g, c)
  {
    hide PendingFilename;
    var staged := Moved(files, g, p);
    SomeFirst(staged, refs, g, p);
    var n :| First(staged, refs, g, n);
    if n != p { assert n in files && Less(n, p); }
  }

  lemma LeftBrings(start: Files, files: Files, files': Files, refs: set<Name>, refs': set<Name>, g: Name, p: Name,
                   f: Name, c: Bytes)
    requires Shrinks(start, files, refs) && Own(files, f, c) && LeftBehind(files, files', refs, refs', g, p)
    requires (refs' == refs || refs' == refs - {g}) && f in refs' && g in refs
    requires p !in files && StandsFor(p, g, refs) && p != g && (f == g ==> Clear(start, refs, f, c, p))
    ensures Brings(files', refs', f, c)
  {
    hide PendingFilename;
    if f == g && files' != files { StagedBrings(start, files, refs, g, p, c); }
  }

  /**
    A deletion with a failure or death anywhere keeps within reach the content of every key left in the
    committed metadata: of every other key always, and of the key itself if nothing with other content sorts
    before its staged name.
   */
  lemma DeleteKeeps(files: Files, keys: seq<Key>, id: string, token: string, fates: Fates, tick: nat, f: Name, c: Bytes)
    requires FreshToken(token, files, Refs(keys)) && f in Refs(keys) && Brings(files, Refs(keys), f, c)
    requires Find(keys, id) == Some(f) ==> Clear(files, Refs(keys), f, c, StagedName(token, f))
    ensures var d := Delete(files, keys, id, token, fates, tick);
            f in Refs(d.keys) ==> Brings(d.files, Refs(d.keys), f, c)
  {
    hide Load, Brings, Refs, Stage, Finish, Clear, LeftBehind, ValidKeys, StagedName, FreshToken, StandsFor;
    LoadKeeps(files, keys, fates, tick, f, c);
    LoadShrinks(files, keys, fates, tick);
    var loaded := Load(files, keys, fates, tick);
    if loaded.o == Done && Find(keys, id).Some? {
      var g := Find(keys, id).value;
      var p := StagedName(token, g);
      FoundIsReferenced(keys, id);
      StagedIsFresh(token, files, loaded.files, Refs(keys), g);
      StageLeaves(loaded.files, g, p, fates, loaded.tick);
      var r := Stage(loaded.files, g, p, fates, loaded.tick);
      if r.o == Done {
        StageDoneLeaves(loaded.files, g, p, fates, loaded.tick);
        FinishLeaves(loaded.files, keys, id, g, p, fates, r.tick);
      } else { StoppedLeaves(loaded.files, r.files, Refs(keys), g, p); }
      var d := Delete(files, keys, id, token, fates, tick);
      if f in Refs(d.keys) { LeftBrings(files, loaded.files, d.files, Refs(keys), Refs(d.keys), g, p, f, c); }
    }
  }

  lemma StageDoneLeaves(files: Files, g: Name, p: Name, fates: Fates, tick: nat)
    requires p !in files && p != g
    ensures var r := Stage(files, g, p, fates, tick); r.o == Done ==>
              r.files == if g in files then Moved(files, g, p) else files
  {
  }

  lemma StoppedLeaves(files: Files, files': Files, refs: set<Name>, g: Name, p: Name)
    requires files' == files || (g in files && files' == Moved(files, g, p))
    ensures LeftBehind(files, files', refs, refs, g, p)
  {
  }

  lemma StagedIsFresh(token: string, files: Files, files': Files, refs: set<Name>, g: Name)
    requires FreshToken(token, files, refs) && Shrinks(files, files', refs) && SafeFilename(g) && g in refs
    ensures var p := StagedName(token, g); p !in files' && p !in refs && StandsFor(p, g, refs) && p != g
  {
    StagedNameParses(token, g);
  }

  // ----- the condition on the key itself is exact

  /** A staged entry for `f` with other content than the one that a load brings back. */
  predicate Stale(files: Files, refs: set<Name>, f: Name, c: Bytes, n: Name) {
    n in files && StandsFor(n, f, refs) && files[n] != c
  }

  lemma StaleIsNotFirst(files: Files, refs: set<Name>, list: seq<Name>, f: Name, c: Bytes, n: Name)
    requires Brings(files, refs, f, c) && Stale(files, refs, f, c, n) && Sorted(list) && list != [] && list[0] == n
    requires ToCome(files, refs, list, f)
    ensures f in files
  {
    hide PendingFilename;
    if f !in files {
      var m :| First(files, refs, f, m) && files[m] == c;
      FirstIsLeast(list, m);
      LessStrict(n, m);
    }
  }

  /** Everything works but for the removal of the one stale entry. */
  lemma {:induction false} AllButOne(files: Files, refs: set<Name>, list: seq<Name>, fates: Fates, tick: nat,
                                     f: Name, c: Bytes, n: Name)
    requires f in refs && Brings(files, refs, f, c) && Sorted(list) && ToCome(files, refs, list, f)
    requires Stale(files, refs, f, c, n)
    requires forall i | 0 <= i < |list| :: fates(tick + i) == if list[i] == n then Fails else Works
    ensures var r := Entries(files, refs, list, fates, tick);
            && r.o == Done && r.tick == tick + |list| && n in r.files && r.files[n] == files[n]
            && forall m | m in list && m != n && StandsFor(m, f, refs) :: m !in r.files
    decreases |list|
  {
    if list != [] {
      var h, r := list[0], Settle(files, refs, list[0], fates(tick), tick);
      assert fates(tick + 0) == fates(tick);
      if h == n { StaleIsNotFirst(files, refs, list, f, c, n); }
      StepButOne(files, refs, h, fates(tick), tick, f, c, n);
      EntryKeeps(files, refs, list, fates(tick), tick, f, c);
      SortedTail(list);
      hide Brings, Settle, StandsFor;
      forall i | 0 <= i < |list[1..]| ensures fates(r.tick + i) == if list[1..][i] == n then Fails else Works {
        assert fates(tick + (i + 1)) == if list[i + 1] == n then Fails else Works;
      }
      AllButOne(r.files, refs, list[1..], fates, r.tick, f, c, n);
      EntriesShrink(r.files, refs, list[1..], fates, r.tick);
      assert list == [h] + list[1..];
    }
  }

  lemma StepButOne(files: Files, refs: set<Name>, h: Name, fate: Fate, tick: nat, f: Name, c: Bytes, n: Name)
    requires f in refs && Stale(files, refs, f, c, n) && fate == (if h == n then Fails else Works)
    requires (h == n ==> f in files)
    ensures var r := Settle(files, refs, h, fate, tick);
            && r.o == Done && r.tick == tick + 1 && Stale(r.files, refs, f, c, n) && r.files[n] == files[n]
            && (h != n && StandsFor(h, f, refs) ==> h !in r.files && h !in refs)
  {
    hide PendingFilename;
  }

  /** The fates of the failing run: one removal fails, and the process dies when the file has just been staged. */
  function OneFails(at: nat, death: nat): Fates {
    (k: nat) => if k == at then Fails else if k == death then DiesLate else Works
  }

  lemma {:induction false} EntriesAllWork(files: Files, refs: set<Name>, list: seq<Name>, fates: Fates, tick: nat)
    requires forall k | tick <= k :: fates(k) == Works
    ensures Entries(files, refs, list, fates, tick).o == Done
    decreases |list|
  {
    if list != [] {
      hide PendingFilename;
      var r := Settle(files, refs, list[0], fates(tick), tick);
      EntriesAllWork(r.files, refs, list[1..], fates, r.tick);
    }
  }

  /** The first load leaves the stale entry, and no other one for the key. */
  lemma StaleSurvivesLoad(files: Files, keys: seq<Key>, fates: Fates, f: Name, c: Bytes, n: Name, at: nat)
    requires ValidKeys(keys) && f in Refs(keys) && Brings(files, Refs(keys), f, c) && Stale(files, Refs(keys), f, c, n)
    requires at < |Scan(files)| && Scan(files)[at] == n && fates == OneFails(2 + at, 2 + |Scan(files)|)
    ensures var r := Load(files, keys, fates, 0);
            && r.o == Done && r.tick == 2 + |Scan(files)| && Own(r.files, f, c) && Stale(r.files, Refs(keys), f, c, n)
            && r.files[n] == files[n]
            && forall m | m in r.files && StandsFor(m, f, Refs(keys)) :: m == n
  {
    var list, refs := Scan(files), Refs(keys);
    hide Entries, Brings, Refs, PendingFilename, ValidKeys;
    assert ToCome(files, refs, list, f);
    forall i | 0 <= i < |list| ensures fates(2 + i) == if list[i] == n then Fails else Works {
      if i != at { SortedDistinct(list, i, at); }
    }
    AllButOne(files, refs, list, fates, 2, f, c, n);
    LoadKeeps(files, keys, fates, 0, f, c);
    LoadShrinks(files, keys, fates, 0);
    var r := Load(files, keys, fates, 0);
    assert r == Entries(files, refs, list, fates, 2);
    forall m | m in r.files && StandsFor(m, f, refs) ensures m == n { assert m in files && m in list; }
  }

  lemma SortedDistinct(list: seq<Name>, i: nat, j: nat)
    requires Sorted(list) && i < |list| && j < |list| && i != j
    ensures list[i] != list[j]
  {
    if i < j { LessStrict(list[i], list[j]); } else { LessStrict(list[j], list[i]); }
  }

  /**
    A stale entry that sorts before the staged name: its removal fails, the key file is staged, the process
    dies, and the next load moves the stale content into place.
   */
  lemma StaleEntryWins(files: Files, keys: seq<Key>, id: string, token: string, g: Name, c: Bytes, n: Name)
    returns (fates: Fates)
    requires ValidKeys(keys) && Find(keys, id) == Some(g) && FreshToken(token, files, Refs(keys))
    requires g in Refs(keys) && Brings(files, Refs(keys), g, c)
    requires Stale(files, Refs(keys), g, c, n) && Less(n, StagedName(token, g))
    ensures var d := Delete(files, keys, id, token, fates, 0);
            && d.o == Dead && d.keys == keys && Brings(d.files, Refs(keys), g, files[n])
              && !Brings(d.files, Refs(keys), g, c)
            && var again := Load(d.files, keys, fates, d.tick);
               again.o == Done && Own(again.files, g, files[n])
  {
    hide Load, Brings, Refs, ValidKeys, StagedName, FreshToken, Find, Less, Scan, Moved, PendingFilename;
    var refs, p := Refs(keys), StagedName(token, g);
    StaleIsScanned(files, refs, g, c, n);
    var at :| 0 <= at < |Scan(files)| && Scan(files)[at] == n;
    var death := 2 + |Scan(files)|;
    fates := OneFails(2 + at, death);
    StaleSurvivesLoad(files, keys, fates, g, c, n, at);
    LoadShrinks(files, keys, fates, 0);
    var r := Load(files, keys, fates, 0);
    FoundIsReferenced(keys, id);
    StagedIsFresh(token, files, r.files, refs, g);
    var d := Delete(files, keys, id, token, fates, 0);
    assert d == Deletion(Moved(r.files, g, p), keys, Dead, false, death + 1);
    OnlyTwoStaged(r.files, refs, g, p, c, n);
    if Brings(d.files, refs, g, c) { BringsOne(d.files, refs, g, c, files[n]); }
    LoadKeeps(d.files, keys, fates, death + 1, g, files[n]);
    LoadAllWorks(d.files, keys, fates, death + 1);
  }

  lemma LoadAllWorks(files: Files, keys: seq<Key>, fates: Fates, tick: nat)
    requires ValidKeys(keys) && forall k | tick <= k :: fates(k) == Works
    ensures Load(files, keys, fates, tick).o == Done
  {
    hide Entries;
    EntriesAllWork(files, Refs(keys), Scan(files), fates, tick + 2);
  }

  lemma StaleIsScanned(files: Files, refs: set<Name>, f: Name, c: Bytes, n: Name)
    requires Stale(files, refs, f, c, n)
    ensures n in Scan(files)
  {
    hide PendingFilename;
  }

  lemma OnlyTwoStaged(files: Files, refs: set<Name>, g: Name, p: Name, c: Bytes, n: Name)
    requires Own(files, g, c) && Stale(files, refs, g, c, n) && Less(n, p) && g in refs
    requires p !in files && StandsFor(p, g, refs) && p != g && forall m | m in files && StandsFor(m, g, refs) :: m == n
    ensures Brings(Moved(files, g, p), refs, g, files[n])
  {
    hide PendingFilename;
    assert First(Moved(files, g, p), refs, g, n);
  }

  /** The key that is being deleted is kept, if it stays in the metadata. */
  ghost predicate KeptUnder(files: Files, keys: seq<Key>, id: string, token: string, fates: Fates, g: Name, c: Bytes) {
    var d := Delete(files, keys, id, token, fates, 0);
    g in Refs(d.keys) ==> Brings(d.files, Refs(d.keys), g, c)
  }

  /**
    Under every pattern of failures and deaths the key that is being deleted keeps its content for as long
    as it is in the metadata, if and only if no staged entry for it with other content sorts before its
    staged name.
   */
  lemma KeptIffClear(files: Files, keys: seq<Key>, id: string, token: string, g: Name, c: Bytes)
    requires ValidKeys(keys) && Find(keys, id) == Some(g) && FreshToken(token, files, Refs(keys))
    requires g in Refs(keys) && Brings(files, Refs(keys), g, c)
    ensures (forall fates :: KeptUnder(files, keys, id, token, fates, g, c))
       <==> Clear(files, Refs(keys), g, c, StagedName(token, g))
  {
    hide Load, Brings, Refs, ValidKeys, StagedName, FreshToken, Delete;
    if Clear(files, Refs(keys), g, c, StagedName(token, g)) {
      forall fates ensures KeptUnder(files, keys, id, token, fates, g, c) {
        DeleteKeeps(files, keys, id, token, fates, 0, g, c);
      }
    } else {
      var n :| n in files && StandsFor(n, g, Refs(keys)) && Less(n, StagedName(token, g)) && files[n] != c;
      var fates := StaleEntryWins(files, keys, id, token, g, c, n);
      assert !KeptUnder(files, keys, id, token, fates, g, c);
    }
  }

  // ----- the same, whatever token the deletion draws

  /** Under every fresh token and every pattern of failures and deaths the key that is being deleted is kept. */
  ghost predicate KeptUnderAll(files: Files, keys: seq<Key>, id: string, g: Name, c: Bytes) {
    forall token, fates | FreshToken(token, files, Refs(keys)) :: KeptUnder(files, keys, id, token, fates, g, c)
  }

  lemma KeptUnderAllIff(files: Files, keys: seq<Key>, id: string, g: Name, c: Bytes)
    requires ValidKeys(keys) && Find(keys, id) == Some(g) && g in Refs(keys) && Brings(files, Refs(keys), g, c)
    ensures KeptUnderAll(files, keys, id, g, c)
       <==> forall token | FreshToken(token, files, Refs(keys)) :: Clear(files, Refs(keys), g, c, StagedName(token, g))
  {
    hide Brings, Refs, ValidKeys, StagedName, FreshToken, KeptUnder, Clear;
    forall token | FreshToken(token, files, Refs(keys))
      ensures (forall fates :: KeptUnder(files, keys, id, token, fates, g, c))
         <==> Clear(files, Refs(keys), g, c, StagedName(token, g))
    {
      KeptIffClear(files, keys, id, token, g, c);
    }
  }

  /** The token that sorts last. */
  function LastToken(): string { seq(TOKEN_LENGTH, i => 'f') }

  /** Every staged entry for the key sorts before the name that the last token would give it. */
  lemma StagedBeforeLast(files: Files, refs: set<Name>, g: Name, n: Name)
    requires FreshToken(LastToken(), files, refs) && n in files && StandsFor(n, g, refs)
    ensures Less(n, StagedName(LastToken(), g))
  {
    hide PendingFilename, Less;
    var token := ParsedIsStaged(n);
    var last := LastToken();
    assert token != last;
    HighestHex(token, last);
    LessInFront(token, last, "-" + g, "-" + g);
    LessAfterPrefix(STAGING_PREFIX, token + ("-" + g), last + ("-" + g));
    assert StagedName(token, g) == STAGING_PREFIX + (token + ("-" + g));
    assert StagedName(last, g) == STAGING_PREFIX + (last + ("-" + g));
  }

  /**
    As long as the last token of all is free, a caller can tell beforehand: a deletion keeps the content of the
    key for as long as it is in the metadata, whatever token it draws and whatever fails or dies, if and
    only if no staged entry for the key has other content.
   */
  lemma KeptIffNoStaleContent(files: Files, keys: seq<Key>, id: string, g: Name, c: Bytes)
    requires ValidKeys(keys) && Find(keys, id) == Some(g) && g in Refs(keys) && Brings(files, Refs(keys), g, c)
    requires FreshToken(LastToken(), files, Refs(keys))
    ensures KeptUnderAll(files, keys, id, g, c)
       <==> forall n | n in files && StandsFor(n, g, Refs(keys)) :: files[n] == c
  {
    hide Brings, Refs, ValidKeys, StagedName, FreshToken, KeptUnderAll, LastToken, Less, StandsFor;
    KeptUnderAllIff(files, keys, id, g, c);
    if KeptUnderAll(files, keys, id, g, c) {
      assert Clear(files, Refs(keys), g, c, StagedName(LastToken(), g));
      forall n | n in files && StandsFor(n, g, Refs(keys)) ensures files[n] == c {
        StagedBeforeLast(files, Refs(keys), g, n);
      }
    }
  }

  // ----- any sequence of deletions and loads

  datatype Step = LoadStep | DeleteStep(id: string, token: string)

  /** One deletion or load, however it ends; a new process goes on with what it finds. */
  ghost function Take(files: Files, keys: seq<Key>, step: Step, fates: Fates, tick: nat): Deletion
    requires step.DeleteStep? ==> FreshToken(step.token, files, Refs(keys))
  {
    if step.DeleteStep? then Delete(files, keys, step.id, step.token, fates, tick)
    else
      var r := Load(files, keys, fates, tick);
      Deletion(r.files, keys, r.o, false, r.tick)
  }

  /** Every deletion has a fresh token, and those of `f` find nothing with other content before their staged name. */
  ghost predicate Lives(files: Files, keys: seq<Key>, steps: seq<Step>, fates: Fates, tick: nat, f: Name, c: Bytes)
    decreases |steps|
  {
    steps != [] ==>
      && (steps[0].DeleteStep? ==> FreshToken(steps[0].token, files, Refs(keys)))
      && (steps[0].DeleteStep? && Find(keys, steps[0].id) == Some(f) ==>
            Clear(files, Refs(keys), f, c, StagedName(steps[0].token, f)))
      && var d := Take(files, keys, steps[0], fates, tick);
         Lives(d.files, d.keys, steps[1..], fates, d.tick, f, c)
  }

  ghost function After(files: Files, keys: seq<Key>, steps: seq<Step>, fates: Fates, tick: nat, f: Name,
                       c: Bytes): Deletion
    requires Lives(files, keys, steps, fates, tick, f, c)
    decreases |steps|
  {
    if steps == [] then Deletion(files, keys, Raised, false, tick)
    else
      var d := Take(files, keys, steps[0], fates, tick);
      if |steps| == 1 then d else After(d.files, d.keys, steps[1..], fates, d.tick, f, c)
  }

  lemma TakeKeeps(files: Files, keys: seq<Key>, step: Step, fates: Fates, tick: nat, f: Name, c: Bytes)
    requires f in Refs(keys) && Brings(files, Refs(keys), f, c)
    requires step.DeleteStep? ==> FreshToken(step.token, files, Refs(keys))
    requires step.DeleteStep? && Find(keys, step.id) == Some(f) ==>
               Clear(files, Refs(keys), f, c, StagedName(step.token, f))
    ensures var d := Take(files, keys, step, fates, tick);
            && (f in Refs(d.keys) ==> Brings(d.files, Refs(d.keys), f, c))
            && (step.LoadStep? && d.o == Done ==> Own(d.files, f, c))
  {
    hide Brings, Load, Delete, Clear, FreshToken, Own;
    if step.DeleteStep? { DeleteKeeps(files, keys, step.id, step.token, fates, tick, f, c); }
    else { LoadKeeps(files, keys, fates, tick, f, c); }
  }

  /** A step never puts a key back into the metadata. */
  lemma TakeForgets(files: Files, keys: seq<Key>, step: Step, fates: Fates, tick: nat, f: Name)
    requires step.DeleteStep? ==> FreshToken(step.token, files, Refs(keys))
    requires f in Refs(Take(files, keys, step, fates, tick).keys)
    ensures f in Refs(keys)
  {
    hide Load, Stage, RollBack, FreshToken;
    if step.DeleteStep? { WithoutFewer(keys, step.id); }
  }

  lemma {:induction false} WithoutFewer(keys: seq<Key>, id: string)
    ensures Refs(Without(keys, id)) <= Refs(keys)
  {
    if keys != [] {
      WithoutFewer(keys[1..], id);
      RefsCons(keys[0], keys[1..]);
      RefsCons(keys[0], Without(keys[1..], id));
      assert keys == [keys[0]] + keys[1..];
    }
  }

  lemma {:induction false} AfterForgets(files: Files, keys: seq<Key>, steps: seq<Step>, fates: Fates, tick: nat,
                                        f: Name, c: Bytes)
    requires Lives(files, keys, steps, fates, tick, f, c)
    requires f in Refs(After(files, keys, steps, fates, tick, f, c).keys)
    ensures f in Refs(keys)
    decreases |steps|
  {
    hide Refs, Take, Clear, FreshToken, Find;
    if steps != [] {
      var d := Take(files, keys, steps[0], fates, tick);
      if |steps| > 1 { AfterForgets(d.files, d.keys, steps[1..], fates, d.tick, f, c); }
      TakeForgets(files, keys, steps[0], fates, tick, f);
    }
  }

  /**
    Any sequence of deletions and loads, each with any failures and deaths: a key that is in the committed
    metadata at the end keeps its content within reach, and has it in its own file when the last step is a
    load that succeeds.
   */
  lemma {:induction false} KeysLive(files: Files, keys: seq<Key>, steps: seq<Step>, fates: Fates, tick: nat, f: Name,
                                    c: Bytes)
    requires Lives(files, keys, steps, fates, tick, f, c) && Brings(files, Refs(keys), f, c)
    requires f in Refs(After(files, keys, steps, fates, tick, f, c).keys)
    ensures var d := After(files, keys, steps, fates, tick, f, c);
            && Brings(d.files, Refs(d.keys), f, c)
            && (steps != [] && steps[|steps| - 1].LoadStep? && d.o == Done ==> Own(d.files, f, c))
    decreases |steps|
  {
    hide Refs, Take, Clear, FreshToken, Find, Brings, Own;
    AfterForgets(files, keys, steps, fates, tick, f, c);
    if steps != [] {
      var d := Take(files, keys, steps[0], fates, tick);
      TakeKeeps(files, keys, steps[0], fates, tick, f, c);
      if |steps| > 1 {
        AfterForgets(d.files, d.keys, steps[1..], fates, d.tick, f, c);
        KeysLive(d.files, d.keys, steps[1..], fates, d.tick, f, c);
      }
    }
  }
}
