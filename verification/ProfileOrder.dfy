/**
  The order of connection profiles in their groups (`app/profile_manager.py`). Profiles are named by their
  position in the stored list, which a move does not change; a group is named by its folded key.
 */
module ProfileOrder {

  import opened Collections

  datatype Key = Key(folded: string)

  /** `order` is `None` when it is missing or not an integer. */
  datatype Profile = Profile(id: string, key: Key, order: Option<int>)

  predicate HasOrder(p: Profile) { p.order.Some? && p.order.value >= 0 }

  predicate UniqueIds(ps: seq<Profile>) { forall i, j | 0 <= i < j < |ps| :: ps[i].id != ps[j].id }

  // ----- the listing of a group

  predicate InGroup(p: Profile, key: Key, skip: Option<string>) { p.key == key && Some(p.id) != skip }

  predicate Belongs(ps: seq<Profile>, x: nat, key: Key, skip: Option<string>) { x < |ps| && InGroup(ps[x], key, skip) }

  /** The positions below `n` of the group's profiles, in stored order. */
  function Members(ps: seq<Profile>, key: Key, skip: Option<string>, n: nat): (list: seq<nat>)
    requires n <= |ps|
    ensures forall x: nat :: x in list <==> x < n && Belongs(ps, x, key, skip)
    ensures Ascending(list) && Within(ps, list)
  {
    if n == 0 then []
    else
      var init := Members(ps, key, skip, n - 1);
      assert forall i | 0 <= i < |init| :: init[i] in init;
      if InGroup(ps[n - 1], key, skip) then init + [n - 1] else init
  }

  predicate Ascending(list: seq<nat>) { forall i, j | 0 <= i < j < |list| :: list[i] < list[j] }

  predicate Within(ps: seq<Profile>, list: seq<nat>) { forall i | 0 <= i < |list| :: list[i] < |ps| }

  predicate AllOrdered(ps: seq<Profile>, list: seq<nat>)
    requires Within(ps, list)
  {
    forall i | 0 <= i < |list| :: HasOrder(ps[list[i]])
  }

  function OrderOf(ps: seq<Profile>, x: nat): int { if x < |ps| && ps[x].order.Some? then ps[x].order.value else 0 }

  /** The stored order first, the position second; the further sort keys can never decide. */
  predicate Precedes(ps: seq<Profile>, x: nat, y: nat) {
    OrderOf(ps, x) < OrderOf(ps, y) || (OrderOf(ps, x) == OrderOf(ps, y) && x < y)
  }

  predicate Sorted(ps: seq<Profile>, list: seq<nat>) {
    forall i, j | 0 <= i < j < |list| :: Precedes(ps, list[i], list[j])
  }

  function InsertSorted(ps: seq<Profile>, list: seq<nat>, x: nat): (r: seq<nat>)
    requires Sorted(ps, list) && x !in list
    ensures Sorted(ps, r) && forall y: nat :: y in r <==> y == x || y in list
  {
    if list == [] then [x]
    else if Precedes(ps, x, list[0]) then
      [x] + list
    else
      var rest := InsertSorted(ps, list[1..], x);
      assert list == [list[0]] + list[1..];
      assert forall i | 0 <= i < |rest| :: rest[i] in rest;
      assert forall y | y in list[1..] :: Precedes(ps, list[0], y);
      [list[0]] + rest
  }

  predicate Distinct(list: seq<nat>) { forall i, j | 0 <= i < j < |list| :: list[i] != list[j] }

  function SortBy(ps: seq<Profile>, list: seq<nat>): (r: seq<nat>)
    requires Distinct(list)
    ensures Sorted(ps, r) && forall y: nat :: y in r <==> y in list
  {
    if list == [] then []
    else
      assert list == [list[0]] + list[1..] && list[0] !in list[1..];
      InsertSorted(ps, SortBy(ps, list[1..]), list[0])
  }

  /** `_ordered_group` */
  function Ordered(ps: seq<Profile>, key: Key, skip: Option<string>): seq<nat> {
    var members := Members(ps, key, skip, |ps|);
    if AllOrdered(ps, members) then SortBy(ps, members) else members
  }

  lemma OrderedHolds(ps: seq<Profile>, key: Key, skip: Option<string>)
    ensures forall x: nat :: x in Ordered(ps, key, skip) <==> Belongs(ps, x, key, skip)
    ensures Distinct(Ordered(ps, key, skip)) && Within(ps, Ordered(ps, key, skip))
  {
    var list := Ordered(ps, key, skip);
    forall i | 0 <= i < |list| ensures list[i] < |ps| { assert list[i] in list; }
  }

  /** There is only one way to sort. */
  lemma {:induction false} SortedUnique(ps: seq<Profile>, a: seq<nat>, b: seq<nat>)
    requires Sorted(ps, a) && Sorted(ps, b) && forall x: nat :: x in a <==> x in b
    ensures a == b
  {
    if b != [] { assert b[0] in b; }
    if a != [] {
      assert a[0] in a;
      FirstIsLeast(ps, a, b[0]);
      FirstIsLeast(ps, b, a[0]);
      forall x: nat ensures x in a[1..] <==> x in b[1..] { TailHolds(ps, a, x); TailHolds(ps, b, x); }
      SortedUnique(ps, a[1..], b[1..]);
      assert a == [a[0]] + a[1..] && b == [b[0]] + b[1..];
    }
  }

  lemma FirstIsLeast(ps: seq<Profile>, a: seq<nat>, x: nat)
    requires Sorted(ps, a) && x in a
    ensures a[0] == x || Precedes(ps, a[0], x)
  {
    var i :| 0 <= i < |a| && a[i] == x;
  }

  lemma TailHolds(ps: seq<Profile>, a: seq<nat>, x: nat)
    requires Sorted(ps, a) && a != []
    ensures x in a[1..] <==> x in a && x != a[0]
  {
    assert a == [a[0]] + a[1..];
    if x in a[1..] { var i :| 0 <= i < |a[1..]| && a[1..][i] == x; assert Precedes(ps, a[0], a[i + 1]); }
  }

  /** A list of exactly the group's profiles that carries their places as orders is the group's listing. */
  lemma NumberedIsListing(ps: seq<Profile>, key: Key, list: seq<nat>)
    requires forall x: nat :: x in list <==> Belongs(ps, x, key, None)
    requires Within(ps, list) && forall i | 0 <= i < |list| :: ps[list[i]].order == Some(i)
    ensures Ordered(ps, key, None) == list
  {
    var members := Members(ps, key, None, |ps|);
    forall i | 0 <= i < |members| ensures HasOrder(ps[members[i]]) {
      assert members[i] in members && members[i] in list;
    }
    assert Sorted(ps, list);
    SortedUnique(ps, Ordered(ps, key, None), list);
  }

  // ----- moving a profile

  function Min(a: nat, b: nat): nat { if a <= b then a else b }

  function InsertAt(list: seq<nat>, at: nat, x: nat): seq<nat>
    requires at <= |list|
  {
    list[..at] + [x] + list[at..]
  }

  /** The profiles of the list get their places as orders. */
  function Numbered(ps: seq<Profile>, list: seq<nat>): (r: seq<Profile>)
    requires Within(ps, list)
    ensures |r| == |ps|
  {
    if list == [] then ps
    else
      var last := |list| - 1;
      var r := Numbered(ps, list[..last]);
      r[list[last] := r[list[last]].(order := Some(last))]
  }

  lemma {:induction false} NumberedAt(ps: seq<Profile>, list: seq<nat>)
    requires Within(ps, list) && Distinct(list)
    ensures forall i | 0 <= i < |list| :: Numbered(ps, list)[list[i]] == ps[list[i]].(order := Some(i))
    ensures forall x: nat | x < |ps| && x !in list :: Numbered(ps, list)[x] == ps[x]
  {
    if list != [] {
      var last := |list| - 1;
      NumberedAt(ps, list[..last]);
      assert list == list[..last] + [list[last]];
      assert list[last] !in list[..last];
    }
  }

  /** The target group's new listing. */
  function Target(ps: seq<Profile>, p: nat, target: Key, index: nat): seq<nat>
    requires p < |ps|
  {
    var others := Ordered(ps, target, Some(ps[p].id));
    InsertAt(others, Min(index, |others|), p)
  }

  /** The source group's new listing. */
  function Left(ps: seq<Profile>, p: nat, target: Key): seq<nat>
    requires p < |ps|
  {
    if ps[p].key != target then Ordered(ps, ps[p].key, Some(ps[p].id)) else []
  }

  lemma TargetHolds(ps: seq<Profile>, p: nat, target: Key, index: nat)
    requires p < |ps| && UniqueIds(ps)
    ensures var list := Target(ps, p, target, index);
            Within(ps, list) && Distinct(list) && forall x: nat :: x in list <==>
              x < |ps| && (x == p || ps[x].key == target)
  {
    hide Ordered;
    var others := Ordered(ps, target, Some(ps[p].id));
    OrderedHolds(ps, target, Some(ps[p].id));
    assert p !in others by { assert !Belongs(ps, p, target, Some(ps[p].id)); }
    InsertAtHolds(others, Min(index, |others|), p);
    forall x: nat ensures x in Target(ps, p, target, index) <==> x < |ps| && (x == p || ps[x].key == target) {
      if x < |ps| && x != p { SameIdOnly(ps, p, x); }
    }
    var list := Target(ps, p, target, index);
    forall i | 0 <= i < |list| ensures list[i] < |ps| { assert list[i] in list; }
  }

  lemma InsertAtHolds(list: seq<nat>, at: nat, x: nat)
    requires at <= |list| && Distinct(list) && x !in list
    ensures Distinct(InsertAt(list, at, x)) && forall y: nat :: y in InsertAt(list, at, x) <==> y == x || y in list
  {
    hide Min;
    assert list == list[..at] + list[at..];
    var r := InsertAt(list, at, x);
    assert forall i | 0 <= i < |r| :: r[i] == if i < at then list[i] else if i == at then x else list[i - 1];
  }

  function Rehomed(ps: seq<Profile>, p: nat, target: Key): seq<Profile>
    requires p < |ps|
  {
    ps[p := ps[p].(key := target)]
  }

  /** What a move stores. */
  function Move(ps: seq<Profile>, p: nat, target: Key, index: nat): seq<Profile>
    requires p < |ps| && UniqueIds(ps)
  {
    OrderedHolds(ps, ps[p].key, Some(ps[p].id));
    TargetHolds(ps, p, target, index);
    Numbered(Numbered(Rehomed(ps, p, target), Left(ps, p, target)), Target(ps, p, target, index))
  }

  lemma MovedAt(ps: seq<Profile>, p: nat, target: Key, index: nat)
    requires p < |ps| && UniqueIds(ps)
    ensures var after, list, left := Move(ps, p, target, index), Target(ps, p, target, index), Left(ps, p, target);
            && |after| == |ps| && Within(ps, list) && Within(ps, left) && Distinct(list) && Distinct(left)
            && (forall i | 0 <= i < |list| :: after[list[i]] == ps[list[i]].(key := target, order := Some(i)))
            && (forall i | 0 <= i < |left| :: after[left[i]] == ps[left[i]].(order := Some(i)))
            && (forall x: nat | x < |ps| && x !in list && x !in left :: after[x] == ps[x])
  {
    hide Ordered, Target, Left, Numbered;
    TargetHolds(ps, p, target, index);
    LeftHolds(ps, p, target);
    var list, left, home := Target(ps, p, target, index), Left(ps, p, target), Rehomed(ps, p, target);
    NumberedTwice(home, left, list);
    assert forall i | 0 <= i < |list| :: list[i] in list;
    assert forall i | 0 <= i < |left| :: left[i] in left;
  }

  lemma LeftHolds(ps: seq<Profile>, p: nat, target: Key)
    requires p < |ps|
    ensures var left := Left(ps, p, target);
            && Within(ps, left) && Distinct(left) && p !in left
            && forall x: nat :: x in left <==> ps[p].key != target && Belongs(ps, x, ps[p].key, Some(ps[p].id))
  {
    OrderedHolds(ps, ps[p].key, Some(ps[p].id));
    hide Ordered;
    assert !Belongs(ps, p, ps[p].key, Some(ps[p].id));
  }

  lemma NumberedTwice(ps: seq<Profile>, left: seq<nat>, list: seq<nat>)
    requires Within(ps, left) && Within(ps, list) && Distinct(left) && Distinct(list)
               && forall x | x in left :: x !in list
    ensures var r := Numbered(Numbered(ps, left), list);
            && (forall i | 0 <= i < |list| :: r[list[i]] == ps[list[i]].(order := Some(i)))
            && (forall i | 0 <= i < |left| :: r[left[i]] == ps[left[i]].(order := Some(i)))
            && (forall x: nat | x < |ps| && x !in list && x !in left :: r[x] == ps[x])
  {
    NumberedAt(ps, left);
    NumberedAt(Numbered(ps, left), list);
    hide Numbered;
    assert forall i | 0 <= i < |left| :: left[i] in left;
    assert forall i | 0 <= i < |list| :: list[i] in list;
  }

  lemma MovedGroups(ps: seq<Profile>, p: nat, target: Key, index: nat, x: nat, key: Key)
    requires p < |ps| && UniqueIds(ps)
    ensures var after := Move(ps, p, target, index);
            && |after| == |ps| && (x < |ps| ==> after[x].id == ps[x].id)
            && (Belongs(after, x, key, None) <==> x < |ps| && if x == p then key == target else ps[x].key == key)
  {
    MovedAt(ps, p, target, index);
    TargetHolds(ps, p, target, index);
    OrderedHolds(ps, ps[p].key, Some(ps[p].id));
    var list, left := Target(ps, p, target, index), Left(ps, p, target);
    if x < |ps| {
      if x in list { var i :| 0 <= i < |list| && list[i] == x; }
      else if x in left { var i :| 0 <= i < |left| && left[i] == x; }
    }
  }

  /** The target group lists its other profiles as before with the moved one at its place, numbered from zero. */
  lemma TargetListing(ps: seq<Profile>, p: nat, target: Key, index: nat)
    requires p < |ps| && UniqueIds(ps)
    ensures var after := Move(ps, p, target, index);
            && Ordered(after, target, None) == Target(ps, p, target, index)
            && forall i | 0 <= i < |Ordered(after, target, None)| ::
              OrderOf(after, Ordered(after, target, None)[i]) == i
    ensures var others, now := Ordered(ps, target, Some(ps[p].id)), Ordered(Move(ps, p, target, index), target, None);
            && |now| == |others| + 1
            && (forall i | 0 <= i < |others| && i < index :: now[i] == others[i])
            && (if index <= |others| then now[index] == p else now[|others|] == p)
            && (forall i | index < i < |now| :: now[i] == others[i - 1])
  {
    TargetIs(ps, p, target, index);
    hide Move, Target, Ordered;
    MovedAt(ps, p, target, index);
    TargetHolds(ps, p, target, index);
    var after, list := Move(ps, p, target, index), Target(ps, p, target, index);
    forall x: nat ensures x in list <==> Belongs(after, x, target, None) {
      MovedGroups(ps, p, target, index, x, target);
    }
    NumberedIsListing(after, target, list);
  }

  lemma TargetIs(ps: seq<Profile>, p: nat, target: Key, index: nat)
    requires p < |ps|
    ensures var others, now := Ordered(ps, target, Some(ps[p].id)), Target(ps, p, target, index);
            && |now| == |others| + 1
            && (forall i | 0 <= i < |others| && i < index :: now[i] == others[i])
            && (if index <= |others| then now[index] == p else now[|others|] == p)
            && (forall i | index < i < |now| :: now[i] == others[i - 1])
  {
    hide Ordered;
  }

  /** The source group lists its other profiles, numbered from zero. */
  lemma SourceListing(ps: seq<Profile>, p: nat, target: Key, index: nat)
    requires p < |ps| && UniqueIds(ps) && ps[p].key != target
    ensures var after, source := Move(ps, p, target, index), ps[p].key;
            && Ordered(after, source, None) == Ordered(ps, source, Some(ps[p].id))
            && forall i | 0 <= i < |Ordered(after, source, None)| ::
              OrderOf(after, Ordered(after, source, None)[i]) == i
  {
    hide Move, Target, Ordered;
    MovedAt(ps, p, target, index);
    OrderedHolds(ps, ps[p].key, Some(ps[p].id));
    var after, left := Move(ps, p, target, index), Left(ps, p, target);
    forall x: nat ensures x in left <==> Belongs(after, x, ps[p].key, None) {
      MovedGroups(ps, p, target, index, x, ps[p].key);
      if x < |ps| && x != p { SameIdOnly(ps, p, x); }
    }
    NumberedIsListing(after, ps[p].key, left);
  }

  lemma SameIdOnly(ps: seq<Profile>, p: nat, x: nat)
    requires UniqueIds(ps) && p < |ps| && x < |ps| && x != p
    ensures ps[x].id != ps[p].id
  {
  }

  /** Every other group is listed as before. */
  lemma OtherListing(ps: seq<Profile>, p: nat, target: Key, index: nat, key: Key)
    requires p < |ps| && UniqueIds(ps) && key != target && key != ps[p].key
    ensures Ordered(Move(ps, p, target, index), key, None) == Ordered(ps, key, None)
  {
    hide Move, Target;
    MovedAt(ps, p, target, index);
    TargetHolds(ps, p, target, index);
    OrderedHolds(ps, ps[p].key, Some(ps[p].id));
    SameGroupSameListing(ps, Move(ps, p, target, index), key, None, None);
  }

  /** A listing depends only on the group's own profiles. */
  lemma SameGroupSameListing(ps: seq<Profile>, after: seq<Profile>, key: Key, skip: Option<string>,
                             skip': Option<string>)
    requires |after| == |ps|
    requires forall x: nat | x < |ps| :: Belongs(after, x, key, skip') <==> Belongs(ps, x, key, skip)
    requires forall x: nat | Belongs(ps, x, key, skip) :: after[x].order == ps[x].order
    ensures Ordered(after, key, skip') == Ordered(ps, key, skip)
  {
    hide Belongs, Members, SortBy;
    SameMembers(ps, after, key, skip, skip', |ps|);
    var members := Members(ps, key, skip, |ps|);
    assert forall i | 0 <= i < |members| :: members[i] in members && Belongs(ps, members[i], key, skip);
    SameSort(ps, after, members);
  }

  lemma {:induction false} SameMembers(ps: seq<Profile>, after: seq<Profile>, key: Key, skip: Option<string>,
                                       skip': Option<string>, n: nat)
    requires |after| == |ps| && n <= |ps|
    requires forall x: nat | x < |ps| :: Belongs(after, x, key, skip') <==> Belongs(ps, x, key, skip)
    ensures Members(after, key, skip', n) == Members(ps, key, skip, n)
  {
    if n > 0 {
      SameMembers(ps, after, key, skip, skip', n - 1);
      assert Belongs(after, n - 1, key, skip') <==> Belongs(ps, n - 1, key, skip);
    }
  }

  lemma SameSort(ps: seq<Profile>, after: seq<Profile>, list: seq<nat>)
    requires Distinct(list) && |after| == |ps|
    requires forall i | 0 <= i < |list| :: list[i] < |ps| && after[list[i]].order == ps[list[i]].order
    ensures SortBy(after, list) == SortBy(ps, list)
  {
    hide SortBy;
    var a, b := SortBy(after, list), SortBy(ps, list);
    StaysSorted(ps, after, a);
    SortedUnique(ps, a, b);
  }

  lemma StaysSorted(ps: seq<Profile>, after: seq<Profile>, list: seq<nat>)
    requires Sorted(after, list) && |after| == |ps|
    requires forall x | x in list :: x < |ps| && after[x].order == ps[x].order
    ensures Sorted(ps, list)
  {
    forall i, j | 0 <= i < j < |list| ensures Precedes(ps, list[i], list[j]) {
      assert Precedes(after, list[i], list[j]) && list[i] in list && list[j] in list;
    }
  }

  // ----- when the others keep the order in which they were listed

  function Remove(list: seq<nat>, x: nat): seq<nat> {
    if list == [] then []
    else
      var last := |list| - 1;
      Remove(list[..last], x) + if list[last] == x then [] else [list[last]]
  }

  lemma {:induction false} RemoveHolds(ps: seq<Profile>, list: seq<nat>, x: nat)
    ensures forall y: nat :: y in Remove(list, x) <==> y in list && y != x
    ensures Sorted(ps, list) ==> Sorted(ps, Remove(list, x))
  {
    if list != [] {
      var init, last := list[..|list| - 1], list[|list| - 1];
      assert list == init + [last];
      RemoveHolds(ps, init, x);
      var r := Remove(init, x);
      assert forall i | 0 <= i < |r| :: r[i] in r && r[i] in init;
      if Sorted(ps, list) { assert forall y | y in init :: Precedes(ps, y, last); }
    }
  }

  lemma {:induction false} MembersWithout(ps: seq<Profile>, p: nat, n: nat)
    requires p < |ps| && UniqueIds(ps) && n <= |ps|
    ensures Members(ps, ps[p].key, Some(ps[p].id), n) == Remove(Members(ps, ps[p].key, None, n), p)
  {
    hide UniqueIds, Ascending;
    if n > 0 {
      MembersWithout(ps, p, n - 1);
      if n - 1 != p { SameIdOnly(ps, p, n - 1); }
      var init := Members(ps, ps[p].key, None, n - 1);
      assert (init + [n - 1])[..|init|] == init;
    }
  }

  /** The profile has a valid order, or another one of its group has none, or the others are stored in order anyway. */
  predicate ListedAsOthersWouldBe(ps: seq<Profile>, p: nat)
    requires p < |ps|
  {
    var others := Members(ps, ps[p].key, Some(ps[p].id), |ps|);
    HasOrder(ps[p]) || !AllOrdered(ps, others) || Sorted(ps, others)
  }

  /**
    Leaving the profile out keeps the listing of the others if and only if this holds: taking the one
    profile without an order out of a group can re-sort the rest.
   */
  lemma OthersKeepTheirOrder(ps: seq<Profile>, p: nat)
    requires p < |ps| && UniqueIds(ps)
    ensures Ordered(ps, ps[p].key, Some(ps[p].id)) == Remove(Ordered(ps, ps[p].key, None), p) <==>
              ListedAsOthersWouldBe(ps, p)
  {
    var key, id := ps[p].key, ps[p].id;
    var all, others := Members(ps, key, None, |ps|), Members(ps, key, Some(id), |ps|);
    MembersWithout(ps, p, |ps|);
    RemoveHolds(ps, all, p);
    assert p in all by { assert Belongs(ps, p, key, None); }
    OrdersOfAll(ps, all, others, p);
    if HasOrder(ps[p]) && AllOrdered(ps, others) {
      RemoveHolds(ps, SortBy(ps, all), p);
      SortedUnique(ps, SortBy(ps, others), Remove(SortBy(ps, all), p));
    } else if !HasOrder(ps[p]) && AllOrdered(ps, others) && Sorted(ps, others) {
      SortedUnique(ps, SortBy(ps, others), others);
    }
  }

  lemma OrdersOfAll(ps: seq<Profile>, all: seq<nat>, others: seq<nat>, p: nat)
    requires Within(ps, all) && Within(ps, others) && p in all && forall y: nat :: y in others <==> y in all && y != p
    ensures p < |ps| && (AllOrdered(ps, all) <==> HasOrder(ps[p]) && AllOrdered(ps, others))
  {
    if AllOrdered(ps, all) {
      var i :| 0 <= i < |all| && all[i] == p;
      forall i | 0 <= i < |others| ensures HasOrder(ps[others[i]]) {
        assert others[i] in others;
        var j :| 0 <= j < |all| && all[j] == others[i];
      }
    }
    var i :| 0 <= i < |all| && all[i] == p;
    if HasOrder(ps[p]) && AllOrdered(ps, others) {
      forall j | 0 <= j < |all| && all[j] != p ensures HasOrder(ps[all[j]]) {
        assert all[j] in all;
        var k :| 0 <= k < |others| && others[k] == all[j];
      }
    }
  }

  /** Three profiles of one group, of which only the last has no order: moving it away swaps the other two. */
  lemma MissingOrderSwapsOthers()
    ensures var g, ps := Key("g"),
              [Profile("a", Key("g"), Some(1)), Profile("b", Key("g"), Some(0)), Profile("c", Key("g"), None)];
            UniqueIds(ps) && !ListedAsOthersWouldBe(ps, 2)
  {
    hide SortBy, InsertSorted, Members;
    var g, ps := Key("g"),
                 [Profile("a", Key("g"), Some(1)), Profile("b", Key("g"), Some(0)), Profile("c", Key("g"), None)];
    assert "a"[0] != "b"[0] && "a"[0] != "c"[0] && "b"[0] != "c"[0];
    var others := Members(ps, g, Some("c"), 3);
    assert Belongs(ps, 0, g, Some("c")) && Belongs(ps, 1, g, Some("c")) && !Belongs(ps, 2, g, Some("c"));
    assert 0 in others && 1 in others && AllOrdered(ps, others);
    var i, j :| 0 <= i < |others| && 0 <= j < |others| && others[i] == 0 && others[j] == 1;
    assert i < j && !Precedes(ps, others[i], others[j]);
  }

  // ----- the operation

  datatype Result = Moved(profiles: seq<Profile>) | NotFound | GroupChanged | NeedsConfirmation

  method FindProfile(ps: seq<Profile>, id: string) returns (p: Option<nat>)
    ensures p.Some? ==> p.value < |ps| && ps[p.value].id == id
    ensures p.None? <==> forall i | 0 <= i < |ps| :: ps[i].id != id
  {
    for i := 0 to |ps|
      invariant forall k | 0 <= k < i :: ps[k].id != id
    {
      if ps[i].id == id { return Some(i); }
    }
    return None;
  }

  method NumberInOrder(ps: seq<Profile>, list: seq<nat>) returns (r: seq<Profile>)
    requires Within(ps, list)
    ensures r == Numbered(ps, list)
  {
    r := ps;
    for i := 0 to |list|
      invariant |r| == |ps| && r == Numbered(ps, list[..i])
    {
      assert list[..i + 1][..i] == list[..i];
      r := r[list[i] := r[list[i]].(order := Some(i))];
    }
    assert list[..|list|] == list;
  }

  /** `move_profile`: the last profile of a named group leaves it only with confirmation. */
  method MoveProfile(ps: seq<Profile>, id: string, expected: Key, target: Key, index: nat, confirm: bool)
    returns (r: Result)
    requires UniqueIds(ps)
    ensures r.NotFound? <==> forall i | 0 <= i < |ps| :: ps[i].id != id
    ensures forall p: nat | p < |ps| && ps[p].id == id ::
              var changes := ps[p].key != target;
              if ps[p].key != expected then r == GroupChanged
              else if ps[p].key != Key("") && changes && |Ordered(ps, ps[p].key, None)| == 1 && !confirm
                then r == NeedsConfirmation
              else r == Moved(Move(ps, p, target, index))
  {
    var found := FindProfile(ps, id);
    if found.None? { return NotFound; }
    var p := found.value;
    forall x: nat | x < |ps| && ps[x].id == id ensures x == p { if x != p { SameIdOnly(ps, p, x); } }
    hide Ordered, Numbered;
    var source := ps[p].key;
    if source != expected { return GroupChanged; }
    var members := Ordered(ps, source, None);
    var changes := source != target;
    if source != Key("") && changes && |members| == 1 && !confirm { return NeedsConfirmation; }
    var others := Ordered(ps, target, Some(id));
    var list := InsertAt(others, Min(index, |others|), p);
    TargetHolds(ps, p, target, index);
    OrderedHolds(ps, source, Some(id));
    var after := ps[p := ps[p].(key := target)];
    if changes {
      RehomedLeaves(ps, p, target);
      after := NumberInOrder(after, Ordered(after, source, Some(id)));
    } else {
      assert ps[p].(key := target) == ps[p];
      NumberedNone(Rehomed(ps, p, target));
    }
    after := NumberInOrder(after, list);
    return Moved(after);
  }

  lemma NumberedNone(ps: seq<Profile>)
    ensures Numbered(ps, []) == ps
  {
  }

  /** The source group is listed without the profile, whether or not it has left already. */
  lemma RehomedLeaves(ps: seq<Profile>, p: nat, target: Key)
    requires p < |ps| && ps[p].key != target
    ensures Ordered(Rehomed(ps, p, target), ps[p].key, Some(ps[p].id)) == Ordered(ps, ps[p].key, Some(ps[p].id))
  {
    SameGroupSameListing(ps, Rehomed(ps, p, target), ps[p].key, Some(ps[p].id), Some(ps[p].id));
  }
}
