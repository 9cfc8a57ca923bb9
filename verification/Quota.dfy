/** `QuotaManager` in `app/quota_manager.py`: counts that always equal the sum of the unreleased reservations. */
module Quota {

  import opened Collections

  datatype Kind = SshSession | QuickConnection | Transfer | TempBytes | BackgroundJob

  datatype User = User(id: string)

  datatype Limits = Limits(global: nat, perUser: nat)

  /** A reservation as handed out; `released` is its own flag. */
  datatype Ticket = Ticket(kind: Kind, user: User, amount: nat, released: bool)

  datatype Reserved = Granted(id: nat) | OverUser | OverGlobal | Invalid

  // ----- what is outstanding

  function Outstanding(t: Ticket, kind: Kind): nat { if !t.released && t.kind == kind then t.amount else 0 }

  function GlobalTotal(ledger: seq<Ticket>, kind: Kind): nat {
    if ledger == [] then 0 else GlobalTotal(ledger[..|ledger| - 1], kind) + Outstanding(ledger[|ledger| - 1], kind)
  }

  function UserTotal(ledger: seq<Ticket>, kind: Kind, user: User): nat {
    if ledger == [] then 0
    else
      UserTotal(ledger[..|ledger| - 1], kind, user)
      + if ledger[|ledger| - 1].user == user then Outstanding(ledger[|ledger| - 1], kind) else 0
  }

  lemma TotalsGrow(ledger: seq<Ticket>, t: Ticket, kind: Kind, user: User)
    ensures GlobalTotal(ledger + [t], kind) == GlobalTotal(ledger, kind) + Outstanding(t, kind)
    ensures UserTotal(ledger + [t], kind, user) == UserTotal(ledger, kind, user) + if t.user == user
              then Outstanding(t, kind) else 0
  {
    assert (ledger + [t])[..|ledger|] == ledger;
  }

  /** Releasing one reservation takes exactly its amount from its kind and its user, and nothing else. */
  lemma {:induction false} TotalsShrink(ledger: seq<Ticket>, i: nat, kind: Kind, user: User)
    requires i < |ledger| && !ledger[i].released
    ensures var after := ledger[i := ledger[i].(released := true)];
            && GlobalTotal(after, kind) == GlobalTotal(ledger, kind) - Outstanding(ledger[i], kind)
            && UserTotal(after, kind, user) == UserTotal(ledger, kind, user) - if ledger[i].user == user
              then Outstanding(ledger[i], kind) else 0
  {
    var after, last := ledger[i := ledger[i].(released := true)], |ledger| - 1;
    if i == last { assert after[..last] == ledger[..last]; }
    else {
      TotalsShrink(ledger[..last], i, kind, user);
      assert after[..last] == ledger[..last][i := ledger[i].(released := true)];
    }
  }

  lemma {:induction false} TicketWithinTotals(ledger: seq<Ticket>, i: nat)
    requires i < |ledger| && !ledger[i].released
    ensures ledger[i].amount <= UserTotal(ledger, ledger[i].kind, ledger[i].user) <= GlobalTotal(ledger, ledger[i].kind)
  {
    UserWithinGlobal(ledger, ledger[i].kind, ledger[i].user);
    if i < |ledger| - 1 { TicketWithinTotals(ledger[..|ledger| - 1], i); }
  }

  lemma {:induction false} UserWithinGlobal(ledger: seq<Ticket>, kind: Kind, user: User)
    ensures UserTotal(ledger, kind, user) <= GlobalTotal(ledger, kind)
  {
    if ledger != [] { UserWithinGlobal(ledger[..|ledger| - 1], kind, user); }
  }

  // ----- the counts

  /** Absent rather than zero. */
  function Set<K>(m: map<K, nat>, k: K, n: nat): map<K, nat> { if n == 0 then m - {k} else m[k := n] }

  ghost predicate Counted(users: map<(Kind, User), nat>, globals: map<Kind, nat>, ledger: seq<Ticket>) {
    && (forall kind, user :: Get(users, (kind, user)) == UserTotal(ledger, kind, user))
    && (forall kind :: Get(globals, kind) == GlobalTotal(ledger, kind))
    && (forall k | k in users :: users[k] > 0) && (forall k | k in globals :: globals[k] > 0)
  }

  ghost predicate WithinLimits(limits: map<Kind, Limits>, ledger: seq<Ticket>) {
    && (forall kind: Kind :: kind in limits && GlobalTotal(ledger, kind) <= limits[kind].global)
    && (forall kind, user :: UserTotal(ledger, kind, user) <= limits[kind].perUser)
  }

  lemma ReservingKeepsCounts(users: map<(Kind, User), nat>, globals: map<Kind, nat>, ledger: seq<Ticket>, t: Ticket)
    requires Counted(users, globals, ledger) && t.amount > 0 && !t.released
    ensures Counted(users[(t.kind, t.user) := Get(users, (t.kind, t.user)) + t.amount],
                    globals[t.kind := Get(globals, t.kind) + t.amount], ledger + [t])
  {
    hide UserTotal, GlobalTotal;
    forall kind ensures GlobalTotal(ledger + [t], kind) == GlobalTotal(ledger, kind) + Outstanding(t, kind) {
      TotalsGrow(ledger, t, kind, t.user);
    }
    forall kind, user
      ensures UserTotal(ledger + [t], kind, user) == UserTotal(ledger, kind, user) + if t.user == user
                then Outstanding(t, kind) else 0
    {
      TotalsGrow(ledger, t, kind, user);
    }
  }

  lemma ReservingKeepsLimits(limits: map<Kind, Limits>, ledger: seq<Ticket>, t: Ticket)
    requires WithinLimits(limits, ledger) && !t.released
    requires UserTotal(ledger, t.kind, t.user) + t.amount <= limits[t.kind].perUser
    requires GlobalTotal(ledger, t.kind) + t.amount <= limits[t.kind].global
    ensures WithinLimits(limits, ledger + [t])
  {
    hide UserTotal, GlobalTotal;
    forall kind: Kind ensures kind in limits && GlobalTotal(ledger + [t], kind) <= limits[kind].global {
      TotalsGrow(ledger, t, kind, t.user);
    }
    forall kind, user ensures UserTotal(ledger + [t], kind, user) <= limits[kind].perUser {
      TotalsGrow(ledger, t, kind, user);
      assert UserTotal(ledger, kind, user) <= limits[kind].perUser;
    }
  }

  lemma ReleasingKeepsCounts(users: map<(Kind, User), nat>, globals: map<Kind, nat>, ledger: seq<Ticket>, i: nat)
    requires Counted(users, globals, ledger) && i < |ledger| && !ledger[i].released
    ensures var t := ledger[i];
            && t.amount <= Get(users, (t.kind, t.user)) && t.amount <= Get(globals, t.kind)
            && Counted(Set(users, (t.kind, t.user), Get(users, (t.kind, t.user)) - t.amount),
                       Set(globals, t.kind, Get(globals, t.kind) - t.amount), ledger[i := t.(released := true)])
  {
    hide UserTotal, GlobalTotal;
    var t := ledger[i];
    var after := ledger[i := t.(released := true)];
    TicketWithinTotals(ledger, i);
    assert Get(users, (t.kind, t.user)) == UserTotal(ledger, t.kind, t.user);
    forall kind ensures GlobalTotal(after, kind) == GlobalTotal(ledger, kind) - Outstanding(t, kind) {
      TotalsShrink(ledger, i, kind, t.user);
    }
    forall kind, user
      ensures UserTotal(after, kind, user) == UserTotal(ledger, kind, user) - if t.user == user
                then Outstanding(t, kind) else 0
    {
      TotalsShrink(ledger, i, kind, user);
    }
  }

  lemma ReleasingKeepsLimits(limits: map<Kind, Limits>, ledger: seq<Ticket>, i: nat)
    requires WithinLimits(limits, ledger) && i < |ledger| && !ledger[i].released
    ensures WithinLimits(limits, ledger[i := ledger[i].(released := true)])
  {
    hide UserTotal, GlobalTotal;
    var after := ledger[i := ledger[i].(released := true)];
    forall kind: Kind ensures kind in limits && GlobalTotal(after, kind) <= limits[kind].global {
      TotalsShrink(ledger, i, kind, ledger[i].user);
    }
    forall kind, user ensures UserTotal(after, kind, user) <= limits[kind].perUser {
      TotalsShrink(ledger, i, kind, user);
      assert UserTotal(ledger, kind, user) <= limits[kind].perUser;
    }
  }

  class QuotaManager {
    const limits: map<Kind, Limits>
    var userCounts: map<(Kind, User), nat>
    var globalCounts: map<Kind, nat>
    var ledger: seq<Ticket>

    ghost predicate Valid()
      reads this
    {
      Counted(userCounts, globalCounts, ledger) && WithinLimits(limits, ledger)
    }

    constructor (limits: map<Kind, Limits>)
      requires forall kind: Kind :: kind in limits
      ensures Valid() && ledger == [] && this.limits == limits
    {
      this.limits := limits;
      userCounts, globalCounts, ledger := map[], map[], [];
    }

    /** Grants exactly when both limits leave room, and reports the per-user limit first. */
    method Reserve(kind: Kind, user: User, amount: int) returns (r: Reserved)
      requires Valid()
      modifies this
      ensures Valid() && kind in limits
      ensures r.Invalid? <==> amount <= 0
      ensures r.OverUser? <==> amount > 0 && UserTotal(old(ledger), kind, user) + amount > limits[kind].perUser
      ensures r.OverGlobal? <==>
                amount > 0 && !r.OverUser? && GlobalTotal(old(ledger), kind) + amount > limits[kind].global
      ensures r.Granted? ==> r.id == |old(ledger)| && ledger == old(ledger) + [Ticket(kind, user, amount, false)]
      ensures !r.Granted? ==>
                ledger == old(ledger) && userCounts == old(userCounts) && globalCounts == old(globalCounts)
    {
      hide UserTotal, GlobalTotal;
      if amount <= 0 { return Invalid; }
      var userTotal := Get(userCounts, (kind, user));
      if userTotal + amount > limits[kind].perUser { return OverUser; }
      var globalTotal := Get(globalCounts, kind);
      if globalTotal + amount > limits[kind].global { return OverGlobal; }
      var ticket := Ticket(kind, user, amount, false);
      ReservingKeepsCounts(userCounts, globalCounts, ledger, ticket);
      ReservingKeepsLimits(limits, ledger, ticket);
      userCounts := userCounts[(kind, user) := userTotal + amount];
      globalCounts := globalCounts[kind := globalTotal + amount];
      r := Granted(|ledger|);
      ledger := ledger + [ticket];
    }

    /** Releases a reservation once; a second release changes nothing. */
    method Release(id: nat)
      requires Valid() && id < |ledger|
      modifies this
      ensures Valid() && ledger == old(ledger)[id := old(ledger)[id].(released := true)]
    {
      hide Counted, WithinLimits;
      if ledger[id].released {
        assert ledger == ledger[id := ledger[id].(released := true)];
        return;
      }
      var t := ledger[id];
      ReleasingKeepsCounts(userCounts, globalCounts, ledger, id);
      ReleasingKeepsLimits(limits, ledger, id);
      userCounts := Set(userCounts, (t.kind, t.user), Get(userCounts, (t.kind, t.user)) - t.amount);
      globalCounts := Set(globalCounts, t.kind, Get(globalCounts, t.kind) - t.amount);
      ledger := ledger[id := t.(released := true)];
    }
  }
}
