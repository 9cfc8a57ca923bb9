/**
  `TemporaryConnectionPool` in `app/connection_pool.py`. Every region under the pool's lock is one method;
  closing the resources of a connection that has been taken out of the pool is a method of its own, so that
  any order of calls is an interleaving of threads.
 */
module ConnectionPool {

  import opened Collections
  import opened Quota

  datatype Id = Id(name: string)

  datatype Conn = Conn(user: User, lastUsed: int, ticket: nat, holds: nat, closeRequested: bool)

  datatype Closing = Closed | Deferred | Unavailable

  type Table = map<Id, Conn>

  /**
    What the pool answers for: stored connections, connections being closed, connections being made, and
    what is over.
   */
  datatype Books = Books(stored: Table, leaving: Table, making: map<nat, User>, over: set<Id>)

  predicate TicketOf(ledger: seq<Ticket>, ticket: nat, user: User) {
    ticket < |ledger| && ledger[ticket] == Ticket(QuickConnection, user, 1, false)
  }

  predicate Known(b: Books, id: Id) { id in b.stored || id in b.leaving || id in b.over }

  predicate Placed(stored: Table, leaving: Table, over: set<Id>) {
    && (forall id | id in stored :: id !in leaving && id !in over)
    && (forall id | id in leaving :: id !in over)
  }

  /** No two connections share a reservation. */
  predicate Apart(stored: Table, leaving: Table) {
    && (forall i, j | i in stored && j in stored && i != j :: stored[i].ticket != stored[j].ticket)
    && (forall i, j | i in leaving && j in leaving && i != j :: leaving[i].ticket != leaving[j].ticket)
    && (forall i, j | i in stored && j in leaving :: stored[i].ticket != leaving[j].ticket)
  }

  /** Each of these connections has an unreleased reservation that is not one of a connection being made. */
  predicate Booked(table: Table, making: map<nat, User>, ledger: seq<Ticket>) {
    forall id | id in table :: TicketOf(ledger, table[id].ticket, table[id].user) && table[id].ticket !in making
  }

  /** Each connection is in one place only, and has its own unreleased reservation. */
  predicate Orderly(b: Books, ledger: seq<Ticket>) {
    && Placed(b.stored, b.leaving, b.over)
    && Booked(b.stored, b.making, ledger) && Booked(b.leaving, b.making, ledger)
    && (forall ticket | ticket in b.making :: TicketOf(ledger, ticket, b.making[ticket]))
    && Apart(b.stored, b.leaving)
  }

  /** A close that waits is waiting for a hold. */
  predicate DeferredAreHeld(stored: Table) {
    forall id | id in stored && stored[id].closeRequested :: stored[id].holds > 0
  }

  /** Somebody still answers for the reservation. */
  predicate InUse(b: Books, ticket: nat) {
    || ticket in b.making
    || (exists id :: id in b.stored && b.stored[id].ticket == ticket)
    || (exists id :: id in b.leaving && b.leaving[id].ticket == ticket)
  }

  /** No reservation for a quick connection is left without an owner. */
  predicate NoneLost(b: Books, ledger: seq<Ticket>) {
    forall i | 0 <= i < |ledger| && ledger[i].kind == QuickConnection && !ledger[i].released :: InUse(b, i)
  }

  predicate BooksOk(b: Books, ledger: seq<Ticket>) {
    Orderly(b, ledger) && DeferredAreHeld(b.stored) && NoneLost(b, ledger)
  }

  // ----- the moves

  /** The connection goes from the registry to the caller that will close it. */
  function Leaving(b: Books, id: Id, conn: Conn): Books {
    b.(stored := b.stored - {id}, leaving := b.leaving[id := conn])
  }

  lemma LeavingOk(b: Books, ledger: seq<Ticket>, id: Id, conn: Conn)
    requires BooksOk(b, ledger) && id in b.stored && conn.ticket == b.stored[id].ticket
    requires conn.user == b.stored[id].user
    ensures BooksOk(Leaving(b, id, conn), ledger)
  {
    hide TicketOf, NoneLost, Apart;
    LeavingInUse(b, ledger, id, conn);
    LeavingApart(b, id, conn);
  }

  lemma LeavingApart(b: Books, id: Id, conn: Conn)
    requires Apart(b.stored, b.leaving) && id in b.stored && conn.ticket == b.stored[id].ticket && id !in b.leaving
    ensures Apart(Leaving(b, id, conn).stored, Leaving(b, id, conn).leaving)
  {
  }

  lemma LeavingInUse(b: Books, ledger: seq<Ticket>, id: Id, conn: Conn)
    requires NoneLost(b, ledger) && id in b.stored && conn.ticket == b.stored[id].ticket && id !in b.leaving
    ensures NoneLost(Leaving(b, id, conn), ledger)
  {
    var b' := Leaving(b, id, conn);
    forall i | 0 <= i < |ledger| && ledger[i].kind == QuickConnection && !ledger[i].released ensures InUse(b', i) {
      assert InUse(b, i);
      if j :| j in b.stored && b.stored[j].ticket == i {
        if j == id { assert b'.leaving[id].ticket == i; } else { assert b'.stored[j].ticket == i; }
      } else if j :| j in b.leaving && b.leaving[j].ticket == i { assert b'.leaving[j].ticket == i; }
    }
  }

  /** Only holds, close requests and times change. */
  predicate SameTickets(a: Table, b: Table) {
    a.Keys == b.Keys && forall id | id in a :: a[id].ticket == b[id].ticket && a[id].user == b[id].user
  }

  lemma TouchOk(b: Books, ledger: seq<Ticket>, stored: Table)
    requires BooksOk(b, ledger) && SameTickets(b.stored, stored) && DeferredAreHeld(stored)
    ensures BooksOk(b.(stored := stored), ledger)
  {
    hide TicketOf;
    var b' := b.(stored := stored);
    forall i | 0 <= i < |ledger| && ledger[i].kind == QuickConnection && !ledger[i].released ensures InUse(b', i) {
      assert InUse(b, i);
      if j :| j in b.stored && b.stored[j].ticket == i { assert j in stored && stored[j].ticket == i; }
    }
  }

  lemma ReservedOk(b: Books, ledger: seq<Ticket>, user: User)
    requires BooksOk(b, ledger)
    ensures BooksOk(b.(making := b.making[|ledger| := user]), ledger + [Ticket(QuickConnection, user, 1, false)])
  {
    hide TicketOf, NoneLost, Apart;
    ReservedInUse(b, ledger, user);
    ReservedTickets(ledger, user);
  }

  lemma ReservedTickets(ledger: seq<Ticket>, user: User)
    ensures var ledger' := ledger + [Ticket(QuickConnection, user, 1, false)];
            && TicketOf(ledger', |ledger|, user)
            && forall k, u | TicketOf(ledger, k, u) :: TicketOf(ledger', k, u) && k != |ledger|
  {
  }

  lemma ReservedInUse(b: Books, ledger: seq<Ticket>, user: User)
    requires NoneLost(b, ledger)
    ensures NoneLost(b.(making := b.making[|ledger| := user]), ledger + [Ticket(QuickConnection, user, 1, false)])
  {
    var b', ledger' := b.(making := b.making[|ledger| := user]), ledger + [Ticket(QuickConnection, user, 1, false)];
    forall i | 0 <= i < |ledger'| && ledger'[i].kind == QuickConnection && !ledger'[i].released ensures InUse(b', i) {
      if i < |ledger| { assert InUse(b, i); }
    }
  }

  lemma StoredOk(b: Books, ledger: seq<Ticket>, ticket: nat, id: Id, conn: Conn)
    requires BooksOk(b, ledger) && ticket in b.making && !Known(b, id)
    requires conn.ticket == ticket && conn.user == b.making[ticket] && !conn.closeRequested
    ensures BooksOk(b.(stored := b.stored[id := conn], making := b.making - {ticket}), ledger)
  {
    hide TicketOf, NoneLost, Apart;
    StoredInUse(b, ledger, ticket, id, conn);
    StoredApart(b, ledger, ticket, id, conn);
  }

  lemma StoredApart(b: Books, ledger: seq<Ticket>, ticket: nat, id: Id, conn: Conn)
    requires Orderly(b, ledger) && ticket in b.making && id !in b.stored && conn.ticket == ticket
    ensures Apart(b.stored[id := conn], b.leaving)
  {
    hide TicketOf;
  }

  lemma StoredInUse(b: Books, ledger: seq<Ticket>, ticket: nat, id: Id, conn: Conn)
    requires NoneLost(b, ledger) && ticket in b.making && id !in b.stored && conn.ticket == ticket
    ensures NoneLost(b.(stored := b.stored[id := conn], making := b.making - {ticket}), ledger)
  {
    var b' := b.(stored := b.stored[id := conn], making := b.making - {ticket});
    forall i | 0 <= i < |ledger| && ledger[i].kind == QuickConnection && !ledger[i].released ensures InUse(b', i) {
      assert InUse(b, i);
      if i == ticket { assert b'.stored[id].ticket == i; }
      else if j :| j in b.stored && b.stored[j].ticket == i { assert b'.stored[j].ticket == i; }
    }
  }

  function Released(ledger: seq<Ticket>, ticket: nat): seq<Ticket>
    requires ticket < |ledger|
  {
    ledger[ticket := ledger[ticket].(released := true)]
  }

  lemma OtherTickets(ledger: seq<Ticket>, ticket: nat)
    requires ticket < |ledger|
    ensures forall k, user | k != ticket :: TicketOf(Released(ledger, ticket), k, user) == TicketOf(ledger, k, user)
  {
  }

  /** Giving back the reservation of a connection that was not made. */
  lemma ForgoneOk(b: Books, ledger: seq<Ticket>, ticket: nat)
    requires BooksOk(b, ledger) && ticket in b.making && ticket < |ledger|
    ensures BooksOk(b.(making := b.making - {ticket}), Released(ledger, ticket))
  {
    hide TicketOf, Released, NoneLost, Apart;
    OtherTickets(ledger, ticket);
    ForgoneInUse(b, ledger, ticket);
  }

  lemma ForgoneInUse(b: Books, ledger: seq<Ticket>, ticket: nat)
    requires NoneLost(b, ledger) && ticket in b.making && ticket < |ledger|
    ensures NoneLost(b.(making := b.making - {ticket}), Released(ledger, ticket))
  {
    var b', ledger' := b.(making := b.making - {ticket}), Released(ledger, ticket);
    forall i | 0 <= i < |ledger'| && ledger'[i].kind == QuickConnection && !ledger'[i].released ensures InUse(b', i) {
      assert i != ticket && InUse(b, i);
    }
  }

  function Gone(b: Books, id: Id): Books { b.(leaving := b.leaving - {id}, over := b.over + {id}) }

  /** Giving back the reservation of a connection that has been closed. */
  lemma GoneOk(b: Books, ledger: seq<Ticket>, id: Id)
    requires BooksOk(b, ledger) && id in b.leaving && b.leaving[id].ticket < |ledger|
    ensures BooksOk(Gone(b, id), Released(ledger, b.leaving[id].ticket))
  {
    hide TicketOf, Released, NoneLost;
    OtherTickets(ledger, b.leaving[id].ticket);
    GoneInUse(b, ledger, id);
  }

  lemma GoneInUse(b: Books, ledger: seq<Ticket>, id: Id)
    requires NoneLost(b, ledger) && id in b.leaving && b.leaving[id].ticket < |ledger|
    ensures NoneLost(Gone(b, id), Released(ledger, b.leaving[id].ticket))
  {
    var b', ledger' := Gone(b, id), Released(ledger, b.leaving[id].ticket);
    forall i | 0 <= i < |ledger'| && ledger'[i].kind == QuickConnection && !ledger'[i].released ensures InUse(b', i) {
      assert i != b.leaving[id].ticket && InUse(b, i);
      if j :| j in b.leaving && b.leaving[j].ticket == i { assert j in b'.leaving; }
    }
  }

  // ----- the pool

  class TemporaryConnectionPool {
    const quota: QuotaManager
    var connections: Table
    var leaving: Table             // out of the registry, resources not closed yet
    var making: map<nat, User>     // reservations of `create_connection` calls in progress
    var closes: map<Id, nat>       // how often each connection's resources have been closed

    ghost function Value(): Books
      reads this
    {
      Books(connections, leaving, making, closes.Keys)
    }

    ghost predicate Valid()
      reads this, quota
    {
      quota.Valid() && BooksOk(Value(), quota.ledger) && forall id | id in closes :: closes[id] == 1
    }

    constructor (quota: QuotaManager)
      requires quota.Valid()
      requires forall i | 0 <= i < |quota.ledger| ::
                 quota.ledger[i].kind != QuickConnection || quota.ledger[i].released
      ensures Valid() && this.quota == quota && connections == leaving == map[] && making == map[] && closes == map[]
    {
      this.quota := quota;
      connections, leaving, making, closes := map[], map[], map[], map[];
    }

    /** The start of `create_connection`: reserve first. */
    method BeginCreate(user: User) returns (r: Reserved)
      requires Valid()
      modifies this`making, quota
      ensures Valid()
      ensures QuickConnection in quota.limits && !r.Invalid?
      ensures var limits, ledger := quota.limits[QuickConnection], old(quota.ledger);
              && (r.OverUser? <==> UserTotal(ledger, QuickConnection, user) >= limits.perUser)
              && (r.OverGlobal? <==> !r.OverUser? && GlobalTotal(ledger, QuickConnection) >= limits.global)
      ensures r.Granted? ==> making == old(making)[r.id := user] && r.id !in old(making) && r.id == |old(quota.ledger)|
                             && quota.ledger == old(quota.ledger) + [Ticket(QuickConnection, user, 1, false)]
      ensures !r.Granted? ==> making == old(making) && quota.ledger == old(quota.ledger)
    {
      hide BooksOk, WithinLimits, Counted, UserTotal, GlobalTotal;
      ReservedOk(Value(), quota.ledger, user);
      r := quota.Reserve(QuickConnection, user, 1);
      NewTicket(Value(), old(quota.ledger));
      if r.Granted? { making := making[r.id := user]; }
    }

    /** A connection that could not be made gives its reservation back. */
    method AbandonCreate(ticket: nat)
      requires Valid() && ticket in making
      modifies this`making, quota
      ensures Valid() && making == old(making) - {ticket}
      ensures ticket < |old(quota.ledger)| && quota.ledger == Released(old(quota.ledger), ticket)
    {
      hide BooksOk, WithinLimits, Counted;
      MakingTicket(Value(), quota.ledger, ticket);
      ForgoneOk(Value(), quota.ledger, ticket);
      quota.Release(ticket);
      making := making - {ticket};
    }

    /** The hand-over of the reservation to the stored connection, unless the runtime is shutting down. */
    method Store(ticket: nat, id: Id, now: int, accepting: bool) returns (stored: bool)
      requires Valid() && ticket in making && !Known(Value(), id)
      modifies this`connections, this`making, quota
      ensures Valid() && stored == accepting && making == old(making) - {ticket}
      ensures stored ==>
                connections == old(connections)[id := Conn(old(making)[ticket], now, ticket, 0, false)]
                  && quota.ledger == old(quota.ledger)
      ensures !stored ==>
                connections == old(connections) && ticket < |old(quota.ledger)|
                  && quota.ledger == Released(old(quota.ledger), ticket)
    {
      hide BooksOk, WithinLimits, Counted;
      if !accepting { AbandonCreate(ticket); return false; }
      var conn := Conn(making[ticket], now, ticket, 0, false);
      StoredOk(Value(), quota.ledger, ticket, id, conn);
      connections := connections[id := conn];
      making := making - {ticket};
      return true;
    }

    /** `acquire_hold`: refused once a close has been requested. */
    method AcquireHold(id: Id, user: User) returns (ok: bool)
      requires Valid()
      modifies this`connections
      ensures Valid()
      ensures ok <==>
              && id in old(connections)
              && old(connections)[id].user == user
              && !old(connections)[id].closeRequested
      ensures connections ==
              if ok then old(connections)[id := old(connections)[id].(holds := old(connections)[id].holds + 1)]
              else old(connections)
    {
      hide BooksOk, Counted, WithinLimits;
      if id !in connections || connections[id].user != user || connections[id].closeRequested { return false; }
      var after := connections[id := connections[id].(holds := connections[id].holds + 1)];
      HeldStay(Value(), quota.ledger);
      TouchOk(Value(), quota.ledger, after);
      connections := after;
      return true;
    }

    /** `release_hold`: the last release takes out a connection whose close was deferred. */
    method ReleaseHold(id: Id, user: User) returns (ok: bool)
      requires Valid()
      modifies this`connections, this`leaving
      ensures Valid()
      ensures ok <==> id in old(connections) && old(connections)[id].user == user && old(connections)[id].holds > 0
      ensures !ok ==> connections == old(connections) && leaving == old(leaving)
      ensures ok ==>
                var less := old(connections)[id].(holds := old(connections)[id].holds - 1);
                if less.holds == 0 && less.closeRequested
                then connections == old(connections) - {id} && leaving == old(leaving)[id := less]
                else connections == old(connections)[id := less] && leaving == old(leaving)
    {
      hide BooksOk, Counted, WithinLimits;
      if id !in connections || connections[id].user != user || connections[id].holds <= 0 { return false; }
      ok := true;
      var less := connections[id].(holds := connections[id].holds - 1);
      HeldStay(Value(), quota.ledger);
      if less.holds == 0 && less.closeRequested {
        LeavingOk(Value(), quota.ledger, id, less);
        connections, leaving := connections - {id}, leaving[id := less];
      } else {
        TouchOk(Value(), quota.ledger, connections[id := less]);
        connections := connections[id := less];
      }
    }

    /** `request_close`: a held connection stays, and is marked. */
    method RequestClose(id: Id, user: Option<User>) returns (result: Closing)
      requires Valid()
      modifies this`connections, this`leaving
      ensures Valid()
      ensures result == Unavailable <==>
                id !in old(connections) || (user.Some? && old(connections)[id].user != user.value)
      ensures result == Deferred <==> result != Unavailable && old(connections)[id].holds > 0
      ensures result == Unavailable ==> connections == old(connections) && leaving == old(leaving)
      ensures result == Deferred ==>
                connections == old(connections)[id := old(connections)[id].(closeRequested := true)]
                  && leaving == old(leaving)
      ensures result == Closed ==>
                connections == old(connections) - {id} && leaving == old(leaving)[id := old(connections)[id]]
    {
      hide BooksOk, Counted, WithinLimits;
      if id !in connections || (user.Some? && connections[id].user != user.value) { return Unavailable; }
      HeldStay(Value(), quota.ledger);
      if connections[id].holds > 0 {
        var after := connections[id := connections[id].(closeRequested := true)];
        TouchOk(Value(), quota.ledger, after);
        connections := after;
        return Deferred;
      }
      LeavingOk(Value(), quota.ledger, id, connections[id]);
      connections, leaving := connections - {id}, leaving[id := connections[id]];
      return Closed;
    }

    /** `_detach_connections`: takes out what matches, except that held connections can be marked instead. */
    method Detach(matching: set<Id>, deferHeld: bool)
      requires Valid()
      modifies this`connections, this`leaving
      ensures Valid()
      ensures connections == Staying(old(connections), matching, deferHeld)
      ensures leaving == old(leaving) + Going(old(connections), matching, deferHeld)
      ensures forall id | id in old(connections) && id !in matching ::
                id in connections && connections[id] == old(connections)[id]
      ensures forall id | id in old(connections) && id in matching && deferHeld && old(connections)[id].holds > 0 ::
                id in connections && connections[id] == old(connections)[id].(closeRequested := true)
      ensures forall id | id in old(connections) && id in matching && !(deferHeld && old(connections)[id].holds > 0) ::
                id !in connections && id in leaving && leaving[id] == old(connections)[id]
    {
      hide BooksOk, Counted, WithinLimits, Staying, Going;
      var todo, done := connections.Keys * matching, {};
      NothingSwept(connections, leaving, matching, deferHeld);
      while todo != {}
        invariant Valid() && todo + done == old(connections.Keys) * matching && todo !! done
        invariant connections == Staying(old(connections), done, deferHeld)
        invariant leaving == old(leaving) + Going(old(connections), done, deferHeld)
        decreases |todo|
      {
        var id :| id in todo;
        SweepOne(old(connections), old(leaving), done, id, deferHeld);
        DetachOne(id, deferHeld);
        todo, done := todo - {id}, done + {id};
      }
      SweepSame(old(connections), done, matching, deferHeld);
      SweepMeans(old(connections), old(leaving), matching, deferHeld);
    }

    method DetachOne(id: Id, deferHeld: bool)
      requires Valid() && id in connections
      modifies this`connections, this`leaving
      ensures Valid()
      ensures if deferHeld && old(connections)[id].holds > 0
              then connections == old(connections)[id := old(connections)[id].(closeRequested := true)]
                && leaving == old(leaving)
              else connections == old(connections) - {id} && leaving == old(leaving)[id := old(connections)[id]]
    {
      hide BooksOk, Counted, WithinLimits;
      HeldStay(Value(), quota.ledger);
      if deferHeld && connections[id].holds > 0 {
        var after := connections[id := connections[id].(closeRequested := true)];
        TouchOk(Value(), quota.ledger, after);
        connections := after;
      } else {
        LeavingOk(Value(), quota.ledger, id, connections[id]);
        connections, leaving := connections - {id}, leaving[id := connections[id]];
      }
    }

    /** `cleanup_expired`: an idle connection goes, but never one that is held. */
    method CleanupExpired(now: int, interval: int)
      requires Valid()
      modifies this`connections, this`leaving
      ensures Valid()
      ensures connections == Staying(old(connections), Idle(old(connections), now, interval), true)
      ensures leaving == old(leaving) + Going(old(connections), Idle(old(connections), now, interval), true)
      ensures forall id | id in old(connections) && now - old(connections)[id].lastUsed <= interval ::
                id in connections && connections[id] == old(connections)[id]
      ensures forall id | id in old(connections) && now - old(connections)[id].lastUsed > interval ::
                if old(connections)[id].holds > 0
                then id in connections && connections[id] == old(connections)[id].(closeRequested := true)
                else id !in connections && id in leaving && leaving[id] == old(connections)[id]
    {
      hide BooksOk, Counted, WithinLimits, Staying, Going;
      Detach(Idle(connections, now, interval), true);
    }

    /** The first half of `get_sftp_client`: a connection whose transport is dead goes at once, held or not. */
    method Touch(id: Id, alive: bool, now: int) returns (ok: bool)
      requires Valid()
      modifies this`connections, this`leaving
      ensures Valid() && (ok <==> id in old(connections) && alive)
      ensures ok ==>
                connections == old(connections)[id := old(connections)[id].(lastUsed := now)] && leaving == old(leaving)
      ensures !ok && id in old(connections) ==>
                connections == old(connections) - {id} && leaving == old(leaving)[id := old(connections)[id]]
      ensures id !in old(connections) ==> connections == old(connections) && leaving == old(leaving)
    {
      hide BooksOk, Counted, WithinLimits;
      if id !in connections { return false; }
      HeldStay(Value(), quota.ledger);
      if !alive {
        DetachOne(id, false);
        return false;
      }
      var after := connections[id := connections[id].(lastUsed := now)];
      TouchOk(Value(), quota.ledger, after);
      connections := after;
      return true;
    }

    /** `_close_detached_connections` for one connection: closed for the first and only time, reservation given back. */
    method FinishClose(id: Id)
      requires Valid() && id in leaving
      modifies this`leaving, this`closes, quota
      ensures Valid() && leaving == old(leaving) - {id}
      ensures id !in old(closes) && closes == old(closes)[id := 1]
      ensures var ticket := old(leaving)[id].ticket;
              ticket < |old(quota.ledger)| && !old(quota.ledger)[ticket].released
                && quota.ledger == Released(old(quota.ledger), ticket)
    {
      hide BooksOk, Counted, WithinLimits;
      LeavingTicket(Value(), quota.ledger, id);
      GoneOk(Value(), quota.ledger, id);
      closes := closes[id := Get(closes, id) + 1];
      quota.Release(leaving[id].ticket);
      leaving := leaving - {id};
      assert Value() == Gone(old(Value()), id);
    }
  }

  // ----- taking out several connections at once

  function Idle(table: Table, now: int, interval: int): set<Id> {
    set id | id in table && now - table[id].lastUsed > interval
  }

  predicate Spared(conn: Conn, deferHeld: bool) { deferHeld && conn.holds > 0 }

  function Staying(table: Table, matching: set<Id>, deferHeld: bool): Table {
    map id | id in table && (id in matching ==> Spared(table[id], deferHeld)) ::
      if id in matching then table[id].(closeRequested := true) else table[id]
  }

  function Going(table: Table, matching: set<Id>, deferHeld: bool): Table {
    map id | id in table && id in matching && !Spared(table[id], deferHeld) :: table[id]
  }

  lemma NothingSwept(table: Table, leaving: Table, matching: set<Id>, deferHeld: bool)
    ensures Staying(table, {}, deferHeld) == table && leaving + Going(table, {}, deferHeld) == leaving
  {
  }

  lemma SweepOne(table: Table, leaving: Table, done: set<Id>, id: Id, deferHeld: bool)
    requires id in table && id !in done
    ensures id in Staying(table, done, deferHeld) && Staying(table, done, deferHeld)[id] == table[id]
    ensures Staying(table, done + {id}, deferHeld)
         == if Spared(table[id], deferHeld)
            then Staying(table, done, deferHeld)[id := table[id].(closeRequested := true)]
            else Staying(table, done, deferHeld) - {id}
    ensures leaving + Going(table, done + {id}, deferHeld)
         == if Spared(table[id], deferHeld) then leaving + Going(table, done, deferHeld)
            else (leaving + Going(table, done, deferHeld))[id := table[id]]
  {
    GoingOne(table, done, id, deferHeld);
    hide Going, Spared;
  }

  lemma GoingOne(table: Table, done: set<Id>, id: Id, deferHeld: bool)
    requires id in table && id !in done
    ensures Going(table, done + {id}, deferHeld)
         == if Spared(table[id], deferHeld) then Going(table, done, deferHeld)
            else Going(table, done, deferHeld)[id := table[id]]
  {
  }

  lemma SweepMeans(table: Table, leaving: Table, matching: set<Id>, deferHeld: bool)
    ensures var stay, out := Staying(table, matching, deferHeld), leaving + Going(table, matching, deferHeld);
            && (forall id | id in table && id !in matching :: id in stay && stay[id] == table[id])
            && (forall id | id in table && id in matching && deferHeld && table[id].holds > 0 ::
                  id in stay && stay[id] == table[id].(closeRequested := true))
            && (forall id | id in table && id in matching && !(deferHeld && table[id].holds > 0) ::
                  id !in stay && id in out && out[id] == table[id])
  {
  }

  lemma SweepSame(table: Table, done: set<Id>, matching: set<Id>, deferHeld: bool)
    requires done == table.Keys * matching
    ensures Staying(table, done, deferHeld) == Staying(table, matching, deferHeld)
    ensures Going(table, done, deferHeld) == Going(table, matching, deferHeld)
  {
  }

  lemma NewTicket(b: Books, ledger: seq<Ticket>)
    requires BooksOk(b, ledger)
    ensures |ledger| !in b.making
  {
  }

  lemma MakingTicket(b: Books, ledger: seq<Ticket>, ticket: nat)
    requires BooksOk(b, ledger) && ticket in b.making
    ensures ticket < |ledger|
  {
    assert TicketOf(ledger, ticket, b.making[ticket]);
  }

  lemma HeldStay(b: Books, ledger: seq<Ticket>)
    requires BooksOk(b, ledger)
    ensures DeferredAreHeld(b.stored)
  {
  }

  lemma LeavingTicket(b: Books, ledger: seq<Ticket>, id: Id)
    requires BooksOk(b, ledger) && id in b.leaving
    ensures id !in b.over && b.leaving[id].ticket < |ledger| && !ledger[b.leaving[id].ticket].released
  {
    assert TicketOf(ledger, b.leaving[id].ticket, b.leaving[id].user);
  }

  // ----- the quota counts the connections

  function Open(ledger: seq<Ticket>): set<nat> {
    set i: nat | i < |ledger| && ledger[i].kind == QuickConnection && !ledger[i].released
  }

  lemma {:induction false} TotalIsOpen(ledger: seq<Ticket>)
    requires forall i | i in Open(ledger) :: ledger[i].amount == 1
    ensures GlobalTotal(ledger, QuickConnection) == |Open(ledger)|
  {
    if ledger != [] {
      var init, last := ledger[..|ledger| - 1], |ledger| - 1;
      assert Open(init) == Open(ledger) - {last};
      TotalIsOpen(init);
      if last in Open(ledger) { assert Open(ledger) == Open(init) + {last}; }
    }
  }

  function Tickets(table: Table): set<nat> { set id | id in table :: table[id].ticket }

  lemma OneTicketMore(table: Table, id: Id)
    requires id in table
    ensures Tickets(table) == Tickets(table - {id}) + {table[id].ticket} && |table| == |table - {id}| + 1
  {
    assert table.Keys == (table - {id}).Keys + {id};
  }

  lemma {:induction false} DistinctTickets(table: Table)
    requires forall i, j | i in table && j in table && i != j :: table[i].ticket != table[j].ticket
    ensures |Tickets(table)| == |table|
  {
    if table != map[] {
      var id :| id in table;
      var rest := table - {id};
      DistinctTickets(rest);
      OneTicketMore(table, id);
    }
  }

  /** The quota in use is exactly the number of connections stored, being closed and being made. */
  lemma QuotaCountsConnections(b: Books, ledger: seq<Ticket>)
    requires BooksOk(b, ledger)
    ensures GlobalTotal(ledger, QuickConnection) == |b.stored| + |b.leaving| + |b.making|
  {
    DistinctTickets(b.stored);
    DistinctTickets(b.leaving);
    OpenAreInUse(b, ledger);
    TotalIsOpen(ledger);
    assert |b.making.Keys| == |b.making|;
    ThreeParts(Tickets(b.stored), Tickets(b.leaving), b.making.Keys);
  }

  lemma OpenAreInUse(b: Books, ledger: seq<Ticket>)
    requires BooksOk(b, ledger)
    ensures Open(ledger) == Tickets(b.stored) + Tickets(b.leaving) + b.making.Keys
    ensures Tickets(b.stored) !! Tickets(b.leaving) && Tickets(b.stored) !! b.making.Keys
    ensures Tickets(b.leaving) !! b.making.Keys
    ensures forall i | i in Open(ledger) :: ledger[i].amount == 1
  {
    forall i | i in Open(ledger)
      ensures i in Tickets(b.stored) + Tickets(b.leaving) + b.making.Keys && ledger[i].amount == 1
    {
      assert InUse(b, i);
    }
  }

  lemma ThreeParts(a: set<nat>, b: set<nat>, c: set<nat>)
    requires a !! b && a !! c && b !! c
    ensures |a + b + c| == |a| + |b| + |c|
  {
  }
}
