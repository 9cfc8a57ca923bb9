/** From the beginning of a login to its session: who may consume it, until when, and what ends it earlier. */
module LoginLifetime {

  import opened Collections
  import opened Faults
  import opened Authentication

  /** The step consumes the pending login. */
  predicate Consumes(s: Sys, e: Event, token: Token)
    requires Enabled(s, e)
  {
    e.Consume? && e.token == token && token !in s.logins && token in Apply(s, e).logins
  }

  /** The step begins the login: its token is new, and it has the account as the request loaded it. */
  predicate Begins(s: Sys, e: Event, token: Token, row: Row) {
    e.Begin? && token == s.next && e.t in s.rows && s.rows[e.t] == row
  }

  function Begun(row: Row, binding: string, now: int): Pending {
    Pending(row.user, row.generation, binding, now, now + PENDING_TTL)
  }

  /** The browser of the login cancels it. */
  predicate Cancels(e: Event, token: Token, binding: string) { e.Cancel? && e.token == token && e.binding == binding }

  lemma PendingStep(s: Sys, e: Event, token: Token)
    requires Enabled(s, e) && token in Apply(s, e).pendings
    ensures var p := Apply(s, e).pendings[token];
            || (token in s.pendings && s.pendings[token] == p && !Invalidates(s, e, p.user)
                && !Cancels(e, token, p.binding))
            || (e.Begin? && Begins(s, e, token, s.rows[e.t]) && p == Begun(s.rows[e.t], e.binding, e.now))
  {
    hide Newest;
  }

  lemma LoginStep(s: Sys, e: Event, token: Token)
    requires Enabled(s, e) && token in Apply(s, e).logins
    ensures token in s.logins || (e.Consume? && e.token == token && Consumable(s, token, e.binding, e.now)
              && Apply(s, e).logins[token].pending == s.pendings[token])
  {
    hide Newest;
  }

  /** The pending login was begun at `b`, and since then neither its user was invalidated nor itself cancelled. */
  ghost predicate BegunAt(states: seq<Sys>, events: seq<Event>, token: Token, pending: Pending, b: nat, j: nat)
    requires |states| == |events| + 1
  {
    && b < j < |states| && events[b].Begin? && events[b].t in states[b].rows
    && var row := states[b].rows[events[b].t];
    && Begins(states[b], events[b], token, row) && pending == Begun(row, events[b].binding, events[b].now)
    && (forall k | b < k < j :: !Invalidates(states[k], events[k], row.user))
    && forall k | b < k < j :: !Cancels(events[k], token, events[b].binding)
  }

  lemma {:induction false} PendingsAreBegun(states: seq<Sys>, events: seq<Event>, token: Token, j: nat) returns (b: nat)
    requires IsRun(states, events) && j < |states| && token in states[j].pendings
    ensures BegunAt(states, events, token, states[j].pendings[token], b, j)
  {
    hide Enabled, Apply, Invalidates, Cancels;
    assert j > 0;
    assert states[j - 1 + 1] == Apply(states[j - 1], events[j - 1]);
    PendingStep(states[j - 1], events[j - 1], token);
    if events[j - 1].Begin? && events[j - 1].t in states[j - 1].rows
       && Begins(states[j - 1], events[j - 1], token, states[j - 1].rows[events[j - 1].t])
       && states[j].pendings[token]
          == Begun(states[j - 1].rows[events[j - 1].t], events[j - 1].binding, events[j - 1].now) { b := j - 1; }
    else { b := PendingsAreBegun(states, events, token, j - 1); }
  }

  /**
    In every run a consumed login was begun by a request with the binding of its consumer, less than five minutes
    before, and neither was its user invalidated nor itself cancelled between; and it is consumed only once.
   */
  lemma ConsumedWasBegun(states: seq<Sys>, events: seq<Event>, c: nat, token: Token) returns (b: nat)
    requires IsRun(states, events) && c < |events| && Consumes(states[c], events[c], token)
    ensures b < c && events[b].Begin? && events[b].t in states[b].rows && token == states[b].next
    ensures events[b].binding == events[c].binding && events[c].now - events[b].now < PENDING_TTL
    ensures var row := states[b].rows[events[b].t];
            && states[c + 1].logins[token].pending.user == row.user
            && states[c + 1].logins[token].pending.generation == row.generation
            && forall k | b < k < c :: !Invalidates(states[k], events[k], row.user)
    ensures forall k | b < k < c :: !Cancels(events[k], token, events[b].binding)
    ensures forall k | c < k < |events| :: !Consumes(states[k], events[k], token)
  {
    hide Invalidates, Cancels, TokensFresh, StagedOk, MadeOnce, Bounded, SourcesKnown;
    LoginStep(states[c], events[c], token);
    hide Enabled, Apply;
    assert states[c + 1] == Apply(states[c], events[c]);
    b := PendingsAreBegun(states, events, token, c);
    RunKeepsInv(states, events, 0);
    forall k | c < k < |events| ensures !Consumes(states[k], events[k], token) {
      LoginStaysOnPath(states, events, c + 1, k, token);
    }
  }

  /** As many logins of the user as fit beside a new one are pending, live and not older than this one. */
  predicate Crowded(s: Sys, token: Token, now: int)
    requires token in s.pendings
  {
    |NotOlder(s.pendings, token, now)| >= MAX_PENDING_PER_USER - 1
  }

  function NotOlder(pendings: map<Token, Pending>, token: Token, now: int): set<Token>
    requires token in pendings
  {
    set k | k in pendings && k != token && pendings[k].user == pendings[token].user && pendings[k].expires > now
            && pendings[k].created >= pendings[token].created
  }

  /** The step takes the login away: it is consumed, cancelled, expired or pushed out, or its user is invalidated. */
  predicate TakesAway(s: Sys, e: Event, token: Token)
    requires Enabled(s, e) && token in s.pendings
  {
    || Consumes(s, e, token) || Invalidates(s, e, s.pendings[token].user)
    || Cancels(e, token, s.pendings[token].binding)
    || (e.Begin? && s.pendings[token].expires <= e.now)
    || (e.Begin? && e.t in s.rows && s.rows[e.t].user == s.pendings[token].user && Crowded(s, token, e.now))
  }

  lemma KeptUnlessCrowded(s: Sys, token: Token, now: int, kept: set<Token>)
    requires token in s.pendings && s.pendings[token].expires > now && !Crowded(s, token, now)
    requires Newest(s.pendings, s.pendings[token].user, now, kept)
    ensures token in kept
  {
    if token !in kept {
      assert token in Live(s.pendings, s.pendings[token].user, now) - kept;
      assert kept <= NotOlder(s.pendings, token, now);
      SubsetCard(kept, NotOlder(s.pendings, token, now));
    }
  }

  lemma PendingStays(s: Sys, e: Event, token: Token)
    requires TokensFresh(s) && Enabled(s, e) && token in s.pendings && !TakesAway(s, e, token)
    ensures token in Apply(s, e).pendings && Apply(s, e).pendings[token] == s.pendings[token]
  {
    if e.Begin? && s.rows[e.t].user == s.pendings[token].user { KeptUnlessCrowded(s, token, e.now, e.kept); }
    hide Newest, Crowded;
  }

  lemma BeginMakesPending(s: Sys, e: Event, row: Row)
    requires Enabled(s, e) && Begins(s, e, s.next, row)
    ensures s.next in Apply(s, e).pendings && Apply(s, e).pendings[s.next] == Begun(row, e.binding, e.now)
  {
    hide Newest;
  }

  /** No step of the run between the two points takes the login away. */
  ghost predicate Undropped(states: seq<Sys>, events: seq<Event>, token: Token, b: nat, c: nat)
    requires IsPath(states, events) && c < |states|
  {
    forall k | b < k < c && token in states[k].pendings :: !TakesAway(states[k], events[k], token)
  }

  lemma {:induction false} PendingOverRun(states: seq<Sys>, events: seq<Event>, token: Token, b: nat, c: nat)
    requires IsRun(states, events) && b < c < |states| && token in states[b + 1].pendings
    requires Undropped(states, events, token, b, c)
    ensures token in states[c].pendings && states[c].pendings[token] == states[b + 1].pendings[token]
  {
    hide Enabled, Apply, TakesAway, Initial, StagedOk, MadeOnce, Bounded, SourcesKnown, TokensFresh;
    if b + 1 < c {
      PendingOverRun(states, events, token, b, c - 1);
      RunKeepsInv(states, events, c - 1);
      PendingStays(states[c - 1], events[c - 1], token);
      assert states[c - 1 + 1] == Apply(states[c - 1], events[c - 1]);
    }
  }

  lemma ConsumesIffConsumable(s: Sys, e: Event, token: Token)
    requires TokensFresh(s) && Enabled(s, e) && token in s.pendings && e.Consume? && e.token == token
    ensures Consumes(s, e, token) <==> s.pendings[token].binding == e.binding && s.pendings[token].expires > e.now
  {
  }

  /**
    Conversely, in every run a login that nothing takes away is consumed exactly by a request with its binding that
    comes less than five minutes after its beginning; others, and others' logins, leave it alone.
   */
  lemma BegunIsConsumable(states: seq<Sys>, events: seq<Event>, b: nat, c: nat, row: Row)
    requires IsRun(states, events) && b < c < |events| && Begins(states[b], events[b], states[b].next, row)
    requires events[c].Consume? && events[c].token == states[b].next
    requires Undropped(states, events, states[b].next, b, c)
    ensures Consumes(states[c], events[c], states[b].next)
       <==> events[c].binding == events[b].binding && events[c].now - events[b].now < PENDING_TTL
  {
    hide Enabled, Apply, Consumes, Undropped, Initial, StagedOk, MadeOnce, Bounded, SourcesKnown, TokensFresh;
    assert states[b + 1] == Apply(states[b], events[b]);
    BeginMakesPending(states[b], events[b], row);
    PendingOverRun(states, events, states[b].next, b, c);
    RunKeepsInv(states, events, c);
    ConsumesIffConsumable(states[c], events[c], states[b].next);
  }

  // ----- sessions

  /** The account check lets the login through: the account is eligible and still of the login's generation. */
  predicate LetThrough(s: Sys, e: Event, token: Token) {
    && e.CheckAccount? && e.token == token && e.eligible && token in s.logins
    && Generation(s, s.logins[token].pending.user) == s.logins[token].pending.generation
  }

  lemma StagedStep(s: Sys, e: Event, token: Token)
    requires TokensFresh(s) && Enabled(s, e) && Staged(Apply(s, e), token)
    ensures LetThrough(s, e, token) || (Staged(s, token) && !Checks(e, token))
  {
    hide Newest;
  }

  lemma {:induction false} StagedIsLetThrough(states: seq<Sys>, events: seq<Event>, token: Token, j: nat)
    returns (k: nat)
    requires IsRun(states, events) && j < |states| && Staged(states[j], token)
    ensures k < j && LetThrough(states[k], events[k], token)
    ensures forall m | k < m < j :: !Checks(events[m], token)
  {
    hide Enabled, Apply, LetThrough, Checks, StagedOk, MadeOnce, Bounded, SourcesKnown, TokensFresh;
    assert j > 0;
    assert states[j - 1 + 1] == Apply(states[j - 1], events[j - 1]);
    RunKeepsInv(states, events, j - 1);
    StagedStep(states[j - 1], events[j - 1], token);
    if LetThrough(states[j - 1], events[j - 1], token) { k := j - 1; }
    else { k := StagedIsLetThrough(states, events, token, j - 1); }
  }

  lemma {:induction false} LoginsAreConsumed(states: seq<Sys>, events: seq<Event>, token: Token, j: nat)
    returns (c: nat)
    requires IsRun(states, events) && j < |states| && token in states[j].logins
    ensures c < j && Consumes(states[c], events[c], token)
  {
    hide Enabled, Apply;
    assert j > 0;
    assert states[j - 1 + 1] == Apply(states[j - 1], events[j - 1]);
    if token in states[j - 1].logins { c := LoginsAreConsumed(states, events, token, j - 1); }
    else {
      LoginStep(states[j - 1], events[j - 1], token);
      c := j - 1;
    }
  }

  /**
    In every run a session of a login is only made after the login was consumed, and after the latest account check
    of the login found the account eligible and of the login's generation.
   */
  lemma SessionsAreChecked(states: seq<Sys>, events: seq<Event>, j: nat, token: Token) returns (c: nat, k: nat)
    requires IsRun(states, events) && j < |events| && MakesSession(events[j], token)
    ensures c < k < j && Consumes(states[c], events[c], token) && LetThrough(states[k], events[k], token)
    ensures forall m | k < m < j :: !Checks(events[m], token)
  {
    hide Apply, Initial, Checks, Consumes;
    StoreUnstages(states[j], events[j], token);
    hide Enabled, MakesSession, Staged;
    k := StagedIsLetThrough(states, events, token, j);
    c := LoginsAreConsumed(states, events, token, k);
  }

  /** A login that is let through and stored at once has an accepted session, until it expires. */
  lemma LetThroughIsAccepted(s: Sys, e: Event, token: Token, expires: int, now: int)
    requires Enabled(s, e) && LetThrough(s, e, token)
    ensures var store := StoreSession(token, expires, Works);
            && Enabled(Apply(s, e), store)
            && var s' := Apply(Apply(s, e), store);
            Accepted(s', s.next, s.logins[token].pending.user, now) <==> expires > now
  {
  }

  /**
    An invalidation that preserves a session leaves the user exactly one session, a new one that is accepted as
    long as the preserved one would have been; one that preserves none leaves none. Nothing of others changes.
   */
  lemma PreservedIsReplaced(s: Sys, e: Event, user: User, now: int)
    requires TokensFresh(s) && Enabled(s, e) && Invalidates(s, e, user)
    ensures var s' := Apply(s, e);
            && (forall id | id in s'.sessions && s'.sessions[id].user == user :: id == s.next && e.preserve.Some?)
            && (e.preserve.Some? ==> (Accepted(s', s.next, user, now) <==> s.sessions[e.preserve.value].expires > now))
            && (forall id | id in s.sessions && s.sessions[id].user != user ::
                  id in s'.sessions && s'.sessions[id] == s.sessions[id])
            && (forall k | k in s'.pendings :: s'.pendings[k].user != user)
            && (forall k | k in s.pendings && s.pendings[k].user != user ::
                  k in s'.pendings && s'.pendings[k] == s.pendings[k])
  {
    hide Newest;
  }
}
