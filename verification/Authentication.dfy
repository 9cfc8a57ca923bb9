/**
  Pending logins, browser sessions and the authentication generation (`app/auth_assurance.py`). A request
  works on an account row that it loaded earlier, and each database transaction is one step: so other
  transactions can come between the reading of a generation and the writing of one more, and between the
  account check of a login and its commit. No database restore happens in a run.
 */
module Authentication {

  import opened Collections
  import opened Faults

  type Tid = nat
  type User = int
  type Token = nat
  type SessionId = nat

  const MAX_PENDING_PER_USER: nat := 5
  const PENDING_TTL: int := 300

  /** An account as a request has it in memory. */
  datatype Row = Row(user: User, generation: nat)

  datatype Pending = Pending(user: User, generation: nat, binding: string, created: int, expires: int)

  /** A consumed pending login in the hands of a request; `staged` is the generation read for its session. */
  datatype Login = Login(pending: Pending, staged: Option<nat>, finalized: bool)

  datatype Session = Session(user: User, generation: nat, expires: int, source: Option<Token>)

  /** A session that a login has made, and whether its commit was reported as failed. */
  datatype Made = Made(token: Token, late: bool)

  datatype Sys = Sys(
    generation: map<User, nat>,
    rows: map<Tid, Row>,
    pendings: map<Token, Pending>,
    logins: map<Token, Login>,
    sessions: map<SessionId, Session>,
    made: seq<Made>,
    next: nat
  )

  datatype Event =
    | Load(t: Tid, user: User)
    | Begin(t: Tid, binding: string, now: int, kept: set<Token>)
    | Consume(token: Token, binding: string, now: int)
    | Cancel(token: Token, binding: string)
    | CheckAccount(token: Token, eligible: bool)
    | StoreSession(token: Token, expires: int, commit: Survived)
    | Invalidate(t: Tid, preserve: Option<SessionId>, now: int)
    | EndSession(id: SessionId)

  function Generation(s: Sys, user: User): nat { Get(s.generation, user) }

  function Live(pendings: map<Token, Pending>, user: User, now: int): set<Token> {
    set k | k in pendings && pendings[k].user == user && pendings[k].expires > now
  }

  function PendingOf(pendings: map<Token, Pending>, user: User): set<Token> {
    set k | k in pendings && pendings[k].user == user
  }

  /** The newest live logins of the user, as many as leave room for one more. */
  predicate Newest(pendings: map<Token, Pending>, user: User, now: int, kept: set<Token>) {
    var live := Live(pendings, user, now);
    && kept <= live && |kept| <= MAX_PENDING_PER_USER - 1
    && (kept == live || |kept| == MAX_PENDING_PER_USER - 1)
    && forall k, d | k in kept && d in live - kept :: pendings[k].created >= pendings[d].created
  }

  /** The session is what `current_authentication_session` would return. */
  predicate Accepted(s: Sys, id: SessionId, user: User, now: int) {
    && id in s.sessions && s.sessions[id].user == user && s.sessions[id].expires > now
    && s.sessions[id].generation == Generation(s, user)
  }

  predicate Consumable(s: Sys, token: Token, binding: string, now: int) {
    token in s.pendings && s.pendings[token].binding == binding && s.pendings[token].expires > now
  }

  predicate Enabled(s: Sys, e: Event) {
    match e
    case Begin(t, _, now, kept) => t in s.rows && Newest(s.pendings, s.rows[t].user, now, kept)
    case CheckAccount(token, _) => token in s.logins && !s.logins[token].finalized
    case StoreSession(token, _, _) => token in s.logins && s.logins[token].staged.Some?
    case Invalidate(t, preserve, now) =>
      t in s.rows && (preserve.Some? ==> Accepted(s, preserve.value, s.rows[t].user, now))
    case _ => true
  }

  /** `begin_authentication` */
  function AfterBegin(s: Sys, row: Row, binding: string, now: int, kept: set<Token>): Sys {
    var rest := map k | k in s.pendings && s.pendings[k].expires > now && (s.pendings[k].user == row.user ==> k in kept)
      :: s.pendings[k];
    s.(pendings := rest[s.next := Pending(row.user, row.generation, binding, now, now + PENDING_TTL)],
      next := s.next + 1)
  }

  /** The account check of `finalize_login` reads the account afresh. */
  function AfterCheck(s: Sys, token: Token, eligible: bool): Sys
    requires token in s.logins
  {
    var login := s.logins[token];
    var g := Generation(s, login.pending.user);
    var staged := if eligible && g == login.pending.generation then Some(g) else None;
    s.(logins := s.logins[token := login.(staged := staged)])
  }

  function AfterStore(s: Sys, token: Token, expires: int, commit: Survived): Sys
    requires token in s.logins && s.logins[token].staged.Some?
  {
    var login := s.logins[token];
    var session := Session(login.pending.user, login.staged.value, expires, Some(token));
    var done := login.(staged := None, finalized := commit == Works);
    if commit == Fails then s.(logins := s.logins[token := done])
    else
      s.(sessions := s.sessions[s.next := session], logins := s.logins[token := done],
         made := s.made + [Made(token, commit == FailsLate)], next := s.next + 1)
  }

  /** `invalidate_user_authentication` and its commit: the new generation follows the one that was loaded. */
  function AfterInvalidate(s: Sys, t: Tid, preserve: Option<SessionId>): Sys
    requires t in s.rows && (preserve.Some? ==> preserve.value in s.sessions)
  {
    var row := s.rows[t];
    var others := map id | id in s.sessions && s.sessions[id].user != row.user :: s.sessions[id];
    var sessions :=
      if preserve.None? then others
      else others[s.next := Session(row.user, row.generation + 1, s.sessions[preserve.value].expires, None)];
    s.(generation := s.generation[row.user := row.generation + 1],
       rows := s.rows - {t},
       pendings := map k | k in s.pendings && s.pendings[k].user != row.user :: s.pendings[k],
       sessions := sessions,
       next := s.next + 1)
  }

  function Apply(s: Sys, e: Event): Sys
    requires Enabled(s, e)
  {
    match e
    case Load(t, user) => s.(rows := s.rows[t := Row(user, Generation(s, user))])
    case Begin(t, binding, now, kept) => AfterBegin(s, s.rows[t], binding, now, kept)
    case Consume(token, binding, now) =>
      if Consumable(s, token, binding, now)
      then s.(pendings := s.pendings - {token}, logins := s.logins[token := Login(s.pendings[token], None, false)])
      else s
    case Cancel(token, binding) =>
      if token in s.pendings && s.pendings[token].binding == binding then s.(pendings := s.pendings - {token}) else s
    case CheckAccount(token, eligible) => AfterCheck(s, token, eligible)
    case StoreSession(token, expires, commit) => AfterStore(s, token, expires, commit)
    case Invalidate(t, preserve, _) => AfterInvalidate(s, t, preserve)
    case EndSession(id) => s.(sessions := s.sessions - {id})
  }

  // ----- the invariant

  predicate TokensFresh(s: Sys) {
    && (forall k | k in s.pendings :: k < s.next && k !in s.logins)
    && (forall k | k in s.logins :: k < s.next)
    && (forall id | id in s.sessions :: id < s.next)
  }

  /** What a login has read for its session is the generation it began with. */
  predicate StagedOk(s: Sys) {
    forall k | k in s.logins && s.logins[k].staged.Some? :: s.logins[k].staged.value == s.logins[k].pending.generation
  }

  /** A login makes another session only after one whose commit was reported as failed. */
  predicate MadeOnce(s: Sys) {
    && (forall i, j | 0 <= i < j < |s.made| && s.made[i].token == s.made[j].token :: s.made[i].late)
    && (forall i | 0 <= i < |s.made| :: s.made[i].token in s.logins)
    && (forall i | 0 <= i < |s.made| && !s.made[i].late :: s.logins[s.made[i].token].finalized)
    && (forall k | k in s.logins && s.logins[k].finalized :: s.logins[k].staged.None?)
  }

  ghost predicate Bounded(s: Sys) { forall user :: |PendingOf(s.pendings, user)| <= MAX_PENDING_PER_USER }

  predicate SourceKnown(s: Sys, session: Session) {
    session.source.Some? ==>
      var k := session.source.value;
      && k in s.logins && session.user == s.logins[k].pending.user
      && session.generation == s.logins[k].pending.generation
  }

  /** A login's session carries the generation the login began with. */
  predicate SourcesKnown(s: Sys) { forall id | id in s.sessions :: SourceKnown(s, s.sessions[id]) }

  ghost predicate Inv(s: Sys) { TokensFresh(s) && StagedOk(s) && MadeOnce(s) && Bounded(s) && SourcesKnown(s) }

  lemma TokensStayFresh(s: Sys, e: Event)
    requires TokensFresh(s) && Enabled(s, e)
    ensures TokensFresh(Apply(s, e)) && s.next <= Apply(s, e).next
  {
    hide Newest;
  }

  lemma StagedStayOk(s: Sys, e: Event)
    requires StagedOk(s) && Enabled(s, e)
    ensures StagedOk(Apply(s, e))
  {
    hide Newest;
  }

  lemma StoreMakesOnce(s: Sys, token: Token, expires: int, commit: Survived)
    requires MadeOnce(s) && token in s.logins && s.logins[token].staged.Some?
    ensures MadeOnce(AfterStore(s, token, expires, commit))
  {
  }

  lemma MadeStaysOnce(s: Sys, e: Event)
    requires MadeOnce(s) && TokensFresh(s) && Enabled(s, e)
    ensures MadeOnce(Apply(s, e))
  {
    hide Newest;
    if e.StoreSession? {
      hide MadeOnce;
      StoreMakesOnce(s, e.token, e.expires, e.commit);
    }
  }

  lemma SourcesStayKnown(s: Sys, e: Event)
    requires SourcesKnown(s) && StagedOk(s) && TokensFresh(s) && Enabled(s, e)
    ensures SourcesKnown(Apply(s, e))
  {
    hide Newest;
  }

  lemma BoundStays(s: Sys, e: Event)
    requires Bounded(s) && Enabled(s, e)
    ensures Bounded(Apply(s, e))
  {
    hide Accepted, Live;
    var s' := Apply(s, e);
    forall user ensures |PendingOf(s'.pendings, user)| <= MAX_PENDING_PER_USER {
      assert |PendingOf(s.pendings, user)| <= MAX_PENDING_PER_USER;
      if e.Begin? && s.rows[e.t].user == user { SubsetCard(PendingOf(s'.pendings, user), e.kept + {s.next}); }
      else { SubsetCard(PendingOf(s'.pendings, user), PendingOf(s.pendings, user)); }
    }
  }

  /** Every step keeps the invariant, whatever the invalidations have read. */
  lemma StepKeepsInv(s: Sys, e: Event)
    requires Inv(s) && Enabled(s, e)
    ensures Inv(Apply(s, e))
  {
    hide TokensFresh, StagedOk, MadeOnce, Bounded, SourcesKnown, Enabled, Apply;
    TokensStayFresh(s, e);
    StagedStayOk(s, e);
    MadeStaysOnce(s, e);
    SourcesStayKnown(s, e);
    BoundStays(s, e);
  }

  // ----- runs

  ghost predicate IsPath(states: seq<Sys>, events: seq<Event>) {
    && |states| == |events| + 1
    && forall i | 0 <= i < |events| :: Enabled(states[i], events[i]) && states[i + 1] == Apply(states[i], events[i])
  }

  predicate Initial(s: Sys) {
    s.rows == map[] && s.pendings == map[] && s.logins == map[] && s.sessions == map[] && s.made == []
  }

  ghost predicate IsRun(states: seq<Sys>, events: seq<Event>) { IsPath(states, events) && Initial(states[0]) }

  lemma EmptyInv(s: Sys)
    requires Initial(s)
    ensures Inv(s)
  {
    assert forall user :: PendingOf(s.pendings, user) == {};
  }

  lemma {:induction false} PathKeepsInv(states: seq<Sys>, events: seq<Event>, i: nat)
    requires IsPath(states, events) && Inv(states[0]) && i < |states|
    ensures Inv(states[i])
  {
    hide Inv, Enabled, Apply;
    if i > 0 {
      PathKeepsInv(states, events, i - 1);
      StepKeepsInv(states[i - 1], events[i - 1]);
      assert states[i - 1 + 1] == Apply(states[i - 1], events[i - 1]);
    }
  }

  lemma RunKeepsInv(states: seq<Sys>, events: seq<Event>, i: nat)
    requires IsRun(states, events) && i < |states|
    ensures Inv(states[i])
  {
    hide Inv, Enabled, Apply, Initial;
    EmptyInv(states[0]);
    PathKeepsInv(states, events, i);
  }

  /** In every state of every run at most five logins of a user are pending. */
  lemma PendingsAreFew(states: seq<Sys>, events: seq<Event>, i: nat, user: User)
    requires IsRun(states, events) && i < |states|
    ensures |PendingOf(states[i].pendings, user)| <= MAX_PENDING_PER_USER
  {
    hide Enabled, Apply;
    RunKeepsInv(states, events, i);
  }

  // ----- one pending token, one session

  predicate MakesSession(e: Event, token: Token) { e.StoreSession? && e.commit != Fails && e.token == token }

  lemma {:induction false} MadeGrows(states: seq<Sys>, events: seq<Event>, i: nat, j: nat)
    requires IsPath(states, events) && i <= j < |states|
    ensures states[i].made <= states[j].made
  {
    hide Enabled, Apply;
    if i < j {
      MadeGrows(states, events, i, j - 1);
      MadeOnlyGrows(states[j - 1], events[j - 1]);
      assert states[j - 1 + 1] == Apply(states[j - 1], events[j - 1]);
    }
  }

  lemma MadeOnlyGrows(s: Sys, e: Event)
    requires Enabled(s, e)
    ensures s.made <= Apply(s, e).made
  {
    hide Newest, Generation, Accepted;
  }

  lemma MadeByStore(s: Sys, e: Event, token: Token)
    requires Enabled(s, e) && MakesSession(e, token)
    ensures Apply(s, e).made == s.made + [Made(token, e.commit == FailsLate)]
  {
  }

  /** In every run a token makes a second session only after one whose commit was reported as failed. */
  lemma OneSessionPerToken(states: seq<Sys>, events: seq<Event>, i: nat, j: nat, token: Token)
    requires IsRun(states, events) && i < j < |events| && MakesSession(events[i], token)
    requires MakesSession(events[j], token)
    ensures events[i].commit == FailsLate
  {
    hide Enabled, Apply, TokensFresh, StagedOk, Bounded, SourcesKnown, Initial;
    assert states[i + 1] == Apply(states[i], events[i]) && states[j + 1] == Apply(states[j], events[j]);
    MadeByStore(states[i], events[i], token);
    MadeByStore(states[j], events[j], token);
    MadeGrows(states, events, i + 1, j);
    RunKeepsInv(states, events, j + 1);
    var a, b := |states[i].made|, |states[j].made|;
    assert states[j + 1].made[a] == states[i + 1].made[a] && states[j + 1].made[b].token == token;
  }

  /** Every `finalize_login` of the token begins with the account check. */
  predicate Checks(e: Event, token: Token) { e.CheckAccount? && e.token == token }

  predicate Staged(s: Sys, token: Token) { token in s.logins && s.logins[token].staged.Some? }

  lemma StagedByCheck(s: Sys, e: Event, token: Token)
    requires TokensFresh(s) && Enabled(s, e) && Staged(Apply(s, e), token)
    ensures Checks(e, token) || (Staged(s, token) && !(e.StoreSession? && e.token == token))
  {
    hide Newest;
  }

  /** A session is only stored after an account check since the last one was. */
  lemma {:induction false} CheckBetween(states: seq<Sys>, events: seq<Event>, i: nat, j: nat, token: Token)
    requires IsRun(states, events) && i <= j < |states| && !Staged(states[i], token) && Staged(states[j], token)
    ensures exists k :: i <= k < j && Checks(events[k], token)
  {
    hide Enabled, Apply, TokensFresh, StagedOk, MadeOnce, Bounded, SourcesKnown, Initial, Staged, Checks;
    assert i < j;
    RunKeepsInv(states, events, j - 1);
    assert states[j - 1 + 1] == Apply(states[j - 1], events[j - 1]);
    StagedByCheck(states[j - 1], events[j - 1], token);
    if !Checks(events[j - 1], token) { CheckBetween(states, events, i, j - 1, token); }
  }

  lemma StoreUnstages(s: Sys, e: Event, token: Token)
    requires Enabled(s, e) && MakesSession(e, token)
    ensures Staged(s, token) && !Staged(Apply(s, e), token)
  {
  }

  lemma NothingStaged(s: Sys, token: Token)
    requires Initial(s)
    ensures !Staged(s, token)
  {
  }

  lemma TwoSessionsTwoChecks(states: seq<Sys>, events: seq<Event>, i: nat, j: nat, token: Token)
    requires IsRun(states, events) && i < j < |events| && MakesSession(events[i], token)
    requires MakesSession(events[j], token)
    ensures exists a, b :: 0 <= a < b < |events| && Checks(events[a], token) && Checks(events[b], token)
  {
    hide Enabled, Apply, Initial, Staged, Checks, MakesSession;
    assert states[i + 1] == Apply(states[i], events[i]) && states[j + 1] == Apply(states[j], events[j]);
    StoreUnstages(states[i], events[i], token);
    StoreUnstages(states[j], events[j], token);
    NothingStaged(states[0], token);
    CheckBetween(states, events, 0, i, token);
    CheckBetween(states, events, i + 1, j, token);
    var a :| 0 <= a < i && Checks(events[a], token);
    var b :| i + 1 <= b < j && Checks(events[b], token);
    assert 0 <= a < b < |events|;
  }

  /**
    In every run in which a consumed login is handed to `finalize_login` once, as every caller does, it makes at
    most one session, whatever its commit reports.
   */
  lemma OneFinalizeOneSession(states: seq<Sys>, events: seq<Event>, i: nat, j: nat, token: Token)
    requires IsRun(states, events) && i < j < |events| && MakesSession(events[i], token)
    requires forall a, b | 0 <= a < b < |events| && Checks(events[a], token) :: !Checks(events[b], token)
    ensures !MakesSession(events[j], token)
  {
    hide IsRun, MakesSession, Checks;
    if MakesSession(events[j], token) { TwoSessionsTwoChecks(states, events, i, j, token); }
  }

  /** The path makes a session of the token. */
  ghost predicate MakesAnother(states: seq<Sys>, events: seq<Event>, token: Token) {
    IsPath(states, events) && exists i :: 0 <= i < |events| && MakesSession(events[i], token)
  }

  lemma FinalizedStays(s: Sys, e: Event, token: Token)
    requires Inv(s) && Enabled(s, e) && token in s.logins && s.logins[token].finalized
    ensures !MakesSession(e, token) && token in Apply(s, e).logins && Apply(s, e).logins[token].finalized
  {
    hide Newest, Bounded, SourcesKnown, StagedOk;
  }

  lemma {:induction false} FinalizedMakesNoMore(states: seq<Sys>, events: seq<Event>, i: nat, token: Token)
    requires IsPath(states, events) && Inv(states[0]) && token in states[0].logins && states[0].logins[token].finalized
    requires i < |states|
    ensures token in states[i].logins && states[i].logins[token].finalized
    ensures forall k | 0 <= k < i :: !MakesSession(events[k], token)
  {
    hide Enabled, Apply, Inv, MakesSession;
    if i > 0 {
      FinalizedMakesNoMore(states, events, i - 1, token);
      PathKeepsInv(states, events, i - 1);
      FinalizedStays(states[i - 1], events[i - 1], token);
      assert states[i - 1 + 1] == Apply(states[i - 1], events[i - 1]);
    }
  }

  /**
    After a session has been stored for a login that would still pass the account check, some continuation
    makes another one if and only if the commit was reported as failed.
   */
  lemma AnotherSessionIffLate(s: Sys, e: Event)
    requires Inv(s) && Enabled(s, e) && e.StoreSession? && e.commit != Fails && Passes(s, e.token)
    ensures (exists states, events :: MakesAnother(states, events, e.token) && states[0] == Apply(s, e))
       <==> e.commit == FailsLate
  {
    hide Inv, Enabled, Generation, AfterCheck;
    var s', token := Apply(s, e), e.token;
    if e.commit == FailsLate {
      var e1, e2 := CheckAccount(token, true), StoreSession(token, 0, Works);
      StoreAgain(s, e);
      var s1 := Apply(s', e1);
      var states, events := [s', s1, Apply(s1, e2)], [e1, e2];
      assert MakesSession(events[1], token);
      assert MakesAnother(states, events, token) && states[0] == s';
    } else {
      StepKeepsInv(s, e);
      forall states, events | MakesAnother(states, events, token) && states[0] == s' ensures false {
        FinalizedMakesNoMore(states, events, |events|, token);
      }
    }
  }

  lemma StoreAgain(s: Sys, e: Event)
    requires Enabled(s, e) && e.StoreSession? && e.commit == FailsLate && Passes(s, e.token)
    ensures var s', e1 := Apply(s, e), CheckAccount(e.token, true);
            Enabled(s', e1) && Enabled(Apply(s', e1), StoreSession(e.token, 0, Works))
  {
  }

  // ----- an invalidation is final, unless another one came between its read and its commit

  /** The login would pass the account check of an eligible account. */
  predicate Passes(s: Sys, token: Token) {
    && token in s.logins && !s.logins[token].finalized
    && Generation(s, s.logins[token].pending.user) == s.logins[token].pending.generation
  }

  predicate Invalidates(s: Sys, e: Event, user: User) { e.Invalidate? && e.t in s.rows && s.rows[e.t].user == user }

  /** The generation of the account is still the one that the invalidation has loaded. */
  predicate Undisturbed(s: Sys, e: Event, user: User) {
    Invalidates(s, e, user) ==> s.rows[e.t].generation == Generation(s, user)
  }

  ghost predicate SerialPath(states: seq<Sys>, events: seq<Event>, user: User) {
    IsPath(states, events) && forall i | 0 <= i < |events| :: Undisturbed(states[i], events[i], user)
  }

  lemma GenerationStep(s: Sys, e: Event, user: User)
    requires Enabled(s, e)
    ensures Generation(Apply(s, e), user) == if Invalidates(s, e, user) then s.rows[e.t].generation + 1
              else Generation(s, user)
  {
    hide Newest;
  }

  /** A consumed login stays what it was when it was consumed. */
  lemma LoginStays(s: Sys, e: Event, token: Token)
    requires TokensFresh(s) && Enabled(s, e) && token in s.logins
    ensures token in Apply(s, e).logins && Apply(s, e).logins[token].pending == s.logins[token].pending
  {
    hide Newest;
  }

  predicate RowsBehind(s: Sys, user: User) {
    forall t | t in s.rows && s.rows[t].user == user :: s.rows[t].generation <= Generation(s, user)
  }

  predicate LoginsBehind(s: Sys, user: User) {
    && (forall k | k in s.pendings && s.pendings[k].user == user :: s.pendings[k].generation <= Generation(s, user))
    && (forall k | k in s.logins && s.logins[k].pending.user == user ::
          s.logins[k].pending.generation <= Generation(s, user))
  }

  /** Nothing of the user's is ahead of the account's generation. */
  predicate NothingAhead(s: Sys, user: User) { RowsBehind(s, user) && LoginsBehind(s, user) }

  lemma RowsStayBehind(s: Sys, e: Event, user: User)
    requires RowsBehind(s, user) && Enabled(s, e) && Undisturbed(s, e, user)
    ensures RowsBehind(Apply(s, e), user)
  {
    hide Newest;
    GenerationStep(s, e, user);
  }

  lemma LoginsStayBehind(s: Sys, e: Event, user: User)
    requires NothingAhead(s, user) && Enabled(s, e) && Undisturbed(s, e, user)
    ensures LoginsBehind(Apply(s, e), user)
  {
    hide Newest;
    GenerationStep(s, e, user);
  }

  lemma NothingGetsAhead(s: Sys, e: Event, user: User)
    requires NothingAhead(s, user) && Enabled(s, e) && Undisturbed(s, e, user)
    ensures NothingAhead(Apply(s, e), user)
  {
    hide RowsBehind, LoginsBehind, Enabled, Apply, Undisturbed;
    RowsStayBehind(s, e, user);
    LoginsStayBehind(s, e, user);
  }

  lemma {:induction false} SerialNothingAhead(states: seq<Sys>, events: seq<Event>, user: User, i: nat)
    requires SerialPath(states, events, user) && NothingAhead(states[0], user) && i < |states|
    ensures NothingAhead(states[i], user)
  {
    hide Enabled, Apply, NothingAhead, Undisturbed;
    if i > 0 {
      SerialNothingAhead(states, events, user, i - 1);
      assert Undisturbed(states[i - 1], events[i - 1], user);
      NothingGetsAhead(states[i - 1], events[i - 1], user);
      assert states[i - 1 + 1] == Apply(states[i - 1], events[i - 1]);
    }
  }

  lemma {:induction false} SerialGrows(states: seq<Sys>, events: seq<Event>, user: User, i: nat, j: nat)
    requires SerialPath(states, events, user) && i <= j < |states|
    ensures Generation(states[i], user) <= Generation(states[j], user)
  {
    hide Enabled, Apply, Generation;
    if i < j {
      SerialGrows(states, events, user, i, j - 1);
      assert Undisturbed(states[j - 1], events[j - 1], user);
      GenerationStep(states[j - 1], events[j - 1], user);
      assert states[j - 1 + 1] == Apply(states[j - 1], events[j - 1]);
    }
  }

  lemma {:induction false} LoginStaysOnPath(states: seq<Sys>, events: seq<Event>, i: nat, j: nat, token: Token)
    requires IsPath(states, events) && Inv(states[0]) && i <= j < |states| && token in states[i].logins
    ensures token in states[j].logins && states[j].logins[token].pending == states[i].logins[token].pending
  {
    hide Enabled, Apply, StagedOk, MadeOnce, Bounded, SourcesKnown;
    if i < j {
      LoginStaysOnPath(states, events, i, j - 1, token);
      PathKeepsInv(states, events, j - 1);
      LoginStays(states[j - 1], events[j - 1], token);
      assert states[j - 1 + 1] == Apply(states[j - 1], events[j - 1]);
    }
  }

  /** No continuation, whatever requests and invalidations it has, lets the login through. */
  ghost predicate RejectedForever(s: Sys, token: Token) {
    forall states, events | IsPath(states, events) && states[0] == s :: !Passes(states[|states| - 1], token)
  }

  /** The account is past this generation, and no request has the account in memory as it was before it. */
  predicate Past(s: Sys, user: User, g: nat) {
    Generation(s, user) > g && forall t | t in s.rows && s.rows[t].user == user :: s.rows[t].generation >= g
  }

  lemma PastStays(s: Sys, e: Event, user: User, g: nat)
    requires Past(s, user, g) && Enabled(s, e)
    ensures Past(Apply(s, e), user, g)
  {
    hide Newest;
    GenerationStep(s, e, user);
  }

  lemma {:induction false} PastOnPath(states: seq<Sys>, events: seq<Event>, user: User, g: nat, i: nat, j: nat)
    requires IsPath(states, events) && i <= j < |states| && Past(states[i], user, g)
    ensures Past(states[j], user, g)
  {
    hide Enabled, Apply, Past;
    if i < j {
      PastOnPath(states, events, user, g, i, j - 1);
      PastStays(states[j - 1], events[j - 1], user, g);
      assert states[j - 1 + 1] == Apply(states[j - 1], events[j - 1]);
    }
  }

  lemma Prepend(s: Sys, e: Event, rest: seq<Sys>, steps: seq<Event>)
    requires Enabled(s, e) && IsPath(rest, steps) && rest[0] == Apply(s, e)
    ensures IsPath([s] + rest, [e] + steps)
  {
    hide Enabled, Apply;
    var states, events := [s] + rest, [e] + steps;
    forall i | 0 <= i < |events|
      ensures Enabled(states[i], events[i]) && states[i + 1] == Apply(states[i], events[i])
    {
      if i > 0 { assert states[i] == rest[i - 1] && states[i + 1] == rest[i - 1 + 1] && events[i] == steps[i - 1]; }
    }
  }

  /** The login is still waiting for its account check. */
  predicate Waits(s: Sys, token: Token, pending: Pending) {
    token in s.logins && !s.logins[token].finalized && s.logins[token].pending == pending
  }

  lemma LoadThenInvalidate(s: Sys, user: User)
    ensures var s1 := Apply(s, Load(0, user));
            && Enabled(s1, Invalidate(0, None, 0))
            && Generation(Apply(s1, Invalidate(0, None, 0)), user) == Generation(s, user) + 1
            && Apply(s1, Invalidate(0, None, 0)).logins == s.logins
  {
    hide Newest;
  }

  /** Invalidations, one after the other, lift the generation to that of the login. */
  lemma {:induction false} Lift(s: Sys, token: Token, pending: Pending) returns (states: seq<Sys>, events: seq<Event>)
    requires Waits(s, token, pending) && Generation(s, pending.user) <= pending.generation
    ensures IsPath(states, events) && states[0] == s && Passes(states[|states| - 1], token)
    decreases pending.generation - Generation(s, pending.user)
  {
    hide Apply, Enabled, Generation;
    if Generation(s, pending.user) == pending.generation { return [s], []; }
    var e1, e2 := Load(0, pending.user), Invalidate(0, None, 0);
    LoadEnabled(s, 0, pending.user);
    LoadThenInvalidate(s, pending.user);
    var s1 := Apply(s, e1);
    states, events := Lift(Apply(s1, e2), token, pending);
    Prepend(s1, e2, states, events);
    Prepend(s, e1, [s1] + states, [e2] + events);
    states, events := [s] + ([s1] + states), [e1] + ([e2] + events);
  }

  lemma LoadEnabled(s: Sys, t: Tid, user: User)
    ensures Enabled(s, Load(t, user))
  {
  }

  lemma StaleCommit(s: Sys, t: Tid)
    requires t in s.rows
    ensures var s' := Apply(s, Invalidate(t, None, 0));
            Generation(s', s.rows[t].user) == s.rows[t].generation + 1 && s'.logins == s.logins
  {
  }

  /**
    A consumed login is rejected in every continuation if and only if the account is past its generation and
    no request has the account in memory as it was before that generation: committing such a row would
    set the generation back.
   */
  lemma RejectedForeverIff(s: Sys, token: Token, pending: Pending)
    requires Inv(s) && Waits(s, token, pending)
    ensures RejectedForever(s, token) <==> Past(s, pending.user, pending.generation)
  {
    hide Inv, Apply, Enabled, Generation;
    var user, g := pending.user, pending.generation;
    if Past(s, user, g) {
      forall states, events | IsPath(states, events) && states[0] == s ensures !Passes(states[|states| - 1], token) {
        PastOnPath(states, events, user, g, 0, |states| - 1);
        LoginStaysOnPath(states, events, 0, |states| - 1, token);
      }
    } else {
      var states, events;
      if Generation(s, user) <= g { states, events := Lift(s, token, pending); }
      else {
        var t :| t in s.rows && s.rows[t].user == user && s.rows[t].generation < g;
        var e := Invalidate(t, None, 0);
        InvalidateEnabled(s, t);
        StaleCommit(s, t);
        states, events := Lift(Apply(s, e), token, pending);
        Prepend(s, e, states, events);
        states, events := [s] + states, [e] + events;
      }
      assert IsPath(states, events) && states[0] == s && Passes(states[|states| - 1], token);
    }
  }

  lemma InvalidateEnabled(s: Sys, t: Tid)
    requires t in s.rows
    ensures Enabled(s, Invalidate(t, None, 0))
  {
  }

  lemma InvalidationEffect(s: Sys, e: Event, user: User)
    requires Enabled(s, e) && Invalidates(s, e, user)
    ensures var s' := Apply(s, e);
            s'.logins == s.logins && s'.rows == s.rows - {e.t} && Generation(s', user) == s.rows[e.t].generation + 1
  {
    hide Newest;
  }

  /**
    So an invalidation is final for a login consumed before it if and only if no request, its own included,
    has loaded the account before the generation of the login.
   */
  lemma FinalIffNoneOlder(s: Sys, e: Event, token: Token, pending: Pending)
    requires Inv(s) && Enabled(s, e) && Invalidates(s, e, pending.user) && Waits(s, token, pending)
    ensures RejectedForever(Apply(s, e), token)
       <==> forall t | t in s.rows && s.rows[t].user == pending.user :: s.rows[t].generation >= pending.generation
  {
    hide Inv, Apply, Enabled, RejectedForever, Generation;
    StepKeepsInv(s, e);
    InvalidationEffect(s, e, pending.user);
    var s', g := Apply(s, e), pending.generation;
    RejectedForeverIff(s', token, pending);
    assert forall t | t in s.rows && t != e.t :: t in s'.rows && s'.rows[t] == s.rows[t];
    assert Past(s', pending.user, g) ==>
        forall t | t in s.rows && s.rows[t].user == pending.user && t != e.t :: s'.rows[t].generation >= g;
  }

  /**
    In every run, when an invalidation finds no older row in memory, a login consumed before it never passes the
    account check afterwards, and no session it makes, before or after, is ever accepted afterwards,
    whatever other invalidations there are.
   */
  lemma NoneOlderEndsLogins(states: seq<Sys>, events: seq<Event>, i: nat, j: nat, token: Token, user: User, now: int)
    requires IsRun(states, events) && i < j < |states| && Invalidates(states[i], events[i], user)
    requires token in states[i].logins && states[i].logins[token].pending.user == user
    requires forall t | t in states[i].rows && states[i].rows[t].user == user ::
               states[i].rows[t].generation >= states[i].logins[token].pending.generation
    ensures !Passes(states[j], token)
    ensures forall id | id in states[j].sessions && states[j].sessions[id].source == Some(token) ::
              !Accepted(states[j], id, user, now)
  {
    hide Enabled, Apply, StagedOk, MadeOnce, Bounded, TokensFresh, Initial;
    assert states[i + 1] == Apply(states[i], events[i]);
    InvalidationEffect(states[i], events[i], user);
    PastOnPath(states, events, user, states[i].logins[token].pending.generation, i + 1, j);
    RunKeepsInv(states, events, 0);
    LoginStaysOnPath(states, events, i, j, token);
    RunKeepsInv(states, events, j);
    forall id | id in states[j].sessions && states[j].sessions[id].source == Some(token)
      ensures !Accepted(states[j], id, user, now)
    {
      assert SourceKnown(states[j], states[j].sessions[id]);
    }
  }

  lemma EmptyNothingAhead(s: Sys, user: User)
    requires Initial(s)
    ensures NothingAhead(s, user)
  {
  }

  /**
    In every run whose invalidations of the user are undisturbed, a login consumed before an invalidation
    never passes the account check afterwards, and no session it makes, before or after, is ever accepted
    afterwards.
   */
  lemma InvalidationEndsLogins(states: seq<Sys>, events: seq<Event>, i: nat, j: nat, token: Token, user: User, now: int)
    requires IsRun(states, events) && SerialPath(states, events, user) && i < j < |states|
    requires Invalidates(states[i], events[i], user)
    requires token in states[i].logins && states[i].logins[token].pending.user == user
    ensures !Passes(states[j], token)
    ensures forall id | id in states[j].sessions && states[j].sessions[id].source == Some(token) ::
              !Accepted(states[j], id, user, now)
  {
    hide Enabled, Apply, StagedOk, MadeOnce, Bounded, TokensFresh, Initial;
    assert states[i + 1] == Apply(states[i], events[i]) && Undisturbed(states[i], events[i], user);
    GenerationStep(states[i], events[i], user);
    EmptyNothingAhead(states[0], user);
    SerialNothingAhead(states, events, user, i);
    SerialGrows(states, events, user, i + 1, j);
    RunKeepsInv(states, events, 0);
    LoginStaysOnPath(states, events, i, j, token);
    RunKeepsInv(states, events, j);
    forall id | id in states[j].sessions && states[j].sessions[id].source == Some(token)
      ensures !Accepted(states[j], id, user, now)
    {
      assert SourceKnown(states[j], states[j].sessions[id]);
    }
  }

  // ----- undisturbed means alone

  /** Another invalidation of the user committed between the two points of the run. */
  ghost predicate OtherCommitBetween(states: seq<Sys>, events: seq<Event>, user: User, i: nat, k: nat)
    requires |states| == |events| + 1 && k < |states|
  {
    exists m :: i < m < k && Invalidates(states[m], events[m], user)
  }

  lemma {:induction false} SameGenerationIffAlone(states: seq<Sys>, events: seq<Event>, user: User, i: nat, k: nat)
    requires IsPath(states, events) && i < k < |states|
    requires forall m | i < m < k :: Undisturbed(states[m], events[m], user)
    ensures Generation(states[i + 1], user) <= Generation(states[k], user)
    ensures Generation(states[k], user) == Generation(states[i + 1], user) <==>
              !OtherCommitBetween(states, events, user, i, k)
  {
    hide Enabled, Apply, Generation;
    if k > i + 1 {
      SameGenerationIffAlone(states, events, user, i, k - 1);
      GenerationStep(states[k - 1], events[k - 1], user);
      assert states[k - 1 + 1] == Apply(states[k - 1], events[k - 1]);
      assert Undisturbed(states[k - 1], events[k - 1], user);
    }
  }

  /**
    Where the earlier invalidations were undisturbed, an invalidation that loaded its row at `i` and commits
    at `k` is undisturbed if and only if no other one of the user committed between.
   */
  lemma UndisturbedIffAlone(states: seq<Sys>, events: seq<Event>, user: User, i: nat, k: nat, t: Tid)
    requires IsPath(states, events) && i < k < |events| && events[i] == Load(t, user)
    requires Invalidates(states[k], events[k], user) && events[k].t == t
    requires states[k].rows[t] == Row(user, Generation(states[i], user))
    requires forall m | i < m < k :: Undisturbed(states[m], events[m], user)
    ensures Undisturbed(states[k], events[k], user) <==> !OtherCommitBetween(states, events, user, i, k)
  {
    hide Enabled, Apply, Generation;
    SameGenerationIffAlone(states, events, user, i, k);
    GenerationStep(states[i], events[i], user);
    assert states[i + 1] == Apply(states[i], events[i]);
  }

  // ----- sessions that exist at an invalidation

  lemma SessionStays(s: Sys, e: Event, id: SessionId)
    requires TokensFresh(s) && Enabled(s, e) && id < s.next && id in Apply(s, e).sessions
    ensures id in s.sessions && Apply(s, e).sessions[id] == s.sessions[id]
    ensures e.Invalidate? ==> s.sessions[id].user != s.rows[e.t].user
  {
    hide Newest;
  }

  lemma {:induction false} SessionsNeverReturn(states: seq<Sys>, events: seq<Event>, i: nat, j: nat, id: SessionId)
    requires IsRun(states, events) && i <= j < |states| && id < states[i].next && id in states[j].sessions
    ensures id in states[i].sessions && states[j].sessions[id] == states[i].sessions[id]
    decreases j - i
  {
    hide Enabled, Apply, StagedOk, MadeOnce, Bounded, SourcesKnown, Initial;
    if i < j {
      RunKeepsInv(states, events, i);
      assert states[i + 1] == Apply(states[i], events[i]);
      TokensStayFresh(states[i], events[i]);
      SessionsNeverReturn(states, events, i + 1, j, id);
      SessionStays(states[i], events[i], id);
    }
  }

  /** In every run, disturbed or not, a session that exists when its user is invalidated is never accepted again. */
  lemma InvalidationEndsSessions(states: seq<Sys>, events: seq<Event>, i: nat, j: nat, id: SessionId, user: User,
                                 now: int)
    requires IsRun(states, events) && i < j < |states| && Invalidates(states[i], events[i], user)
    requires id in states[i].sessions && states[i].sessions[id].user == user
    ensures id !in states[j].sessions && !Accepted(states[j], id, user, now)
  {
    hide Enabled, Apply, StagedOk, MadeOnce, Bounded, SourcesKnown, Initial;
    RunKeepsInv(states, events, i);
    assert states[i + 1] == Apply(states[i], events[i]);
    if id in states[j].sessions {
      TokensStayFresh(states[i], events[i]);
      SessionsNeverReturn(states, events, i + 1, j, id);
      SessionStays(states[i], events[i], id);
    }
  }

  // ----- overlapping invalidations that let an old login through

  lemma Extend(states: seq<Sys>, events: seq<Event>, e: Event)
    requires IsRun(states, events) && Enabled(states[|states| - 1], e)
    ensures IsRun(states + [Apply(states[|states| - 1], e)], events + [e])
  {
    hide Enabled, Apply;
  }

  lemma OneStateRun(s: Sys)
    requires Initial(s)
    ensures IsRun([s], [])
  {
  }

  /** Both invalidations have loaded the account of user 7, and the first one has committed. */
  lemma FirstCommitted() returns (states: seq<Sys>, events: seq<Event>)
    ensures |states| == 4 && |events| == 3 && IsRun(states, events)
    ensures states[3] == Sys(map[7 := 1], map[1 := Row(7, 0)], map[], map[], map[], [], 1)
  {
    var s0 := Sys(map[], map[], map[], map[], map[], [], 0);
    OneStateRun(s0);
    hide IsRun;
    Extend([s0], [], Load(0, 7));
    var s1 := Apply(s0, Load(0, 7));
    Extend([s0] + [s1], [] + [Load(0, 7)], Load(1, 7));
    var s2 := Apply(s1, Load(1, 7));
    Extend([s0] + [s1] + [s2], [] + [Load(0, 7)] + [Load(1, 7)], Invalidate(0, None, 0));
    states := [s0] + [s1] + [s2] + [Apply(s2, Invalidate(0, None, 0))];
    events := [] + [Load(0, 7)] + [Load(1, 7)] + [Invalidate(0, None, 0)];
    assert s2.rows - {0} == map[1 := Row(7, 0)];
  }

  const LATE_LOGIN := Pending(7, 1, "b", 0, 300)

  /** Then a login begins and is consumed. */
  lemma LoginBetween() returns (states: seq<Sys>, events: seq<Event>)
    ensures |states| == 7 && |events| == 6 && IsRun(states, events)
    ensures states[6] == Sys(map[7 := 1], map[1 := Row(7, 0), 2 := Row(7, 1)], map[],
              map[1 := Login(LATE_LOGIN, None, false)], map[], [], 2)
  {
    hide IsRun;
    var before, steps := FirstCommitted();
    var s3 := before[3];
    Extend(before, steps, Load(2, 7));
    var s4 := Apply(s3, Load(2, 7));
    assert Live(s4.pendings, 7, 0) == {};
    Extend(before + [s4], steps + [Load(2, 7)], Begin(2, "b", 0, {}));
    var s5 := Apply(s4, Begin(2, "b", 0, {}));
    assert s5.pendings == map[1 := LATE_LOGIN];
    Extend(before + [s4] + [s5], steps + [Load(2, 7)] + [Begin(2, "b", 0, {})], Consume(1, "b", 1));
    states := before + [s4] + [s5] + [Apply(s5, Consume(1, "b", 1))];
    events := steps + [Load(2, 7)] + [Begin(2, "b", 0, {})] + [Consume(1, "b", 1)];
  }

  /**
    The second invalidation writes the same generation again: the login consumed before it passes the
    account check, and its session is accepted.
   */
  lemma OverlapAcceptsOldLogin() returns (states: seq<Sys>, events: seq<Event>)
    ensures |states| == 10 && |events| == 9 && IsRun(states, events)
    ensures Invalidates(states[6], events[6], 7) && 1 in states[6].logins && states[6].logins[1].pending.user == 7
    ensures Accepted(states[9], 3, 7, 50) && states[9].sessions[3].source == Some(1)
  {
    hide IsRun;
    var before, steps := LoginBetween();
    var s6 := before[6];
    var e7, e8, e9 := Invalidate(1, None, 2), CheckAccount(1, true), StoreSession(1, 100, Works);
    Extend(before, steps, e7);
    var s7 := Apply(s6, e7);
    assert s7.generation == map[7 := 1] && s7.logins == s6.logins && s7.next == 3;
    Extend(before + [s7], steps + [e7], e8);
    var s8 := Apply(s7, e8);
    Extend(before + [s7] + [s8], steps + [e7] + [e8], e9);
    states := before + [s7] + [s8] + [Apply(s8, e9)];
    events := steps + [e7] + [e8] + [e9];
  }

  /** After that login another request invalidates the account, undisturbed and alone. */
  lemma InvalidatedAlone() returns (states: seq<Sys>, events: seq<Event>)
    ensures |states| == 9 && |events| == 8 && IsRun(states, events)
    ensures Invalidates(states[7], events[7], 7) && Undisturbed(states[7], events[7], 7)
    ensures states[7].logins == map[1 := Login(LATE_LOGIN, None, false)]
    ensures states[8] == Sys(map[7 := 2], map[1 := Row(7, 0), 2 := Row(7, 1)], map[],
              map[1 := Login(LATE_LOGIN, None, false)], map[], [], 3)
  {
    hide IsRun;
    var before, steps := LoginBetween();
    var s6 := before[6];
    var e7, e8 := Load(3, 7), Invalidate(3, None, 2);
    Extend(before, steps, e7);
    var s7 := Apply(s6, e7);
    assert s7.rows - {3} == s6.rows;
    Extend(before + [s7], steps + [e7], e8);
    states, events := before + [s7] + [Apply(s7, e8)], steps + [e7] + [e8];
  }

  /**
    But then the request that loaded the account first commits: the generation goes back to that of the login,
    which passes the account check, and its session is accepted.
   */
  lemma OldRowAcceptsOldLogin() returns (states: seq<Sys>, events: seq<Event>)
    ensures |states| == 12 && |events| == 11 && IsRun(states, events)
    ensures Invalidates(states[7], events[7], 7) && Undisturbed(states[7], events[7], 7)
    ensures 1 in states[7].logins && states[7].logins[1].pending.user == 7
    ensures Accepted(states[11], 4, 7, 50) && states[11].sessions[4].source == Some(1)
  {
    hide IsRun;
    var before, steps := InvalidatedAlone();
    var s8 := before[8];
    var e9, e10, e11 := Invalidate(1, None, 2), CheckAccount(1, true), StoreSession(1, 100, Works);
    Extend(before, steps, e9);
    var s9 := Apply(s8, e9);
    assert s9.generation == map[7 := 1] && s9.logins == s8.logins && s9.next == 4;
    Extend(before + [s9], steps + [e9], e10);
    var s10 := Apply(s9, e10);
    Extend(before + [s9] + [s10], steps + [e9] + [e10], e11);
    states := before + [s9] + [s10] + [Apply(s10, e11)];
    events := steps + [e9] + [e10] + [e11];
  }
}
