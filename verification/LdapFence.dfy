/** `LDAPRevocationFence` in `app/ldap_session.py`: validation tokens, pending users, receipts and durable markers. */
module LdapFence {

  import opened Collections
  import opened Faults

  type User = int
  type Token = nat

  /** The account facts a validation is bound to; `generation` is the account's authentication generation. */
  datatype Key = Key(generation: nat, mapping: int, provider: string, subject: string, username: string)

  datatype Receipt = Receipt(verifiedAt: int, completed: int, key: Key)

  datatype Begun = Token(token: Token) | Pending | Broken

  datatype Completed = Published(receipt: Receipt) | Refused | Unsure

  /** The fence as a value; only `markers` survives the process. */
  datatype State = State(
    pending: set<User>,
    validating: map<User, Token>,
    receipts: map<User, Receipt>,
    markers: set<User>,
    nextToken: Token
  )

  // ----- what each operation does

  /** An unreadable marker counts as present. */
  predicate MarkerSeen(f: State, user: User, unreadable: bool) { unreadable || user in f.markers }

  function WriteMarker(f: State, user: User, fate: Survived): State {
    f.(markers := if fate == Fails then f.markers else f.markers + {user})
  }

  function RemoveMarker(f: State, user: User, fate: Survived): State {
    f.(markers := if fate == Fails then f.markers else f.markers - {user})
  }

  function Deny(f: State, user: User): State {
    f.(pending := f.pending + {user}, receipts := f.receipts - {user})
  }

  function Begin(f: State, user: User, unreadable: bool, fate: Survived): (State, Begun) {
    if user in f.pending || MarkerSeen(f, user, unreadable) then (Deny(f, user), Pending)
    else
      var next := f.(validating := f.validating[user := f.nextToken], nextToken := f.nextToken + 1);
      var g := WriteMarker(next, user, fate);
      if fate == Works then (g, Begun.Token(f.nextToken))
      else (Deny(g, user).(validating := g.validating - {user}), Broken)
  }

  predicate Current(f: State, user: User, token: Token) { user in f.validating && f.validating[user] == token }

  function Fail(f: State, user: User, token: Token): State {
    if Current(f, user, token) then Deny(f, user).(validating := f.validating - {user}) else f
  }

  function Complete(f: State, user: User, token: Token, key: Key, fate: Survived, epoch: int, now: int): (State,
                    Completed) {
    if !Current(f, user, token) || user in f.pending then (f, Refused)
    else if fate != Works then (RemoveMarker(f, user, fate), Unsure)
    else
      (RemoveMarker(f, user, fate).(validating := f.validating - {user}, pending := f.pending - {user},
                                    receipts := f.receipts[user := Receipt(epoch, now, key)]),
       Published(Receipt(epoch, now, key)))
  }

  function Mark(f: State, user: User, fate: Survived): State {
    WriteMarker(Deny(f, user).(validating := f.validating - {user}), user, fate)
  }

  function Discard(f: State, user: User, fate: Survived): State {
    if fate != Works then RemoveMarker(f, user, fate)
    else
      RemoveMarker(f, user, fate)
        .(pending := f.pending - {user}, validating := f.validating - {user}, receipts := f.receipts - {user})
  }

  /** Access is denied. */
  predicate Contains(f: State, user: User, unreadable: bool) {
    user in f.pending || (user !in f.validating && MarkerSeen(f, user, unreadable))
  }

  /** The receipt that a request may rely on. */
  function Recent(f: State, user: User, key: Key, notBefore: int, unreadable: bool): Option<Receipt> {
    if !Contains(f, user, unreadable) && user in f.receipts && f.receipts[user].key == key
      && f.receipts[user].completed > notBefore
    then Some(f.receipts[user]) else None
  }

  /** A request that asks with another key has the receipt forgotten. */
  function Asked(f: State, user: User, key: Key, unreadable: bool): State {
    if !Contains(f, user, unreadable) && user in f.receipts && f.receipts[user].key != key
    then f.(receipts := f.receipts - {user}) else f
  }

  /** A new process knows only the markers. */
  function Restart(f: State): State { State({}, map[], map[], f.markers, f.nextToken) }

  // ----- the object

  class RevocationFence {
    var pending: set<User>
    var validating: map<User, Token>
    var receipts: map<User, Receipt>
    var markers: set<User>
    var nextToken: Token

    function Value(): State
      reads this
    {
      State(pending, validating, receipts, markers, nextToken)
    }

    /** A process starts with the markers that an earlier one left. */
    constructor (found: State)
      ensures Value() == Restart(found)
    {
      pending, validating, receipts, markers, nextToken := {}, map[], map[], found.markers, found.nextToken;
    }

    method WriteMarkerFile(user: User, fate: Survived) returns (ok: bool)
      modifies this`markers
      ensures Value() == WriteMarker(old(Value()), user, fate) && ok == (fate == Works)
    {
      if fate != Fails { markers := markers + {user}; }
      ok := fate == Works;
    }

    method RemoveMarkerFile(user: User, fate: Survived) returns (ok: bool)
      modifies this`markers
      ensures Value() == RemoveMarker(old(Value()), user, fate) && ok == (fate == Works)
    {
      if fate != Fails { markers := markers - {user}; }
      ok := fate == Works;
    }

    method RecentValidation(user: User, key: Key, notBefore: int, unreadable: bool) returns (found: Option<Receipt>)
      modifies this`receipts
      ensures found == Recent(old(Value()), user, key, notBefore, unreadable)
      ensures Value() == Asked(old(Value()), user, key, unreadable)
      ensures forall u, k, n, b :: u != user || k == key ==>
                Recent(Value(), u, k, n, b) == Recent(old(Value()), u, k, n, b)
    {
      found := None;
      if user in pending { return; }
      if user !in validating && MarkerSeen(Value(), user, unreadable) { return; }
      if user !in receipts { return; }
      var receipt := receipts[user];
      if receipt.key != key { receipts := receipts - {user}; return; }
      if !(receipt.completed > notBefore) { return; }
      found := Some(receipt);
    }

    method BeginValidation(user: User, unreadable: bool, fate: Survived) returns (begun: Begun)
      modifies this
      ensures (Value(), begun) == Begin(old(Value()), user, unreadable, fate)
    {
      if user in pending || MarkerSeen(Value(), user, unreadable) {
        pending := pending + {user};
        receipts := receipts - {user};
        return Pending;
      }
      var token := nextToken;
      nextToken := nextToken + 1;
      validating := validating[user := token];
      var ok := WriteMarkerFile(user, fate);
      if !ok {
        validating := validating - {user};
        pending := pending + {user};
        receipts := receipts - {user};
        return Broken;
      }
      return Begun.Token(token);
    }

    method FailValidation(user: User, token: Token)
      modifies this
      ensures Value() == Fail(old(Value()), user, token)
    {
      if user !in validating || validating[user] != token { return; }
      validating := validating - {user};
      pending := pending + {user};
      receipts := receipts - {user};
    }

    method CompleteValidation(user: User, token: Token, key: Key, fate: Survived, epoch: int, now: int)
      returns (done: Completed)
      modifies this
      ensures (Value(), done) == Complete(old(Value()), user, token, key, fate, epoch, now)
    {
      if user !in validating || validating[user] != token || user in pending { return Refused; }
      var ok := RemoveMarkerFile(user, fate);
      if !ok { return Unsure; }
      validating := validating - {user};
      pending := pending - {user};
      var receipt := Receipt(epoch, now, key);
      receipts := receipts[user := receipt];
      return Published(receipt);
    }

    method MarkUser(user: User, fate: Survived) returns (ok: bool)
      modifies this
      ensures Value() == Mark(old(Value()), user, fate) && ok == (fate == Works)
    {
      validating := validating - {user};
      pending := pending + {user};
      receipts := receipts - {user};
      ok := WriteMarkerFile(user, fate);
    }

    method DiscardUser(user: User, fate: Survived) returns (ok: bool)
      modifies this
      ensures Value() == Discard(old(Value()), user, fate) && ok == (fate == Works)
    {
      ok := RemoveMarkerFile(user, fate);
      if !ok { return; }
      pending := pending - {user};
      validating := validating - {user};
      receipts := receipts - {user};
    }

    method ContainsUser(user: User, unreadable: bool) returns (denied: bool)
      ensures denied == Contains(Value(), user, unreadable)
    {
      if user in pending { return true; }
      if user in validating { return false; }
      return MarkerSeen(Value(), user, unreadable);
    }
  }
}
