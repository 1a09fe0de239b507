/** The credential lifecycle of the `Auth` class of
    0x03-user_authentication_service/auth.py, as pure transitions of the
    store: each operation maps the records before the call to the records
    after it and to what the call returns or raises. bcrypt's `hashpw` and
    `checkpw` are a `Hasher` given from outside; the hash that
    `_hash_password` computes and the token that `_generate_uuid` draws are
    inputs of the transitions that use them. */
module AuthSpec {
  import opened Wrappers
  import opened UserStore
  import opened Hex

  /** bcrypt, seen from outside: `hashpw(password, salt)` and
      `checkpw(password, hashed)`. */
  datatype Hasher = Hasher(hashpw: (string, Bytes) -> Bytes, checkpw: (string, Bytes) -> bool)

  /** A password checks against every hash made from it, whatever the salt. */
  ghost predicate Sound(h: Hasher)
  {
    forall password, salt :: h.checkpw(password, h.hashpw(password, salt))
  }

  /** The string form of a version-4 UUID (section 4.4 of RFC 4122) as
      `str(uuid4())` writes it: 32 lower-case hexadecimal digits grouped
      8-4-4-4-12, version digit `4`, variant digit one of `8`, `9`, `a`, `b`. */
  predicate IsUuid4(s: string)
  {
    |s| == 36
    && (forall i :: 0 <= i < 36 ==>
          if i == 8 || i == 13 || i == 18 || i == 23 then s[i] == '-' else IsHexDigit(s[i]))
    && s[14] == '4'
    && s[19] in "89ab"
  }

  /** A token drawn by `_generate_uuid`. */
  type Uuid4 = s: string | IsUuid4(s) witness "00000000-0000-4000-8000-000000000000"

  /** The records after an operation, and what it returned. */
  datatype Step<T> = Step(users: seq<User>, out: T)

  /** No two records hold the same live session token. */
  predicate SessionsUnique(users: seq<User>)
  {
    forall a, b :: 0 <= a < b < |users| && users[a].sessionId.Some? ==> users[a].sessionId != users[b].sessionId
  }

  /** No two records hold the same pending reset token. */
  predicate ResetTokensUnique(users: seq<User>)
  {
    forall a, b :: 0 <= a < b < |users| && users[a].resetToken.Some? ==> users[a].resetToken != users[b].resetToken
  }

  /** `register_user(email, password)` with `hashed` the result of
      `_hash_password(password)`: a taken email raises `ValueError` and
      leaves the store alone; otherwise one record is added and returned. */
  function RegisterUser(users: seq<User>, email: string, hashed: Bytes): (s: Step<Result<User, Error>>)
    ensures !NoMatch(users, Email(email)) ==> s == Step(users, Err(ValueError))
    ensures NoMatch(users, Email(email)) ==>
      s.out.Ok? && s.users == users + [s.out.value]
      && s.out.value.email == email && s.out.value.hashedPassword == hashed
      && s.out.value.sessionId == None && s.out.value.resetToken == None
      && NoMatch(users, Id(s.out.value.id))
  {
    FindByOneKey(users, Email(email));
    match FindBy(users, [Email(email)])
    case Err(NoResultFound) =>
      var u := NewUser(users, email, hashed);
      Step(users + [u], Ok(u))
    case Err(e) => Step(users, Err(e))
    case Ok(_) => Step(users, Err(ValueError))
  }

  /** `valid_login(email, password)`: false for an unknown email, otherwise
      bcrypt's verdict on the stored hash of the first record with it. */
  function ValidLogin(users: seq<User>, email: string, password: string, h: Hasher): (ok: bool)
    ensures NoMatch(users, Email(email)) ==> !ok
    ensures forall i: nat :: FirstMatchAt(users, Email(email), i) ==> ok == h.checkpw(password, users[i].hashedPassword)
  {
    FindByOneKey(users, Email(email));
    match FindBy(users, [Email(email)])
    case Ok(i) => h.checkpw(password, users[i].hashedPassword)
    case Err(_) => false
  }

  /** `create_session(email)` with `token` the drawn UUID: an unknown email
      gives `None`; otherwise the token overwrites the record's session id. */
  function CreateSession(users: seq<User>, email: string, token: Uuid4): (s: Step<Option<Uuid4>>)
    ensures NoMatch(users, Email(email)) ==> s == Step(users, None)
  {
    FindByOneKey(users, Email(email));
    match FindBy(users, [Email(email)])
    case Ok(i) => Step(Update(users, users[i].id, [SessionId(Some(token))]).users, Some(token))
    case Err(_) => Step(users, None)
  }

  /** `get_user_from_session_id(session_id)`: `None` for a `None` argument,
      otherwise the first record holding that session id, if any. */
  function GetUserFromSessionId(users: seq<User>, sessionId: Option<string>): (r: Option<User>)
    ensures sessionId == None ==> r == None
    ensures sessionId != None ==> (r == None <==> NoMatch(users, SessionId(sessionId)))
    ensures forall i: nat :: sessionId != None && FirstMatchAt(users, SessionId(sessionId), i) ==> r == Some(users[i])
  {
    if sessionId == None then None
    else
      FindByOneKey(users, SessionId(sessionId));
      match FindBy(users, [SessionId(sessionId)])
      case Ok(i) => Some(users[i])
      case Err(_) => None
  }

  /** `destroy_session(user_id)`: the session id of the record with that id
      becomes `None`; the `ValueError` for an unknown id is swallowed. */
  function DestroySession(users: seq<User>, userId: int): (s: seq<User>)
    ensures NoMatch(users, Id(userId)) ==> s == users
  {
    Update(users, userId, [SessionId(None)]).users
  }

  /** `get_reset_password_token(email)` with `token` the drawn UUID: an
      unknown email raises `ValueError`; otherwise the token is stored as
      the record's reset token and returned. */
  function GetResetPasswordToken(users: seq<User>, email: string, token: Uuid4): (s: Step<Result<Uuid4, Error>>)
    ensures NoMatch(users, Email(email)) ==> s == Step(users, Err(ValueError))
  {
    FindByOneKey(users, Email(email));
    match FindBy(users, [Email(email)])
    case Ok(i) => Step(Update(users, users[i].id, [ResetToken(Some(token))]).users, Ok(token))
    case Err(_) => Step(users, Err(ValueError))
  }

  /** `update_password(reset_token, password)` with `hashed` the result of
      `_hash_password(password)`: when no record holds the reset token
      `ValueError` is raised; otherwise one update stores the hash and clears
      the token. A `None` token is looked up like any other value. */
  function UpdatePassword(users: seq<User>, resetToken: Option<string>, hashed: Bytes): (s: Step<Result<(), Error>>)
    ensures NoMatch(users, ResetToken(resetToken)) ==> s == Step(users, Err(ValueError))
  {
    FindByOneKey(users, ResetToken(resetToken));
    match FindBy(users, [ResetToken(resetToken)])
    case Ok(i) => Step(Update(users, users[i].id, [HashedPassword(hashed), ResetToken(None)]).users, Ok(()))
    case Err(_) => Step(users, Err(ValueError))
  }

  /** When ids are distinct, an update addressed by the id of record `i`
      applies to record `i` and succeeds. */
  lemma UpdateById(users: seq<User>, i: nat, kw: seq<Key>)
    requires IdsDistinct(users) && i < |users|
    requires forall k :: k in kw ==> k.IsAttribute()
    ensures Update(users, users[i].id, kw) == Updated(users[i := ApplyKwargs(users[i], kw).user], Ok(()))
  {
    assert FirstMatchAt(users, Id(users[i].id), i);
    FindByOneKey(users, Id(users[i].id));
  }

  /** On a known email `create_session` overwrites the session id of the
      first record with that email by the fresh token and returns it. */
  lemma CreateSessionOverwrites(users: seq<User>, email: string, token: Uuid4, i: nat)
    requires IdsDistinct(users) && FirstMatchAt(users, Email(email), i)
    ensures CreateSession(users, email, token) == Step(users[i := users[i].(sessionId := Some(token))], Some(token))
  {
    FindByOneKey(users, Email(email));
    UpdateById(users, i, [SessionId(Some(token))]);
    assert [SessionId(Some(token))][1..] == [];
  }

  /** `destroy_session` on an existing id clears that record's session id
      and nothing else. */
  lemma DestroySessionClears(users: seq<User>, userId: int, i: nat)
    requires FirstMatchAt(users, Id(userId), i)
    ensures DestroySession(users, userId) == users[i := users[i].(sessionId := None)]
  {
    FindByOneKey(users, Id(userId));
    assert [SessionId(None)][1..] == [];
  }

  /** On a known email `get_reset_password_token` stores the fresh token as
      the reset token of the first record with that email, and returns it. */
  lemma ResetTokenStored(users: seq<User>, email: string, token: Uuid4, i: nat)
    requires IdsDistinct(users) && FirstMatchAt(users, Email(email), i)
    ensures GetResetPasswordToken(users, email, token) == Step(users[i := users[i].(resetToken := Some(token))], Ok(token))
  {
    FindByOneKey(users, Email(email));
    UpdateById(users, i, [ResetToken(Some(token))]);
    assert [ResetToken(Some(token))][1..] == [];
  }

  /** `update_password` on the first record holding the reset token stores
      the new hash and clears the token in the same update. */
  lemma UpdatePasswordConsumesToken(users: seq<User>, resetToken: Option<string>, hashed: Bytes, i: nat)
    requires IdsDistinct(users) && FirstMatchAt(users, ResetToken(resetToken), i)
    ensures UpdatePassword(users, resetToken, hashed) ==
      Step(users[i := users[i].(hashedPassword := hashed, resetToken := None)], Ok(()))
  {
    var kw := [HashedPassword(hashed), ResetToken(None)];
    FindByOneKey(users, ResetToken(resetToken));
    UpdateById(users, i, kw);
    var once := Assign(users[i], HashedPassword(hashed));
    assert kw[1..] == [ResetToken(None)] && kw[1..][1..] == [];
    assert ApplyKwargs(users[i], kw) == ApplyKwargs(once, [ResetToken(None)]);
    assert ApplyKwargs(once, [ResetToken(None)]) == Applied(once.(resetToken := None), true);
  }

  /** Registering keeps emails unique and ids distinct. */
  lemma RegisterKeepsInvariants(users: seq<User>, email: string, hashed: Bytes)
    requires EmailsUnique(users) && IdsDistinct(users)
    ensures EmailsUnique(RegisterUser(users, email, hashed).users)
    ensures IdsDistinct(RegisterUser(users, email, hashed).users)
  {
  }

  /** After registering `email` with a hash of `password`, `valid_login`
      accepts that email and password. */
  lemma RegisterThenValidLogin(users: seq<User>, email: string, password: string, salt: Bytes, h: Hasher)
    requires Sound(h) && NoMatch(users, Email(email))
    ensures ValidLogin(RegisterUser(users, email, h.hashpw(password, salt)).users, email, password, h)
  {
    var s := RegisterUser(users, email, h.hashpw(password, salt));
    assert FirstMatchAt(s.users, Email(email), |users|);
  }

  /** After `create_session` replaces a user's session id by a different
      token, the previous token no longer resolves to that user. */
  lemma NewSessionRevokesPrevious(users: seq<User>, email: string, token: Uuid4, i: nat, previous: string)
    requires IdsDistinct(users) && FirstMatchAt(users, Email(email), i)
    requires users[i].sessionId == Some(previous) && previous != token
    ensures forall r :: GetUserFromSessionId(CreateSession(users, email, token).users, Some(previous)) == Some(r) ==>
      r.id != users[i].id
  {
    CreateSessionOverwrites(users, email, token, i);
    var after := CreateSession(users, email, token).users;
    FindByOneKey(after, SessionId(Some(previous)));
  }

  /** Creating a session with a token no record holds keeps session ids
      unique. */
  lemma CreateSessionKeepsSessionsUnique(users: seq<User>, email: string, token: Uuid4)
    requires IdsDistinct(users) && SessionsUnique(users)
    requires NoMatch(users, SessionId(Some(token)))
    ensures SessionsUnique(CreateSession(users, email, token).users)
  {
    FindByOneKey(users, Email(email));
    if i: nat :| FirstMatchAt(users, Email(email), i) {
      CreateSessionOverwrites(users, email, token, i);
    }
  }

  /** Issuing a reset token no record holds keeps reset tokens unique. */
  lemma ResetTokenKeepsTokensUnique(users: seq<User>, email: string, token: Uuid4)
    requires IdsDistinct(users) && ResetTokensUnique(users)
    requires NoMatch(users, ResetToken(Some(token)))
    ensures ResetTokensUnique(GetResetPasswordToken(users, email, token).users)
  {
    FindByOneKey(users, Email(email));
    if i: nat :| FirstMatchAt(users, Email(email), i) {
      ResetTokenStored(users, email, token, i);
    }
  }

  /** An update that leaves the session-id column alone keeps session ids
      unique; one that leaves the reset-token column alone keeps reset
      tokens unique. */
  lemma UpdateKeepsTokensUnique(users: seq<User>, userId: int, kw: seq<Key>)
    ensures Untouched(kw, SessionIdField) && SessionsUnique(users) ==> SessionsUnique(Update(users, userId, kw).users)
    ensures Untouched(kw, ResetTokenField) && ResetTokensUnique(users) ==> ResetTokensUnique(Update(users, userId, kw).users)
  {
    var after := Update(users, userId, kw).users;
    if Untouched(kw, SessionIdField) {
      UpdateKeepsUntouched(users, userId, kw, SessionIdField);
      assert forall j :: 0 <= j < |users| ==> after[j].sessionId == users[j].sessionId;
    }
    if Untouched(kw, ResetTokenField) {
      UpdateKeepsUntouched(users, userId, kw, ResetTokenField);
      assert forall j :: 0 <= j < |users| ==> after[j].resetToken == users[j].resetToken;
    }
  }

  /** Registering keeps session ids and reset tokens unique: the new record
      holds neither. */
  lemma RegisterKeepsTokensUnique(users: seq<User>, email: string, hashed: Bytes)
    ensures SessionsUnique(users) ==> SessionsUnique(RegisterUser(users, email, hashed).users)
    ensures ResetTokensUnique(users) ==> ResetTokensUnique(RegisterUser(users, email, hashed).users)
  {
  }

  /** Creating a session keeps reset tokens unique. */
  lemma CreateSessionKeepsResetTokensUnique(users: seq<User>, email: string, token: Uuid4)
    requires ResetTokensUnique(users)
    ensures ResetTokensUnique(CreateSession(users, email, token).users)
  {
    FindByOneKey(users, Email(email));
    if i: nat :| FirstMatchAt(users, Email(email), i) {
      UpdateKeepsTokensUnique(users, users[i].id, [SessionId(Some(token))]);
    }
  }

  /** Issuing a reset token keeps session ids unique. */
  lemma ResetTokenKeepsSessionsUnique(users: seq<User>, email: string, token: Uuid4)
    requires SessionsUnique(users)
    ensures SessionsUnique(GetResetPasswordToken(users, email, token).users)
  {
    FindByOneKey(users, Email(email));
    if i: nat :| FirstMatchAt(users, Email(email), i) {
      UpdateKeepsTokensUnique(users, users[i].id, [ResetToken(Some(token))]);
    }
  }

  /** Destroying a session keeps session ids and reset tokens unique: it
      only ever clears a session id. */
  lemma DestroySessionKeepsTokensUnique(users: seq<User>, userId: int)
    ensures SessionsUnique(users) ==> SessionsUnique(DestroySession(users, userId))
    ensures ResetTokensUnique(users) ==> ResetTokensUnique(DestroySession(users, userId))
  {
    UpdateKeepsTokensUnique(users, userId, [SessionId(None)]);
    FindByOneKey(users, Id(userId));
    if i: nat :| FirstMatchAt(users, Id(userId), i) {
      DestroySessionClears(users, userId, i);
      var after := DestroySession(users, userId);
      assert forall j :: 0 <= j < |users| && j != i ==> after[j] == users[j];
    }
  }

  /** Changing a password keeps session ids and reset tokens unique: it only
      ever clears a reset token. */
  lemma UpdatePasswordKeepsTokensUnique(users: seq<User>, resetToken: Option<string>, hashed: Bytes)
    requires IdsDistinct(users)
    ensures SessionsUnique(users) ==> SessionsUnique(UpdatePassword(users, resetToken, hashed).users)
    ensures ResetTokensUnique(users) ==> ResetTokensUnique(UpdatePassword(users, resetToken, hashed).users)
  {
    FindByOneKey(users, ResetToken(resetToken));
    if i: nat :| FirstMatchAt(users, ResetToken(resetToken), i) {
      UpdatePasswordConsumesToken(users, resetToken, hashed, i);
      var after := UpdatePassword(users, resetToken, hashed).users;
      assert forall j :: 0 <= j < |users| && j != i ==> after[j] == users[j];
    }
  }

  /** A reset token is good for one password change: reusing it afterwards
      raises `ValueError` exactly when no other record still holds it. */
  lemma ResetTokenSingleUse(users: seq<User>, token: string, hashed: Bytes, hashedAgain: Bytes, i: nat)
    requires IdsDistinct(users) && FirstMatchAt(users, ResetToken(Some(token)), i)
    ensures UpdatePassword(users, Some(token), hashed).out == Ok(())
    ensures var after := UpdatePassword(users, Some(token), hashed).users;
      UpdatePassword(after, Some(token), hashedAgain).out == Err(ValueError) <==>
      forall j :: 0 <= j < |users| && j != i ==> users[j].resetToken != Some(token)
  {
    UpdatePasswordConsumesToken(users, Some(token), hashed, i);
    var after := UpdatePassword(users, Some(token), hashed).users;
    FindByOneKey(after, ResetToken(Some(token)));
    if UpdatePassword(after, Some(token), hashedAgain).out == Err(ValueError) {
      forall j | 0 <= j < |users| && j != i
        ensures users[j].resetToken != Some(token)
      {
        assert after[j] == users[j];
      }
    }
  }

  /** `update_password` does not refuse a `None` token: in a store whose only
      user has no reset pending, `update_password(None, ...)` succeeds and
      replaces that user's password hash. */
  lemma NoneTokenChangesPassword(hashed: Bytes)
    ensures var u := User(1, "a@x.com", [], Some("s"), None);
      UpdatePassword([u], None, hashed) == Step([u.(hashedPassword := hashed)], Ok(()))
  {
    var u := User(1, "a@x.com", [], Some("s"), None);
    UpdatePasswordConsumesToken([u], None, hashed, 0);
  }
}
