/** The `Auth` object of 0x03-user_authentication_service/auth.py: a private
    `DB` and the operations of the service, each made of calls to
    `find_user_by`, `add_user` and `update_user`. Every method is proved to
    leave the store and to return exactly what the matching transition of
    `AuthSpec` gives, and to keep emails unique and ids distinct; session ids
    and reset tokens stay unique as long as every drawn token is held by no
    record. The salt of
    `bcrypt.gensalt()` and the UUID of `uuid4()` are parameters. */
module AuthService {
  import opened Wrappers
  import opened UserStore
  import opened AuthSpec

  class Auth {
    /** bcrypt, as the service sees it. */
    const hasher: Hasher
    /** `self._db`, created by the constructor and shared by no one else. */
    const db: DB

    /** The invariant the service keeps: bcrypt accepts what it hashed, and
        the store has one record per email and distinct ids. */
    ghost predicate Valid()
      reads this, db
    {
      Sound(hasher) && EmailsUnique(db.users) && IdsDistinct(db.users)
    }

    /** `Auth()`: a service over a fresh, empty store. */
    constructor (hasher: Hasher)
      requires Sound(hasher)
      ensures Valid() && fresh(db) && db.users == [] && this.hasher == hasher
    {
      this.hasher := hasher;
      db := new DB();
    }

    /** `register_user(email, password)`, with `salt` the salt drawn by
        `_hash_password`. */
    method RegisterUser(email: string, password: string, salt: Bytes) returns (r: Result<User, Error>)
      requires Valid()
      modifies db
      ensures Valid()
      ensures Step(db.users, r) == AuthSpec.RegisterUser(old(db.users), email, hasher.hashpw(password, salt))
      ensures r.Ok? <==> NoMatch(old(db.users), Email(email))
      ensures SessionsUnique(old(db.users)) ==> SessionsUnique(db.users)
      ensures ResetTokensUnique(old(db.users)) ==> ResetTokensUnique(db.users)
    {
      RegisterKeepsTokensUnique(db.users, email, hasher.hashpw(password, salt));
      var found := db.FindUserBy([Email(email)]);
      FindByOneKey(db.users, Email(email));
      if found == Err(NoResultFound) {
        var hashed := hasher.hashpw(password, salt);
        RegisterKeepsInvariants(db.users, email, hashed);
        var u := db.AddUser(email, hashed);
        r := Ok(u);
      } else {
        r := Err(ValueError);
      }
    }

    /** `valid_login(email, password)`. */
    method ValidLogin(email: string, password: string) returns (ok: bool)
      ensures ok == AuthSpec.ValidLogin(db.users, email, password, hasher)
    {
      var found := db.FindUserBy([Email(email)]);
      if found.Err? {
        return false;
      }
      ok := hasher.checkpw(password, db.users[found.value].hashedPassword);
    }

    /** `create_session(email)`, with `token` the UUID `_generate_uuid`
        draws. */
    method CreateSession(email: string, token: Uuid4) returns (r: Option<Uuid4>)
      requires Valid()
      modifies db
      ensures Valid()
      ensures Step(db.users, r) == AuthSpec.CreateSession(old(db.users), email, token)
      ensures SessionsUnique(old(db.users)) && NoMatch(old(db.users), SessionId(Some(token))) ==> SessionsUnique(db.users)
      ensures ResetTokensUnique(old(db.users)) ==> ResetTokensUnique(db.users)
    {
      if SessionsUnique(db.users) && NoMatch(db.users, SessionId(Some(token))) {
        CreateSessionKeepsSessionsUnique(db.users, email, token);
      }
      if ResetTokensUnique(db.users) {
        CreateSessionKeepsResetTokensUnique(db.users, email, token);
      }
      var found := db.FindUserBy([Email(email)]);
      if found.Err? {
        return None;
      }
      var kw := [SessionId(Some(token))];
      UpdateKeepsInvariants(db.users, db.users[found.value].id, kw);
      var _ := db.UpdateUser(db.users[found.value].id, kw);
      r := Some(token);
    }

    /** `get_user_from_session_id(session_id)`. */
    method GetUserFromSessionId(sessionId: Option<string>) returns (r: Option<User>)
      ensures r == AuthSpec.GetUserFromSessionId(db.users, sessionId)
    {
      if sessionId == None {
        return None;
      }
      var found := db.FindUserBy([SessionId(sessionId)]);
      if found.Err? {
        return None;
      }
      r := Some(db.users[found.value]);
    }

    /** `destroy_session(user_id)`: the `ValueError` of an unknown id is
        swallowed. */
    method DestroySession(userId: int)
      requires Valid()
      modifies db
      ensures Valid()
      ensures db.users == AuthSpec.DestroySession(old(db.users), userId)
      ensures SessionsUnique(old(db.users)) ==> SessionsUnique(db.users)
      ensures ResetTokensUnique(old(db.users)) ==> ResetTokensUnique(db.users)
    {
      DestroySessionKeepsTokensUnique(db.users, userId);
      var kw := [SessionId(None)];
      UpdateKeepsInvariants(db.users, userId, kw);
      var _ := db.UpdateUser(userId, kw);
    }

    /** `get_reset_password_token(email)`, with `token` the UUID
        `_generate_uuid` draws. */
    method GetResetPasswordToken(email: string, token: Uuid4) returns (r: Result<Uuid4, Error>)
      requires Valid()
      modifies db
      ensures Valid()
      ensures Step(db.users, r) == AuthSpec.GetResetPasswordToken(old(db.users), email, token)
      ensures SessionsUnique(old(db.users)) ==> SessionsUnique(db.users)
      ensures ResetTokensUnique(old(db.users)) && NoMatch(old(db.users), ResetToken(Some(token))) ==> ResetTokensUnique(db.users)
    {
      if SessionsUnique(db.users) {
        ResetTokenKeepsSessionsUnique(db.users, email, token);
      }
      if ResetTokensUnique(db.users) && NoMatch(db.users, ResetToken(Some(token))) {
        ResetTokenKeepsTokensUnique(db.users, email, token);
      }
      var found := db.FindUserBy([Email(email)]);
      if found.Err? {
        return Err(ValueError);
      }
      var kw := [ResetToken(Some(token))];
      UpdateKeepsInvariants(db.users, db.users[found.value].id, kw);
      var _ := db.UpdateUser(db.users[found.value].id, kw);
      r := Ok(token);
    }

    /** `update_password(reset_token, password)`, with `salt` the salt drawn
        by `_hash_password`. */
    method UpdatePassword(resetToken: Option<string>, password: string, salt: Bytes) returns (r: Result<(), Error>)
      requires Valid()
      modifies db
      ensures Valid()
      ensures Step(db.users, r) == AuthSpec.UpdatePassword(old(db.users), resetToken, hasher.hashpw(password, salt))
      ensures SessionsUnique(old(db.users)) ==> SessionsUnique(db.users)
      ensures ResetTokensUnique(old(db.users)) ==> ResetTokensUnique(db.users)
    {
      UpdatePasswordKeepsTokensUnique(db.users, resetToken, hasher.hashpw(password, salt));
      var found := db.FindUserBy([ResetToken(resetToken)]);
      if found.Err? {
        return Err(ValueError);
      }
      var hashed := hasher.hashpw(password, salt);
      var kw := [HashedPassword(hashed), ResetToken(None)];
      UpdateKeepsInvariants(db.users, db.users[found.value].id, kw);
      var _ := db.UpdateUser(db.users[found.value].id, kw);
      r := Ok(());
    }
  }
}
