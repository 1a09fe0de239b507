/** Whole sessions of calls to the authentication service, as the HTTP
    client of 0x03-user_authentication_service/main.py drives them. */
module AuthScenarios {
  import opened Wrappers
  import opened UserStore
  import opened AuthSpec

  /** Replacing a record by one with the same id keeps ids distinct. */
  lemma SameIdKeepsIdsDistinct(users: seq<User>, i: nat, v: User)
    requires IdsDistinct(users) && i < |users| && v.id == users[i].id
    ensures IdsDistinct(users[i := v])
  {
    var after := users[i := v];
    forall a, b | 0 <= a < b < |after| ensures after[a].id != after[b].id {
      assert after[a].id == users[a].id && after[b].id == users[b].id;
    }
  }

  /** A key no record of `users` matches is matched by no record of a store
      that keeps `users` as its prefix and appends one non-matching record. */
  lemma NoMatchGrown(users: seq<User>, grown: seq<User>, k: Kwarg)
    requires |grown| == |users| + 1 && grown[..|users|] == users
    requires NoMatch(users, k) && !Matches(grown[|users|], k)
    ensures NoMatch(grown, k)
  {
    forall j | 0 <= j < |grown| ensures !Matches(grown[j], k) {
      if j < |users| { assert grown[j] == grown[..|users|][j]; }
    }
  }

  /** Registration as main.py starts it: the new email is accepted, a login
      with a password bcrypt rejects fails, the profile without a cookie
      resolves no user, and a login with the registered password succeeds. */
  lemma RegisterPhase(users: seq<User>, h: Hasher, email: string, password: string, wrong: string, salt: Bytes)
    returns (registered: seq<User>)
    requires Sound(h) && IdsDistinct(users) && NoMatch(users, Email(email))
    requires !h.checkpw(wrong, h.hashpw(password, salt))
    ensures |registered| == |users| + 1 && registered[..|users|] == users
    ensures RegisterUser(users, email, h.hashpw(password, salt)) == Step(registered, Ok(registered[|users|]))
    ensures IdsDistinct(registered) && FirstMatchAt(registered, Email(email), |users|)
    ensures registered[|users|].sessionId == None && registered[|users|].resetToken == None
    ensures !ValidLogin(registered, email, wrong, h)
    ensures GetUserFromSessionId(registered, None) == None
    ensures ValidLogin(registered, email, password, h)
  {
    registered := RegisterUser(users, email, h.hashpw(password, salt)).users;
    assert FirstMatchAt(registered, Email(email), |users|);
    assert registered[..|users|] == users;
  }

  /** The session part of main.py: `create_session` returns the fresh token,
      the token resolves to the record with that email, and after
      `destroy_session` on that record's id the token resolves to no user. */
  lemma SessionPhase(users: seq<User>, email: string, session: Uuid4, i: nat)
    returns (loggedIn: seq<User>, loggedOut: seq<User>)
    requires IdsDistinct(users) && FirstMatchAt(users, Email(email), i)
    requires NoMatch(users, SessionId(Some(session)))
    ensures CreateSession(users, email, session) == Step(loggedIn, Some(session))
    ensures loggedIn == users[i := users[i].(sessionId := Some(session))]
    ensures GetUserFromSessionId(loggedIn, Some(session)) == Some(loggedIn[i]) && loggedIn[i].email == email
    ensures loggedOut == DestroySession(loggedIn, loggedIn[i].id)
    ensures GetUserFromSessionId(loggedOut, Some(session)) == None
    ensures loggedOut == users[i := users[i].(sessionId := None)]
  {
    CreateSessionOverwrites(users, email, session, i);
    loggedIn := users[i := users[i].(sessionId := Some(session))];
    assert FirstMatchAt(loggedIn, SessionId(Some(session)), i);
    SameIdKeepsIdsDistinct(users, i, loggedIn[i]);
    assert FirstMatchAt(loggedIn, Id(loggedIn[i].id), i);
    DestroySessionClears(loggedIn, loggedIn[i].id, i);
    loggedOut := loggedIn[i := loggedIn[i].(sessionId := None)];
    assert loggedOut == users[i := users[i].(sessionId := None)];
    FindByOneKey(loggedOut, SessionId(Some(session)));
    assert NoMatch(loggedOut, SessionId(Some(session)));
  }

  /** The password-reset part of main.py: the reset token is issued, the
      password update with it succeeds, stores the new hash and clears the
      token, and a second update with the same token raises `ValueError`. */
  lemma ResetPhase(users: seq<User>, email: string, reset: Uuid4, newHash: Bytes, i: nat)
    returns (resetIssued: seq<User>, updated: seq<User>)
    requires IdsDistinct(users) && FirstMatchAt(users, Email(email), i)
    requires NoMatch(users, ResetToken(Some(reset)))
    ensures GetResetPasswordToken(users, email, reset) == Step(resetIssued, Ok(reset))
    ensures resetIssued == users[i := users[i].(resetToken := Some(reset))]
    ensures UpdatePassword(resetIssued, Some(reset), newHash) == Step(updated, Ok(()))
    ensures updated == users[i := users[i].(hashedPassword := newHash, resetToken := None)]
    ensures forall hashed :: UpdatePassword(updated, Some(reset), hashed) == Step(updated, Err(ValueError))
  {
    ResetTokenStored(users, email, reset, i);
    resetIssued := users[i := users[i].(resetToken := Some(reset))];
    assert FirstMatchAt(resetIssued, ResetToken(Some(reset)), i);
    SameIdKeepsIdsDistinct(users, i, resetIssued[i]);
    UpdatePasswordConsumesToken(resetIssued, Some(reset), newHash, i);
    updated := resetIssued[i := resetIssued[i].(hashedPassword := newHash, resetToken := None)];
    assert updated == users[i := users[i].(hashedPassword := newHash, resetToken := None)];
    assert NoMatch(updated, ResetToken(Some(reset)));
  }

  /** Clearing the session id of the newly registered record, which
      registration left without one, gives back the store registration
      left. */
  lemma LogoutKeepsRegistration(users: seq<User>, registered: seq<User>, loggedOut: seq<User>, email: string)
    requires |registered| == |users| + 1 && registered[..|users|] == users
    requires IdsDistinct(registered) && FirstMatchAt(registered, Email(email), |users|)
    requires registered[|users|].resetToken == None && registered[|users|].sessionId == None
    requires loggedOut == registered[|users| := registered[|users|].(sessionId := None)]
    ensures loggedOut == registered
    ensures |loggedOut| == |users| + 1 && loggedOut[..|users|] == users
    ensures IdsDistinct(loggedOut) && FirstMatchAt(loggedOut, Email(email), |users|)
    ensures forall t: string :: !Matches(loggedOut[|users|], ResetToken(Some(t)))
  {
    var i := |users|;
    assert registered[i].(sessionId := None) == registered[i];
    SameIdKeepsIdsDistinct(registered, i, loggedOut[i]);
    assert FirstMatchAt(loggedOut, Email(email), i);
    assert loggedOut[..i] == users;
  }

  /** The first half of main.py, when the email is new to the store and the
      drawn session token is held by no record: registration, the failed and
      the successful login, the profile with the session cookie, and logout.
      It leaves a store in which the new record is the first with that email
      and still has no reset token: logout returns the store to exactly what
      registration left. */
  lemma LoginScenario(users: seq<User>, h: Hasher, email: string, password: string, newPassword: string,
                      salt: Bytes, session: Uuid4)
    returns (registered: seq<User>, loggedIn: seq<User>, loggedOut: seq<User>)
    requires Sound(h) && IdsDistinct(users) && NoMatch(users, Email(email))
    requires NoMatch(users, SessionId(Some(session)))
    requires !h.checkpw(newPassword, h.hashpw(password, salt))
    ensures RegisterUser(users, email, h.hashpw(password, salt)).users == registered
    ensures !ValidLogin(registered, email, newPassword, h) && ValidLogin(registered, email, password, h)
    ensures GetUserFromSessionId(registered, None) == None
    ensures CreateSession(registered, email, session) == Step(loggedIn, Some(session))
    ensures GetUserFromSessionId(loggedIn, Some(session)) == Some(loggedIn[|users|]) && loggedIn[|users|].email == email
    ensures loggedOut == DestroySession(loggedIn, loggedIn[|users|].id)
    ensures GetUserFromSessionId(loggedOut, Some(session)) == None
    ensures loggedOut == registered
    ensures |loggedOut| == |users| + 1 && loggedOut[..|users|] == users
    ensures IdsDistinct(loggedOut) && FirstMatchAt(loggedOut, Email(email), |users|)
    ensures forall t: string :: !Matches(loggedOut[|users|], ResetToken(Some(t)))
  {
    var i := |users|;
    registered := RegisterPhase(users, h, email, password, newPassword, salt);
    NoMatchGrown(users, registered, SessionId(Some(session)));
    loggedIn, loggedOut := SessionPhase(registered, email, session, i);
    LogoutKeepsRegistration(users, registered, loggedOut, email);
  }

  /** The store the login half of main.py leaves, with only the facts the
      reset half relies on. */
  lemma LoginHalf(users: seq<User>, h: Hasher, email: string, password: string, newPassword: string,
                  salt: Bytes, session: Uuid4)
    returns (loggedOut: seq<User>)
    requires Sound(h) && IdsDistinct(users) && NoMatch(users, Email(email))
    requires NoMatch(users, SessionId(Some(session)))
    requires !h.checkpw(newPassword, h.hashpw(password, salt))
    ensures GetUserFromSessionId(loggedOut, Some(session)) == None
    ensures loggedOut == RegisterUser(users, email, h.hashpw(password, salt)).users
    ensures |loggedOut| == |users| + 1 && loggedOut[..|users|] == users
    ensures IdsDistinct(loggedOut) && FirstMatchAt(loggedOut, Email(email), |users|)
    ensures forall t: string :: !Matches(loggedOut[|users|], ResetToken(Some(t)))
  {
    var registered, loggedIn;
    registered, loggedIn, loggedOut := LoginScenario(users, h, email, password, newPassword, salt, session);
  }

  /** Once the first record with `email` holds the hash of `newPassword`,
      `newPassword` logs in, and the old password no longer does when
      bcrypt rejects it against the new hash. */
  lemma LoginAfterPasswordChange(updated: seq<User>, h: Hasher, email: string, password: string, newPassword: string,
                                 newSalt: Bytes, i: nat)
    requires Sound(h) && FirstMatchAt(updated, Email(email), i)
    requires updated[i].hashedPassword == h.hashpw(newPassword, newSalt)
    ensures ValidLogin(updated, email, newPassword, h)
    ensures !h.checkpw(password, h.hashpw(newPassword, newSalt)) ==> !ValidLogin(updated, email, password, h)
  {
    FindByOneKey(updated, Email(email));
    assert h.checkpw(newPassword, h.hashpw(newPassword, newSalt));
  }

  /** The whole call sequence of main.py: after the login half, the reset
      token is issued, the password update with it succeeds, the new
      password logs in, the old one no longer does when bcrypt rejects it
      against the new hash, and the used token is refused. */
  lemma MainScenario(users: seq<User>, h: Hasher, email: string, password: string, newPassword: string,
                     salt: Bytes, newSalt: Bytes, session: Uuid4, reset: Uuid4)
    returns (loggedOut: seq<User>, resetIssued: seq<User>, updated: seq<User>)
    requires Sound(h) && IdsDistinct(users) && NoMatch(users, Email(email))
    requires NoMatch(users, SessionId(Some(session))) && NoMatch(users, ResetToken(Some(reset)))
    requires !h.checkpw(newPassword, h.hashpw(password, salt))
    ensures |loggedOut| == |users| + 1
    ensures loggedOut == RegisterUser(users, email, h.hashpw(password, salt)).users
    ensures GetUserFromSessionId(loggedOut, Some(session)) == None
    ensures GetResetPasswordToken(loggedOut, email, reset) == Step(resetIssued, Ok(reset))
    ensures UpdatePassword(resetIssued, Some(reset), h.hashpw(newPassword, newSalt)) == Step(updated, Ok(()))
    ensures ValidLogin(updated, email, newPassword, h)
    ensures !h.checkpw(password, h.hashpw(newPassword, newSalt)) ==> !ValidLogin(updated, email, password, h)
    ensures forall hashed :: UpdatePassword(updated, Some(reset), hashed) == Step(updated, Err(ValueError))
  {
    var i := |users|;
    loggedOut := LoginHalf(users, h, email, password, newPassword, salt, session);
    NoMatchGrown(users, loggedOut, ResetToken(Some(reset)));
    resetIssued, updated := ResetPhase(loggedOut, email, reset, h.hashpw(newPassword, newSalt), i);
    assert FirstMatchAt(updated, Email(email), i);
    LoginAfterPasswordChange(updated, h, email, password, newPassword, newSalt, i);
  }

  /** Logging in twice invalidates the first session: after two calls of
      `create_session` for the same email with two fresh tokens, the first
      token resolves to no user. */
  lemma SecondLoginRevokesFirst(users: seq<User>, email: string, first: Uuid4, second: Uuid4, i: nat)
    returns (afterFirst: seq<User>, afterSecond: seq<User>)
    requires IdsDistinct(users) && FirstMatchAt(users, Email(email), i)
    requires NoMatch(users, SessionId(Some(first))) && first != second
    ensures CreateSession(users, email, first) == Step(afterFirst, Some(first))
    ensures GetUserFromSessionId(afterFirst, Some(first)) == Some(afterFirst[i]) && afterFirst[i].email == email
    ensures CreateSession(afterFirst, email, second) == Step(afterSecond, Some(second))
    ensures GetUserFromSessionId(afterSecond, Some(first)) == None
  {
    CreateSessionOverwrites(users, email, first, i);
    afterFirst := users[i := users[i].(sessionId := Some(first))];
    assert FirstMatchAt(afterFirst, SessionId(Some(first)), i);
    assert FirstMatchAt(afterFirst, Email(email), i);
    SameIdKeepsIdsDistinct(users, i, afterFirst[i]);
    CreateSessionOverwrites(afterFirst, email, second, i);
    afterSecond := afterFirst[i := afterFirst[i].(sessionId := Some(second))];
    FindByOneKey(afterSecond, SessionId(Some(first)));
    assert NoMatch(afterSecond, SessionId(Some(first)));
  }
}
