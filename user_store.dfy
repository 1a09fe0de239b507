/** The credential store of the user authentication service: the `DB` class
    of 0x03-user_authentication_service/db.py (0x03-user_authentication/db.py
    holds the same code). The SQLAlchemy session is modelled by the sequence
    of user records it holds, in the order a query over the `users` table
    yields them; a record returned by a lookup is identified by its position
    in that sequence, as the Python code hands out the live object. */
module UserStore {
  import opened Wrappers

  type Bytes = seq<bv8>

  /** A row of the `users` table. */
  datatype User = User(
    id: int,
    email: string,
    hashedPassword: Bytes,
    sessionId: Option<string>,
    resetToken: Option<string>)

  /** The columns of a `User`. */
  datatype Field = IdField | EmailField | HashedPasswordField | SessionIdField | ResetTokenField

  /** The names of the columns of the `users` table. */
  const Columns: set<string> := {"id", "email", "hashed_password", "session_id", "reset_token"}

  /** One keyword argument `name=value` given to `find_user_by` or
      `update_user`. The five column names are closed alternatives; every
      other attribute name is `Unknown`. */
  datatype Kwarg =
    | Id(id: int)
    | Email(email: string)
    | HashedPassword(hashedPassword: Bytes)
    | SessionId(sessionId: Option<string>)
    | ResetToken(resetToken: Option<string>)
    | Unknown(name: string)
  {
    /** The name the keyword argument is written with. */
    function Name(): string
    {
      match this
      case Id(_) => "id"
      case Email(_) => "email"
      case HashedPassword(_) => "hashed_password"
      case SessionId(_) => "session_id"
      case ResetToken(_) => "reset_token"
      case Unknown(n) => n
    }

    /** A keyword argument written with a column's name is that column's
        alternative, never `Unknown`. */
    predicate WellFormed()
    {
      Unknown? ==> name !in Columns
    }

    /** The key names a column of `User`: the test `k in User.__dict__` of
        `find_user_by` and `hasattr(usr, k)` of `update_user`, on the names
        of the columns. */
    function IsAttribute(): (b: bool)
      ensures WellFormed() ==> (b <==> Name() in Columns)
    {
      !Unknown?
    }

    /** The column the key names. */
    function FieldOf(): Field
      requires IsAttribute()
    {
      match this
      case Id(_) => IdField
      case Email(_) => EmailField
      case HashedPassword(_) => HashedPasswordField
      case SessionId(_) => SessionIdField
      case ResetToken(_) => ResetTokenField
    }
  }

  /** A keyword argument as Python binds it: a name that is a column is
      always that column's alternative. */
  type Key = k: Kwarg | k.WellFormed() witness Id(0)

  /** The exceptions the store raises. */
  datatype Error = NoResultFound | InvalidRequestError | ValueError

  /** `getattr(u, k) == v` for the keyword argument `k=v`. */
  function Matches(u: User, k: Kwarg): (m: bool)
    ensures m ==> k.IsAttribute()
  {
    match k
    case Id(i) => u.id == i
    case Email(e) => u.email == e
    case HashedPassword(h) => u.hashedPassword == h
    case SessionId(s) => u.sessionId == s
    case ResetToken(t) => u.resetToken == t
    case Unknown(_) => false
  }

  /** `u` and `v` hold the same value in column `f`. */
  predicate Agree(u: User, v: User, f: Field)
  {
    match f
    case IdField => u.id == v.id
    case EmailField => u.email == v.email
    case HashedPasswordField => u.hashedPassword == v.hashedPassword
    case SessionIdField => u.sessionId == v.sessionId
    case ResetTokenField => u.resetToken == v.resetToken
  }

  /** `setattr(u, k, v)` for the keyword argument `k=v`. */
  function Assign(u: User, k: Kwarg): (v: User)
    requires k.IsAttribute()
    ensures Matches(v, k)
    ensures forall f :: f != k.FieldOf() ==> Agree(u, v, f)
  {
    match k
    case Id(i) => u.(id := i)
    case Email(e) => u.(email := e)
    case HashedPassword(h) => u.(hashedPassword := h)
    case SessionId(s) => u.(sessionId := s)
    case ResetToken(t) => u.(resetToken := t)
  }

  /** A record matches a key exactly when setting that key on it changes
      nothing. */
  lemma MatchesIffAssignIdle(u: User, k: Kwarg)
    requires k.IsAttribute()
    ensures Matches(u, k) <==> Assign(u, k) == u
  {
  }

  /** No record of `users` matches `k`. */
  predicate NoMatch(users: seq<User>, k: Kwarg)
  {
    forall j :: 0 <= j < |users| ==> !Matches(users[j], k)
  }

  /** Position `i` holds the first record of `users` that matches `k`. */
  predicate FirstMatchAt(users: seq<User>, k: Kwarg, i: nat)
  {
    i < |users| && Matches(users[i], k) && forall j :: 0 <= j < i ==> !Matches(users[j], k)
  }

  /** The inner `for usr in all_users` scan of `find_user_by` for one key. */
  function FirstMatch(users: seq<User>, k: Kwarg): (r: Option<nat>)
    ensures r.Some? ==> FirstMatchAt(users, k, r.value)
    ensures r.None? ==> NoMatch(users, k)
    decreases |users|
  {
    if users == [] then None
    else if Matches(users[0], k) then Some(0)
    else match FirstMatch(users[1..], k)
      case None => None
      case Some(i) => Some(i + 1)
  }

  /** `find_user_by(**kw)`: the keys are examined in argument order; a key
      that is not a column raises `InvalidRequestError`, the first key that
      some record matches returns the first such record, and when every key
      has been examined without a match `NoResultFound` is raised. */
  function FindBy(users: seq<User>, kw: seq<Key>): (r: Result<nat, Error>)
    ensures r.Ok? ==> r.value < |users| && exists k :: k in kw && FirstMatchAt(users, k, r.value)
    ensures r == Err(NoResultFound) <==> forall k :: k in kw ==> k.IsAttribute() && NoMatch(users, k)
    ensures r == Err(InvalidRequestError) ==> exists k :: k in kw && !k.IsAttribute()
    ensures r != Err(ValueError)
    decreases |kw|
  {
    if kw == [] then Err(NoResultFound)
    else if !kw[0].IsAttribute() then Err(InvalidRequestError)
    else match FirstMatch(users, kw[0])
      case Some(i) => Ok(i)
      case None => FindBy(users, kw[1..])
  }

  /** Every key before position `n` names a column that no record matches:
      the scan of `find_user_by` has passed over them. */
  predicate Passed(users: seq<User>, kw: seq<Key>, n: nat)
    requires n <= |kw|
  {
    forall m :: 0 <= m < n ==> kw[m].IsAttribute() && NoMatch(users, kw[m])
  }

  /** With a single key that names a column, `find_user_by` returns exactly
      the first record that matches it, and raises `NoResultFound` exactly
      when none does. */
  lemma FindByOneKey(users: seq<User>, k: Key)
    requires k.IsAttribute()
    ensures forall i: nat :: FirstMatchAt(users, k, i) <==> FindBy(users, [k]) == Ok(i)
    ensures NoMatch(users, k) <==> FindBy(users, [k]) == Err(NoResultFound)
  {
    assert [k][1..] == [];
  }

  /** The scan of `find_user_by` stops at the first key that is not a column
      or that some record matches. Keys after that one are never examined:
      a later invalid key raises nothing, and a later key's matches are
      ignored (several keys combine as "or" in argument order, not "and"). */
  lemma {:induction false} FindByStopsAtDecidingKey(users: seq<User>, kw: seq<Key>, n: nat)
    requires n < |kw| && Passed(users, kw, n)
    ensures !kw[n].IsAttribute() ==> FindBy(users, kw) == Err(InvalidRequestError)
    ensures kw[n].IsAttribute() && !NoMatch(users, kw[n]) ==>
      FindBy(users, kw).Ok? && FirstMatchAt(users, kw[n], FindBy(users, kw).value)
    ensures kw[n].IsAttribute() && NoMatch(users, kw[n]) ==> FindBy(users, kw) == FindBy(users, kw[n + 1..])
    decreases n
  {
    if n > 0 {
      assert kw[0].IsAttribute() && NoMatch(users, kw[0]);
      assert FindBy(users, kw) == FindBy(users, kw[1..]);
      assert Passed(users, kw[1..], n - 1) by {
        forall m | 0 <= m < n - 1
          ensures kw[1..][m].IsAttribute() && NoMatch(users, kw[1..][m])
        {
          assert kw[1..][m] == kw[m + 1];
        }
      }
      FindByStopsAtDecidingKey(users, kw[1..], n - 1);
      assert kw[1..][n - 1] == kw[n];
      assert kw[1..][n..] == kw[n + 1..];
    } else if kw[0].IsAttribute() && !NoMatch(users, kw[0]) {
      var i :| 0 <= i < |users| && Matches(users[i], kw[0]);
    }
  }

  /** A concrete store on which two keys give a record that matches only
      the first of them: `find_user_by(email=a, id=2)` returns the record
      with id 1. */
  lemma FindByIsNotConjunction()
    ensures var alice := User(1, "a", [], None, None);
            var bob := User(2, "b", [], None, None);
            FindBy([alice, bob], [Email("a"), Id(2)]) == Ok(0) && alice.id != 2
  {
    var alice := User(1, "a", [], None, None);
    var bob := User(2, "b", [], None, None);
    assert FirstMatch([alice, bob], Email("a")) == Some(0);
  }

  /** Every column that no key of `kw` names. */
  predicate Untouched(kw: seq<Key>, f: Field)
  {
    forall k :: k in kw && k.IsAttribute() ==> k.FieldOf() != f
  }

  /** No two keys of `kw` name the same column (keyword arguments are distinct). */
  predicate DistinctFields(kw: seq<Key>)
  {
    forall a, b :: 0 <= a < b < |kw| && kw[a].IsAttribute() && kw[b].IsAttribute() ==>
      kw[a].FieldOf() != kw[b].FieldOf()
  }

  /** The record after the `setattr` loop of `update_user`, and whether the
      loop ran to the end. */
  datatype Applied = Applied(user: User, complete: bool)

  /** The `for k, v in kwargs.items()` loop of `update_user`: the keys are set
      one at a time in argument order, and the first key that is not an
      attribute stops the loop with the earlier keys already set. */
  function ApplyKwargs(u: User, kw: seq<Key>): (a: Applied)
    ensures a.complete <==> forall k :: k in kw ==> k.IsAttribute()
    decreases |kw|
  {
    if kw == [] then Applied(u, true)
    else if !kw[0].IsAttribute() then Applied(u, false)
    else ApplyKwargs(Assign(u, kw[0]), kw[1..])
  }

  /** A column that no key names keeps its value. */
  lemma {:induction false} ApplyKeepsUntouched(u: User, kw: seq<Key>, f: Field)
    requires Untouched(kw, f)
    ensures Agree(u, ApplyKwargs(u, kw).user, f)
    decreases |kw|
  {
    if kw != [] && kw[0].IsAttribute() {
      assert forall k :: k in kw[1..] ==> k in kw;
      ApplyKeepsUntouched(Assign(u, kw[0]), kw[1..], f);
    }
  }

  /** When every key is a column and no column is named twice, each key's
      value is in place afterwards. */
  lemma {:induction false} ApplySetsNamed(u: User, kw: seq<Key>)
    requires forall k :: k in kw ==> k.IsAttribute()
    requires DistinctFields(kw)
    ensures forall k :: k in kw ==> Matches(ApplyKwargs(u, kw).user, k)
    decreases |kw|
  {
    if kw != [] {
      var v := Assign(u, kw[0]);
      var rest := kw[1..];
      assert forall k :: k in rest ==> k in kw;
      assert DistinctFields(rest) by {
        forall a, b | 0 <= a < b < |rest|
          ensures rest[a].FieldOf() != rest[b].FieldOf()
        {
          assert rest[a] == kw[a + 1] && rest[b] == kw[b + 1];
        }
      }
      ApplySetsNamed(v, rest);
      assert Untouched(rest, kw[0].FieldOf()) by {
        forall k | k in rest && k.IsAttribute()
          ensures k.FieldOf() != kw[0].FieldOf()
        {
          var b :| 0 <= b < |rest| && rest[b] == k;
          assert kw[b + 1] == k;
        }
      }
      ApplyKeepsUntouched(v, rest, kw[0].FieldOf());
    }
  }

  /** Setting one more key that names a column extends the loop by one step. */
  lemma {:induction false} ApplyAppend(u: User, kw: seq<Key>, k: Key)
    requires forall k' :: k' in kw ==> k'.IsAttribute()
    requires k.IsAttribute()
    ensures ApplyKwargs(u, kw + [k]) == Applied(Assign(ApplyKwargs(u, kw).user, k), true)
    decreases |kw|
  {
    if kw != [] {
      assert (kw + [k])[1..] == kw[1..] + [k];
      assert forall k' :: k' in kw[1..] ==> k' in kw;
      ApplyAppend(Assign(u, kw[0]), kw[1..], k);
    }
  }

  /** An unknown key at position `n` stops the loop: the record carries
      exactly the keys before `n`, and the loop reports it did not finish. */
  lemma {:induction false} ApplyStopsAtUnknown(u: User, kw: seq<Key>, n: nat)
    requires n < |kw| && !kw[n].IsAttribute()
    requires forall m :: 0 <= m < n ==> kw[m].IsAttribute()
    ensures ApplyKwargs(u, kw) == Applied(ApplyKwargs(u, kw[..n]).user, false)
    decreases n
  {
    if n > 0 {
      assert kw[1..][n - 1] == kw[n];
      assert kw[1..][..n - 1] == kw[..n][1..];
      ApplyStopsAtUnknown(Assign(u, kw[0]), kw[1..], n - 1);
    }
  }

  /** The store after `update_user`, and whether it raised. */
  datatype Updated = Updated(users: seq<User>, outcome: Result<(), Error>)

  /** `update_user(user_id, **kw)`: the record is looked up with
      `find_user_by(id=user_id)`; `NoResultFound` becomes `ValueError`;
      otherwise the keys are set on the first record with that id. */
  function Update(users: seq<User>, userId: int, kw: seq<Key>): (r: Updated)
    ensures |r.users| == |users|
    ensures NoMatch(users, Id(userId)) ==> r == Updated(users, Err(ValueError))
    ensures r.outcome.Ok? <==> !NoMatch(users, Id(userId)) && forall k :: k in kw ==> k.IsAttribute()
    ensures r.outcome.Err? ==> r.outcome.error == ValueError
  {
    FindByOneKey(users, Id(userId));
    match FindBy(users, [Id(userId)])
    case Err(NoResultFound) => Updated(users, Err(ValueError))
    case Err(e) => Updated(users, Err(e))
    case Ok(i) =>
      var a := ApplyKwargs(users[i], kw);
      Updated(users[i := a.user], if a.complete then Ok(()) else Err(ValueError))
  }

  /** A successful `update_user` sets exactly the given columns on the first
      record with the id: every key's value is in place, the other columns
      and every other record are unchanged. */
  lemma UpdateSetsExactlyNamed(users: seq<User>, userId: int, kw: seq<Key>, i: nat)
    requires FirstMatchAt(users, Id(userId), i)
    requires forall k :: k in kw ==> k.IsAttribute()
    requires DistinctFields(kw)
    ensures Update(users, userId, kw).outcome == Ok(())
    ensures forall j :: 0 <= j < |users| && j != i ==> Update(users, userId, kw).users[j] == users[j]
    ensures forall k :: k in kw ==> Matches(Update(users, userId, kw).users[i], k)
    ensures forall f :: Untouched(kw, f) ==> Agree(users[i], Update(users, userId, kw).users[i], f)
  {
    FindByOneKey(users, Id(userId));
    ApplySetsNamed(users[i], kw);
    forall f | Untouched(kw, f)
      ensures Agree(users[i], Update(users, userId, kw).users[i], f)
    {
      ApplyKeepsUntouched(users[i], kw, f);
    }
  }

  /** An `update_user` that reaches an unknown key raises `ValueError`
      without committing, yet the keys before it stay set on the record. */
  lemma UpdateRaisesAfterPartialWrite(users: seq<User>, userId: int, kw: seq<Key>, i: nat, n: nat)
    requires FirstMatchAt(users, Id(userId), i)
    requires n < |kw| && !kw[n].IsAttribute()
    requires forall m :: 0 <= m < n ==> kw[m].IsAttribute()
    ensures Update(users, userId, kw) ==
      Updated(users[i := ApplyKwargs(users[i], kw[..n]).user], Err(ValueError))
  {
    FindByOneKey(users, Id(userId));
    ApplyStopsAtUnknown(users[i], kw, n);
  }

  /** Columns that no key names keep their values in every record. */
  lemma UpdateKeepsUntouched(users: seq<User>, userId: int, kw: seq<Key>, f: Field)
    requires Untouched(kw, f)
    ensures forall j :: 0 <= j < |users| ==> Agree(users[j], Update(users, userId, kw).users[j], f)
  {
    FindByOneKey(users, Id(userId));
    if r: nat :| FirstMatchAt(users, Id(userId), r) {
      ApplyKeepsUntouched(users[r], kw, f);
    }
  }

  /** The largest id of a non-empty store. */
  function MaxId(users: seq<User>): (m: int)
    requires users != []
    ensures forall j :: 0 <= j < |users| ==> users[j].id <= m
    ensures exists j :: 0 <= j < |users| && users[j].id == m
    decreases |users|
  {
    if |users| == 1 then users[0].id
    else
      var m := MaxId(users[1..]);
      if users[0].id > m then users[0].id else m
  }

  /** The id the `users` table gives the next row: one more than the largest
      id present, 1 in an empty table (the rowid rule of SQLite). */
  function NextId(users: seq<User>): (n: int)
    ensures forall j :: 0 <= j < |users| ==> users[j].id < n
  {
    if users == [] then 1 else MaxId(users) + 1
  }

  /** The record `add_user(email, hashed_password)` creates. */
  function NewUser(users: seq<User>, email: string, hashedPassword: Bytes): (u: User)
    ensures u.email == email && u.hashedPassword == hashedPassword
    ensures u.sessionId == None && u.resetToken == None
    ensures NoMatch(users, Id(u.id))
  {
    User(NextId(users), email, hashedPassword, None, None)
  }

  /** No two records share an id. */
  predicate IdsDistinct(users: seq<User>)
  {
    forall a, b :: 0 <= a < b < |users| ==> users[a].id != users[b].id
  }

  /** No two records share an email. */
  predicate EmailsUnique(users: seq<User>)
  {
    forall a, b :: 0 <= a < b < |users| ==> users[a].email != users[b].email
  }

  /** Appending the record `add_user` creates keeps the ids distinct. */
  lemma AddKeepsIdsDistinct(users: seq<User>, email: string, hashedPassword: Bytes)
    requires IdsDistinct(users)
    ensures IdsDistinct(users + [NewUser(users, email, hashedPassword)])
  {
  }

  /** An update that names neither the id nor the email column keeps both
      invariants of the store. */
  lemma UpdateKeepsInvariants(users: seq<User>, userId: int, kw: seq<Key>)
    requires Untouched(kw, IdField) && Untouched(kw, EmailField)
    ensures IdsDistinct(users) ==> IdsDistinct(Update(users, userId, kw).users)
    ensures EmailsUnique(users) ==> EmailsUnique(Update(users, userId, kw).users)
  {
    UpdateKeepsUntouched(users, userId, kw, IdField);
    UpdateKeepsUntouched(users, userId, kw, EmailField);
  }

  /** The `DB` object: the session's view of the `users` table. */
  class DB {
    var users: seq<User>

    /** A freshly created, empty table. */
    constructor ()
      ensures users == []
    {
      users := [];
    }

    /** `add_user`: one new record is appended and returned. */
    method AddUser(email: string, hashedPassword: Bytes) returns (u: User)
      modifies this
      ensures u == NewUser(old(users), email, hashedPassword)
      ensures users == old(users) + [u]
    {
      u := NewUser(users, email, hashedPassword);
      users := users + [u];
    }

    /** `find_user_by`: a scan over the keys, and for each key a scan over
        the records, returning at the first match. The result is the
        position of the record found. */
    method FindUserBy(kw: seq<Key>) returns (r: Result<nat, Error>)
      ensures r == FindBy(users, kw)
    {
      var n := 0;
      while n < |kw|
        invariant 0 <= n <= |kw|
        invariant FindBy(users, kw) == FindBy(users, kw[n..])
      {
        var k := kw[n];
        if !k.IsAttribute() {
          return Err(InvalidRequestError);
        }
        var j := 0;
        while j < |users|
          invariant 0 <= j <= |users|
          invariant forall t :: 0 <= t < j ==> !Matches(users[t], k)
        {
          if Matches(users[j], k) {
            assert FirstMatchAt(users, k, j);
            return Ok(j);
          }
          j := j + 1;
        }
        assert kw[n..][1..] == kw[n + 1..];
        n := n + 1;
      }
      return Err(NoResultFound);
    }

    /** `update_user`: the record is found by id, then the keys are set on it
        one by one; an unknown key raises with the earlier keys already set. */
    method UpdateUser(userId: int, kw: seq<Key>) returns (r: Result<(), Error>)
      modifies this
      ensures Updated(users, r) == Update(old(users), userId, kw)
    {
      var found := FindUserBy([Id(userId)]);
      if found.Err? {
        r := if found.error == NoResultFound then Err(ValueError) else Err(found.error);
        return;
      }
      var i := found.value;
      var n := 0;
      while n < |kw|
        invariant 0 <= n <= |kw|
        invariant i < |users| == |old(users)|
        invariant forall m :: 0 <= m < n ==> kw[m].IsAttribute()
        invariant users == old(users)[i := ApplyKwargs(old(users)[i], kw[..n]).user]
      {
        var k := kw[n];
        if !k.IsAttribute() {
          ApplyStopsAtUnknown(old(users)[i], kw, n);
          return Err(ValueError);
        }
        ApplyAppend(old(users)[i], kw[..n], k);
        assert kw[..n + 1] == kw[..n] + [k];
        users := users[i := Assign(users[i], k)];
        n := n + 1;
      }
      assert kw[..n] == kw;
      r := Ok(());
    }
  }
}
