# User authentication service: credential store, auth service, session user

A Dafny model of the credential lifecycle of the user authentication service
in `alx-backend-user-data`, and of the `User` object of its session
authentication API. Three parts are modelled.

- **Credential store** (`UserStore`, in `user_store.dfy`).
  - This is the `DB` class of `0x03-user_authentication_service/db.py`.
    `0x03-user_authentication/db.py` is a byte-identical copy, and the same
    model covers both files.
  - The `users` table is a sequence of `User` records with the fields `id`,
    `email`, `hashed_password`, `session_id` and `reset_token`.
  - Keyword arguments are a closed `Kwarg` datatype with one constructor
    per column. `Unknown(name)` stands for any name that is not a column,
    which `Kwarg.WellFormed` states; the lookups and updates take keys of
    the subset type `Key` of well-formed arguments.
  - `find_user_by` and `update_user` are methods with the nested scan loops
    and the `setattr` loop of the source.
  - Each method is proved equal to a pure function over the records
    (`FindBy`, `Update`). The properties are proved as lemmas about those
    functions.
  - A record returned by a lookup is identified by its position in the
    table. The position stands in for the object reference.
- **Auth service** (`AuthSpec` in `auth_spec.dfy`, `AuthService` in
  `auth_service.dfy`).
  - Each operation of the `Auth` class of
    `0x03-user_authentication_service/auth.py` is a pure transition. It maps
    the records before the call to the records after it and to what the
    call returns or raises.
  - The class `AuthService.Auth` holds a `DB` and implements each operation
    with the `DB` methods. It is proved to follow the transition exactly,
    and to keep emails unique and ids distinct. Session ids and reset tokens
    stay unique as long as every drawn token is held by no record.
  - bcrypt is a `Hasher` value with `hashpw` and `checkpw`. The only
    assumption about it is that `checkpw(p, hashpw(p, salt))` holds (`Sound`).
  - The salt and the UUID drawn by `uuid4()` are parameters. A drawn token
    has the string form of a version-4 UUID (section 4.4 of RFC 4122). That
    a drawn token is held by no record is a hypothesis of the lemmas that
    need it.
  - `AuthScenarios` (`auth_scenarios.dfy`) replays the call sequence of
    `0x03-user_authentication_service/main.py` as lemmas.
- **Session user** (`SessionUser`, in `session_user.dfy`). This is the
  `User` class of `0x02-Session_authentication/models/user.py`:
  - the constructor from keyword arguments;
  - the `password` setter, which stores the lower-case SHA-256 hex digest;
  - `is_valid_password`;
  - `display_name`.

  SHA-256 is a function given as a parameter. The hexadecimal encoding of
  its digest is modelled exactly, together with its inverse, in `Hex`
  (`hex.dfy`), which also gives the digits of a UUID.

Behaviours of the code worth noting:
- `update_user` is not all-or-nothing. It sets the keys one by one and raises
  `ValueError` at the first unknown key, with the earlier keys already set
  on the record (`UserStore.UpdateRaisesAfterPartialWrite`).
- `find_user_by` accepts several keys and returns the first match of the
  first key that has one: an OR in argument order, not an AND (`UserStore.FindByStopsAtDecidingKey`,
  `UserStore.FindByIsNotConjunction`).
- `get_user_from_session_id` refuses only `None`. An empty string is looked
  up like any other value.
- `update_password` does not refuse a `None` token. It looks it up like any
  other value and so matches the first user with no reset pending
  (`AuthSpec.NoneTokenChangesPassword`).

## Model

| member | source | states |
|---|---|---|
| UserStore.Kwarg.IsAttribute | 0x03-user_authentication_service/db.py:82 | for a key whose `Unknown` alternative never carries a column name, the key is an attribute exactly when its name is one of the five column names (the test at db.py:82 and db.py:107) |
| UserStore.Matches | 0x03-user_authentication_service/db.py:85 | `getattr(usr, k) == v`; only a column key can match |
| UserStore.MatchesIffAssignIdle | 0x03-user_authentication_service/db.py:85 | a record matches a column key exactly when setting that key on it would change nothing |
| UserStore.Assign | 0x03-user_authentication_service/db.py:107-108 | setting a column makes the record match that key, and every other column is unchanged |
| UserStore.FirstMatch | 0x03-user_authentication_service/db.py:84-86 | the scan over the records gives the first position whose column equals the value, or none when no record matches |
| UserStore.FindBy | 0x03-user_authentication_service/db.py:80-87 | a found record matches one of the keys; `NoResultFound` exactly when every key is a column and no record matches any of them; `InvalidRequestError` only when some key is not a column; never `ValueError` |
| UserStore.FindByOneKey | 0x03-user_authentication_service/db.py:84-87 | with one column key, the result is position `i` exactly when `i` holds the first matching record, and `NoResultFound` exactly when no record matches |
| UserStore.FindByStopsAtDecidingKey | 0x03-user_authentication_service/db.py:81-86 | once earlier keys have found nothing, an unknown key raises `InvalidRequestError` even if later keys would match; a key with a match returns its first match whatever the later keys are; a key without a match passes on to the rest |
| UserStore.FindByIsNotConjunction | 0x03-user_authentication_service/db.py:81-86 | with an email key that matches and an id key that does not, `find_user_by` returns the email's record (an OR, not an AND) |
| UserStore.ApplyKwargs | 0x03-user_authentication_service/db.py:106-110 | the setattr loop completes exactly when every key is a column |
| UserStore.ApplyKeepsUntouched | 0x03-user_authentication_service/db.py:106-110 | a column that no key names keeps its value |
| UserStore.ApplySetsNamed | 0x03-user_authentication_service/db.py:106-110 | with only column keys naming distinct columns, every key holds on the record afterwards |
| UserStore.ApplyAppend | 0x03-user_authentication_service/db.py:106-108 | the loop over `kw + [k]` is the loop over `kw` followed by setting `k` |
| UserStore.ApplyStopsAtUnknown | 0x03-user_authentication_service/db.py:106-110 | at the first unknown key the loop stops, with the record as the keys before it left it |
| UserStore.Update | 0x03-user_authentication_service/db.py:102-111 | the table keeps its length; an unknown id raises `ValueError` and changes nothing; success exactly when the id exists and every key is a column; any failure is `ValueError` |
| UserStore.UpdateSetsExactlyNamed | 0x03-user_authentication_service/db.py:102-111 | on an existing id with column keys naming distinct columns, the update succeeds, every key holds on the first record with that id, its other columns are unchanged and every other record is unchanged |
| UserStore.UpdateRaisesAfterPartialWrite | 0x03-user_authentication_service/db.py:106-110 | an unknown key at position `n` raises `ValueError` after the keys before it have already been set on the record |
| UserStore.UpdateKeepsUntouched | 0x03-user_authentication_service/db.py:106-111 | a column that no key names is unchanged on every record, whatever the outcome |
| UserStore.MaxId | 0x03-user_authentication_service/db.py:61-63 | the largest id in a non-empty table |
| UserStore.NextId | 0x03-user_authentication_service/db.py:61-63 | the id given to a new row exceeds every id in the table |
| UserStore.NewUser | 0x03-user_authentication_service/db.py:61 | the new record carries the given email and hash, no session and no reset token, and an id no record has |
| UserStore.AddKeepsIdsDistinct | 0x03-user_authentication_service/db.py:61-64 | adding a record keeps ids distinct |
| UserStore.UpdateKeepsInvariants | 0x03-user_authentication_service/db.py:102-111 | an update whose keys name neither `id` nor `email` keeps ids distinct and emails unique |
| UserStore.DB.constructor | 0x03-user_authentication_service/db.py:29-32 | the tables are dropped and recreated: the table is empty |
| UserStore.DB.AddUser | 0x03-user_authentication_service/db.py:61-64 | exactly one record is appended, carrying the email and hash; it is returned and the earlier records are unchanged (the copy at 0x03-user_authentication/db.py:61-64 is the same code) |
| UserStore.DB.FindUserBy | 0x03-user_authentication_service/db.py:80-87 | the nested loops return exactly what `FindBy` specifies (the copy at 0x03-user_authentication/db.py:80-87 is the same code) |
| UserStore.DB.UpdateUser | 0x03-user_authentication_service/db.py:102-111 | the lookup followed by the setattr loop leaves the table, and gives the outcome, that `Update` specifies (the copy at 0x03-user_authentication/db.py:102-111 is the same code) |
| AuthSpec.RegisterUser | 0x03-user_authentication_service/auth.py:63-69 | a taken email raises `ValueError` and leaves the table unchanged; a new email appends exactly one record with that email, the hash, no tokens and a new id, and returns it |
| AuthSpec.ValidLogin | 0x03-user_authentication_service/auth.py:82-89 | false for an unknown email; otherwise bcrypt's verdict on the hash of the first record with that email |
| AuthSpec.CreateSession | 0x03-user_authentication_service/auth.py:101-108 | an unknown email returns `None` and changes nothing |
| AuthSpec.GetUserFromSessionId | 0x03-user_authentication_service/auth.py:120-128 | `None` for a `None` argument; otherwise `None` exactly when no record holds the session id, and the first record holding it when one does |
| AuthSpec.DestroySession | 0x03-user_authentication_service/auth.py:137-141 | an unknown id leaves the table unchanged (the `ValueError` is swallowed) |
| AuthSpec.GetResetPasswordToken | 0x03-user_authentication_service/auth.py:156-163 | an unknown email raises `ValueError` and changes nothing |
| AuthSpec.UpdatePassword | 0x03-user_authentication_service/auth.py:176-182 | when no record holds the token, `ValueError` is raised and nothing changes |
| AuthSpec.UpdateById | 0x03-user_authentication_service/auth.py:107 | with distinct ids, an update addressed by a found record's id succeeds and applies to that record |
| AuthSpec.CreateSessionOverwrites | 0x03-user_authentication_service/auth.py:101-108 | on a known email, exactly the session id of the first record with it becomes the token, and the token is returned |
| AuthSpec.DestroySessionClears | 0x03-user_authentication_service/auth.py:137-141 | on an existing id, exactly that record's session id becomes `None` |
| AuthSpec.ResetTokenStored | 0x03-user_authentication_service/auth.py:156-163 | on a known email, exactly the reset token of the first record with it becomes the token, and the token is returned |
| AuthSpec.UpdatePasswordConsumesToken | 0x03-user_authentication_service/auth.py:176-182 | the first record holding the token gets the new hash and a `None` reset token in one update; nothing else changes |
| AuthSpec.RegisterKeepsInvariants | 0x03-user_authentication_service/auth.py:63-69 | registration keeps emails unique and ids distinct |
| AuthSpec.RegisterThenValidLogin | 0x03-user_authentication_service/auth.py:63-89 | after registering an email with a hash of a password, `valid_login` accepts that email and password |
| AuthSpec.NewSessionRevokesPrevious | 0x03-user_authentication_service/auth.py:101-108 | after a new session is created, the previous token of that user no longer resolves to that user |
| AuthSpec.CreateSessionKeepsSessionsUnique | 0x03-user_authentication_service/auth.py:106-107 | a fresh session token keeps session ids unique across records |
| AuthSpec.ResetTokenKeepsTokensUnique | 0x03-user_authentication_service/auth.py:161-162 | a fresh reset token keeps reset tokens unique across records |
| AuthSpec.UpdateKeepsTokensUnique | 0x03-user_authentication_service/db.py:102-111 | an update that leaves the session-id column alone keeps session ids unique; one that leaves the reset-token column alone keeps reset tokens unique |
| AuthSpec.RegisterKeepsTokensUnique | 0x03-user_authentication_service/auth.py:63-69 | registration keeps session ids and reset tokens unique |
| AuthSpec.CreateSessionKeepsResetTokensUnique | 0x03-user_authentication_service/auth.py:101-108 | creating a session keeps reset tokens unique |
| AuthSpec.ResetTokenKeepsSessionsUnique | 0x03-user_authentication_service/auth.py:156-163 | issuing a reset token keeps session ids unique |
| AuthSpec.DestroySessionKeepsTokensUnique | 0x03-user_authentication_service/auth.py:137-141 | destroying a session keeps session ids and reset tokens unique |
| AuthSpec.UpdatePasswordKeepsTokensUnique | 0x03-user_authentication_service/auth.py:176-182 | with distinct ids, changing a password keeps session ids and reset tokens unique |
| AuthSpec.ResetTokenSingleUse | 0x03-user_authentication_service/auth.py:176-182 | a held token changes the password once; reusing it raises `ValueError` exactly when no other record still holds it |
| AuthSpec.NoneTokenChangesPassword | 0x03-user_authentication_service/auth.py:176-182 | `update_password(None, ...)` succeeds on a user with no reset pending and replaces that user's hash |
| AuthScenarios.RegisterPhase | 0x03-user_authentication_service/main.py:186-188 | registration succeeds, a login with a password bcrypt rejects fails, the profile without a cookie gives no user, and the registered password logs in |
| AuthScenarios.SessionPhase | 0x03-user_authentication_service/main.py:189-191 | login returns the fresh session token, the profile resolves it to the user with that email, and after logout it resolves to no user |
| AuthScenarios.ResetPhase | 0x03-user_authentication_service/main.py:192-193 | the reset token is issued, the password update with it succeeds, and the same token is refused afterwards |
| AuthScenarios.LoginScenario | 0x03-user_authentication_service/main.py:186-191 | the first half of the client's run, from registration to logout, gives what the client asserts at each step, and logout leaves exactly the store registration left |
| AuthScenarios.MainScenario | 0x03-user_authentication_service/main.py:185-194 | the whole run: the reset half runs on exactly the store registration left (logout restores it), the reset succeeds, the new password logs in, the old one does not when bcrypt rejects it, and the used token is refused |
| AuthScenarios.SecondLoginRevokesFirst | 0x03-user_authentication_service/auth.py:101-108 | after two logins of the same user with two fresh tokens, the first token resolves to no user |
| AuthService.Auth.constructor | 0x03-user_authentication_service/auth.py:46-47 | the service starts over a fresh, empty store |
| AuthService.Auth.RegisterUser | 0x03-user_authentication_service/auth.py:49-69 | the lookup followed by `add_user` performs `AuthSpec.RegisterUser` with the bcrypt hash of the password, succeeds exactly for a new email, keeps emails unique and ids distinct, and keeps session ids and reset tokens unique |
| AuthService.Auth.ValidLogin | 0x03-user_authentication_service/auth.py:71-89 | returns exactly `AuthSpec.ValidLogin` |
| AuthService.Auth.CreateSession | 0x03-user_authentication_service/auth.py:91-108 | performs `AuthSpec.CreateSession`, keeps emails unique, ids distinct and reset tokens unique, and keeps session ids unique when the drawn token is held by no record |
| AuthService.Auth.GetUserFromSessionId | 0x03-user_authentication_service/auth.py:110-128 | returns exactly `AuthSpec.GetUserFromSessionId` |
| AuthService.Auth.DestroySession | 0x03-user_authentication_service/auth.py:130-141 | performs `AuthSpec.DestroySession`, keeps emails unique and ids distinct, and keeps session ids and reset tokens unique |
| AuthService.Auth.GetResetPasswordToken | 0x03-user_authentication_service/auth.py:143-163 | performs `AuthSpec.GetResetPasswordToken`, keeps emails unique, ids distinct and session ids unique, and keeps reset tokens unique when the drawn token is held by no record |
| AuthService.Auth.UpdatePassword | 0x03-user_authentication_service/auth.py:165-182 | performs `AuthSpec.UpdatePassword` with the bcrypt hash of the new password, keeps emails unique and ids distinct, and keeps session ids and reset tokens unique |
| Hex.HexChar | 0x02-Session_authentication/models/user.py:55 | each nibble is written as a lower-case hexadecimal digit that reads back as that nibble |
| Hex.HexDigest | 0x02-Session_authentication/models/user.py:55 | `hexdigest()` writes two lower-case hexadecimal digits per byte |
| Hex.UnHex | 0x02-Session_authentication/models/user.py:55 | reading hex digits back gives half as many bytes |
| Hex.UnHexHexDigest | 0x02-Session_authentication/models/user.py:55 | reading the hex digest back gives the digest |
| Hex.HexDigestInjective | 0x02-Session_authentication/models/user.py:71 | different digests have different hex digests |
| SessionUser.Lower | 0x02-Session_authentication/models/user.py:55 | after `.lower()` no upper-case ASCII letter is left; each one becomes the same letter in lower case, and every other character is kept |
| SessionUser.LowerIdempotent | 0x02-Session_authentication/models/user.py:55 | lowering twice is lowering once |
| SessionUser.LowerHexDigest | 0x02-Session_authentication/models/user.py:55 | `.lower()` changes nothing on a hex digest, so the stored value is the hex digest itself |
| SessionUser.StoredPassword | 0x02-Session_authentication/models/user.py:52-55 | `None` for `None` or a non-string; for a string, the hex digest of its SHA-256, which is 64 lower-case hexadecimal digits |
| SessionUser.User.constructor | 0x02-Session_authentication/models/user.py:31-34 | each field is `kwargs.get` of its name; `_password` is copied without hashing |
| SessionUser.User.SetPassword | 0x02-Session_authentication/models/user.py:52-55 | only the password changes; it becomes what `StoredPassword` gives, after which a string password checks |
| SessionUser.User.IsValidPassword | 0x02-Session_authentication/models/user.py:66-71 | true exactly when the argument is a string and the stored password is what the setter would store for it |
| SessionUser.User.DisplayName | 0x02-Session_authentication/models/user.py:79-89 | `""` when all three are `None`; the email when both names are `None`; the one name that is set; otherwise first and last name joined by one space |
| SessionUser.Rebuild | 0x02-Session_authentication/models/user.py:31-34 | a user built from the keyword arguments that name another user's fields has the same fields, accepts exactly the same passwords (the stored digest is copied, not hashed again) and shows the same name |
| SessionUser.PasswordRoundTrip | 0x02-Session_authentication/models/user.py:52-71 | after setting `p`, a value checks exactly when it is a string whose SHA-256 digest equals that of `p`, so `p` itself checks |
| SessionUser.NoPasswordNeverValid | 0x02-Session_authentication/models/user.py:68-69 | with no stored password, nothing checks |
| SessionUser.NeverPlaintext | 0x02-Session_authentication/models/user.py:54-55 | the setter never stores a plaintext that is not itself 64 hexadecimal digits |
| SessionUser.DisplayNameOfNames | 0x02-Session_authentication/models/user.py:88-89 | with both names set and no space in the first name, the display name splits back into the two names at its first space |

## Left out

- The SQLAlchemy engine, `drop_all`/`create_all`, the lazy session and `commit` are persistence plumbing. The table is the session's in-memory view. A raise in `update_user` leaves the earlier `setattr`s on the in-memory record, and the model keeps them there.
- Ids of new rows: the `User` mapping of the authentication service (its `user.py`) is not part of this model. A new row gets id 1 in an empty table, otherwise one more than the largest id, as SQLite assigns an integer primary key. A 64-bit rowid overflow is not modelled.
- Attribute checks: `find_user_by` tests `k in User.__dict__`, and `update_user` tests `hasattr(usr, k)`. Both treat the five columns as attributes, and the model has exactly those five. Other attribute names are `Unknown` in the model, so it does not capture what the two tests do with them:
  - names declared in the `User` class body, such as `__tablename__`, pass both tests;
  - names inherited from the declarative base, such as `metadata`, and inherited methods pass only `hasattr`, so `update_user` accepts them and `find_user_by` raises `InvalidRequestError`.
- `UserStore.Update` accepts an `id` key, and so does `DB.UpdateUser`. A write of an id that another record holds succeeds in the model and leaves two records with that id. In the source the `commit()` at db.py:111 would then fail on the integer primary key. A changed id would also move the record in the order a later query scans the table. Neither effect is modelled. No operation of `Auth` writes `id`.
- Keyword values are typed by their column. A value of another type, such as an `int` compared with the `email` column, is not modelled.
- bcrypt, `uuid4` and SHA-256 are foreign calls with randomness. bcrypt is an abstract `Hasher` with one assumption (`Sound`). Salts and tokens are parameters. SHA-256 is a function parameter.
- `AuthSpec.Sound`: the model does not assume that bcrypt rejects every other password. bcrypt compares only the first 72 bytes of a password, so that would be false. The lemmas that need a rejection take it as a hypothesis.
- `SessionUser.StoredPassword` never fails: passwords are Dafny strings, whose characters are Unicode scalar values, so a string with a lone surrogate such as `"\ud800"` cannot be written. In the source `pwd.encode()` (0x02-Session_authentication/models/user.py:55 and :70) and `password.encode('utf-8')` (0x03-user_authentication_service/auth.py:27 and :88) raise `UnicodeEncodeError` on such a string; the setter then leaves `_password` unchanged and `register_user` raises with the table unchanged. `SessionUser.User.SetPassword`, `SessionUser.User.IsValidPassword`, `AuthSpec.RegisterUser`, `AuthSpec.ValidLogin`, `AuthSpec.UpdatePassword` and `AuthService.Auth.UpdatePassword` share this gap. In particular `update_password` hashes the new password through `_hash_password` (auth.py:181, reaching auth.py:27) after its lookup: on such a password the source raises `UnicodeEncodeError`, a subclass of `ValueError`, with the table unchanged, so the route answers 403 (0x03-user_authentication/app.py:156-157), where the model returns `Ok(())` and writes the new hash. Otherwise the UTF-8 encoding is folded into the abstract hash functions.
- `AuthSpec.RegisterUser` and `AuthSpec.GetUserFromSessionId`, like `UserStore.DB.AddUser` and the `Auth` methods built on them, return a copy of the record as it was when the call returned, not a live reference. In the source the returned `User` is the object of the session's identity map, so a later `update_user` (db.py:103-108) would show through it; no caller in the source keeps a returned user across a change.
- `uuid4` collisions are not modelled. The lemmas that need a fresh token take "no record holds it" as a hypothesis.
- `SessionUser.Lower`: Python's `str.lower()` maps all of Unicode. The model maps ASCII letters only. This is enough for the hex digest it is applied to.
- The `password` getter is the read of the `password` field.
- The 0x02 `User` constructor takes keyword values as strings. A value of another type, which `display_name` would format with `"{}".format`, is not modelled.
- `super().__init__` of the `Base` class sets fields the model does not have, such as an id and timestamps. `Base` is not part of this model.
- Concurrency: the service is single-threaded read-then-write, and the model runs one call at a time.
- Excluded as framework wiring or I/O:
  - the Flask routes of `0x03-user_authentication/app.py`;
  - the HTTP client of `main.py`, whose call sequence is used only as the shape of the scenario lemmas;
  - the session view `0x02-Session_authentication/api/v1/views/session_auth.py` and its blueprint `__init__.py`;
  - `0x01-Basic_authentication/api/v1/app.py`;
  - the bcrypt wrapper `0x00-personal_data/encrypt_password.py`.
