/** The `User` object of the session-authentication API
    (0x02-Session_authentication/models/user.py): four optional text fields,
    a password setter that stores the SHA-256 hex digest of the password,
    the check of a password against it, and the name shown for the user.
    SHA-256 (FIPS 180-4) is a function given from outside; the hexadecimal
    encoding of its digest is modelled exactly. */
module SessionUser {
  import opened Wrappers
  import opened Hex

  /** What a caller may pass where the source expects a password: `None`,
      a `str`, or a value of any other type. */
  datatype PyValue = PyNone | PyStr(s: string) | PyOther

  /** A SHA-256 digest: 32 bytes. */
  type Digest = d: seq<bv8> | |d| == 32 witness seq(32, _ => 0)

  predicate IsUpper(c: char)
  {
    'A' <= c <= 'Z'
  }

  /** Python's `str.lower()` on the ASCII letters: no upper-case letter
      is left, each one becomes the same letter in lower case, and every
      other character is kept. */
  function Lower(s: string): (r: string)
    ensures |r| == |s|
    ensures forall i :: 0 <= i < |r| ==> !IsUpper(r[i])
    ensures forall i :: 0 <= i < |s| && IsUpper(s[i]) ==> 'a' <= r[i] <= 'z' && r[i] as int - 'a' as int == s[i] as int - 'A' as int
    ensures forall i :: 0 <= i < |s| && !IsUpper(s[i]) ==> r[i] == s[i]
  {
    seq(|s|, i requires 0 <= i < |s| => if IsUpper(s[i]) then (s[i] as int + 32) as char else s[i])
  }

  /** Lowering twice is lowering once. */
  lemma LowerIdempotent(s: string)
    ensures Lower(Lower(s)) == Lower(s)
  {
  }

  /** `hexdigest()` already writes lower case, so `.lower()` changes
      nothing. */
  lemma LowerHexDigest(d: seq<bv8>)
    ensures Lower(HexDigest(d)) == HexDigest(d)
  {
  }

  /** What the `password` setter stores for `pwd`: `None` for `None` or a
      non-string, otherwise the lower-cased hex SHA-256 digest of the
      string, which is 64 hexadecimal digits whatever the password. */
  function StoredPassword(pwd: PyValue, sha256: string -> Digest): (r: Option<string>)
    ensures r.Some? <==> pwd.PyStr?
    ensures r.Some? ==> |r.value| == 64 && forall i :: 0 <= i < 64 ==> IsHexDigit(r.value[i])
    ensures r.Some? ==> r.value == HexDigest(sha256(pwd.s))
  {
    match pwd
    case PyStr(s) =>
      LowerHexDigest(sha256(s));
      Some(Lower(HexDigest(sha256(s))))
    case _ => None
  }

  /** The password setter never keeps the plaintext of a password that is
      not itself 64 hexadecimal digits. */
  lemma NeverPlaintext(p: string, sha256: string -> Digest)
    requires !(|p| == 64 && forall i :: 0 <= i < 64 ==> IsHexDigit(p[i]))
    ensures StoredPassword(PyStr(p), sha256) != Some(p)
  {
  }

  /** `user.User`. `password` is the attribute `_password`. */
  class User {
    var email: Option<string>
    var password: Option<string>
    var firstName: Option<string>
    var lastName: Option<string>

    /** `User(**kwargs)`: each field is `kwargs.get` of its name; `_password`
        is copied as given, without hashing. */
    constructor (kwargs: map<string, string>)
      ensures email == Get(kwargs, "email") && password == Get(kwargs, "_password")
      ensures firstName == Get(kwargs, "first_name") && lastName == Get(kwargs, "last_name")
    {
      email := Get(kwargs, "email");
      password := Get(kwargs, "_password");
      firstName := Get(kwargs, "first_name");
      lastName := Get(kwargs, "last_name");
    }

    /** The `password` setter. Afterwards, a string password checks. */
    method SetPassword(pwd: PyValue, sha256: string -> Digest)
      modifies this`password
      ensures password == StoredPassword(pwd, sha256)
      ensures pwd.PyStr? ==> IsValidPassword(pwd, sha256)
    {
      if !pwd.PyStr? {
        password := None;
      } else {
        LowerHexDigest(sha256(pwd.s));
        password := Some(Lower(HexDigest(sha256(pwd.s))));
      }
    }

    /** `is_valid_password(pwd)`: false for `None`, a non-string or when no
        password is stored; otherwise whether the digest of `pwd`, written
        as the setter writes it, is the stored one. */
    function IsValidPassword(pwd: PyValue, sha256: string -> Digest): (ok: bool)
      reads this
      ensures ok ==> pwd.PyStr? && password.Some?
      ensures ok <==> pwd.PyStr? && password == StoredPassword(pwd, sha256)
    {
      if !pwd.PyStr? then false
      else if password == None then false
      else
        LowerHexDigest(sha256(pwd.s));
        Lower(HexDigest(sha256(pwd.s))) == password.value
    }

    /** `display_name()`. */
    function DisplayName(): (name: string)
      reads this
      ensures email == None && firstName == None && lastName == None ==> name == ""
      ensures email != None && firstName == None && lastName == None ==> name == email.value
      ensures firstName != None && lastName == None ==> name == firstName.value
      ensures firstName == None && lastName != None ==> name == lastName.value
      ensures firstName != None && lastName != None ==> name == firstName.value + " " + lastName.value
    {
      if email == None && firstName == None && lastName == None then ""
      else if firstName == None && lastName == None then email.value
      else if lastName == None then firstName.value
      else if firstName == None then lastName.value
      else firstName.value + " " + lastName.value
    }
  }

  /** `kwargs.get(key)`. */
  function Get(kwargs: map<string, string>, key: string): Option<string>
  {
    if key in kwargs then Some(kwargs[key]) else None
  }

  /** `kwargs` with `key` bound to the value of `v`, when there is one. */
  function Put(kwargs: map<string, string>, key: string, v: Option<string>): map<string, string>
  {
    if v.Some? then kwargs[key := v.value] else kwargs
  }

  /** The keyword arguments that name the fields of `u`, with `_password`
      holding the stored digest. */
  function KwargsOf(u: User): map<string, string>
    reads u
  {
    Put(Put(Put(Put(map[], "email", u.email), "_password", u.password), "first_name", u.firstName), "last_name", u.lastName)
  }

  /** Rebuilding a user from the keyword arguments that name its fields
      gives the same fields: the stored digest is copied, not hashed again,
      so the copy accepts exactly the passwords `u` accepts and shows the
      same name. */
  method Rebuild(u: User) returns (v: User)
    ensures v.email == u.email && v.password == u.password
    ensures v.firstName == u.firstName && v.lastName == u.lastName
    ensures forall q, sha256 :: v.IsValidPassword(q, sha256) == u.IsValidPassword(q, sha256)
    ensures v.DisplayName() == u.DisplayName()
  {
    v := new User(KwargsOf(u));
  }

  /** Set-then-verify: once the setter has stored the digest of `p`, a
      string `q` checks exactly when SHA-256 gives it the same digest as
      `p`, so `p` itself checks; nothing checks against `None`. */
  lemma PasswordRoundTrip(u: User, p: string, q: PyValue, sha256: string -> Digest)
    requires u.password == StoredPassword(PyStr(p), sha256)
    ensures u.IsValidPassword(q, sha256) <==> q.PyStr? && sha256(q.s) == sha256(p)
    ensures u.IsValidPassword(PyStr(p), sha256)
  {
    if q.PyStr? {
      HexDigestInjective(sha256(q.s), sha256(p));
    }
  }

  /** After storing `None` (or a non-string), no password checks. */
  lemma NoPasswordNeverValid(u: User, q: PyValue, sha256: string -> Digest)
    requires u.password == None
    ensures !u.IsValidPassword(q, sha256)
  {
  }

  /** With both names set and no space in the first name, the display name
      splits back into the two names at its first space. */
  lemma DisplayNameOfNames(u: User)
    requires u.firstName != None && u.lastName != None
    requires forall i :: 0 <= i < |u.firstName.value| ==> u.firstName.value[i] != ' '
    ensures var name := u.DisplayName(); var f := u.firstName.value;
      |name| > |f| && name[..|f|] == f && name[|f|] == ' ' && name[|f| + 1..] == u.lastName.value
      && forall i :: 0 <= i < |f| ==> name[i] != ' '
  {
    var name := u.DisplayName();
    var f := u.firstName.value;
    assert name == f + " " + u.lastName.value;
    assert name[..|f|] == f;
    assert name[|f| + 1..] == u.lastName.value;
  }
}
