/** The authentication service: the token lifetime parsed from its
    configuration text, registration with a unique email, and login in a
    fixed order of checks. Password hashing and comparison and token
    signing are foreign: the hash is an input, the comparison a given
    function, and the signed token is represented by its payload. */
module AuthService {
  import opened Wrappers
  import opened Db
  import Tables
  import Numbers

  /** `JWT_EXPIRES_IN`: the environment's value, or `1d` when unset or
      empty. */
  function ConfiguredExpiry(env: Option<string>): (r: string)
    ensures env.Some? && env.value != "" ==> r == env.value
    ensures env.None? || env.value == "" ==> r == "1d"
  {
    if env.None? || env.value == "" then "1d" else env.value
  }

  /** The seconds in one unit of `s`, `m`, `h` or `d`. */
  function UnitSeconds(u: char): (r: Option<int>)
    ensures r.Some? <==> u in "smhd"
  {
    match u
    case 's' => Some(1)
    case 'm' => Some(60)
    case 'h' => Some(3600)
    case 'd' => Some(86400)
    case _ => None
  }

  /** `getExpiresInSeconds`: the number before the last character times
      that unit; an unknown unit (or an empty text) gives one day. The
      result is `None` where the number is NaN. */
  function GetExpiresInSeconds(text: string): (r: Option<int>)
    ensures |text| == 0 || UnitSeconds(text[|text| - 1]).None? ==> r == Some(86400)
    ensures |text| > 0 && UnitSeconds(text[|text| - 1]).Some? ==>
      (r.None? <==> Numbers.ParseInt(text[..|text| - 1]).None?)
      && (r.Some? ==> r.value == Numbers.ParseInt(text[..|text| - 1]).value * UnitSeconds(text[|text| - 1]).value)
  {
    if |text| == 0 then Some(86400)
    else match UnitSeconds(text[|text| - 1])
      case None => Some(86400)
      case Some(factor) =>
        match Numbers.ParseInt(text[..|text| - 1])
        case None => None
        case Some(v) => Some(v * factor)
  }

  /** A lifetime written as a number and a known unit is that many units. */
  lemma ExpiresInOfWritten(n: int, u: char)
    requires u in "smhd"
    ensures GetExpiresInSeconds(Numbers.IntToString(n) + [u]) == Some(n * UnitSeconds(u).value)
  {
    var text := Numbers.IntToString(n) + [u];
    assert text[..|text| - 1] == Numbers.IntToString(n);
    Numbers.ParseIntOfIntToString(n);
  }

  /** The default lifetime is one day. */
  lemma DefaultExpiryIsOneDay()
    ensures GetExpiresInSeconds(ConfiguredExpiry(None)) == Some(86400)
  {
    ExpiresInOfWritten(1, 'd');
    assert Numbers.IntToString(1) + ['d'] == "1d";
  }

  /** No two users share an email (the column is unique). */
  predicate UniqueEmails(users: seq<User>) {
    forall i, j :: 0 <= i < j < |users| ==> users[i].email != users[j].email
  }

  /** The row a registration creates. Role and verification flag take the
      column defaults. */
  function NewUser(users: seq<User>, email: string, hashed: string, name: Option<string>, now: int): (r: User)
    ensures forall u :: u in users ==> u.id != r.id
    ensures r.email == email && r.password == hashed && r.name == name
    ensures r.role == "USER" && !r.isEmailVerified
  {
    var ids := UserIds(users);
    assert forall k :: 0 <= k < |users| ==> users[k].id == ids[k];
    User(FreshId(ids), email, hashed, name, None, "USER", false, now)
  }

  /** `register`: a known email is refused; otherwise the user is stored
      with the hash of the password and returned without it. */
  method Register(db: Database, email: string, hashed: string, name: Option<string>, now: int)
    returns (r: Result<PublicUser, string>)
    modifies db`users
    ensures UserByEmail(old(db.users), email).Some? ==> r == Err("Email already exists") && db.users == old(db.users)
    ensures UserByEmail(old(db.users), email).None? ==>
      var u := NewUser(old(db.users), email, hashed, name, now);
      db.users == old(db.users) + [u] && r == Ok(WithoutPassword(u))
    ensures r.Ok? ==> UserByEmail(db.users, email).Some? && UserByEmail(db.users, email).value.password == hashed
    ensures UniqueEmails(old(db.users)) ==> UniqueEmails(db.users)
  {
    if UserByEmail(db.users, email).Some? {
      return Err("Email already exists");
    }
    var u := NewUser(db.users, email, hashed, name, now);
    if UniqueEmails(db.users) {
      forall i, j | 0 <= i < j < |db.users + [u]|
        ensures (db.users + [u])[i].email != (db.users + [u])[j].email
      {
        assert (db.users + [u])[i] in db.users;
      }
    }
    assert (db.users + [u])[|db.users|] == u;
    db.users := db.users + [u];
    r := Ok(WithoutPassword(u));
  }

  const BadCredentials := "账号或密码错误"
  const Unverified := "邮箱尚未验证，请检查您的邮箱并点击验证链接"

  /** What the token carries. */
  datatype TokenPayload = TokenPayload(userId: nat, email: string, role: string)

  datatype Session = Session(token: TokenPayload, expiresIn: Option<int>, user: PublicUser)

  /** `login`: the user is looked up by email, then must be verified, then
      the password must match the stored hash (`matches(password, hash)`
      is the comparison). */
  function Login(users: seq<User>, email: string, password: string, matches: (string, string) -> bool,
                 expiresIn: Option<int>): (r: Result<Session, string>)
    ensures UserByEmail(users, email).None? ==> r == Err(BadCredentials)
    ensures UserByEmail(users, email).Some? && !UserByEmail(users, email).value.isEmailVerified ==>
      r == Err(Unverified)
    ensures (UserByEmail(users, email).Some? && UserByEmail(users, email).value.isEmailVerified
             && !matches(password, UserByEmail(users, email).value.password)) ==> r == Err(BadCredentials)
    ensures r.Ok? <==> UserByEmail(users, email).Some? && UserByEmail(users, email).value.isEmailVerified
                       && matches(password, UserByEmail(users, email).value.password)
    ensures r.Ok? ==>
      var u := UserByEmail(users, email).value;
      r.value.token == TokenPayload(u.id, u.email, u.role) && r.value.user == WithoutPassword(u)
      && r.value.expiresIn == expiresIn
  {
    match UserByEmail(users, email)
    case None => Err(BadCredentials)
    case Some(u) =>
      if !u.isEmailVerified then Err(Unverified)
      else if !matches(password, u.password) then Err(BadCredentials)
      else Ok(Session(TokenPayload(u.id, u.email, u.role), expiresIn, WithoutPassword(u)))
  }

  /** A caller cannot tell an unknown email from a wrong password: both
      give the same error. */
  lemma LoginHidesUnknownEmail(users: seq<User>, unknown: string, known: string, password: string,
                               matches: (string, string) -> bool, expiresIn: Option<int>)
    requires UserByEmail(users, unknown).None?
    requires UserByEmail(users, known).Some? && UserByEmail(users, known).value.isEmailVerified
    requires !matches(password, UserByEmail(users, known).value.password)
    ensures Login(users, unknown, password, matches, expiresIn) == Login(users, known, password, matches, expiresIn)
  {
  }

  /** An unverified user gets the same answer whatever password is tried:
      the password is checked only after the verification. */
  lemma VerificationBeforePassword(users: seq<User>, email: string, p1: string, p2: string,
                                   m1: (string, string) -> bool, m2: (string, string) -> bool, expiresIn: Option<int>)
    requires UserByEmail(users, email).Some? && !UserByEmail(users, email).value.isEmailVerified
    ensures Login(users, email, p1, m1, expiresIn) == Login(users, email, p2, m2, expiresIn)
  {
  }

  /** Right after registering, a login is refused as unverified, even with
      the right password. */
  lemma NewUserCannotLogIn(users: seq<User>, email: string, hashed: string, name: Option<string>, now: int,
                           password: string, matches: (string, string) -> bool, expiresIn: Option<int>)
    requires UserByEmail(users, email).None?
    ensures Login(users + [NewUser(users, email, hashed, name, now)], email, password, matches, expiresIn)
            == Err(Unverified)
  {
    var u := NewUser(users, email, hashed, name, now);
    var t := users + [u];
    assert t[|users|] == u;
  }
}
