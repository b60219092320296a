/** The backend user service: the profile of a user without the password,
    and the partial update of name and avatar. */
module UserService {
  import opened Wrappers
  import opened Db
  import Tables

  /** The columns the service selects: no password, role or verification
      flag. */
  datatype Profile = Profile(id: nat, email: string, name: Option<string>, avatarUrl: Option<string>, createdAt: int)

  function ProfileOf(u: User): Profile {
    Profile(u.id, u.email, u.name, u.avatarUrl, u.createdAt)
  }

  /** `getUserById`: the selected columns of the user, or `null`. */
  function GetUserById(users: seq<User>, userId: int): (r: Option<Profile>)
    ensures r.None? <==> forall u :: u in users ==> u.id != userId
    ensures r.Some? ==> exists u :: u in users && u.id == userId && r.value == ProfileOf(u)
  {
    match UserById(users, userId)
    case None => None
    case Some(u) => Some(ProfileOf(u))
  }

  /** The profile fields of a request: `None` is `undefined`. A given
      avatar may be `null`, which clears it. */
  datatype ProfileData = ProfileData(name: Option<string>, avatarUrl: Option<Option<string>>)

  /** `Object.keys(dataToUpdate).length === 0`. */
  predicate NoData(d: ProfileData) {
    d.name.None? && d.avatarUrl.None?
  }

  /** The row once the defined fields are written. */
  function Applied(u: User, d: ProfileData): (r: User)
    ensures r.(name := u.name, avatarUrl := u.avatarUrl) == u
    ensures r.name == (if d.name.Some? then Some(d.name.value) else u.name)
    ensures r.avatarUrl == (if d.avatarUrl.Some? then d.avatarUrl.value else u.avatarUrl)
  {
    u.(name := if d.name.Some? then Some(d.name.value) else u.name,
       avatarUrl := if d.avatarUrl.Some? then d.avatarUrl.value else u.avatarUrl)
  }

  function Apply(d: ProfileData): User -> User {
    (u: User) => Applied(u, d)
  }

  /** Writing the same data twice is writing it once, and writing no data
      changes nothing. */
  lemma AppliedIdempotent(u: User, d: ProfileData)
    ensures Applied(Applied(u, d), d) == Applied(u, d)
    ensures NoData(d) ==> Applied(u, d) == u
  {
  }

  /** `updateUserProfile`: without data nothing is written and the current
      profile (or `null`) is returned; otherwise the user's row gets the
      defined fields and its new profile is returned. A failed write, such
      as one on a missing user, is reported as `Failed to update user
      profile`. */
  method UpdateUserProfile(db: Database, userId: int, data: ProfileData) returns (r: Result<Option<Profile>, string>)
    modifies db`users
    ensures NoData(data) ==> r == Ok(GetUserById(old(db.users), userId)) && db.users == old(db.users)
    ensures !NoData(data) && UserById(old(db.users), userId).None? ==>
      r == Err("Failed to update user profile") && db.users == old(db.users)
    ensures !NoData(data) && UserById(old(db.users), userId).Some? ==>
      db.users == Tables.UpdateWhere(old(db.users), UserWithId(userId), Apply(data))
      && r == Ok(Some(ProfileOf(Applied(UserById(old(db.users), userId).value, data))))
    ensures r.Ok? ==> r.value == GetUserById(db.users, userId)
    ensures |db.users| == |old(db.users)|
  {
    if NoData(data) {
      return Ok(GetUserById(db.users, userId));
    }
    var existing := UserById(db.users, userId);
    if existing.None? {
      return Err("Failed to update user profile");
    }
    Tables.FindFirstAfterUpdate(db.users, UserWithId(userId), Apply(data));
    db.users := Tables.UpdateWhere(db.users, UserWithId(userId), Apply(data));
    r := Ok(Some(ProfileOf(Applied(existing.value, data))));
  }
}
