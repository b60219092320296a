/** The backend user handlers as functions: the checks that lead to the
    profile service, the reply chosen from its outcome, and the paging
    parameters of the per-user listings. The authenticated user id is
    `None` when the authentication step left none. */
module UserController {
  import opened Wrappers
  import Strings
  import Numbers
  import Json
  import Service = UserService

  /** A status code and the `message` of the JSON body. */
  datatype Reply = Reply(status: nat, message: string)

  const AvatarPrefix := "/avatars/defaults/"

  /** `!userId`: no id, or the falsy id 0. */
  predicate Unauthenticated(userId: Option<nat>) {
    userId.None? || userId.value == 0
  }

  /** The body's `avatarUrl` as the profile endpoint accepts it: `null`,
      or a text under the default-avatar directory. */
  function CheckedAvatar(avatarUrl: Json.Json): (r: Option<Option<string>>)
    ensures r == Some(None) <==> avatarUrl == Json.JNull
    ensures r.Some? && r.value.Some? <==> avatarUrl.JStr? && Strings.StartsWith(avatarUrl.s, AvatarPrefix)
    ensures r.Some? && r.value.Some? ==> avatarUrl == Json.JStr(r.value.value)
  {
    match avatarUrl
    case JNull => Some(None)
    case JStr(s) => if Strings.StartsWith(s, AvatarPrefix) then Some(Some(s)) else None
    case _ => None
  }

  /** `updateUserProfile` up to the service call: 401 without a user, the
      avatar check, then 400 when no field is left. */
  function UpdateUserProfileStep(userId: Option<nat>, name: Option<string>, avatarUrl: Option<Json.Json>)
    : (r: Result<Service.ProfileData, Reply>)
    ensures Unauthenticated(userId) ==> r == Err(Reply(401, "Unauthorized"))
    ensures !Unauthenticated(userId) && avatarUrl.Some? && CheckedAvatar(avatarUrl.value).None? ==>
      r == Err(Reply(400, "Invalid avatar URL for profile update"))
    ensures !Unauthenticated(userId) && name.None? && avatarUrl.None? ==>
      r == Err(Reply(400, "No data provided for update"))
    ensures r.Ok? <==> !Unauthenticated(userId) && (name.Some? || avatarUrl.Some?)
                       && (avatarUrl.Some? ==> CheckedAvatar(avatarUrl.value).Some?)
    ensures r.Ok? ==> !Service.NoData(r.value) && r.value.name == name
    ensures r.Ok? && r.value.avatarUrl.Some? && r.value.avatarUrl.value.Some? ==>
      Strings.StartsWith(r.value.avatarUrl.value.value, AvatarPrefix)
    ensures r.Ok? ==> (r.value.avatarUrl.None? <==> avatarUrl.None?)
  {
    if Unauthenticated(userId) then Err(Reply(401, "Unauthorized"))
    else
      var avatar := if avatarUrl.None? then None else CheckedAvatar(avatarUrl.value);
      if avatarUrl.Some? && avatar.None? then Err(Reply(400, "Invalid avatar URL for profile update"))
      else
        var data := Service.ProfileData(name, avatar);
        if Service.NoData(data) then Err(Reply(400, "No data provided for update"))
        else Ok(data)
  }

  /** The reply of `updateUserProfile` to the service's outcome. */
  function UpdateUserProfileReply(outcome: Result<Option<Service.Profile>, string>): (r: Reply)
    ensures outcome.Ok? <==> r.status == 200
    ensures outcome.Err? ==> r == Reply(500, if outcome.error == "" then "Failed to update user profile" else outcome.error)
  {
    match outcome
    case Ok(_) => Reply(200, "Profile updated successfully")
    case Err(m) => Reply(500, if m == "" then "Failed to update user profile" else m)
  }

  /** `updateProfile` up to the service call: only `name` is taken, and it
      must be defined. */
  function UpdateProfileStep(userId: Option<nat>, name: Option<string>): (r: Result<Service.ProfileData, Reply>)
    ensures Unauthenticated(userId) ==> r == Err(Reply(401, "Unauthorized: User ID not found"))
    ensures !Unauthenticated(userId) && name.None? ==>
      r == Err(Reply(400, "No valid profile data provided for update (e.g., name)"))
    ensures r.Ok? <==> !Unauthenticated(userId) && name.Some?
    ensures r.Ok? ==> r.value == Service.ProfileData(name, None) && !Service.NoData(r.value)
  {
    if Unauthenticated(userId) then Err(Reply(401, "Unauthorized: User ID not found"))
    else if name.None? then Err(Reply(400, "No valid profile data provided for update (e.g., name)"))
    else Ok(Service.ProfileData(name, None))
  }

  /** The two service messages `updateProfile` passes on to the client. */
  predicate KnownProfileError(m: string) {
    m == "No profile data provided for update" || m == "Failed to update user profile"
  }

  /** The reply of `updateProfile`: the two messages it knows give 400,
      anything else 500. */
  function UpdateProfileReply(outcome: Result<Option<Service.Profile>, string>): (r: Reply)
    ensures outcome.Ok? <==> r.status == 200
    ensures outcome.Err? && KnownProfileError(outcome.error) ==> r == Reply(400, outcome.error)
    ensures outcome.Err? && !KnownProfileError(outcome.error) ==>
      r == Reply(500, "Internal server error updating profile")
  {
    match outcome
    case Ok(_) => Reply(200, "Profile updated successfully")
    case Err(m) =>
      if KnownProfileError(m) then Reply(400, m)
      else Reply(500, "Internal server error updating profile")
  }

  /** `uploadAvatar` up to the service call: the stored path is the
      uploads directory plus the saved file name. */
  function UploadAvatarStep(userId: Option<nat>, filename: Option<string>): (r: Result<Service.ProfileData, Reply>)
    ensures Unauthenticated(userId) ==> r == Err(Reply(401, "Unauthorized"))
    ensures !Unauthenticated(userId) && filename.None? ==> r == Err(Reply(400, "No file uploaded"))
    ensures r.Ok? <==> !Unauthenticated(userId) && filename.Some?
    ensures r.Ok? ==> r.value == Service.ProfileData(None, Some(Some("/uploads/avatars/" + filename.value)))
  {
    if Unauthenticated(userId) then Err(Reply(401, "Unauthorized"))
    else if filename.None? then Err(Reply(400, "No file uploaded"))
    else Ok(Service.ProfileData(None, Some(Some("/uploads/avatars/" + filename.value))))
  }

  /** An uploaded avatar's path cannot be set through the profile
      endpoint: it is refused as an invalid avatar. */
  lemma UploadedPathRefusedByProfile(userId: nat, filename: string)
    requires userId != 0
    ensures UpdateUserProfileStep(Some(userId), None, Some(Json.JStr("/uploads/avatars/" + filename)))
            == Err(Reply(400, "Invalid avatar URL for profile update"))
  {
    var path := "/uploads/avatars/" + filename;
    assert path[1] == 'u' && AvatarPrefix[1] == 'a';
  }

  /** A validated profile request always carries a field, so the service
      always writes rather than returning the stored profile. */
  lemma ValidatedProfileIsWritten(userId: Option<nat>, name: Option<string>, avatarUrl: Option<Json.Json>)
    requires UpdateUserProfileStep(userId, name, avatarUrl).Ok?
    ensures !Service.NoData(UpdateUserProfileStep(userId, name, avatarUrl).value)
  {
  }

  /** The same failed write reads as a client error from `updateProfile`
      and as a server error from `updateUserProfile`. */
  lemma WriteFailureStatuses()
    ensures UpdateProfileReply(Err("Failed to update user profile")).status == 400
    ensures UpdateUserProfileReply(Err("Failed to update user profile")).status == 500
  {
  }

  /** The `page` and `limit` of the per-user listings: `parseInt(...) ||
      1` and `parseInt(...) || 10`. */
  function Paging(page: Option<string>, limit: Option<string>): (r: (int, int))
    ensures r.0 != 0 && r.1 != 0
    ensures page.None? || Numbers.ParseIntAuto(page.value).None? || Numbers.ParseIntAuto(page.value) == Some(0) ==> r.0 == 1
    ensures limit.None? || Numbers.ParseIntAuto(limit.value).None? || Numbers.ParseIntAuto(limit.value) == Some(0) ==> r.1 == 10
    ensures page.Some? && Numbers.ParseIntAuto(page.value).Some? && Numbers.ParseIntAuto(page.value).value != 0 ==>
      r.0 == Numbers.ParseIntAuto(page.value).value
    ensures limit.Some? && Numbers.ParseIntAuto(limit.value).Some? && Numbers.ParseIntAuto(limit.value).value != 0 ==>
      r.1 == Numbers.ParseIntAuto(limit.value).value
  {
    (Numbers.ParseIntOr(page, 1), Numbers.ParseIntOr(limit, 10))
  }

  /** A hexadecimal page number is read as such: `?page=0x2` is page 2. */
  lemma HexPageRead(d: string, limit: Option<string>)
    requires |d| > 0 && forall i :: 0 <= i < |d| ==> Numbers.IsRadixDigit(d[i], 16)
    requires Numbers.RadixValue(d, 16) != 0
    ensures Paging(Some("0x" + d), limit).0 == Numbers.RadixValue(d, 16)
  {
    Numbers.ParseIntAutoOfHex(d, "");
    assert "0x" + d + "" == "0x" + d;
  }
}
