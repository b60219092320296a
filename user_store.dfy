/** The web client's user store: the session token and the signed-in
    user, their copies in the browser's local storage (keys `authToken`
    and `currentUserInfo`), and the `Authorization` header of the shared
    HTTP client. */
module UserStore {
  import opened Wrappers
  import Strings
  import UrlUtils

  /** The signed-in user as the client keeps it (the password is never
      part of it). `None` fields are `null` or absent. */
  datatype User = User(
    id: int,
    email: string,
    name: Option<string>,
    avatarUrl: Option<string>,
    role: Option<string>,
    followingCount: Option<int>,
    followerCount: Option<int>)

  /** A partial user for `updateUserInfo`: `None` leaves the field alone,
      `Some(v)` overwrites it (object spread). */
  datatype UserPatch = UserPatch(
    name: Option<Option<string>>,
    avatarUrl: Option<Option<string>>,
    role: Option<Option<string>>,
    followingCount: Option<Option<int>>,
    followerCount: Option<Option<int>>)

  const DefaultAvatarPath: string := "/avatars/defaults/1.jpg"

  function Pick<T>(patch: Option<T>, current: T): T {
    match patch
    case Some(v) => v
    case None => current
  }

  /** `{ ...user, ...patch }`. */
  function Merge(u: User, p: UserPatch): (r: User)
    ensures r.id == u.id && r.email == u.email
    ensures p.name.Some? ==> r.name == p.name.value
    ensures p.name.None? ==> r.name == u.name
    ensures p.avatarUrl.Some? ==> r.avatarUrl == p.avatarUrl.value
    ensures p.avatarUrl.None? ==> r.avatarUrl == u.avatarUrl
    ensures p.role.Some? ==> r.role == p.role.value
    ensures p.role.None? ==> r.role == u.role
    ensures p.followingCount.Some? ==> r.followingCount == p.followingCount.value
    ensures p.followingCount.None? ==> r.followingCount == u.followingCount
    ensures p.followerCount.Some? ==> r.followerCount == p.followerCount.value
    ensures p.followerCount.None? ==> r.followerCount == u.followerCount
  {
    u.(name := Pick(p.name, u.name),
       avatarUrl := Pick(p.avatarUrl, u.avatarUrl),
       role := Pick(p.role, u.role),
       followingCount := Pick(p.followingCount, u.followingCount),
       followerCount := Pick(p.followerCount, u.followerCount))
  }

  /** Applying the same patch twice is applying it once; the empty patch
      changes nothing. */
  lemma MergeIdempotent(u: User, p: UserPatch)
    ensures Merge(Merge(u, p), p) == Merge(u, p)
    ensures Merge(u, UserPatch(None, None, None, None, None)) == u
  {
  }

  /** `(count ?? 0) + 1`. */
  function Increment(count: Option<int>): (r: Option<int>)
    ensures r.Some? && r.value == count.GetOr(0) + 1
  {
    Some(count.GetOr(0) + 1)
  }

  /** Acts only on a truthy count: `Math.max(0, count - 1)`. */
  function Decrement(count: Option<int>): (r: Option<int>)
    ensures count.None? || count.value == 0 ==> r == count
    ensures count.Some? && count.value != 0 ==> r.Some? && r.value >= 0
    ensures count.Some? && count.value > 0 ==> r == Some(count.value - 1)
  {
    match count
    case Some(c) => if c != 0 then Some(if c - 1 > 0 then c - 1 else 0) else count
    case None => None
  }

  /** Decrementing never produces a negative count from a non-negative
      one, and it undoes an increment of a present, non-negative count. */
  lemma DecrementUndoesIncrement(count: Option<int>)
    ensures count.Some? && count.value >= 0 ==> Decrement(Increment(count)) == count
    ensures count.None? ==> Decrement(Increment(count)) == Some(0)
    ensures (count.None? || count.value >= 0) ==> var d := Decrement(count); d.None? || d.value >= 0
  {
  }

  predicate Truthy(s: Option<string>) {
    s.Some? && s.value != ""
  }

  class Store {
    var token: Option<string>
    var currentUser: Option<User>
    /** localStorage `authToken` (`None` when the key is absent). */
    var storedToken: Option<string>
    /** The user whose JSON is in localStorage `currentUserInfo`. */
    var storedUser: Option<User>
    /** `http.defaults.headers.common['Authorization']`. */
    var authHeader: Option<string>

    /** What local storage holds mirrors the in-memory state: the same
        user, and a token that is truthy exactly when the state's token is,
        with the same value. */
    predicate Persisted()
      reads this
    {
      storedUser == currentUser
      && (Truthy(storedToken) <==> Truthy(token))
      && (Truthy(token) ==> storedToken == token)
    }

    /** The header carries `Bearer <token>` exactly when the token is truthy. */
    predicate HeaderInSync()
      reads this
    {
      authHeader == (if Truthy(token) then Some("Bearer " + token.value) else None)
    }

    /** Store creation from what local storage held: `authToken || null`,
        and the parsed `currentUserInfo` (`None` when absent or unparsable). */
    constructor (savedToken: Option<string>, savedUser: Option<User>, header: Option<string>)
      ensures token == (if Truthy(savedToken) then savedToken else None)
      ensures currentUser == savedUser
      ensures storedToken == savedToken && storedUser == savedUser && authHeader == header
      ensures Persisted()
    {
      token := if Truthy(savedToken) then savedToken else None;
      currentUser := savedUser;
      storedToken := savedToken;
      storedUser := savedUser;
      authHeader := header;
    }

    /** `isLoggedIn`: a truthy token and a user. */
    predicate IsLoggedIn()
      reads this
    {
      Truthy(token) && currentUser.Some?
    }

    /** `userName`: the user's name, or `游客` when there is no user or the
        name is null or empty. */
    function UserName(): (r: string)
      reads this
      ensures r != ""
      ensures currentUser.Some? && Truthy(currentUser.value.name) ==> r == currentUser.value.name.value
    {
      if currentUser.Some? && Truthy(currentUser.value.name) then currentUser.value.name.value else "游客"
    }

    /** `isAdmin`: the role, lower-cased, is `admin`. */
    predicate IsAdmin()
      reads this
    {
      currentUser.Some? && currentUser.value.role.Some?
      && Strings.ToLowerAscii(currentUser.value.role.value) == "admin"
    }

    /** `resolvedAvatarUrl`, with `apiBase` for `http.defaults.baseURL || ''`:
        the user's avatar, or the first default avatar, resolved exactly as
        `resolveStaticAssetUrl` resolves it, so never empty. */
    function ResolvedAvatarUrl(apiBase: string): (r: string)
      reads this
      ensures var path := if currentUser.Some? && Truthy(currentUser.value.avatarUrl)
                          then currentUser.value.avatarUrl.value else DefaultAvatarPath;
        r == UrlUtils.ResolveStaticAssetUrl(Some(path), apiBase) && r != ""
    {
      var path := if currentUser.Some? && Truthy(currentUser.value.avatarUrl)
                  then currentUser.value.avatarUrl.value else DefaultAvatarPath;
      if UrlUtils.IsAbsolute(path) then path
      else UrlUtils.ServerRoot(apiBase) + UrlUtils.WithLeadingSlash(path)
    }

    /** `_setLoginInfo(newToken, userInfo)`. */
    method SetLoginInfo(newToken: Option<string>, userInfo: Option<User>)
      modifies this
      ensures token == newToken && currentUser == userInfo
      ensures storedToken == Some(if Truthy(newToken) then newToken.value else "")
      ensures storedUser == userInfo
      ensures HeaderInSync() && Persisted()
    {
      token := newToken;
      currentUser := userInfo;
      storedToken := Some(if Truthy(newToken) then newToken.value else "");
      if userInfo.Some? {
        storedUser := userInfo;
      } else {
        storedUser := None;
      }
      if Truthy(newToken) {
        authHeader := Some("Bearer " + newToken.value);
      } else {
        authHeader := None;
      }
    }

    /** `setToken`: replaces the token and keeps the user. */
    method SetToken(newToken: Option<string>)
      modifies this
      ensures token == newToken && currentUser == old(currentUser)
      ensures HeaderInSync() && Persisted()
    {
      SetLoginInfo(newToken, currentUser);
    }

    /** `setUser`: replaces the user and keeps the token. */
    method SetUser(userInfo: Option<User>)
      modifies this
      ensures currentUser == userInfo && token == old(token)
      ensures HeaderInSync() && Persisted()
    {
      SetLoginInfo(token, userInfo);
    }

    /** `updateUserInfo`: merges into the present user and persists it;
        without a user nothing changes. */
    method UpdateUserInfo(patch: UserPatch)
      requires Persisted()
      modifies this`currentUser, this`storedUser
      ensures old(currentUser).Some? ==> currentUser == Some(Merge(old(currentUser).value, patch))
      ensures old(currentUser).None? ==> currentUser == None && storedUser == old(storedUser)
      ensures Persisted()
    {
      if currentUser.Some? {
        currentUser := Some(Merge(currentUser.value, patch));
        storedUser := currentUser;
      }
    }

    /** `logout`: no token, no user, nothing stored, no header. */
    method Logout()
      modifies this
      ensures token == None && currentUser == None && !IsLoggedIn()
      ensures storedToken == None && storedUser == None && authHeader == None
      ensures HeaderInSync() && Persisted()
    {
      SetLoginInfo(None, None);
      storedToken := None;
      storedUser := None;
      authHeader := None;
    }

    method IncrementFollowingCount()
      requires Persisted()
      modifies this`currentUser, this`storedUser
      ensures old(currentUser).Some? ==>
        currentUser == Some(old(currentUser).value.(followingCount := Increment(old(currentUser).value.followingCount)))
      ensures old(currentUser).None? ==> currentUser == None && storedUser == old(storedUser)
      ensures Persisted()
    {
      if currentUser.Some? {
        var u := currentUser.value;
        currentUser := Some(u.(followingCount := Increment(u.followingCount)));
        storedUser := currentUser;
      }
    }

    method DecrementFollowingCount()
      requires Persisted()
      modifies this`currentUser, this`storedUser
      ensures old(currentUser).Some? ==>
        currentUser == Some(old(currentUser).value.(followingCount := Decrement(old(currentUser).value.followingCount)))
      ensures old(currentUser).None? ==> currentUser == None
      ensures Persisted()
    {
      if currentUser.Some? {
        var u := currentUser.value;
        var c := u.followingCount;
        if c.Some? && c.value != 0 {
          currentUser := Some(u.(followingCount := Decrement(c)));
          storedUser := currentUser;
        }
      }
    }

    method IncrementFollowerCount()
      requires Persisted()
      modifies this`currentUser, this`storedUser
      ensures old(currentUser).Some? ==>
        currentUser == Some(old(currentUser).value.(followerCount := Increment(old(currentUser).value.followerCount)))
      ensures old(currentUser).None? ==> currentUser == None && storedUser == old(storedUser)
      ensures Persisted()
    {
      if currentUser.Some? {
        var u := currentUser.value;
        currentUser := Some(u.(followerCount := Increment(u.followerCount)));
        storedUser := currentUser;
      }
    }

    method DecrementFollowerCount()
      requires Persisted()
      modifies this`currentUser, this`storedUser
      ensures old(currentUser).Some? ==>
        currentUser == Some(old(currentUser).value.(followerCount := Decrement(old(currentUser).value.followerCount)))
      ensures old(currentUser).None? ==> currentUser == None
      ensures Persisted()
    {
      if currentUser.Some? {
        var u := currentUser.value;
        var c := u.followerCount;
        if c.Some? && c.value != 0 {
          currentUser := Some(u.(followerCount := Decrement(c)));
          storedUser := currentUser;
        }
      }
    }
  }

  /** Only the exact word `admin`, in any ASCII letter case, grants the
      admin view. */
  lemma AdminRoleCaseInsensitive(role: string)
    requires |role| == 5
    requires role[0] in "aA" && role[1] in "dD" && role[2] in "mM" && role[3] in "iI" && role[4] in "nN"
    ensures Strings.ToLowerAscii(role) == "admin"
  {
  }
}
