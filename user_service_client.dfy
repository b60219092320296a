/** The web client's user service: the profile-update payload, the avatar
    upload URL and the default-avatar list. Requests themselves are not
    modelled; the payload that would be sent and the response received are
    values. */
module UserServiceClient {
  import opened Wrappers
  import Strings
  import Json
  import UrlUtils

  /** `updateMyProfile`'s argument: `None` is a key left `undefined`; the
      nullable fields carry `Some(None)` for an explicit `null`. */
  datatype ProfileUpdate = ProfileUpdate(
    username: Option<string>,
    name: Option<Option<string>>,
    bio: Option<Option<string>>,
    avatarUrl: Option<Option<string>>)

  /** The keys of the payload object. */
  datatype ProfileKey = Username | Name | Bio | AvatarUrl

  function NullableString(v: Option<string>): Json.Json {
    match v
    case Some(s) => Json.JStr(s)
    case None => Json.JNull
  }

  /** The keys whose value is not `undefined`. */
  function DefinedKeys(data: ProfileUpdate): set<ProfileKey> {
    (if data.username.Some? then {Username} else {})
    + (if data.name.Some? then {Name} else {})
    + (if data.bio.Some? then {Bio} else {})
    + (if data.avatarUrl.Some? then {AvatarUrl} else {})
  }

  /** `updateMyProfile`: copies each defined key into the payload, one key
      at a time; an empty payload throws `No update data provided` and
      nothing is sent. */
  method BuildProfilePayload(data: ProfileUpdate) returns (r: Result<map<ProfileKey, Json.Json>, string>)
    ensures r.Err? <==> DefinedKeys(data) == {}
    ensures r.Err? ==> r.error == "No update data provided"
    ensures r.Ok? ==> r.value.Keys == DefinedKeys(data)
    ensures r.Ok? && data.username.Some? ==> r.value[Username] == Json.JStr(data.username.value)
    ensures r.Ok? && data.name.Some? ==> r.value[Name] == NullableString(data.name.value)
    ensures r.Ok? && data.bio.Some? ==> r.value[Bio] == NullableString(data.bio.value)
    ensures r.Ok? && data.avatarUrl.Some? ==> r.value[AvatarUrl] == NullableString(data.avatarUrl.value)
  {
    var payload: map<ProfileKey, Json.Json> := map[];
    if data.username.Some? {
      payload := payload[Username := Json.JStr(data.username.value)];
    }
    if data.name.Some? {
      payload := payload[Name := NullableString(data.name.value)];
    }
    if data.bio.Some? {
      payload := payload[Bio := NullableString(data.bio.value)];
    }
    if data.avatarUrl.Some? {
      payload := payload[AvatarUrl := NullableString(data.avatarUrl.value)];
    }
    assert payload.Keys == DefinedKeys(data);
    if payload == map[] {
      assert DefinedKeys(data) == {};
      return Err("No update data provided");
    }
    return Ok(payload);
  }

  /** `(base).replace(/\/?$/, '')`: drops at most one trailing `/`. */
  function WithoutTrailingSlash(base: string): (r: string)
    ensures r <= base && |base| - 1 <= |r|
    ensures Strings.EndsWith(base, "/") <==> |r| == |base| - 1
  {
    if Strings.EndsWith(base, "/") then base[..|base| - 1] else base
  }

  /** `getUploadAvatarUrl()`, with `apiBase` for `http.defaults.baseURL || ''`. */
  function UploadAvatarUrl(apiBase: string): (r: string)
    ensures Strings.EndsWith(r, "/users/me/avatar")
    ensures r[..|r| - 16] <= apiBase
  {
    WithoutTrailingSlash(apiBase) + "/users/me/avatar"
  }

  /** A base with or without one trailing `/` gives the same URL; with the
      default base the upload goes to `http://localhost:3001/api/users/me/avatar`. */
  lemma UploadAvatarUrlSlash(apiBase: string)
    requires !Strings.EndsWith(apiBase, "/")
    ensures UploadAvatarUrl(apiBase + "/") == UploadAvatarUrl(apiBase)
    ensures UploadAvatarUrl(UrlUtils.DefaultApiBase) == UrlUtils.DefaultApiBase + "/users/me/avatar"
  {
    assert (apiBase + "/")[..|apiBase|] == apiBase;
    var base := UrlUtils.DefaultApiBase;
    assert base[|base| - 1] == 'i';
    assert !Strings.EndsWith(base, "/");
  }

  /** The outcome of `GET /users/avatars/defaults`: a failure, or a body
      whose `avatarUrls` may be missing. */
  datatype AvatarsResponse = RequestFailed | Body(avatarUrls: Option<seq<string>>)

  /** `getDefaultAvatars()`: the list from the body, or `[]` when the
      request fails or the body has none. */
  function DefaultAvatars(response: AvatarsResponse): (r: seq<string>)
    ensures response.RequestFailed? ==> r == []
    ensures response.Body? && response.avatarUrls.None? ==> r == []
    ensures response.Body? && response.avatarUrls.Some? ==> r == response.avatarUrls.value
  {
    match response
    case RequestFailed => []
    case Body(urls) => urls.GetOr([])
  }
}
