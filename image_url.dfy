/** `getImageUrl`: the URL an image element should load. The build-time
    setting `VITE_API_BASE_URL` and the current time (`Date.now()`) are
    parameters. */
module ImageUrl {
  import opened Wrappers
  import Strings
  import Numbers
  import UrlUtils

  const Placeholder: string := "/assets/images/placeholder.png"

  /** The storage path a Supabase URL is recognised by, and the public
      object segment that is inserted after it. */
  const StoragePath: string := "/storage/v1/"
  const PublicSegment: string := "/object/public/"
  /** `/storage/v1/object/public/`. */
  const PublicStoragePath: string := "/storage/v1" + PublicSegment

  /** `import.meta.env.VITE_API_BASE_URL || 'http://localhost:3001/api'`. */
  function ApiBase(env: Option<string>): (r: string)
    ensures env.Some? && env.value != "" ==> r == env.value
    ensures env.None? || env.value == "" ==> r == UrlUtils.DefaultApiBase
  {
    match env
    case Some(b) => if b != "" then b else UrlUtils.DefaultApiBase
    case None => UrlUtils.DefaultApiBase
  }

  /** The cache-busting query suffix: `?t=` or, when the path already has a
      query, `&t=`. */
  function CacheBuster(path: string, timestamp: int): string {
    (if Strings.Contains(path, "?") then "&" else "?") + "t=" + Numbers.IntToString(timestamp)
  }

  /** `getImageUrl(url)` evaluated with environment value `env` at time
      `timestamp`. `None` is `null`/`undefined`. */
  function GetImageUrl(url: Option<string>, env: Option<string>, timestamp: int): (r: string)
    ensures url.None? || url.value == "" ==> r == Placeholder
    ensures url.Some? && url.value != "" && Strings.Contains(url.value, "supabase.co") ==>
      r == (if Strings.Contains(url.value, PublicSegment) then url.value
            else Strings.ReplaceFirst(url.value, StoragePath, PublicStoragePath))
    ensures url.Some? && url.value != "" && !Strings.Contains(url.value, "supabase.co") ==>
      (UrlUtils.IsAbsolute(url.value) ==> r == url.value)
    ensures url.Some? && url.value != "" && !Strings.Contains(url.value, "supabase.co") ==>
      (!UrlUtils.IsAbsolute(url.value) ==>
        var path := UrlUtils.WithLeadingSlash(url.value);
        r == UrlUtils.ServerRoot(ApiBase(env)) + path + CacheBuster(path, timestamp))
  {
    match url
    case None => Placeholder
    case Some(u) =>
      if u == "" then Placeholder
      else if Strings.Contains(u, "supabase.co") then
        if !Strings.Contains(u, PublicSegment) then
          Strings.ReplaceFirst(u, StoragePath, PublicStoragePath)
        else u
      else if UrlUtils.IsAbsolute(u) then u
      else
        var path := UrlUtils.WithLeadingSlash(u);
        UrlUtils.ServerRoot(ApiBase(env)) + path + CacheBuster(path, timestamp)
  }

  /** A Supabase URL without the public segment is rewritten even when it
      is an absolute `http(s)` URL (the Supabase test comes first), and the
      rewritten URL names the public object path. */
  lemma SupabaseRewriteIsPublic(u: string, env: Option<string>, timestamp: int)
    requires Strings.Contains(u, "supabase.co")
    requires !Strings.Contains(u, PublicSegment)
    requires Strings.Contains(u, StoragePath)
    ensures var r := GetImageUrl(Some(u), env, timestamp);
      r != u && |r| == |u| + 14 && Strings.Contains(r, PublicSegment)
  {
    var to := PublicStoragePath;
    var r := Strings.ReplaceFirst(u, StoragePath, to);
    assert GetImageUrl(Some(u), env, timestamp) == r;
    var i := Strings.IndexOf(u, StoragePath).value;
    assert |r| == |u| + 14;
    assert r[i..i + 26] == to;
    assert to[11..] == PublicSegment;
    assert r[i + 11..i + 26] == PublicSegment;
    Strings.ContainsAt(r, PublicSegment, i + 11);
    assert r != u;
  }

  /** A relative path loads from the server root with the time as a
      cache-busting query; `x` and `/x` give the same URL. */
  lemma RelativeSlashInsensitive(x: string, env: Option<string>, timestamp: int)
    requires x != "" && !Strings.Contains(x, "supabase.co") && !UrlUtils.IsAbsolute(x)
    requires !Strings.StartsWith(x, "/")
    ensures GetImageUrl(Some(x), env, timestamp) == GetImageUrl(Some("/" + x), env, timestamp)
  {
    var y := "/" + x;
    assert y[0] == '/';
    assert !UrlUtils.IsAbsolute(y);
  }
}
