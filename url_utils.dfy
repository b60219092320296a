/** `resolveStaticAssetUrl`: turns a path the backend returns (such as
    `/uploads/avatars/x.png`) into a URL on the backend's server root. The
    configured API base URL (`http.defaults.baseURL`) is a parameter. */
module UrlUtils {
  import opened Wrappers
  import Strings

  /** The base URL of the API in the web client's HTTP configuration. */
  const DefaultApiBase: string := "http://localhost:3001/api"

  /** `base.replace(/\/api\/?$/, '')`: drops one trailing `/api` or `/api/`. */
  function ServerRoot(base: string): (r: string)
    ensures r <= base
    ensures Strings.EndsWith(base, "/api/") ==> r + "/api/" == base
    ensures !Strings.EndsWith(base, "/api/") && Strings.EndsWith(base, "/api") ==> r + "/api" == base
    ensures !Strings.EndsWith(base, "/api/") && !Strings.EndsWith(base, "/api") ==> r == base
  {
    if Strings.EndsWith(base, "/api/") then base[..|base| - 5]
    else if Strings.EndsWith(base, "/api") then base[..|base| - 4]
    else base
  }

  predicate IsAbsolute(url: string) {
    Strings.StartsWith(url, "http://") || Strings.StartsWith(url, "https://")
  }

  /** The path with a leading `/` added when missing. */
  function WithLeadingSlash(path: string): (r: string)
    ensures |r| > 0 && r[0] == '/'
    ensures Strings.StartsWith(path, "/") ==> r == path
    ensures !Strings.StartsWith(path, "/") ==> r == "/" + path
  {
    if Strings.StartsWith(path, "/") then path else "/" + path
  }

  /** `resolveStaticAssetUrl(relativeUrl)`, with `apiBase` standing for
      `http.defaults.baseURL || ''`. `None` is `null`/`undefined`. */
  function ResolveStaticAssetUrl(relativeUrl: Option<string>, apiBase: string): (r: string)
    ensures relativeUrl.None? || relativeUrl.value == "" ==> r == ""
    ensures relativeUrl.Some? && IsAbsolute(relativeUrl.value) ==> r == relativeUrl.value
    ensures relativeUrl.Some? && relativeUrl.value != "" && !IsAbsolute(relativeUrl.value) ==>
      r == ServerRoot(apiBase) + WithLeadingSlash(relativeUrl.value)
  {
    match relativeUrl
    case None => ""
    case Some(u) =>
      if u == "" then ""
      else if IsAbsolute(u) then u
      else ServerRoot(apiBase) + WithLeadingSlash(u)
  }

  /** A relative path resolves the same with or without its leading `/`. */
  lemma SlashInsensitive(x: string, apiBase: string)
    requires x != "" && !IsAbsolute(x) && !Strings.StartsWith(x, "/")
    ensures ResolveStaticAssetUrl(Some(x), apiBase) == ResolveStaticAssetUrl(Some("/" + x), apiBase)
  {
    assert ("/" + x)[0] == '/';
    assert !Strings.StartsWith("/" + x, "http://") && !Strings.StartsWith("/" + x, "https://");
  }

  /** Removing a trailing `/api` or `/api/` from an absolute base keeps at
      least its scheme and first slash (`http:/` or `https:/`). */
  lemma ServerRootKeepsScheme(base: string, scheme: string)
    requires scheme == "http:" || scheme == "https:"
    requires Strings.StartsWith(base, scheme + "//")
    ensures Strings.StartsWith(ServerRoot(base), scheme + "/")
  {
    var n := |scheme|;
    if Strings.EndsWith(base, "/api/") {
      assert base[|base| - 4] == 'a';
      assert base[n + 1] == '/';
      assert |base| - 5 >= n + 1;
    } else if Strings.EndsWith(base, "/api") {
      assert base[|base| - 3] == 'a';
      assert base[n + 1] == '/';
      assert |base| - 4 >= n + 1;
    }
  }

  /** With an absolute `http`/`https` base, such as the configured
      `http://localhost:3001/api`, every non-empty result is absolute, so
      resolving a resolved URL returns it unchanged. */
  lemma ResolveIdempotent(u: Option<string>, apiBase: string)
    requires IsAbsolute(apiBase)
    ensures var r := ResolveStaticAssetUrl(u, apiBase);
      ResolveStaticAssetUrl(Some(r), apiBase) == r
  {
    var r := ResolveStaticAssetUrl(u, apiBase);
    if u.Some? && u.value != "" && !IsAbsolute(u.value) {
      var scheme := if Strings.StartsWith(apiBase, "http://") then "http:" else "https:";
      ServerRootKeepsScheme(apiBase, scheme);
      var root := ServerRoot(apiBase);
      var path := WithLeadingSlash(u.value);
      assert r == root + path;
      assert (scheme + "/") <= root;
      if |root| == |scheme| + 1 {
        assert r[..|scheme| + 2] == scheme + "//";
      } else {
        assert root[..|scheme| + 2] == apiBase[..|scheme| + 2];
        assert r[..|scheme| + 2] == scheme + "//";
      }
      assert IsAbsolute(r);
    }
  }

  lemma ConfiguredBaseRoot()
    ensures ServerRoot(DefaultApiBase) == "http://localhost:3001"
    ensures ResolveStaticAssetUrl(Some("uploads/a.png"), DefaultApiBase)
      == "http://localhost:3001/uploads/a.png"
  {
    assert !Strings.EndsWith(DefaultApiBase, "/api/");
    assert DefaultApiBase[|DefaultApiBase| - 4..] == "/api";
    assert DefaultApiBase[..|DefaultApiBase| - 4] == "http://localhost:3001";
    var u := "uploads/a.png";
    assert u[0] == 'u';
    assert !IsAbsolute(u) && !Strings.StartsWith(u, "/");
  }
}
