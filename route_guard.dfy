/**
 * The request middleware (middleware.ts): which paths are public, the
 * host-based rewrite of the admin site under `/admin`, and the
 * authentication guard that sends anonymous visitors of protected paths to
 * the login page.
 */
module RouteGuard {
  import opened Wrappers
  import opened Strings

  /** The path prefixes that need no sign-in (besides `/` itself). */
  const PublicRoutePrefixes: seq<string> := ["/login", "/auth", "/session"]

  const AdminHost := "admin.votethendiscuss.com"
  const AdminPrefix := "/admin"

  /** `isPublicRoute`: `/`, or a path starting with one of the public prefixes (a plain prefix test). */
  predicate IsPublicRoute(pathname: string)
    ensures IsPublicRoute(pathname) <==>
      pathname == "/" || StartsWith(pathname, "/login") || StartsWith(pathname, "/auth") || StartsWith(pathname, "/session")
  {
    assert PublicRoutePrefixes[0] == "/login" && PublicRoutePrefixes[1] == "/auth" && PublicRoutePrefixes[2] == "/session";
    pathname == "/" || exists i :: 0 <= i < |PublicRoutePrefixes| && StartsWith(pathname, PublicRoutePrefixes[i])
  }

  /** `isAdminHost`: the production admin host, or a local host name mentioning `admin.`. */
  predicate IsAdminHost(host: string) {
    StartsWith(host, AdminHost) || (StartsWith(host, "localhost:") && Contains(host, "admin."))
  }

  /** The production admin host, with or without a port, is an admin host. */
  lemma ProductionAdminHost()
    ensures IsAdminHost("admin.votethendiscuss.com") && IsAdminHost("admin.votethendiscuss.com:443")
  {
    assert "admin.votethendiscuss.com:443"[..|AdminHost|] == AdminHost;
  }

  /**
   * The local branch needs a host that starts with `localhost:` and still
   * mentions `admin.`: such a host is an admin host, but a plain local host
   * and `admin.localhost:3000` are not.
   */
  lemma LocalAdminHost()
    ensures IsAdminHost("localhost:3000/admin.")
    ensures !IsAdminHost("localhost:3000")
    ensures !IsAdminHost("admin.localhost:3000")
  {
    LocalAdminHostAccepted();
    PlainLocalHostRejected();
    AdminSubdomainOfLocalHostRejected();
  }

  lemma LocalAdminHostAccepted()
    ensures IsAdminHost("localhost:3000/admin.")
  {
    var local := "localhost:3000/admin.";
    assert local[..10] == "localhost:" && local[15..][..6] == "admin.";
    ContainsAt(local, "admin.", 15);
  }

  lemma PlainLocalHostRejected()
    ensures !IsAdminHost("localhost:3000")
  {
    assert "admin."[5] == '.';
    NotContainsMissingChar("localhost:3000", "admin.", '.');
  }

  lemma AdminSubdomainOfLocalHostRejected()
    ensures !IsAdminHost("admin.localhost:3000")
  {
    assert "admin.localhost:3000"[..10][0] == 'a';
  }

  /** The path after the host-based rewrite: admin hosts see everything under `/admin`. */
  function EffectivePath(host: string, pathname: string): (r: string)
    ensures IsAdminHost(host) ==> StartsWith(r, AdminPrefix)
    ensures IsAdminHost(host) && !StartsWith(pathname, AdminPrefix) ==> r == AdminPrefix + pathname
    ensures IsAdminHost(host) && StartsWith(pathname, AdminPrefix) ==> r == pathname
    ensures !IsAdminHost(host) ==> r == pathname
    ensures EndsWith(r, pathname)
  {
    if IsAdminHost(host) && !StartsWith(pathname, AdminPrefix) then
      var r := AdminPrefix + pathname;
      assert r[..|AdminPrefix|] == AdminPrefix;
      assert r[|r| - |pathname|..] == pathname;
      r
    else
      assert pathname[|pathname| - |pathname|..] == pathname;
      pathname
  }

  /** The rewrite is idempotent. */
  lemma EffectivePathIdempotent(host: string, pathname: string)
    ensures EffectivePath(host, EffectivePath(host, pathname)) == EffectivePath(host, pathname)
  {
  }

  /** The first three characters of each public prefix. */
  lemma PrefixHeads()
    ensures forall i :: 0 <= i < |PublicRoutePrefixes| ==>
      |PublicRoutePrefixes[i]| >= 3 && PublicRoutePrefixes[i][..3] in ["/lo", "/au", "/se"]
  {
    assert PublicRoutePrefixes[0][..3] == "/lo";
    assert PublicRoutePrefixes[1][..3] == "/au";
    assert PublicRoutePrefixes[2][..3] == "/se";
  }

  /** A path is public only if it is `/` or its first three characters are those of a public prefix. */
  lemma PublicHead(pathname: string)
    requires IsPublicRoute(pathname) && pathname != "/"
    ensures |pathname| >= 3 && pathname[..3] in ["/lo", "/au", "/se"]
  {
    PrefixHeads();
    var i :| 0 <= i < |PublicRoutePrefixes| && StartsWith(pathname, PublicRoutePrefixes[i]);
    assert pathname[..3] == PublicRoutePrefixes[i][..3];
  }

  /** No path under `/admin` is public. */
  lemma AdminPathNotPublic(pathname: string)
    requires StartsWith(pathname, AdminPrefix)
    ensures !IsPublicRoute(pathname)
  {
    assert pathname[..3] == "/ad";
    if IsPublicRoute(pathname) {
      PublicHead(pathname);
    }
  }

  /** On an admin host no path is public, so every anonymous request is sent to the login page. */
  lemma AdminHostNeverPublic(host: string, pathname: string)
    requires IsAdminHost(host)
    ensures !IsPublicRoute(EffectivePath(host, pathname))
  {
    AdminPathNotPublic(EffectivePath(host, pathname));
  }

  /** `/` is public, and the prefix test also admits paths such as `/sessionsX` and `/authors`. */
  lemma PublicExamples()
    ensures IsPublicRoute("/")
    ensures IsPublicRoute("/sessionsX") && IsPublicRoute("/authors") && IsPublicRoute("/login")
    ensures !IsPublicRoute("/workspace") && !IsPublicRoute("/create-session")
  {
    assert StartsWith("/sessionsX", PublicRoutePrefixes[2]);
    assert StartsWith("/authors", PublicRoutePrefixes[1]);
    assert StartsWith("/login", PublicRoutePrefixes[0]);
    assert "/workspace"[..3] == "/wo" && "/create-session"[..3] == "/cr";
    if IsPublicRoute("/workspace") {
      PublicHead("/workspace");
    }
    if IsPublicRoute("/create-session") {
      PublicHead("/create-session");
    }
  }

  /** A request URL: its path and its query parameters. */
  datatype Url = Url(pathname: string, searchParams: map<string, string>)

  /** What the middleware answers: a visible redirect, an internal rewrite, or the session-refreshing response as it is. */
  datatype Response = Redirect(url: Url) | Rewrite(url: Url) | PassThrough

  /**
   * `middleware`: rewrite for admin hosts, then guard protected paths.
   * `hostHeader` is the `host` header, `user` the signed-in account that the
   * session refresh reports.
   */
  method Middleware(nextUrl: Url, hostHeader: Option<string>, user: Option<string>) returns (response: Response)
    ensures var eff := EffectivePath(hostHeader.GetOr(""), nextUrl.pathname);
      response.Redirect? <==> !IsPublicRoute(eff) && user.None?
    ensures var eff := EffectivePath(hostHeader.GetOr(""), nextUrl.pathname);
      response.Redirect? ==> response.url == Url("/login", nextUrl.searchParams["redirectedFrom" := eff])
    ensures response.Rewrite? <==> IsAdminHost(hostHeader.GetOr("")) && user.Some?
    ensures response.Rewrite? ==>
      response.url == nextUrl.(pathname := EffectivePath(hostHeader.GetOr(""), nextUrl.pathname))
    ensures response.PassThrough? <==>
      !IsAdminHost(hostHeader.GetOr("")) && (IsPublicRoute(nextUrl.pathname) || user.Some?)
  {
    var url := nextUrl;
    var host := hostHeader.GetOr("");
    var isAdminHost := IsAdminHost(host);
    if isAdminHost && !StartsWith(url.pathname, AdminPrefix) {
      url := url.(pathname := AdminPrefix + url.pathname);
    }
    var effectivePathname := url.pathname;
    if isAdminHost {
      AdminHostNeverPublic(host, nextUrl.pathname);
    }
    if !IsPublicRoute(effectivePathname) {
      if user.None? {
        var loginUrl := nextUrl;
        loginUrl := loginUrl.(pathname := "/login");
        loginUrl := loginUrl.(searchParams := loginUrl.searchParams["redirectedFrom" := effectivePathname]);
        return Redirect(loginUrl);
      }
    }
    if isAdminHost {
      return Rewrite(url);
    }
    return PassThrough;
  }
}
