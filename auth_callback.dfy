/**
 * The OAuth callback route (app/auth/callback/route.ts): after the identity
 * provider sends the browser back with a one-time code, the route exchanges
 * it for a session and picks where to send the browser next.
 */
module AuthCallback {
  import opened Wrappers
  import opened Strings

  const ErrorPath := "/auth/auth-code-error"

  /** The parts of the callback request the route reads. */
  datatype CallbackRequest = CallbackRequest(
    origin: string,                 // `url.origin`
    urlHost: string,                // `url.host`
    code: Option<string>,           // the `code` query parameter
    next: Option<string>,           // the `next` query parameter
    hostHeader: Option<string>,     // the `host` header
    forwardedHost: Option<string>,  // the `x-forwarded-host` header
    forwardedProto: Option<string>  // the `x-forwarded-proto` header
  )

  /** `nextPath`: the `next` parameter (`/` when absent), with a `/` put in front unless it starts with one. */
  function NextPath(next: Option<string>): (r: string)
    ensures StartsWith(r, "/")
    ensures next.None? ==> r == "/"
    ensures next.Some? && StartsWith(next.value, "/") ==> r == next.value
    ensures next.Some? && !StartsWith(next.value, "/") ==> r == "/" + next.value
  {
    var nextParam := next.GetOr("/");
    if StartsWith(nextParam, "/") then nextParam
    else
      var r := "/" + nextParam;
      assert r[..1] == "/";
      r
  }

  /** Normalising twice changes nothing more. */
  lemma NextPathIdempotent(next: Option<string>)
    ensures NextPath(Some(NextPath(next))) == NextPath(next)
  {
  }

  /** `isLocalHost`: a loopback name, with or without a port, or a `.localhost` name. */
  predicate IsLocalHost(host: string) {
    || host == "localhost" || StartsWith(host, "localhost:")
    || host == "127.0.0.1" || StartsWith(host, "127.0.0.1:")
    || host == "0.0.0.0" || StartsWith(host, "0.0.0.0:")
    || host == "[::1]" || StartsWith(host, "[::1]:")
    || EndsWith(host, ".localhost")
  }

  /** The host the route judges: the `host` header, else the URL's own host. */
  function EffectiveHost(req: CallbackRequest): (r: string)
    ensures req.hostHeader.Some? ==> r == req.hostHeader.value
    ensures req.hostHeader.None? ==> r == req.urlHost
  {
    req.hostHeader.GetOr(req.urlHost)
  }

  /**
   * The redirect target of `GET`. `exchangeSucceeded` is the outcome of the
   * code exchange, which happens only when a code is present. A missing code,
   * or a failed exchange, leads to the error page on the request's own
   * origin. After a successful exchange the browser always lands on the
   * normalised `next` path: on the request's origin for local hosts whatever
   * the forwarded headers say, on the forwarded host (by default over https)
   * when there is one, on the origin otherwise.
   */
  function RedirectTarget(req: CallbackRequest, exchangeSucceeded: bool): (r: string)
    ensures !Truthy(req.code) || !exchangeSucceeded ==> r == req.origin + ErrorPath
    ensures Truthy(req.code) && exchangeSucceeded ==> EndsWith(r, NextPath(req.next))
    ensures Truthy(req.code) && exchangeSucceeded && (IsLocalHost(EffectiveHost(req)) || !Truthy(req.forwardedHost)) ==>
      r == req.origin + NextPath(req.next)
    ensures Truthy(req.code) && exchangeSucceeded && !IsLocalHost(EffectiveHost(req)) && Truthy(req.forwardedHost) ==>
      r == req.forwardedProto.GetOr("https") + "://" + req.forwardedHost.value + NextPath(req.next)
  {
    if Truthy(req.code) && exchangeSucceeded then
      var host := EffectiveHost(req);
      var path := NextPath(req.next);
      var base := if IsLocalHost(host) || !Truthy(req.forwardedHost) then req.origin
                  else req.forwardedProto.GetOr("https") + "://" + req.forwardedHost.value;
      assert (base + path)[|base + path| - |path|..] == path;
      base + path
    else req.origin + ErrorPath
  }

  /** A local host ignores the forwarded headers entirely. */
  lemma LocalHostIgnoresForwarding(req: CallbackRequest, forwardedHost: Option<string>, forwardedProto: Option<string>)
    requires IsLocalHost(EffectiveHost(req))
    ensures RedirectTarget(req.(forwardedHost := forwardedHost, forwardedProto := forwardedProto), true)
         == RedirectTarget(req, true)
  {
  }

  /** Which host names count as local, including look-alikes that do not. */
  lemma LocalHostExamples()
    ensures IsLocalHost("localhost") && IsLocalHost("localhost:3000") && IsLocalHost("127.0.0.1:8080")
    ensures IsLocalHost("[::1]:3000") && IsLocalHost("app.localhost")
    ensures !IsLocalHost("localhost.example.com") && !IsLocalHost("example.com")
  {
    LocalHostsAccepted();
    LookAlikeRejected();
    OtherHostRejected();
  }

  lemma LocalHostsAccepted()
    ensures IsLocalHost("localhost") && IsLocalHost("localhost:3000") && IsLocalHost("127.0.0.1:8080")
    ensures IsLocalHost("[::1]:3000") && IsLocalHost("app.localhost")
  {
    assert "localhost:3000"[..10] == "localhost:";
    assert "127.0.0.1:8080"[..10] == "127.0.0.1:";
    assert "[::1]:3000"[..6] == "[::1]:";
    assert "app.localhost"[3..] == ".localhost";
  }

  lemma LookAlikeRejected()
    ensures !IsLocalHost("localhost.example.com")
  {
    var lookAlike := "localhost.example.com";
    assert lookAlike[..10][9] == '.' && lookAlike[..6][0] == 'l' && lookAlike[..8][0] == 'l';
    assert lookAlike[11..][0] == 'x';
  }

  lemma OtherHostRejected()
    ensures !IsLocalHost("example.com")
  {
    var other := "example.com";
    assert other[..10][0] == 'e' && other[..6][0] == 'e' && other[..8][0] == 'e';
    assert other[1..][0] == 'x';
  }
}
