/**
 * The route guard that runs before every page and API route: it lets the
 * request through, or redirects it, depending on the path, on whether the
 * `auth_token` cookie is present and on whether its value verifies. Token
 * verification (a signed-token check with an expiry) is an opaque predicate
 * passed in as `verifies`.
 */
module Middleware {
  import opened Wrappers

  /** What the guard answers: let the request through, or redirect it (optionally deleting the session cookie). */
  datatype Response = Next | Redirect(location: string, deleteAuthCookie: bool)

  const LoginPath := "/login"
  const HomePath := "/"
  const AuthApiPrefix := "/api/auth"

  /** The login page and every path that starts with the auth API prefix are reachable without a session. */
  predicate IsPublic(pathname: string)
  {
    pathname == LoginPath || AuthApiPrefix <= pathname
  }

  /** The cookie is there and its value verifies. */
  predicate HasValidToken(token: Option<string>, verifies: string -> bool)
  {
    token.Some? && verifies(token.value)
  }

  /** The guard's decision for one request. */
  function Route(pathname: string, token: Option<string>, verifies: string -> bool): (r: Response)
    // the login page with a valid session goes home; otherwise it is served
    ensures pathname == LoginPath ==>
              r == if HasValidToken(token, verifies) then Redirect(HomePath, false) else Next
    // the auth API is always served, whatever the cookie says
    ensures pathname != LoginPath && AuthApiPrefix <= pathname ==> r == Next
    // every other path: no cookie, a cookie that fails, or a cookie that verifies
    ensures !IsPublic(pathname) && token.None? ==> r == Redirect(LoginPath, false)
    ensures !IsPublic(pathname) && token.Some? && !verifies(token.value) ==> r == Redirect(LoginPath, true)
    ensures !IsPublic(pathname) && HasValidToken(token, verifies) ==> r == Next
  {
    var isLoginPage := pathname == LoginPath;
    var isApiAuth := AuthApiPrefix <= pathname;
    if isLoginPage || isApiAuth then
      if isLoginPage && token.Some? && verifies(token.value) then Redirect(HomePath, false) else Next
    else if token.None? then Redirect(LoginPath, false)
    else if !verifies(token.value) then Redirect(LoginPath, true)
    else Next
  }

  /** A protected path is served only to a request whose cookie verifies. */
  lemma ProtectedNeedsValidToken(pathname: string, token: Option<string>, verifies: string -> bool)
    requires !IsPublic(pathname)
    ensures Route(pathname, token, verifies) == Next <==> HasValidToken(token, verifies)
  {
  }

  /** The cookie is deleted exactly when a protected path carries a cookie that does not verify. */
  lemma CookieDeletedOnlyWhenInvalid(pathname: string, token: Option<string>, verifies: string -> bool)
    ensures (Route(pathname, token, verifies).Redirect? && Route(pathname, token, verifies).deleteAuthCookie)
            <==> !IsPublic(pathname) && token.Some? && !verifies(token.value)
  {
  }

  /** The only redirect to the home page is from the login page with a valid session. */
  lemma HomeRedirectOnlyFromLogin(pathname: string, token: Option<string>, verifies: string -> bool)
    ensures Route(pathname, token, verifies) == Redirect(HomePath, false)
            <==> pathname == LoginPath && HasValidToken(token, verifies)
  {
  }

  /**
   * Following a redirect, with the cookie gone when the guard deleted it, is
   * served without a second redirect: the guard never redirects in a loop.
   */
  lemma RedirectSettlesInOneStep(pathname: string, token: Option<string>, verifies: string -> bool)
    requires Route(pathname, token, verifies).Redirect?
    ensures var r := Route(pathname, token, verifies);
            Route(r.location, if r.deleteAuthCookie then None else token, verifies) == Next
  {
    var r := Route(pathname, token, verifies);
    assert !(AuthApiPrefix <= HomePath);
  }
}
