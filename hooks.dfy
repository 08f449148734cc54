/** The server hook of the web client: on every request it copies the
    `access` cookie into the access-token store, then lets the request
    through when its path is public or the token is authenticated, and
    otherwise redirects to the login page. Token checking is left
    uninterpreted: it is a parameter. */
module Hooks {
  import opened Common

  /** The paths served without a login. */
  const UnprotectedRoutes: seq<string> := ["/", "/login", "/register"]

  /** What the hook does with a request: resolve it, or throw a redirect. */
  datatype Decision = Resolve | Redirect(status: int, location: string)

  /** The route gate: exact comparison of the path with the public routes;
      the token check is consulted only for the other paths. */
  function Gate(pathname: string, token: Option<string>, isAuthenticated: Option<string> -> bool): (d: Decision)
    ensures pathname in UnprotectedRoutes ==> d == Resolve
    ensures pathname !in UnprotectedRoutes && !isAuthenticated(token) ==> d == Redirect(302, "/login")
    ensures pathname !in UnprotectedRoutes && isAuthenticated(token) ==> d == Resolve
    ensures d.Redirect? <==> pathname !in UnprotectedRoutes && !isAuthenticated(token)
  {
    if pathname !in UnprotectedRoutes && !isAuthenticated(token) then Redirect(302, "/login")
    else Resolve
  }

  /** Public paths do not depend on the token check at all. */
  lemma PublicIgnoresAuth(pathname: string, token: Option<string>, f: Option<string> -> bool, g: Option<string> -> bool)
    requires pathname in UnprotectedRoutes
    ensures Gate(pathname, token, f) == Gate(pathname, token, g)
  {
  }

  /** Matching is exact: "/login/" is not public, so a request for it with a
      failing token check is redirected. */
  lemma TrailingSlashIsProtected(token: Option<string>, isAuthenticated: Option<string> -> bool)
    requires !isAuthenticated(token)
    ensures Gate("/login/", token, isAuthenticated) == Redirect(302, "/login")
  {
    assert "/login/" != "/" && "/login/" != "/login" && "/login/" != "/register" by {
      assert |"/login/"| == 7;
    }
  }

  /** The `accessToken` store. */
  class TokenStore {
    var token: Option<string>

    constructor()
      ensures token == None
    {
      token := None;
    }

    /** `handle`: stores the cookie's value (absent cookie: None), then
        applies the gate. */
    method Handle(pathname: string, accessCookie: Option<string>, isAuthenticated: Option<string> -> bool)
      returns (d: Decision)
      modifies this
      ensures token == accessCookie
      ensures d == Gate(pathname, accessCookie, isAuthenticated)
    {
      token := accessCookie;
      d := Gate(pathname, token, isAuthenticated);
    }
  }
}
