/** The double-submit check of `middlewares/csrfGuard.js`, as a decision on
    the configuration flag, the method, the path and the two tokens. */
module CsrfGuard {
  import opened Wrappers
  import opened Js
  import opened Http

  /** `STATE_CHANGING_METHODS` */
  const StateChangingMethods: set<string> := {"POST", "PUT", "PATCH", "DELETE"}

  /** `EXCLUDED_PATHS`: the login and refresh endpoints, which issue tokens. */
  const ExcludedPaths: set<string> := {"/admin/login", "/api/auth/refresh"}

  /** Pass to the next handler, or answer with a reply. */
  datatype Decision = Next | Deny(reply: Reply)

  /** The reply of a refused request. */
  function InvalidTokenReply(): Reply {
    Json(403, ErrorBody(Str("Invalid CSRF token")))
  }

  /** `csrfGuard(req, res, next)`: `crossSiteCookies` is
      `process.env.CROSS_SITE_COOKIES`, `headerToken` the `x-csrf-token`
      header and `cookieToken` the `csrf_token` cookie. */
  function Guard(crossSiteCookies: Option<string>, verb: string, path: string,
                 headerToken: Option<string>, cookieToken: Option<string>): (r: Decision)
    ensures crossSiteCookies != Some("true") ==> r.Next?
    ensures verb !in StateChangingMethods ==> r.Next?
    ensures path in ExcludedPaths ==> r.Next?
    ensures crossSiteCookies == Some("true") && verb in StateChangingMethods && path !in ExcludedPaths
            ==> (r.Next? <==> Present(headerToken) && headerToken == cookieToken)
    ensures r.Deny? ==> r.reply == InvalidTokenReply()
  {
    if crossSiteCookies != Some("true") then Next
    else if verb !in StateChangingMethods then Next
    else if path !in ExcludedPaths then
      if !Present(headerToken) || !Present(cookieToken) || headerToken != cookieToken
      then Deny(InvalidTokenReply())
      else Next
    else Next
  }

  /** A request is refused exactly when the flag is on, it changes state, it
      is not a token endpoint and its two tokens are not the same non-empty
      string; the reply is then 403 with an `error` body. */
  lemma GuardDeniesExactly(flag: Option<string>, verb: string, path: string,
                           headerToken: Option<string>, cookieToken: Option<string>)
    ensures var r := Guard(flag, verb, path, headerToken, cookieToken);
            r.Deny? <==> (&& flag == Some("true") && verb in StateChangingMethods
                          && path !in ExcludedPaths
                          && !(Present(headerToken) && Present(cookieToken) && headerToken == cookieToken))
    ensures var r := Guard(flag, verb, path, headerToken, cookieToken);
            r.Deny? ==> r.reply.status == 403 && r.reply.Json?
  {
  }
}
