/**
 * The bearer-token gate in front of the protected user routes, and the
 * admin-only gate. Token verification is a parameter: a partial function
 * from token text to the claims it carries.
 */
module AuthMiddleware {
  import opened Results
  import opened Users
  import opened Http

  const BearerPrefix: string := "Bearer "

  /** `header.startsWith('Bearer ')`: exact, case-sensitive, space included. */
  predicate HasBearerPrefix(header: string) {
    |header| >= |BearerPrefix| && header[..|BearerPrefix|] == BearerPrefix
  }

  /** `header.substring(7)`: the header without its first seven characters. */
  function TokenOf(header: string): string
    requires HasBearerPrefix(header)
  {
    header[|BearerPrefix|..]
  }

  const MissingTokenMessage: string := "No token provided or invalid token format"
  const InvalidTokenMessage: string := "Invalid or expired token"

  /** Either the request is answered here, or `next` runs once with `req.user` set to the claims. */
  datatype AuthResult = Rejected(response: Response) | Authenticated(user: Principal)

  /**
   * `authenticate`: a missing header or one without the `Bearer ` prefix is
   * answered 401 before any verification; otherwise the rest of the header
   * is verified, and a failure is answered 401 without setting the user.
   */
  function Authenticate(header: Option<string>, verify: string -> Option<Principal>): (r: AuthResult)
    ensures r.Authenticated? <==>
      header.Some? && HasBearerPrefix(header.value) && verify(TokenOf(header.value)).Some?
    ensures r.Authenticated? ==> Some(r.user) == verify(TokenOf(header.value))
    ensures r.Rejected? ==>
      r.response.status == 401 && r.response.body.ErrorBody? && r.response.body.error == "Unauthorized"
    ensures r.Rejected? ==>
      (r.response.body.message == InvalidTokenMessage <==> header.Some? && HasBearerPrefix(header.value))
  {
    if header.None? || !HasBearerPrefix(header.value) then
      Rejected(Response(401, ErrorBody("Unauthorized", MissingTokenMessage)))
    else
      match verify(TokenOf(header.value))
      case None => Rejected(Response(401, ErrorBody("Unauthorized", InvalidTokenMessage)))
      case Some(claims) => Authenticated(claims)
  }

  /**
   * The header `Bearer <t>` hands exactly `t` to the verifier, and every
   * accepted header has that shape.
   */
  lemma BearerHeaderRoundTrip(token: string, header: string, verify: string -> Option<Principal>)
    ensures HasBearerPrefix(BearerPrefix + token) && TokenOf(BearerPrefix + token) == token
    ensures Authenticate(Some(BearerPrefix + token), verify) ==
      match verify(token)
      case None => Rejected(Response(401, ErrorBody("Unauthorized", InvalidTokenMessage)))
      case Some(claims) => Authenticated(claims)
    ensures Authenticate(Some(header), verify).Authenticated? ==> header == BearerPrefix + TokenOf(header)
  {
  }

  /** A lower-case scheme name is not accepted, whatever follows it. */
  lemma SchemeIsCaseSensitive(token: string, verify: string -> Option<Principal>)
    ensures Authenticate(Some("bearer " + token), verify) ==
      Rejected(Response(401, ErrorBody("Unauthorized", MissingTokenMessage)))
  {
  }

  /** Either the request is answered here, or `next` runs. */
  datatype Gate = Deny(response: Response) | Pass

  /** `requireAdmin`: 401 without a user, 403 for any role other than `'admin'`, otherwise pass. */
  function RequireAdmin(user: Option<Principal>): (g: Gate)
    ensures g.Pass? <==> user.Some? && user.value.role == AdminRole
    ensures user.None? ==> g == Deny(Response(401, ErrorBody("Unauthorized", "Authentication required")))
    ensures user.Some? && user.value.role != AdminRole ==>
      g == Deny(Response(403, ErrorBody("Forbidden", "Admin access required")))
  {
    if user.None? then Deny(Response(401, ErrorBody("Unauthorized", "Authentication required")))
    else if user.value.role != AdminRole then Deny(Response(403, ErrorBody("Forbidden", "Admin access required")))
    else Pass
  }
}
