/**
 * middleware/adminMiddleware.go: the admin gate. It reads the claims the access gate put
 * into the request context and lets only admins through.
 */
module AdminMiddleware {
  import opened Wrappers
  import opened Jwt
  import JwtMiddleware

  const StatusUnauthorized := 401
  const StatusForbidden := 403

  /** Either an error status (the next handler is not called) or the call of the next handler. */
  datatype AdminOutcome = AdminRejected(status: int) | CallNext

  /** AdminMiddleware: 401 without claims in the context, 403 for a non-admin, otherwise next. */
  function AdminGate(ctx: Option<Claims>): (r: AdminOutcome)
    ensures ctx.None? ==> r == AdminRejected(StatusUnauthorized)
    ensures ctx.Some? && !ctx.value.isAdmin ==> r == AdminRejected(StatusForbidden)
    ensures r == CallNext <==> ctx.Some? && ctx.value.isAdmin
  {
    match ctx
    case None => AdminRejected(StatusUnauthorized)
    case Some(claims) => if claims.isAdmin then CallNext else AdminRejected(StatusForbidden)
  }

  /** The decision depends only on whether claims are present and on their admin flag. */
  lemma AdminGateOnlyReadsFlag(a: Claims, b: Claims)
    requires a.isAdmin == b.isAdmin
    ensures AdminGate(Some(a)) == AdminGate(Some(b))
  {
  }

  /**
   * The route chain Protect then Admin (server/urls.go): the context holds the claims
   * exactly when Protect passes the request on.
   */
  function ProtectThenAdmin(c: Codec, accessKey: Key, cookie: JwtMiddleware.CookieLookup, now: int): (status: Option<int>)
    ensures status == None <==>
              && cookie.Cookie?
              && ValidateJWT(c, cookie.value, accessKey, now).Ok?
              && ValidateJWT(c, cookie.value, accessKey, now).value.isAdmin
  {
    match JwtMiddleware.Protect(c, accessKey, cookie, now)
    case ProtectRejected(s) => Some(s)
    case PassToNext(claims) =>
      match AdminGate(Some(claims))
      case AdminRejected(s) => Some(s)
      case CallNext => None
  }

  /** An admin route accepts an HMAC-signed access token with the admin flag set until it expires. */
  lemma AdminTokenPassesUntilExpiry(c: Codec, a: Alg, key: Key, cl: Claims, now: int)
    requires WellFormed(c)
    requires IsHmac(a) && c.sign(a, key, cl).Some?
    requires cl.isAdmin
    ensures var token := c.sign(a, key, cl).value;
            ProtectThenAdmin(c, key, JwtMiddleware.Cookie(token), now) == None <==> !LibraryExpired(cl, now)
  {
    ValidateSigned(c, a, key, cl, now);
  }
}
