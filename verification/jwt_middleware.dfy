/**
 * middleware/jwtMiddleware.go: the renewal gate (RenewTokenMiddleware), which rotates the
 * refresh token and treats any refresh token the store does not hold as stolen, and the
 * access gate (ProtectMiddleware). Each request is one atomic step from the refresh store
 * before to the refresh store after.
 */
module JwtMiddleware {
  import opened Wrappers
  import opened Jwt
  import TokenStore
  import opened AuthService

  /** http.Request.Cookie: the named cookie, ErrNoCookie, or (for Protect) any other error. */
  datatype CookieLookup = NoCookie | CookieError | Cookie(value: string)

  const StatusBadRequest := 400
  const StatusUnauthorized := 401
  const StatusInternalServerError := 500

  datatype RenewFailure = NoRefreshToken | InvalidRefreshToken | ReuseDetected | CouldNotIssue

  /** The response: a new pair (access token in the body, refresh token in the cookie), or an error status. */
  datatype Renewal =
    | Renewed(access: string, refresh: string)
    | RenewRejected(status: int, reason: RenewFailure)

  datatype RenewOutcome = RenewOutcome(response: Renewal, store: TokenStore.Store)

  /**
   * The renewal steps, with the token-id claim of the new pair as a parameter: parse the
   * cookie under the refresh key (no method restriction, no explicit expiry check), delete
   * the user's entry unless it holds exactly this token, otherwise issue a new pair.
   */
  function Rotate(c: Codec, accessKey: Key, refreshKey: Key, store: TokenStore.Store,
                  cookie: CookieLookup, now: int, tokenId: string): (out: RenewOutcome)
    ensures !cookie.Cookie? ==> out == RenewOutcome(RenewRejected(StatusUnauthorized, NoRefreshToken), store)
    ensures cookie.Cookie? && Parse(c, cookie.value, refreshKey, false, now).Err? ==>
              out == RenewOutcome(RenewRejected(StatusUnauthorized, InvalidRefreshToken), store)
    ensures cookie.Cookie? && Parse(c, cookie.value, refreshKey, false, now).Ok? ==>
              var claims := Parse(c, cookie.value, refreshKey, false, now).value;
              var issued := IssueTokens(c, claims.id, claims.isAdmin, accessKey, refreshKey, store, now, tokenId);
              && (!TokenStore.Validate(store, claims.id, cookie.value) ==>
                    out == RenewOutcome(RenewRejected(StatusUnauthorized, ReuseDetected), TokenStore.Delete(store, claims.id)))
              && (TokenStore.Validate(store, claims.id, cookie.value) && issued.tokens.Ok? ==>
                    out == RenewOutcome(Renewed(issued.tokens.value.access, issued.tokens.value.refresh), issued.store))
              && (TokenStore.Validate(store, claims.id, cookie.value) && issued.tokens.Err? ==>
                    out == RenewOutcome(RenewRejected(StatusInternalServerError, CouldNotIssue), store))
              && (out.response.Renewed? ==>
                    && TokenStore.Validate(store, claims.id, cookie.value)
                    && out.store == TokenStore.Set(store, claims.id, out.response.refresh))
    ensures out.response.RenewRejected? && out.response.reason != ReuseDetected ==> out.store == store
  {
    match cookie
    case NoCookie => RenewOutcome(RenewRejected(StatusUnauthorized, NoRefreshToken), store)
    case CookieError => RenewOutcome(RenewRejected(StatusUnauthorized, NoRefreshToken), store)
    case Cookie(presented) =>
      match Parse(c, presented, refreshKey, false, now)
      case Err(_) => RenewOutcome(RenewRejected(StatusUnauthorized, InvalidRefreshToken), store)
      case Ok(claims) =>
        var stored := TokenStore.Get(store, claims.id);
        if stored.None? || stored.value != presented then
          RenewOutcome(RenewRejected(StatusUnauthorized, ReuseDetected), TokenStore.Delete(store, claims.id))
        else
          var issued := IssueTokens(c, claims.id, claims.isAdmin, accessKey, refreshKey, store, now, tokenId);
          match issued.tokens
          case Err(_) => RenewOutcome(RenewRejected(StatusInternalServerError, CouldNotIssue), issued.store)
          case Ok(pair) => RenewOutcome(Renewed(pair.access, pair.refresh), issued.store)
  }

  /** RenewTokenMiddleware as written: the new pair comes from GenerateToken (empty token id). */
  function RenewToken(c: Codec, accessKey: Key, refreshKey: Key, store: TokenStore.Store,
                      cookie: CookieLookup, now: int): (out: RenewOutcome)
    ensures !cookie.Cookie? ==> out == RenewOutcome(RenewRejected(StatusUnauthorized, NoRefreshToken), store)
    ensures cookie.Cookie? && Parse(c, cookie.value, refreshKey, false, now).Err? ==>
              out == RenewOutcome(RenewRejected(StatusUnauthorized, InvalidRefreshToken), store)
    ensures cookie.Cookie? && Parse(c, cookie.value, refreshKey, false, now).Ok? ==>
              var claims := Parse(c, cookie.value, refreshKey, false, now).value;
              var issued := GenerateToken(c, claims.id, claims.isAdmin, accessKey, refreshKey, store, now);
              && (!TokenStore.Validate(store, claims.id, cookie.value) ==>
                    out == RenewOutcome(RenewRejected(StatusUnauthorized, ReuseDetected), TokenStore.Delete(store, claims.id)))
              && (TokenStore.Validate(store, claims.id, cookie.value) && issued.tokens.Ok? ==>
                    out == RenewOutcome(Renewed(issued.tokens.value.access, issued.tokens.value.refresh), issued.store))
              && (TokenStore.Validate(store, claims.id, cookie.value) && issued.tokens.Err? ==>
                    out == RenewOutcome(RenewRejected(StatusInternalServerError, CouldNotIssue), store))
    ensures out.response.Renewed? ==> cookie.Cookie? && Parse(c, cookie.value, refreshKey, false, now).Ok?
  {
    Rotate(c, accessKey, refreshKey, store, cookie, now, "")
  }

  /** Renewal that stamps the new pair with a caller-supplied fresh token id. */
  function RenewTokenFreshId(c: Codec, accessKey: Key, refreshKey: Key, store: TokenStore.Store,
                             cookie: CookieLookup, now: int, tokenId: string): (out: RenewOutcome)
    ensures !cookie.Cookie? ==> out == RenewOutcome(RenewRejected(StatusUnauthorized, NoRefreshToken), store)
    ensures cookie.Cookie? && Parse(c, cookie.value, refreshKey, false, now).Err? ==>
              out == RenewOutcome(RenewRejected(StatusUnauthorized, InvalidRefreshToken), store)
    ensures cookie.Cookie? && Parse(c, cookie.value, refreshKey, false, now).Ok? ==>
              var claims := Parse(c, cookie.value, refreshKey, false, now).value;
              var issued := IssueTokens(c, claims.id, claims.isAdmin, accessKey, refreshKey, store, now, tokenId);
              && (!TokenStore.Validate(store, claims.id, cookie.value) ==>
                    out == RenewOutcome(RenewRejected(StatusUnauthorized, ReuseDetected), TokenStore.Delete(store, claims.id)))
              && (TokenStore.Validate(store, claims.id, cookie.value) && issued.tokens.Ok? ==>
                    out == RenewOutcome(Renewed(issued.tokens.value.access, issued.tokens.value.refresh), issued.store))
              && (TokenStore.Validate(store, claims.id, cookie.value) && issued.tokens.Err? ==>
                    out == RenewOutcome(RenewRejected(StatusInternalServerError, CouldNotIssue), store))
    ensures out.response.Renewed? ==> cookie.Cookie? && Parse(c, cookie.value, refreshKey, false, now).Ok?
  {
    Rotate(c, accessKey, refreshKey, store, cookie, now, tokenId)
  }

  /**
   * A successful rotation stops the presented token from validating whenever the new
   * refresh claims differ from the presented ones, and a later replay of it is then
   * refused, leaving no entry for the user.
   */
  lemma RotationRevokesPresented(c: Codec, accessKey: Key, refreshKey: Key, store: TokenStore.Store,
                                 presented: string, now: int, tokenId: string, later: int)
    requires WellFormed(c)
    requires Rotate(c, accessKey, refreshKey, store, Cookie(presented), now, tokenId).response.Renewed?
    requires var cl := Parse(c, presented, refreshKey, false, now).value;
             cl != RefreshClaims(cl.id, cl.isAdmin, now, tokenId)
    ensures var cl := Parse(c, presented, refreshKey, false, now).value;
            var s1 := Rotate(c, accessKey, refreshKey, store, Cookie(presented), now, tokenId).store;
            && !TokenStore.Validate(s1, cl.id, presented)
            && var replay := Rotate(c, accessKey, refreshKey, s1, Cookie(presented), later, tokenId);
               && replay.response.RenewRejected?
               && replay.response.status == StatusUnauthorized
               && (Parse(c, presented, refreshKey, false, later).Ok? ==>
                     replay.response.reason == ReuseDetected && TokenStore.Get(replay.store, cl.id) == None)
  {
    var cl := Parse(c, presented, refreshKey, false, now).value;
    var out := Rotate(c, accessKey, refreshKey, store, Cookie(presented), now, tokenId);
    var newClaims := RefreshClaims(cl.id, cl.isAdmin, now, tokenId);
    assert c.sign(HS256, refreshKey, newClaims) == Some(out.response.refresh);
    assert c.decode(out.response.refresh) == Some(Decoded(HS256, newClaims));
    assert c.decode(presented).value.claims == cl;
    if Parse(c, presented, refreshKey, false, later).Ok? {
      assert Parse(c, presented, refreshKey, false, later).value.id == cl.id;
    }
  }

  /**
   * As written, renewing in the same second the refresh token was issued re-issues the
   * identical token: the presented token stays valid and can be renewed again.
   */
  lemma SameSecondRenewalKeepsOldToken(c: Codec, id: nat, isAdmin: bool, accessKey: Key, refreshKey: Key,
                                       store: TokenStore.Store, now: int)
    requires WellFormed(c)
    requires GenerateToken(c, id, isAdmin, accessKey, refreshKey, store, now).tokens.Ok?
    ensures var login := GenerateToken(c, id, isAdmin, accessKey, refreshKey, store, now);
            var prior := login.tokens.value.refresh;
            var first := RenewToken(c, accessKey, refreshKey, login.store, Cookie(prior), now);
            && first.response == Renewed(login.tokens.value.access, prior)
            && TokenStore.Validate(first.store, id, prior)
            && RenewToken(c, accessKey, refreshKey, first.store, Cookie(prior), now).response.Renewed?
  {
    var login := GenerateToken(c, id, isAdmin, accessKey, refreshKey, store, now);
    IssuedTokensValidate(c, id, isAdmin, accessKey, refreshKey, store, now, "", now, login.tokens.value.refresh);
  }

  /**
   * With a fresh token id, even a same-second renewal revokes the presented token, and
   * replaying it afterwards is detected as reuse and deletes the user's entry.
   */
  lemma FreshIdRenewalRevokesOldToken(c: Codec, id: nat, isAdmin: bool, accessKey: Key, refreshKey: Key,
                                      store: TokenStore.Store, now: int, loginId: string, renewId: string)
    requires WellFormed(c)
    requires loginId != renewId
    requires IssueTokens(c, id, isAdmin, accessKey, refreshKey, store, now, loginId).tokens.Ok?
    requires IssueTokens(c, id, isAdmin, accessKey, refreshKey, store, now, renewId).tokens.Ok?
    ensures var login := IssueTokens(c, id, isAdmin, accessKey, refreshKey, store, now, loginId);
            var prior := login.tokens.value.refresh;
            var renewal := RenewTokenFreshId(c, accessKey, refreshKey, login.store, Cookie(prior), now, renewId);
            && renewal.response.Renewed?
            && !TokenStore.Validate(renewal.store, id, prior)
            && var replay := RenewTokenFreshId(c, accessKey, refreshKey, renewal.store, Cookie(prior), now, renewId);
               && replay.response == RenewRejected(StatusUnauthorized, ReuseDetected)
               && TokenStore.Get(replay.store, id) == None
  {
    var login := IssueTokens(c, id, isAdmin, accessKey, refreshKey, store, now, loginId);
    var prior := login.tokens.value.refresh;
    IssuedTokensValidate(c, id, isAdmin, accessKey, refreshKey, store, now, loginId, now, prior);
    assert Parse(c, prior, refreshKey, false, now) == Ok(RefreshClaims(id, isAdmin, now, loginId));
    assert IssueTokens(c, id, isAdmin, accessKey, refreshKey, login.store, now, renewId).tokens.Ok?;
    RotationRevokesPresented(c, accessKey, refreshKey, login.store, prior, now, renewId, now);
  }

  // ---------------------------------------------------------------------------
  // Access gate
  // ---------------------------------------------------------------------------

  /** The gate's decision: an error status, or the next handler with the claims attached. */
  datatype ProtectOutcome = ProtectRejected(status: int) | PassToNext(claims: Claims)

  /**
   * ProtectMiddleware: 401 without the access cookie, 400 for any other cookie error,
   * 401 when ValidateJWT refuses the token under the access key, otherwise continue with
   * the token's claims. It reads no refresh store, so revocation does not affect it.
   */
  function Protect(c: Codec, accessKey: Key, cookie: CookieLookup, now: int): (r: ProtectOutcome)
    ensures cookie.NoCookie? ==> r == ProtectRejected(StatusUnauthorized)
    ensures cookie.CookieError? ==> r == ProtectRejected(StatusBadRequest)
    ensures cookie.Cookie? && ValidateJWT(c, cookie.value, accessKey, now).Err? ==> r == ProtectRejected(StatusUnauthorized)
    ensures r.PassToNext? <==> cookie.Cookie? && ValidateJWT(c, cookie.value, accessKey, now).Ok?
    ensures r.PassToNext? ==> ValidateJWT(c, cookie.value, accessKey, now) == Ok(r.claims)
  {
    match cookie
    case NoCookie => ProtectRejected(StatusUnauthorized)
    case CookieError => ProtectRejected(StatusBadRequest)
    case Cookie(token) =>
      match ValidateJWT(c, token, accessKey, now)
      case Err(_) => ProtectRejected(StatusUnauthorized)
      case Ok(claims) => PassToNext(claims)
  }

  /** A token signed with a non-HMAC method never passes the gate, whatever its claims say. */
  lemma ProtectRefusesForeignMethod(c: Codec, accessKey: Key, token: string, now: int)
    requires c.decode(token).Some? && !IsHmac(c.decode(token).value.alg)
    ensures Protect(c, accessKey, Cookie(token), now) == ProtectRejected(StatusUnauthorized)
  {
  }
}
