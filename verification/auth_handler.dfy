/**
 * handlers/authHandler.go: the hand-written address check (isValidEmail) with its
 * substring helper (contains), the audit-log client address (getClientIP), and the
 * register, login and logout handlers as decisions over the user table and the refresh
 * store. A request is its method (POST or not) and its decoded JSON body, None when
 * decoding fails.
 */
module AuthHandler {
  import opened Wrappers
  import opened Text
  import opened Jwt
  import TokenStore
  import opened Users
  import opened EmailValidator
  import opened PasswordValidator
  import opened AuthService
  import JwtMiddleware
  import RateLimit

  const MaxLocalLength := 64
  const MinDomainLength := 3

  const StatusOK := 200
  const StatusCreated := 201
  const StatusBadRequest := 400
  const StatusUnauthorized := 401
  const StatusInternalServerError := 500

  // ---------------------------------------------------------------------------
  // isValidEmail and contains
  // ---------------------------------------------------------------------------

  /** `at` is the position of the one and only '@' in `e`. */
  predicate OnlyAt(e: string, at: int) {
    0 <= at < |e| && e[at] == '@' && forall j | 0 <= j < |e| && j != at :: e[j] != '@'
  }

  /**
   * What isValidEmail accepts: 1 to 254 characters, exactly one '@', neither first nor
   * last, at most 64 characters before it, and after it at least 3 characters including a '.'.
   */
  ghost predicate WellShapedEmail(e: string) {
    && 0 < |e| <= MaxEmailLength
    && exists at | 0 <= at < |e| ::
         && OnlyAt(e, at)
         && 0 < at < |e| - 1
         && at <= MaxLocalLength
         && |e| - (at + 1) >= MinDomainLength
         && IsInfix(".", e[at + 1..])
  }

  /** contains: the offset-by-offset search for `sub` in `s`. */
  method Contains(s: string, sub: string) returns (r: bool)
    ensures r <==> IsInfix(sub, s)
  {
    var i := 0;
    while i <= |s| - |sub|
      invariant 0 <= i <= (if |sub| <= |s| then |s| - |sub| + 1 else 0)
      invariant forall j | 0 <= j < i :: !OccursAt(s, sub, j)
    {
      if s[i..i + |sub|] == sub {
        assert OccursAt(s, sub, i);
        return true;
      }
      i := i + 1;
    }
    return false;
  }

  /** The empty string occurs in every string, and nothing longer than `s` occurs in it. */
  lemma InfixBounds(s: string, sub: string)
    ensures IsInfix("", s)
    ensures |sub| > |s| ==> !IsInfix(sub, s)
  {
    assert OccursAt(s, "", 0);
  }

  /** isValidEmail: a scan for the '@' that fails on a second one, then the length and dot checks. */
  method IsValidEmail(e: string) returns (ok: bool)
    ensures ok <==> WellShapedEmail(e)
  {
    if |e| == 0 || |e| > MaxEmailLength {
      return false;
    }
    var atIndex := -1;
    var i := 0;
    while i < |e|
      invariant 0 <= i <= |e|
      invariant -1 <= atIndex < i
      invariant atIndex == -1 ==> forall j | 0 <= j < i :: e[j] != '@'
      invariant atIndex >= 0 ==> e[atIndex] == '@' && forall j | 0 <= j < i && j != atIndex :: e[j] != '@'
    {
      if e[i] == '@' {
        if atIndex != -1 {
          assert forall at | 0 <= at < |e| :: !OnlyAt(e, at) by {
            forall at | 0 <= at < |e| ensures !OnlyAt(e, at) {
              if at != atIndex { assert e[atIndex] == '@'; } else { assert e[i] == '@'; }
            }
          }
          return false;
        }
        atIndex := i;
      }
      i := i + 1;
    }
    if atIndex == -1 {
      assert forall at | 0 <= at < |e| :: !OnlyAt(e, at) by {
        forall at | 0 <= at < |e| ensures !OnlyAt(e, at) { assert e[at] != '@'; }
      }
      return false;
    }
    assert OnlyAt(e, atIndex);
    assert forall at | 0 <= at < |e| && OnlyAt(e, at) :: at == atIndex;
    if atIndex == 0 || atIndex == |e| - 1 {
      return false;
    }
    var localPart := e[..atIndex];
    var domain := e[atIndex + 1..];
    if |localPart| == 0 || |localPart| > MaxLocalLength {
      return false;
    }
    var hasDot := Contains(domain, ".");
    if |domain| < MinDomainLength || !hasDot {
      return false;
    }
    return true;
  }

  /**
   * The handler's check and the service's expression disagree in both directions: a space
   * in the local part passes the first and fails the second, and a dotless two-letter
   * domain passes the second and fails the first.
   */
  lemma EmailChecksDisagree()
    ensures WellShapedEmail("a b@ex.com") && ValidateEmail("a b@ex.com") == Some(BadFormat)
    ensures !WellShapedEmail("a@bc") && ValidateEmail("a@bc") == None
  {
    var e1 := "a b@ex.com";
    assert OnlyAt(e1, 3);
    assert OccursAt(e1[4..], ".", 2);
    assert !EmailPattern(e1) by {
      forall i | 0 <= i < |e1| && e1[i] == '@' ensures !ValidLocal(e1[..i]) {
        assert i == 3;
        assert e1[..i][1] == ' ';
      }
    }
    MatchesEmailPattern(e1);
    var e2 := "a@bc";
    assert ValidLocal(e2[..1]);
    assert ValidLabel(e2[2..]);
    assert EmailPattern(e2);
    assert forall at | 0 <= at < |e2| && OnlyAt(e2, at) :: at == 1;
  }

  // ---------------------------------------------------------------------------
  // getClientIP
  // ---------------------------------------------------------------------------

  /** The text before the first comma, or all of `s` when it has none. */
  function FirstField(s: string): (f: string)
    ensures ',' !in f
  {
    if ',' in s then s[..IndexOf(s, ',')] else s
  }

  /** getClientIP of the handlers: the trimmed first comma-separated X-Forwarded-For entry, else X-Real-IP, else the remote address. */
  function GetClientIP(forwardedFor: string, realIp: string, remoteAddr: string): (ip: string)
    ensures forwardedFor != "" ==> ip == TrimSpace(FirstField(forwardedFor)) && ',' !in ip
    ensures forwardedFor == "" && realIp != "" ==> ip == realIp
    ensures forwardedFor == "" && realIp == "" ==> ip == remoteAddr
  {
    if forwardedFor != "" then
      SplitFirst(forwardedFor, ',');
      var ip := TrimSpace(Split(forwardedFor, ',')[0]);
      TrimSpaceKeepsOut(FirstField(forwardedFor), ',');
      ip
    else if realIp != "" then realIp
    else remoteAddr
  }

  /**
   * The audit log and the rate limiter name a proxied client differently: whenever the
   * X-Forwarded-For value lists more than one address, the limiter keys on the whole list
   * and the handler logs only its first entry.
   */
  lemma LoggedAndLimitedKeysDiffer(forwardedFor: string, realIp: string, remoteAddr: string)
    requires ',' in forwardedFor
    ensures GetClientIP(forwardedFor, realIp, remoteAddr) != RateLimit.ClientKey(forwardedFor, realIp, remoteAddr)
  {
  }

  // ---------------------------------------------------------------------------
  // Handlers
  // ---------------------------------------------------------------------------

  datatype RegisterFailure =
    | InvalidRequest
    | MissingFields
    | InvalidEmailFormat
    | WeakPassword(reason: PasswordError)
    | CouldNotSave

  /** A non-POST request gets no response of the handler's own. */
  datatype RegisterReply =
    | RegisterIgnored
    | RegisterFailed(status: int, failure: RegisterFailure)
    | RegisterCreated(status: int, summary: Summary)

  /**
   * RegisterHandler: 400 for an undecodable body, then for an empty email or password,
   * then for a failed isValidEmail, then for a failed ValidatePassword; only then SignUp,
   * answered 201 with its summary or 500 on its error.
   */
  method RegisterHandler(isPost: bool, body: Option<User>, t: UserTable, h: Hasher, dbOk: bool)
    returns (reply: RegisterReply, t': UserTable)
    ensures !isPost ==> reply == RegisterIgnored && t' == t
    ensures isPost && body.None? ==> reply == RegisterFailed(StatusBadRequest, InvalidRequest) && t' == t
    ensures isPost && body.Some? && (body.value.email == "" || body.value.password == "") ==>
              reply == RegisterFailed(StatusBadRequest, MissingFields) && t' == t
    ensures isPost && body.Some? && body.value.email != "" && body.value.password != "" ==>
              var u := body.value;
              && (!WellShapedEmail(u.email) ==> reply == RegisterFailed(StatusBadRequest, InvalidEmailFormat) && t' == t)
              && (WellShapedEmail(u.email) && ValidatePassword(u.password).Some? ==>
                    reply == RegisterFailed(StatusBadRequest, WeakPassword(ValidatePassword(u.password).value)) && t' == t)
              && (WellShapedEmail(u.email) && ValidatePassword(u.password).None? ==>
                    var out := SignUp(t, u, h, dbOk);
                    && t' == out.table
                    && (out.result.Ok? ==> reply == RegisterCreated(StatusCreated, out.result.value))
                    && (out.result.Err? ==> reply == RegisterFailed(StatusInternalServerError, CouldNotSave)))
    ensures t' != t ==>
              && isPost && body.Some?
              && WellShapedEmail(body.value.email)
              && ValidateEmail(body.value.email).None?
              && ValidatePassword(body.value.password).None?
  {
    if !isPost {
      return RegisterIgnored, t;
    }
    if body.None? {
      return RegisterFailed(StatusBadRequest, InvalidRequest), t;
    }
    var creds := body.value;
    if creds.email == "" || creds.password == "" {
      return RegisterFailed(StatusBadRequest, MissingFields), t;
    }
    var emailOk := IsValidEmail(creds.email);
    if !emailOk {
      return RegisterFailed(StatusBadRequest, InvalidEmailFormat), t;
    }
    var pwErr := ValidatePassword(creds.password);
    if pwErr.Some? {
      return RegisterFailed(StatusBadRequest, WeakPassword(pwErr.value)), t;
    }
    var out := SignUp(t, creds, h, dbOk);
    if out.result.Err? {
      return RegisterFailed(StatusInternalServerError, CouldNotSave), out.table;
    }
    return RegisterCreated(StatusCreated, out.result.value), out.table;
  }

  datatype LoginReply =
    | LoginIgnored
    | LoginFailed(status: int)
    | LoginSucceeded(accessCookie: string, refreshCookie: string, session: Session)

  datatype LoginOutcome = LoginOutcome(reply: LoginReply, store: TokenStore.Store)

  /**
   * LoginHandler: 400 for an undecodable body, 401 when Login fails, 500 when issuing
   * fails; otherwise both tokens go into cookies, for the id and admin flag of the stored
   * record, and the refresh store holds the new refresh token.
   */
  function LoginHandler(isPost: bool, body: Option<User>, t: UserTable, h: Hasher, c: Codec,
                        accessKey: Key, refreshKey: Key, store: TokenStore.Store, now: int): (out: LoginOutcome)
    ensures !out.reply.LoginSucceeded? ==> out.store == store
    ensures !isPost ==> out.reply == LoginIgnored
    ensures isPost && body.None? ==> out.reply == LoginFailed(StatusBadRequest)
    ensures isPost && body.Some? && Login(t, body.value, h).Err? ==> out.reply == LoginFailed(StatusUnauthorized)
    ensures isPost && body.Some? && Login(t, body.value, h).Ok? ==>
              var session := Login(t, body.value, h).value;
              var issued := GenerateToken(c, session.user.id, session.user.isAdmin, accessKey, refreshKey, store, now);
              && (issued.tokens.Ok? ==>
                    out == LoginOutcome(LoginSucceeded(issued.tokens.value.access, issued.tokens.value.refresh, session),
                                        issued.store))
              && (issued.tokens.Err? ==> out == LoginOutcome(LoginFailed(StatusInternalServerError), store))
    ensures out.reply.LoginSucceeded? ==>
              && isPost && body.Some?
              && Login(t, body.value, h) == Ok(out.reply.session)
              && var user := out.reply.session.user;
                 var issued := GenerateToken(c, user.id, user.isAdmin, accessKey, refreshKey, store, now);
                 && issued.tokens == Ok(TokenPair(out.reply.accessCookie, out.reply.refreshCookie))
                 && out.store == TokenStore.Set(store, user.id, out.reply.refreshCookie)
  {
    if !isPost then LoginOutcome(LoginIgnored, store)
    else if body.None? then LoginOutcome(LoginFailed(StatusBadRequest), store)
    else
      match Login(t, body.value, h)
      case Err(_) => LoginOutcome(LoginFailed(StatusUnauthorized), store)
      case Ok(session) =>
        var issued := GenerateToken(c, session.user.id, session.user.isAdmin, accessKey, refreshKey, store, now);
        match issued.tokens
        case Err(_) => LoginOutcome(LoginFailed(StatusInternalServerError), store)
        case Ok(pair) => LoginOutcome(LoginSucceeded(pair.access, pair.refresh, session), issued.store)
  }

  datatype LogoutReply = LogoutIgnored | LogoutFailed(status: int) | LoggedOut(status: int)

  datatype LogoutOutcome = LogoutOutcome(reply: LogoutReply, store: TokenStore.Store)

  /** LogoutHandler: 401 without claims in the context, otherwise revoke the user's refresh token. */
  function LogoutHandler(isPost: bool, ctx: Option<Claims>, store: TokenStore.Store): (out: LogoutOutcome)
    ensures !isPost ==> out == LogoutOutcome(LogoutIgnored, store)
    ensures isPost && ctx.None? ==> out == LogoutOutcome(LogoutFailed(StatusUnauthorized), store)
    ensures isPost && ctx.Some? ==>
              && out.reply == LoggedOut(StatusOK)
              && (forall tok :: !TokenStore.Validate(out.store, ctx.value.id, tok))
              && (forall other: nat | other != ctx.value.id :: TokenStore.Get(out.store, other) == TokenStore.Get(store, other))
  {
    if !isPost then LogoutOutcome(LogoutIgnored, store)
    else match ctx
      case None => LogoutOutcome(LogoutFailed(StatusUnauthorized), store)
      case Some(claims) => LogoutOutcome(LoggedOut(StatusOK), Logout(store, claims.id))
  }

  /**
   * One session end to end. After a successful login the access cookie passes the access
   * gate for the stored user until it expires, and logging out through that gate does not
   * change this, since the gate never reads the refresh store. Logging out does stop the
   * refresh cookie: renewing with it is then treated as reuse.
   */
  lemma SessionLifecycle(body: User, t: UserTable, h: Hasher, c: Codec, accessKey: Key, refreshKey: Key,
                         store: TokenStore.Store, now: int, later: int)
    requires WellFormed(c)
    requires LoginHandler(true, Some(body), t, h, c, accessKey, refreshKey, store, now).reply.LoginSucceeded?
    requires now <= later < now + AccessTtl
    ensures var login := LoginHandler(true, Some(body), t, h, c, accessKey, refreshKey, store, now);
            var user := login.reply.session.user;
            var gate := JwtMiddleware.Protect(c, accessKey, JwtMiddleware.Cookie(login.reply.accessCookie), later);
            && gate.PassToNext?
            && gate.claims.id == user.id && gate.claims.isAdmin == user.isAdmin
            && var logout := LogoutHandler(true, Some(gate.claims), login.store);
               && logout.reply == LoggedOut(StatusOK)
               && JwtMiddleware.Protect(c, accessKey, JwtMiddleware.Cookie(login.reply.accessCookie), later) == gate
               && JwtMiddleware.RenewToken(c, accessKey, refreshKey, logout.store,
                                           JwtMiddleware.Cookie(login.reply.refreshCookie), later).response
                  == JwtMiddleware.RenewRejected(JwtMiddleware.StatusUnauthorized, JwtMiddleware.ReuseDetected)
  {
    var login := LoginHandler(true, Some(body), t, h, c, accessKey, refreshKey, store, now);
    var user := login.reply.session.user;
    IssuedTokensValidate(c, user.id, user.isAdmin, accessKey, refreshKey, store, now, "", later, "");
  }
}
