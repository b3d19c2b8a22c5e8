/**
 * services/authService.go: registration (SignUp), login (Login), token issuance
 * (GenerateToken) and logout (Logout).
 *
 * The user table is a map from the stored email to the record, with the identifier the
 * database assigns next. bcrypt is the parameter `Hasher`; a failed database insert is the
 * flag `dbOk`. The clock is `now`, in Unix seconds.
 */
module AuthService {
  import opened Wrappers
  import opened Jwt
  import TokenStore
  import opened Users
  import opened EmailValidator
  import opened Text

  const AccessTtl := 15 * 60
  const RefreshTtl := 24 * 60 * 60

  // ---------------------------------------------------------------------------
  // Token issuance
  // ---------------------------------------------------------------------------

  /** The claims of the short-lived access token. */
  function AccessClaims(id: nat, isAdmin: bool, now: int, tokenId: string): Claims {
    Claims(id, isAdmin, RegisteredClaims("access:" + DecimalString(id), Some(now + AccessTtl), Some(now), tokenId))
  }

  /** The claims of the long-lived refresh token. */
  function RefreshClaims(id: nat, isAdmin: bool, now: int, tokenId: string): Claims {
    Claims(id, isAdmin, RegisteredClaims("refresh:" + DecimalString(id), Some(now + RefreshTtl), Some(now), tokenId))
  }

  datatype TokenPair = TokenPair(access: string, refresh: string)

  /** What issuing returns, together with the refresh store as it stands afterwards. */
  datatype Issued = Issued(tokens: Result<TokenPair, JwtError>, store: TokenStore.Store)

  /**
   * The steps of GenerateToken with the token-id (`jti`) claim as a parameter: sign the
   * access claims with the access key, sign the refresh claims with the refresh key, and
   * only then record the refresh token for the user.
   */
  function IssueTokens(c: Codec, id: nat, isAdmin: bool, accessKey: Key, refreshKey: Key,
                       store: TokenStore.Store, now: int, tokenId: string): (out: Issued)
    ensures out.tokens.Err? ==> out.tokens.error == SigningFailed && out.store == store
    ensures out.tokens.Ok? <==>
              && c.sign(HS256, accessKey, AccessClaims(id, isAdmin, now, tokenId)).Some?
              && c.sign(HS256, refreshKey, RefreshClaims(id, isAdmin, now, tokenId)).Some?
    ensures out.tokens.Ok? ==>
              && c.sign(HS256, accessKey, AccessClaims(id, isAdmin, now, tokenId)) == Some(out.tokens.value.access)
              && c.sign(HS256, refreshKey, RefreshClaims(id, isAdmin, now, tokenId)) == Some(out.tokens.value.refresh)
              && out.store == TokenStore.Set(store, id, out.tokens.value.refresh)
  {
    match c.sign(HS256, accessKey, AccessClaims(id, isAdmin, now, tokenId))
    case None => Issued(Err(SigningFailed), store)
    case Some(access) =>
      match c.sign(HS256, refreshKey, RefreshClaims(id, isAdmin, now, tokenId))
      case None => Issued(Err(SigningFailed), store)
      case Some(refresh) => Issued(Ok(TokenPair(access, refresh)), TokenStore.Set(store, id, refresh))
  }

  /** GenerateToken as written: the token-id claim is left empty. */
  function GenerateToken(c: Codec, id: nat, isAdmin: bool, accessKey: Key, refreshKey: Key,
                         store: TokenStore.Store, now: int): (out: Issued)
    ensures out.tokens.Err? ==> out.store == store
    ensures out.tokens.Ok? ==> out.store == TokenStore.Set(store, id, out.tokens.value.refresh)
  {
    IssueTokens(c, id, isAdmin, accessKey, refreshKey, store, now, "")
  }

  /**
   * Issued tokens round-trip: the access token validates to its claims for 15 minutes,
   * the refresh token parses under the refresh key for 24 hours, and the store accepts
   * exactly the new refresh token for the user.
   */
  lemma IssuedTokensValidate(c: Codec, id: nat, isAdmin: bool, accessKey: Key, refreshKey: Key,
                             store: TokenStore.Store, now: int, tokenId: string, t: int, other: string)
    requires WellFormed(c)
    requires IssueTokens(c, id, isAdmin, accessKey, refreshKey, store, now, tokenId).tokens.Ok?
    ensures var out := IssueTokens(c, id, isAdmin, accessKey, refreshKey, store, now, tokenId);
            var pair := out.tokens.value;
            && (t < now + AccessTtl ==>
                  && ValidateJWT(c, pair.access, accessKey, t).Ok?
                  && var cl := ValidateJWT(c, pair.access, accessKey, t).value;
                     && cl.id == id && cl.isAdmin == isAdmin
                     && cl.registered.subject == "access:" + DecimalString(id)
                     && cl.registered.issuedAt == Some(now)
                     && cl.registered.expiresAt == Some(now + AccessTtl))
            && (t >= now + AccessTtl ==> ValidateJWT(c, pair.access, accessKey, t) == Err(Expired))
            && (t < now + RefreshTtl ==>
                  Parse(c, pair.refresh, refreshKey, false, t) == Ok(RefreshClaims(id, isAdmin, now, tokenId)))
            && (TokenStore.Validate(out.store, id, other) <==> other == pair.refresh)
  {
    ValidateSigned(c, HS256, accessKey, AccessClaims(id, isAdmin, now, tokenId), t);
    ParseSigned(c, HS256, refreshKey, RefreshClaims(id, isAdmin, now, tokenId), false, t);
  }

  /** Logout: the user's refresh token is revoked; it always reports success. */
  function Logout(store: TokenStore.Store, id: nat): (s': TokenStore.Store)
    ensures forall t :: !TokenStore.Validate(s', id, t)
    ensures forall other: nat | other != id :: TokenStore.Get(s', other) == TokenStore.Get(store, other)
  {
    TokenStore.Delete(store, id)
  }

  // ---------------------------------------------------------------------------
  // Accounts
  // ---------------------------------------------------------------------------

  /** The users table: rows keyed by their stored email, and the next identifier to assign. */
  datatype UserTable = UserTable(rows: map<string, User>, nextId: nat)

  /**
   * Every row sits under its own email, which is a normalised, valid address, and carries
   * an id below the next one to be assigned.
   */
  ghost predicate TableInv(t: UserTable) {
    forall e | e in t.rows ::
      t.rows[e].email == e && NoUpper(e) && ValidateEmail(e).None? && t.rows[e].id < t.nextId
  }

  /** bcrypt: hashing may fail; `matches(hash, plain)` is ComparePassword succeeding. */
  datatype Hasher = Hasher(hash: string -> Option<string>, matches: (string, string) -> bool)

  /** A stored hash matches the password it was made from. */
  ghost predicate SoundHasher(h: Hasher) {
    forall p: string | h.hash(p).Some? :: h.matches(h.hash(p).value, p)
  }

  datatype AuthError = InvalidEmail(reason: EmailError) | HashFailed | DbError | InvalidCredentials

  /** The JSON summary: id, email and message (the creation time is not modelled). */
  datatype Summary = Summary(id: nat, email: string, message: string)

  const AlreadyExists := "User Already exists"
  const Created := "User created successfully"
  const LoggedIn := "User logged in successfully"

  datatype SignUpOutcome = SignUpOutcome(result: Result<Summary, AuthError>, table: UserTable)

  /** The record SignUp inserts: normalised email, hashed password, the table's next id. */
  function NewRow(t: UserTable, user: User, hashed: string): User {
    user.(id := t.nextId, email := NormalizeEmail(user.email), password := hashed)
  }

  /**
   * SignUp as written: validate the email, normalise it, answer "User Already exists"
   * for a registered address, otherwise hash the password and insert the record. The
   * admin flag of the submitted record is stored as given.
   */
  function SignUp(t: UserTable, user: User, h: Hasher, dbOk: bool): (out: SignUpOutcome)
    ensures ValidateEmail(user.email).Some? ==>
              out == SignUpOutcome(Err(InvalidEmail(ValidateEmail(user.email).value)), t)
    ensures ValidateEmail(user.email).None? && NormalizeEmail(user.email) in t.rows ==>
              var existing := t.rows[NormalizeEmail(user.email)];
              out == SignUpOutcome(Ok(Summary(existing.id, existing.email, AlreadyExists)), t)
    ensures out.result.Err? ==> out.table == t
    ensures out.table != t ==>
              && ValidateEmail(user.email).None?
              && NormalizeEmail(user.email) !in t.rows
              && h.hash(user.password).Some? && dbOk
              && out.table == UserTable(
                   t.rows[NormalizeEmail(user.email) := NewRow(t, user, h.hash(user.password).value)],
                   t.nextId + 1)
              && out.result == Ok(Summary(t.nextId, NormalizeEmail(user.email), Created))
  {
    if ValidateEmail(user.email).Some? then
      SignUpOutcome(Err(InvalidEmail(ValidateEmail(user.email).value)), t)
    else
      var email := NormalizeEmail(user.email);
      if email in t.rows then
        var existing := t.rows[email];
        SignUpOutcome(Ok(Summary(existing.id, existing.email, AlreadyExists)), t)
      else
        match h.hash(user.password)
        case None => SignUpOutcome(Err(HashFailed), t)
        case Some(hashed) =>
          if !dbOk then SignUpOutcome(Err(DbError), t)
          else
            var row := NewRow(t, user, hashed);
            SignUpOutcome(Ok(Summary(row.id, row.email, Created)), UserTable(t.rows[email := row], t.nextId + 1))
  }

  /** SignUp keeps every row under a normalised, valid address with an id below the next one. */
  lemma SignUpKeepsTableInv(t: UserTable, user: User, h: Hasher, dbOk: bool)
    requires TableInv(t)
    ensures TableInv(SignUp(t, user, h, dbOk).table)
  {
    if ValidateEmail(user.email).None? {
      NormalizeKeepsValid(user.email);
    }
  }

  /**
   * The submitted admin flag reaches the stored record: registration can create an admin.
   * The flag's JSON tag (models/usersModel.go:16) makes "omitempty" its key in a request body.
   */
  lemma SignUpStoresSubmittedAdminFlag(t: UserTable, user: User, h: Hasher)
    requires ValidateEmail(user.email).None?
    requires NormalizeEmail(user.email) !in t.rows
    requires h.hash(user.password).Some?
    ensures var out := SignUp(t, user, h, true);
            out.table.rows[NormalizeEmail(user.email)].isAdmin == user.isAdmin
  {
  }

  /** SignUp with the admin flag of the submitted record cleared. */
  function SignUpNonAdmin(t: UserTable, user: User, h: Hasher, dbOk: bool): (out: SignUpOutcome)
    ensures forall e | e in out.table.rows && e !in t.rows :: !out.table.rows[e].isAdmin
  {
    SignUp(t, user.(isAdmin := false), h, dbOk)
  }

  datatype Session = Session(summary: Summary, user: User)

  /**
   * Login as written: look the email up exactly as given; an unknown email and a wrong
   * password give the same error; on success the caller's record becomes the stored one.
   */
  function Login(t: UserTable, user: User, h: Hasher): (r: Result<Session, AuthError>)
    ensures r.Err? ==> r.error == InvalidCredentials
    ensures user.email !in t.rows ==> r == Err(InvalidCredentials)
    ensures r.Ok? <==> user.email in t.rows && h.matches(t.rows[user.email].password, user.password)
    ensures r.Ok? ==> r.value.user == t.rows[user.email]
                      && r.value.summary == Summary(r.value.user.id, r.value.user.email, LoggedIn)
  {
    if user.email !in t.rows then Err(InvalidCredentials)
    else
      var existing := t.rows[user.email];
      if !h.matches(existing.password, user.password) then Err(InvalidCredentials)
      else Ok(Session(Summary(existing.id, existing.email, LoggedIn), existing))
  }

  /** Login that normalises the email first, as SignUp does. */
  function LoginNormalized(t: UserTable, user: User, h: Hasher): (r: Result<Session, AuthError>)
    ensures r.Ok? <==> NormalizeEmail(user.email) in t.rows
                       && h.matches(t.rows[NormalizeEmail(user.email)].password, user.password)
  {
    Login(t, user.(email := NormalizeEmail(user.email)), h)
  }

  /**
   * As written, an address registered with an upper-case letter cannot log in with the
   * very string it registered with: SignUp stored the lower-cased form.
   */
  lemma MixedCaseRegistrationCannotLogIn(t: UserTable, user: User, h: Hasher)
    requires TableInv(t)
    requires !NoUpper(user.email)
    ensures Login(SignUp(t, user, h, true).table, user, h) == Err(InvalidCredentials)
  {
    SignUpKeepsTableInv(t, user, h, true);
  }

  /** With normalisation, every successful registration can log in with the same input. */
  lemma RegisteredUserCanLogIn(t: UserTable, user: User, h: Hasher)
    requires SoundHasher(h)
    requires SignUp(t, user, h, true).table != t
    ensures var t' := SignUp(t, user, h, true).table;
            LoginNormalized(t', user, h) == Ok(Session(
              Summary(t.nextId, NormalizeEmail(user.email), LoggedIn),
              t'.rows[NormalizeEmail(user.email)]))
  {
  }
}
