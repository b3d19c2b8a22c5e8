/**
 * The JSON Web Token layer (RFC 7519, HMAC signatures per section 3.2 of RFC 7518) as
 * this code uses it through the golang-jwt library: the Claims record (models/jwtModel.go),
 * the library's parse-and-validate step, and AuthService.ValidateJWT
 * (services/authService.go).
 *
 * The byte-level codec (base64url, JSON, HMAC-SHA256) is not modelled. It is a parameter
 * `Codec` of three functions: signing, structural decoding of header and claims, and
 * signature verification under a key. `WellFormed` is the one fact the model relies on:
 * a signed token decodes to exactly what was signed and verifies under the signing key.
 */
module Jwt {
  import opened Wrappers
  import Text

  /** The signing methods the library registers under their `alg` names. */
  datatype Alg =
    | HS256 | HS384 | HS512
    | RS256 | RS384 | RS512
    | PS256 | PS384 | PS512
    | ES256 | ES384 | ES512
    | EdDSA | Unsecured

  /** The methods implemented by jwt.SigningMethodHMAC. */
  predicate IsHmac(a: Alg) {
    a.HS256? || a.HS384? || a.HS512?
  }

  type Key = seq<bv8>

  /** The registered claims this code sets or reads; times are Unix seconds. */
  datatype RegisteredClaims = RegisteredClaims(
    subject: string,
    expiresAt: Option<int>,
    issuedAt: Option<int>,
    tokenId: string)

  /** models.Claims: user id, admin flag and the registered claims. */
  datatype Claims = Claims(id: nat, isAdmin: bool, registered: RegisteredClaims)

  /** What a token's header and payload say, before any signature check. */
  datatype Decoded = Decoded(alg: Alg, claims: Claims)

  /** The abstract token codec. */
  datatype Codec = Codec(
    sign: (Alg, Key, Claims) -> Option<string>,
    decode: string -> Option<Decoded>,
    verify: (string, Key) -> bool)

  /** A signed token decodes to what was signed and verifies under the signing key. */
  ghost predicate WellFormed(c: Codec) {
    forall a: Alg, k: Key, cl: Claims | c.sign(a, k, cl).Some? ::
      && c.decode(c.sign(a, k, cl).value) == Some(Decoded(a, cl))
      && c.verify(c.sign(a, k, cl).value, k)
  }

  /** Signing with the same method and key never maps two claim sets to one token. */
  lemma SignInjective(c: Codec, a: Alg, k: Key, cl1: Claims, cl2: Claims)
    requires WellFormed(c)
    requires c.sign(a, k, cl1).Some? && c.sign(a, k, cl2).Some?
    requires c.sign(a, k, cl1).value == c.sign(a, k, cl2).value
    ensures cl1 == cl2
  {
    assert c.decode(c.sign(a, k, cl1).value) == Some(Decoded(a, cl1));
    assert c.decode(c.sign(a, k, cl2).value) == Some(Decoded(a, cl2));
  }

  datatype JwtError =
    | Malformed                 // the string does not decode, or names an unknown method
    | UnexpectedSigningMethod   // the key function refused the method
    | SignatureInvalid
    | Expired
    | SigningFailed

  /** The library's own `exp` rule: a token is valid only strictly before its expiry. */
  predicate LibraryExpired(cl: Claims, now: int) {
    cl.registered.expiresAt.Some? && now >= cl.registered.expiresAt.value
  }

  /** ValidateJWT's explicit rule: expiry strictly before now, compared in whole seconds. */
  predicate ExplicitlyExpired(cl: Claims, now: int) {
    cl.registered.expiresAt.Some? && cl.registered.expiresAt.value < now
  }

  /**
   * jwt.ParseWithClaims: decode, run the key function (which, when `hmacOnly`, refuses
   * every non-HMAC method), check the signature, then apply the library's claim checks.
   */
  function Parse(c: Codec, token: string, key: Key, hmacOnly: bool, now: int): (r: Result<Claims, JwtError>)
    ensures c.decode(token).None? ==> r == Err(Malformed)
    ensures c.decode(token).Some? && hmacOnly && !IsHmac(c.decode(token).value.alg) ==>
              r == Err(UnexpectedSigningMethod)
    ensures !c.verify(token, key) ==> r.Err?
    ensures r.Ok? ==> && c.decode(token).Some?
                      && c.decode(token).value.claims == r.value
                      && c.verify(token, key)
                      && !LibraryExpired(r.value, now)
  {
    match c.decode(token)
    case None => Err(Malformed)
    case Some(d) =>
      if hmacOnly && !IsHmac(d.alg) then Err(UnexpectedSigningMethod)
      else if !c.verify(token, key) then Err(SignatureInvalid)
      else if LibraryExpired(d.claims, now) then Err(Expired)
      else Ok(d.claims)
  }

  /** A token signed under `key` parses back to its claims while it is unexpired. */
  lemma ParseSigned(c: Codec, a: Alg, key: Key, cl: Claims, hmacOnly: bool, now: int)
    requires WellFormed(c)
    requires c.sign(a, key, cl).Some?
    requires hmacOnly ==> IsHmac(a)
    ensures LibraryExpired(cl, now) ==> Parse(c, c.sign(a, key, cl).value, key, hmacOnly, now) == Err(Expired)
    ensures !LibraryExpired(cl, now) ==> Parse(c, c.sign(a, key, cl).value, key, hmacOnly, now) == Ok(cl)
  {
  }

  /**
   * AuthService.ValidateJWT: parse with the HMAC-only key function, then reject a token
   * whose expiry lies strictly before now.
   */
  function ValidateJWT(c: Codec, token: string, key: Key, now: int): (r: Result<Claims, JwtError>)
    ensures c.decode(token).Some? && !IsHmac(c.decode(token).value.alg) ==> r == Err(UnexpectedSigningMethod)
    ensures r.Ok? ==> && c.decode(token).Some?
                      && IsHmac(c.decode(token).value.alg)
                      && c.decode(token).value.claims == r.value
                      && c.verify(token, key)
                      && !ExplicitlyExpired(r.value, now)
  {
    match Parse(c, token, key, true, now)
    case Err(e) => Err(e)
    case Ok(claims) =>
      if ExplicitlyExpired(claims, now) then Err(Expired) else Ok(claims)
  }

  /** The explicit expiry check never fires: the library has already refused such tokens. */
  lemma ExplicitExpiryRedundant(c: Codec, token: string, key: Key, now: int)
    ensures ValidateJWT(c, token, key, now) == Parse(c, token, key, true, now)
  {
  }

  /** A token signed with an HMAC method validates to its claims exactly until its expiry. */
  lemma ValidateSigned(c: Codec, a: Alg, key: Key, cl: Claims, now: int)
    requires WellFormed(c)
    requires IsHmac(a) && c.sign(a, key, cl).Some?
    ensures ValidateJWT(c, c.sign(a, key, cl).value, key, now).Ok? <==> !LibraryExpired(cl, now)
    ensures !LibraryExpired(cl, now) ==> ValidateJWT(c, c.sign(a, key, cl).value, key, now) == Ok(cl)
  {
    ParseSigned(c, a, key, cl, true, now);
  }

  /** The number a string of decimal digits denotes, most significant digit first. */
  ghost function DigitsValue(s: string): nat
    requires forall i | 0 <= i < |s| :: Text.IsDigit(s[i])
    decreases |s|
  {
    if s == [] then 0
    else
      var last := s[|s| - 1];
      assert Text.IsDigit(last);
      DigitsValue(s[..|s| - 1]) * 10 + (last as int - '0' as int)
  }

  /** Decimal rendering of an id, as fmt's %d writes it: digits that read back as `n`, no leading zero. */
  function DecimalString(n: nat): (s: string)
    ensures |s| >= 1
    ensures forall i | 0 <= i < |s| :: Text.IsDigit(s[i])
    ensures DigitsValue(s) == n
    ensures |s| > 1 ==> s[0] != '0'
    ensures n > 0 ==> s[0] != '0'
    decreases n
  {
    if n < 10 then
      var s := [('0' as int + n) as char];
      assert s[..0] == [];
      s
    else
      var prefix := DecimalString(n / 10);
      var s := prefix + [('0' as int + n % 10) as char];
      assert s[..|s| - 1] == prefix;
      s
  }
}
