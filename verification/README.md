# Movie reservation system: authentication, middleware and seat bookkeeping in Dafny

This project models the core of a Go movie reservation API. It covers:

- the JWT session scheme: access and refresh tokens, the in-memory refresh-token store, renewal with reuse detection, and logout;
- the account service (sign-up and login) and the email and password validators;
- the middleware chain of authentication, admin gate, per-client token-bucket rate limiting and CORS;
- the HTTP handlers for register, login and logout;
- the showtime seat counter, with the reservation service and list that use it.

Everything is pure functions over immutable datatypes. Go's in-place mutation through `*T` receivers becomes a function that returns the new value (a new store, table, limiter or showtime). The HTTP layer is modelled as data going in and a status code plus the changed state coming out.

The model abstracts these pieces:

- **JWT library.** A JWT is made and read through an abstract `Codec` whose `sign`, `decode` and `verify` satisfy `WellFormed`: a signed token decodes to its algorithm and claims, and verifies under its key. `Jwt.Parse` models the library's checks (malformed, signing-method restriction, signature, `exp`).
- **Password hashing.** bcrypt is an abstract `Hasher`. `SoundHasher` says a hash matches its own password.
- **Database.** The database is a `map` keyed by normalized email, or a `bool` saying whether a write succeeds.
- **Clock.** The clock is a parameter `now`: whole seconds for JWTs and showtimes, and a `real` for the rate limiter, which works on `float64` seconds.
- **Request bodies.** A decoded request body is an `Option`. `None` is a body that failed to decode.

## Model

| member | source | states |
|---|---|---|
| TokenStore.NewSafeTokenStore | models/tokenStoreModel.go:12-16 | a new store holds no token for any user |
| TokenStore.Get | models/tokenStoreModel.go:24-29 | returns the stored token exactly when the user has one |
| TokenStore.Set | models/tokenStoreModel.go:18-22 | the user's token becomes the given one; every other user's entry is unchanged |
| TokenStore.Delete | models/tokenStoreModel.go:31-35 | the user has no token afterwards; every other user's entry is unchanged; deleting an absent user changes nothing |
| TokenStore.Validate | models/tokenStoreModel.go:37-42 | true iff the user has a stored token equal to the candidate |
| TokenStore.NewStoreValidatesNothing | models/tokenStoreModel.go:12-16 | no token validates against a new store |
| TokenStore.SetValidatesOnlyNewToken | models/tokenStoreModel.go:18-22 | after Set, the given token, and only that token, validates for the user |
| TokenStore.DeleteRevokes | models/tokenStoreModel.go:31-35 | after Delete, no token validates for the user |
| TokenStore.DeleteIdempotent | models/tokenStoreModel.go:31-35 | deleting twice is deleting once |
| Users.UserPromotion | models/usersModel.go:21-31 | a non-admin actor gets NotAdmin; an admin target gets AlreadyAdmin; only an admin acting on a non-admin succeeds and sets the flag; no other field changes |
| Users.UserDemotion | models/usersModel.go:33-43 | a non-admin actor gets NotAdmin; so does a non-admin target; only an admin acting on an admin succeeds and clears the flag; no other field changes |
| Users.FailedChangeKeepsTarget | models/usersModel.go:21-43 | a refused promotion or demotion leaves the target record untouched |
| Users.PromoteThenDemoteRestores | models/usersModel.go:21-43 | an admin promoting a non-admin and then demoting them gives back the original record |
| Jwt.SignInjective | models/jwtModel.go:5-9 | under a well-formed codec, two claim sets that sign to the same token are equal |
| Jwt.Parse | services/authService.go:182-207 | an undecodable token is Malformed; a non-HMAC token is refused when HMAC is required; a bad signature is an error; success means the token decoded, verified and is not expired |
| Jwt.ParseSigned | services/authService.go:182-207 | a token signed with the key parses back to exactly its claims until expiry, and to Expired from then on |
| Jwt.ValidateJWT | services/authService.go:182-207 | a token whose algorithm is not HMAC is refused with UnexpectedSigningMethod; success implies it decoded and verified under the key |
| Jwt.ExplicitExpiryRedundant | services/authService.go:200-204 | the explicit `exp` comparison never changes the outcome of the library's own expiry check |
| Jwt.ValidateSigned | services/authService.go:182-207 | an HMAC token signed with the key validates iff it is not expired, and then yields its own claims |
| Jwt.DecimalString | services/authService.go:107 | the `%d` rendering of a user id used in the subject claim: a non-empty string of digits, whose first digit is zero only when it is the single digit "0", and whose decimal value is the id |
| Text.ToLower | utils/emailValidator.go:35-45 | same length; each upper-case ASCII letter moves to lower case, every other character is kept |
| Text.ToLowerIdempotent | utils/emailValidator.go:35-45 | lower-casing twice is lower-casing once |
| Text.ToLowerFixesLower | utils/emailValidator.go:35-45 | a string without upper-case letters is its own lower-casing |
| Text.Split | middleware/corsMiddleware.go:36 | at least one field; no field holds the separator; joining the fields with the separator gives back the input |
| Text.SplitJoin | middleware/corsMiddleware.go:36 | splitting the join of separator-free fields gives back those fields |
| Text.SplitFirst | handlers/authHandler.go:261-265 | the first field is the whole input when the separator is absent, and otherwise the prefix before its first occurrence |
| Text.SplitLastEmpty | middleware/corsMiddleware.go:36 | the last field is empty exactly when the input is empty or ends with the separator |
| Text.TrimSpace | middleware/corsMiddleware.go:37-39 | the result is the input with white space removed from both ends, and has none left at either end |
| Text.TrimSpaceKeepsOut | handlers/authHandler.go:261-265 | trimming introduces no character the input lacked |
| Text.TrimSpaceIdempotent | middleware/corsMiddleware.go:37-39 | trimming twice is trimming once |
| EmailValidator.ValidateEmail | utils/emailValidator.go:9-27 | empty gives EmptyEmail; over 254 characters gives TooLong; accepted iff non-empty, short enough and matching the email pattern |
| EmailValidator.DomainMatchesPattern | utils/emailValidator.go:20 | the executable domain matcher agrees with the regex's domain grammar on every input |
| EmailValidator.MatchesEmailPattern | utils/emailValidator.go:20 | the executable matcher agrees with the full email grammar on every input |
| EmailValidator.AcceptedHasOneAt | utils/emailValidator.go:9-27 | an accepted address contains exactly one '@' |
| EmailValidator.NormalizeEmail | utils/emailValidator.go:30-32 | same length, upper-case letters lowered, everything else kept, no upper case left |
| EmailValidator.NormalizeIdempotent | utils/emailValidator.go:30-32 | normalizing twice is normalizing once |
| EmailValidator.NormalizeKeepsValid | utils/emailValidator.go:9-32 | normalizing an accepted address gives an accepted address |
| PasswordValidator.ValidatePassword | utils/passwordValidator.go:16-48 | shorter than 12 gives TooShort with the length; accepted iff long enough, with upper, lower, digit and special characters, and no common pattern; TooCommon only for a common password |
| PasswordValidator.IsCommonPassword | utils/passwordValidator.go:51-76 | true iff one of the listed patterns occurs in the lower-cased password |
| PasswordValidator.CommonIgnoresCase | utils/passwordValidator.go:51-76 | the common-pattern test gives the same answer for a password and its lower-casing |
| PasswordValidator.GetPasswordStrength | utils/passwordValidator.go:79-134 | under 8 characters is "Very Weak"; the result is one of "Very Weak", "Weak", "Fair", "Good" and "Strong", so the "Very Strong" branch is unreachable |
| PasswordValidator.StrengthTable | utils/passwordValidator.go:120-133 | from 8 characters on, each label is given for exactly its scores: 0-1 "Very Weak", 2 "Weak", 3 "Fair", 4 "Good", 5 or more "Strong"; under 8 characters the label is "Very Weak" |
| PasswordValidator.ScoreBound | utils/passwordValidator.go:84-118 | the strength score is at most 6 |
| PasswordValidator.StrongNeedsTwelve | utils/passwordValidator.go:79-134 | "Strong" requires at least 12 characters |
| PasswordValidator.AcceptedIsStrong | utils/passwordValidator.go:16-134 | every password ValidatePassword accepts is rated "Strong" |
| AuthService.IssueTokens | services/authService.go:99-134 | fails, leaving the store as it was, exactly when a signing fails; on success stores the new refresh token for the user and returns the signed access and refresh tokens |
| AuthService.GenerateToken | services/authService.go:99-134 | on success the store is the old store with the user's entry set to the new refresh token; on failure it is unchanged |
| AuthService.IssuedTokensValidate | services/authService.go:99-134 | the access token validates with the user's id and admin flag for 900 seconds and is Expired after; the refresh token parses for 86400 seconds; only that refresh token validates in the store |
| AuthService.Logout | services/authService.go:137-141 | no refresh token validates for the user afterwards; every other user's entry is unchanged |
| AuthService.SignUp | services/authService.go:25-65 | an invalid email is refused; an existing normalized email gets AlreadyExists; any error leaves the table unchanged; a new row is keyed by the normalized email and holds the hash |
| AuthService.SignUpKeepsTableInv | services/authService.go:25-65 | sign-up keeps every row keyed by its own email, which is lower-case and a valid address, with an id below the next id to be assigned |
| AuthService.Login | services/authService.go:67-96 | succeeds iff the submitted email is a stored key as given and the hash matches; then returns that row; otherwise InvalidCredentials |
| AuthService.LoginNormalized | services/authService.go:67-96 | the corrected login looks up the normalized email |
| AuthService.MixedCaseRegistrationCannotLogIn | services/authService.go:32 | an account registered with an upper-case letter in its email can never log in with that same email |
| AuthService.RegisteredUserCanLogIn | services/authService.go:25-96 | with the corrected login, a user just registered can log in with the same email and password |
| AuthService.SignUpStoresSubmittedAdminFlag | models/usersModel.go:16 | a register body that sets the admin flag creates an admin account |
| AuthService.SignUpNonAdmin | services/authService.go:52-55 | the corrected sign-up never creates an admin row |
| JwtMiddleware.Rotate | middleware/jwtMiddleware.go:31-83 | no cookie gives 401; an unparsable refresh token gives 401; a token other than the stored one gives 401 and revokes the user's stored token; when the cookie is the stored token, a signing failure gives 500 with the store unchanged, and otherwise the newly issued access and refresh tokens are returned and the store holds the new refresh token |
| JwtMiddleware.RenewToken | middleware/jwtMiddleware.go:31-83 | the renewal handler, with the new pair from GenerateToken: no cookie gives 401; an unparsable token gives 401; a token other than the stored one gives 401 and revokes the stored one; for the stored token, a signing failure gives 500 with the store unchanged, and otherwise the issued pair is returned and the store rotated to the new refresh token |
| JwtMiddleware.RenewTokenFreshId | middleware/jwtMiddleware.go:31-83 | the same handler issuing tokens with a fresh token id: the same 401 cases, and for the stored token the pair issued with that id, or 500 with the store unchanged |
| JwtMiddleware.RotationRevokesPresented | middleware/jwtMiddleware.go:50-63 | after a rotation whose new claims differ from the presented ones, the presented refresh token no longer validates; replaying it later is refused with 401, and while it still parses the refusal is reuse detection, which leaves no entry for the user |
| JwtMiddleware.SameSecondRenewalKeepsOldToken | services/authService.go:116-128 | a renewal in the second the tokens were issued re-issues the identical refresh token, so the old one stays valid |
| JwtMiddleware.FreshIdRenewalRevokesOldToken | middleware/jwtMiddleware.go:50-63 | with distinct token ids, a renewal always revokes the refresh token it consumed |
| JwtMiddleware.Protect | middleware/jwtMiddleware.go:85-111 | no cookie is 401; a cookie read error is 400; an invalid access token is 401; the request passes with the claims iff the token validates |
| JwtMiddleware.ProtectRefusesForeignMethod | middleware/jwtMiddleware.go:85-111 | a token signed with a non-HMAC algorithm never passes |
| AdminMiddleware.AdminGate | middleware/adminMiddleware.go:9-28 | no claims is 401; a non-admin is 403; the next handler runs iff the claims carry the admin flag |
| AdminMiddleware.AdminGateOnlyReadsFlag | middleware/adminMiddleware.go:9-28 | two claim sets with the same admin flag get the same decision |
| AdminMiddleware.ProtectThenAdmin | server/urls.go:112 | the protected admin route runs iff the access token validates and carries the admin flag |
| AdminMiddleware.AdminTokenPassesUntilExpiry | server/urls.go:112 | an admin access token passes the chain before its expiry and is refused with 401 from then on |
| RateLimit.NewRateLimiter | middleware/rateLimitMiddleware.go:32-44 | the given rate and burst, a 300-second sweep period and no buckets |
| RateLimit.Min | middleware/rateLimitMiddleware.go:99-104 | the result is one of the two arguments and bounded by both |
| RateLimit.Refilled | middleware/rateLimitMiddleware.go:82-87 | the refilled count is the smaller of the burst size and the old count plus elapsed time times rate |
| RateLimit.Allow | middleware/rateLimitMiddleware.go:65-96 | only the key's bucket changes; it is stamped now; the call is admitted iff the refilled count is at least one, and then one token is consumed |
| RateLimit.AllowKeepsInv | middleware/rateLimitMiddleware.go:65-96 | with a non-negative rate and burst and a clock that does not go backwards, every bucket stays between 0 and burst |
| RateLimit.NewRateLimiterInv | middleware/rateLimitMiddleware.go:32-44 | a new limiter satisfies the bucket invariant |
| RateLimit.Repeat | middleware/rateLimitMiddleware.go:65-96 | n calls give n decisions and change nothing but the buckets |
| RateLimit.DrainAtInstant | middleware/rateLimitMiddleware.go:65-96 | at one instant, a bucket that refills to k tokens admits exactly the first k calls and keeps the unused tokens |
| RateLimit.FreshKeyAdmitsBurst | middleware/rateLimitMiddleware.go:71-79 | an unseen key gets exactly burst calls at once, and the next is rejected |
| RateLimit.AuthLimiterScenario | server/urls.go:51 | the auth limiter (5/s, burst 20) admits 20 then rejects; one second later it admits 5 then rejects |
| RateLimit.Sweep | middleware/rateLimitMiddleware.go:47-62 | keeps exactly the buckets refilled within the last hour, unchanged, and nothing else changes |
| RateLimit.SweepKeepsInv | middleware/rateLimitMiddleware.go:47-62 | sweeping keeps the bucket invariant, and sweeping twice at one instant is sweeping once |
| RateLimit.SweepSparesRecentKey | middleware/rateLimitMiddleware.go:54-59 | a sweep does not change the next decision for a key used within the hour |
| RateLimit.SweptKeyStartsFull | middleware/rateLimitMiddleware.go:54-59 | a key swept for idleness is admitted next time with a full bucket less one |
| RateLimit.ClientKey | middleware/rateLimitMiddleware.go:132-146 | the whole X-Forwarded-For value if present, else X-Real-IP, else the remote address |
| RateLimit.FreshForwardedForIsAdmitted | middleware/rateLimitMiddleware.go:107-146 | a client that sends a new X-Forwarded-For value is always admitted, whatever it consumed before |
| RateLimit.RateLimitGate | middleware/rateLimitMiddleware.go:107-129 | 429 iff the client's bucket refuses; otherwise the next handler runs; the limiter is updated either way |
| AuthHandler.Contains | handlers/authHandler.go:246-253 | true iff the substring occurs in the string |
| AuthHandler.InfixBounds | handlers/authHandler.go:246-253 | the empty string occurs everywhere; a longer string never occurs |
| AuthHandler.IsValidEmail | handlers/authHandler.go:209-243 | true iff the address has 1 to 254 characters and exactly one '@', neither first nor last, with at most 64 characters before it and at least 3 after it, among them a '.' |
| AuthHandler.EmailChecksDisagree | handlers/authHandler.go:209-243 | the handler's check and the service's validator disagree in both directions, and each side has a witness |
| AuthHandler.FirstField | handlers/authHandler.go:261-265 | the first comma-separated field holds no comma |
| AuthHandler.GetClientIP | handlers/authHandler.go:257-274 | the trimmed first X-Forwarded-For entry if the header is present, else X-Real-IP, else the remote address; never contains a comma |
| AuthHandler.LoggedAndLimitedKeysDiffer | handlers/authHandler.go:257-274 | with a multi-entry X-Forwarded-For, the IP the handlers log differs from the key the limiter counts |
| AuthHandler.RegisterHandler | handlers/authHandler.go:34-81 | non-POST is ignored; a bad body, a missing field, a bad email format or a weak password gives 400 with the table unchanged; otherwise the sign-up result gives 500 or 201; a table change implies every check passed |
| AuthHandler.LoginHandler | handlers/authHandler.go:83-158 | non-POST is ignored; a bad body gives 400; a failed login gives 401; after a successful login, a signing failure gives 500 and otherwise both issued tokens are set as cookies; only a success changes the store, and then it holds the issued refresh token |
| AuthHandler.LogoutHandler | handlers/authHandler.go:160-206 | non-POST is ignored; no claims gives 401 and the store is unchanged; otherwise the user's refresh token is deleted |
| AuthHandler.SessionLifecycle | handlers/authHandler.go:83-206 | after a login the access cookie passes Protect until expiry; after logout the refresh cookie is refused as reuse |
| Cors.TrimAll | middleware/corsMiddleware.go:37-39 | one trimmed entry per field, in order |
| Cors.SplitCount | middleware/corsMiddleware.go:36 | splitting yields one more field than there are separators |
| Cors.ParseOrigins | middleware/corsMiddleware.go:36-39 | one entry per comma-separated field, each the field with white space trimmed from both ends; so one more entry than commas, none containing a comma or white space at either end |
| Cors.TrimSpaceFixesTrimmed | middleware/corsMiddleware.go:37-39 | an entry without surrounding white space is its own trim |
| Cors.ParseJoinedOrigins | middleware/corsMiddleware.go:36-39 | trimmed, comma-free origins joined with commas parse back to the same list |
| Cors.NewCORSMiddleware | middleware/corsMiddleware.go:19-46 | the origin list is the parsed setting and OPTIONS is an allowed method |
| Cors.IsOriginAllowed | middleware/corsMiddleware.go:82-89 | true iff some entry equals the origin or is "*" |
| Cors.OriginListExtremes | middleware/corsMiddleware.go:82-89 | an empty list admits nothing; a list containing "*" admits everything |
| Cors.EmptyFieldAdmitsMissingOrigin | middleware/corsMiddleware.go:36-39 | a setting that ends in a comma lets requests with no Origin header through the origin check |
| Cors.Handle | middleware/corsMiddleware.go:49-79 | the origin is echoed with credentials iff it is allowed; max-age is 300; OPTIONS is answered with 204 and stops the chain; anything else goes on |
| Cors.WildcardEchoesEveryOrigin | middleware/corsMiddleware.go:56-59 | with "*" configured, every origin is echoed back with credentials allowed |
| Showtime.NewShowTime | models/showtimeModel.go:23-31 | the five given fields and no theater loaded |
| Showtime.BeforeSave | models/showtimeModel.go:33-55 | a failed theater lookup returns the lookup error; a missing theater is refused; success iff a theater is loaded, the seats are between 0 and its capacity, and the start is not before now |
| Showtime.NewShowTimeSaves | models/showtimeModel.go:23-55 | a new showtime saves iff its theater id names a stored theater whose capacity bounds the seats and the start is not in the past |
| Showtime.SeatReserveAvailability | models/showtimeModel.go:57-64 | refuses iff more seats are asked than are available; otherwise subtracts exactly the request |
| Showtime.SeatReturn | models/showtimeModel.go:66-68 | the seat count grows by the returned seats and every other field is unchanged |
| Showtime.ReserveThenReturn | models/showtimeModel.go:57-68 | a successful reservation followed by returning the same count restores the showtime |
| Showtime.ReserveKeepsNonNegative | models/showtimeModel.go:57-64 | a non-negative request never drives a non-negative counter below zero or above where it was |
| Showtime.NegativeReserveAddsSeats | models/showtimeModel.go:57-64 | a negative request passes the check and increases the available seats |
| Showtime.ReserveKeepsSaveable | models/showtimeModel.go:33-64 | reserving seats on a saveable showtime leaves it saveable |
| Reservations.NewReservation | models/reservationModel.go:17-24 | the four given fields and not expired |
| Reservations.SetExpired | models/reservationModel.go:26-28 | sets the expired mark and changes nothing else |
| Reservations.SetExpiredIdempotent | models/reservationModel.go:26-28 | marking twice is marking once |
| Reservations.NewReservationModel | models/reservationModel.go:37-41 | a new list is empty |
| Reservations.Create | models/reservationModel.go:43-45 | appends the reservation after the existing ones |
| Reservations.CreateAllInOrder | models/reservationModel.go:43-49 | Get lists the earlier reservations followed by the created ones, in creation order |
| Reservations.CreateReservation | services/reservationService.go:19-28 | not enough seats gives the seat error and leaves the showtime alone; otherwise the seats are taken, and the result is the reservation or, on a failed insert, a database error |
| Reservations.CancelReservation | services/reservationService.go:38-45 | the seats are returned whether or not the delete succeeds; no error iff the delete succeeds |
| Reservations.CreateThenCancelRestores | services/reservationService.go:19-45 | cancelling a reservation that passed the seat check restores the showtime |
| Reservations.FailedInsertKeepsSeatsTaken | services/reservationService.go:19-28 | a failed insert after the seat check still leaves the seats taken |
| Reservations.BookAccountsForSeats | services/reservationService.go:19-28 | over a run of successful bookings with non-negative counts, the drop in available seats equals the seats booked, and never goes below zero |

## Left out

- The JWT library and codec are abstract. HMAC-SHA256, base64url and JSON claim encoding are not modelled. Of the library's claim checks only `exp` is modelled; `nbf`, `iat` and audience checks are not used by the code.
- bcrypt is the abstract `Hasher`: hashing is a partial function and comparison is a predicate.
- gorm is left out. Tables are maps and each write is a success flag. Client-supplied `gorm.Model` fields (ID, CreatedAt) in a register body are not modelled. The showtime's theater lookup is a map.
- Concurrency is left out: the store's mutex, the limiter's mutex, and the cleanup ticker goroutine, whose sweep body is `Sweep`. Because operations are atomic here, the non-atomic get/delete/set sequence of the renewal handler (middleware/jwtMiddleware.go:50-59) cannot race in the model.
- `float64` token counts are exact reals, with no rounding.
- Integer seats, prices and ids are unbounded; 64-bit overflow is not modelled.
- Time is whole seconds (a `real` for the rate limiter). `time.Now` is a parameter.
- Cookie attributes are left out (HttpOnly, Secure, SameSite, Path, MaxAge), as are the X-RateLimit response headers (middleware/rateLimitMiddleware.go:115-124), the security-headers middleware and response bodies.
- Strings are ASCII: `ToLower` and the `unicode` character classes are modelled on ASCII only.
- Environment defaults for the CORS origin setting (middleware/corsMiddleware.go:22-34) are left out; `NewCORSMiddleware` takes the resulting setting.
- Left out: the security audit logger, the movie/theater/showtime/reservation CRUD handlers and the commented-out legacy token code in services/authService.go.
- PasswordValidator.GetPasswordStrength: its own contract states the length floor and the label range only; the score-to-label table is stated by PasswordValidator.StrengthTable.

## Findings

| source | as written | input that shows it | evidently intended | confidence | as-written member | corrected member |
|---|---|---|---|---|---|---|
| services/authService.go:116-128 | the refresh token's claims hold only id, admin flag, subject and times, with no token id | a renewal in the same second as the login that issued the token: the new refresh token equals the consumed one, so the consumed token is still valid | each rotation revokes the refresh token it consumed | not executed | JwtMiddleware.SameSecondRenewalKeepsOldToken | JwtMiddleware.FreshIdRenewalRevokesOldToken |
| services/authService.go:78 | Login looks up the submitted email as typed, while SignUp stores it lower-cased | register "Ann@ex.com", then log in with "Ann@ex.com": InvalidCredentials | login normalizes the email as sign-up does | not executed | AuthService.MixedCaseRegistrationCannotLogIn | AuthService.RegisteredUserCanLogIn |
| models/usersModel.go:16 | the admin flag's JSON tag names the field "omitempty", so the flag is decoded from the register body and stored | a register body with `"omitempty": true` creates an admin account | accounts are created as non-admins and only promotion grants the flag | not executed | AuthService.SignUpStoresSubmittedAdminFlag | AuthService.SignUpNonAdmin |
