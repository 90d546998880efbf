# backend-go authentication core in Dafny

This project models the authentication core of the `backend-go` portfolio
API server and proves properties of it. The modelled parts are:

- the auth service: register, login, refresh, logout, access-token
  validation and Argon2id password hashing;
- the refresh-token and user stores, as in-memory tables;
- the bearer-token middleware and the CORS middleware;
- configuration loading;
- the four read-only JSON-file repositories.

Layout, one module per file:

| file | module | models |
|---|---|---|
| `wrappers.dfy` | `Wrappers` | `Option`, `Result`, `Outcome` |
| `strings.dfy` | `Strings` | `strings.Split` on one character, `strings.TrimSpace` |
| `models.dfy` | `Models` | the stored records, time as integer nanoseconds |
| `jwt.dfy` | `Jwt` | a symbolic HS256 token and the jwt v5 parse order |
| `password.dfy` | `PasswordHash` | `hashPassword`, `verifyPassword`, `splitPasswordHash`, `subtle` |
| `user_repo.dfy` | `UserRepo` | `PGUserRepository` as a class over a map |
| `refresh_token_repo.dfy` | `RefreshTokenRepo` | `PGRefreshTokenRepository` as a class over a map |
| `config.dfy` | `Config` | `Load`, `parseDuration` |
| `http.dfy` | `Http` | the request fields the middleware reads |
| `cors.dfy` | `Cors` | the `CORS` middleware |
| `auth_gate.dfy` | `AuthGate` | the `Auth` middleware and `GetUserID` |
| `json_repo.dfy` | `JsonRepo` | the four `JSON*Repository` types, as one generic class |
| `auth_service.dfy` | `AuthService` | `AuthService` and the token lifecycle |

How the model stands in for what it does not run:

- Time is an integer count of nanoseconds. Every `time.Now()` inside one call
  is the single parameter `now`.
- Randomness is supplied by the caller:
  - the 16-byte salt is `Option<Salt>`, where `None` means `rand.Read` failed;
  - the IDs that `generateID` makes are `newId` and `newJti`.
- Argon2id and base64 are function values in `Primitives`. The facts the
  proofs use about them are collected in `Lawful`, and the lemmas that need
  those facts take `Lawful` as a hypothesis.
- A database connection is the flag `online`. When the database is down,
  every statement fails and nothing changes.

Main results:

- A whole session is proved end to end: register, log in, refresh, log out,
  then refresh again. The last refresh fails with "token has been revoked".
- Revocation is monotonic.
- Logging one token out changes the answer for no other token.
- With distinct secrets, an access token and a refresh token cannot stand in
  for each other. When both secret variables are unset they are both `""`,
  and then a refresh token is accepted as an access token.
- A refresh token issued by `Login` stops working at the whole second its
  `exp` claim was rounded down to. That is never later than the expiry
  stored with its record, so the stored-expiry check never fires for such a
  token. The one exception is an `exp` that rounds to second 0, which the
  library reads as no expiry.
- An access lifetime under one second gives a token that is refused at the
  instant it was issued whenever it is issued on a whole second other than
  0. Issued later within a second, it can still be accepted until the next
  whole second.

Behaviours of the code worth knowing:

- Logout refuses an expired refresh token. `jwt.Parse`'s default
  validation rejects a past `exp`, so Logout returns that error, one that
  wraps `ErrTokenExpired`, and revokes nothing
  (`ExpiredTokenCannotLogOut`).
- `splitPasswordHash` splits at every ':' and drops only one trailing empty
  piece. A stored value with something after a second ':' has three parts
  and never verifies (`PasswordPartsSplitsEveryColon`). A value ending in
  that second ':' has the same two parts as the value without it
  (`PasswordPartsDropsOneTrailingEmpty` and `PasswordPartsSplitsEveryColon`).
  Base64 has no ':', so hashes that `hashPassword` produced are unaffected.
- Inserting a refresh-token record whose JTI is already stored is a plain
  `INSERT`. Whether it fails depends on a table schema that is not part of
  this model, so the contracts leave that case open.
- Revoking a record that is already revoked runs the `UPDATE` again and
  overwrites `revoked_at` with the new time. The row stays revoked
  (`RevocationIsMonotonic`), but the timestamp moves.
- `Load` copies `JWT_SECRET` and `JWT_REFRESH_SECRET` verbatim, including
  as `""`, and nothing compares them. When they are equal, a live refresh
  token is accepted as an access token (`SharedSecretAdmitsRefreshTokens`).

## Model

| member | source | states |
|---|---|---|
| Strings.Split | internal/middleware/auth.go:34 | `strings.Split` on one character keeps empty pieces and gives one more piece than there are separators |
| Strings.JoinSplit | internal/config/config.go:28 | splitting loses nothing: joining the pieces with the separator gives back the input |
| Strings.SplitIsPair | internal/middleware/auth.go:34-35 | the split is exactly `[a, b]` iff the input is `a`, one separator, `b`, and neither part contains the separator |
| Strings.TrimSpace | internal/config/config.go:30 | the input is leading white space, then the result, then trailing white space; the result neither starts nor ends with white space |
| Jwt.Sign | internal/services/auth_service.go:249-250 | signing produces an HS256 token carrying exactly the given claims and key |
| Jwt.ValidateTimes | internal/services/auth_service.go:105-112 | the default validation passes iff any `exp` is a number that is 0 or later than now and any `nbf` is a number that is 0 or not later than now; the expiry failure (`ErrTokenExpired`) exactly when a non-zero `exp` has passed and `nbf` is not a string |
| Jwt.Parse | internal/services/auth_service.go:105-112 | parsing with the HMAC-only key function succeeds iff the algorithm is HMAC, the key matches and the times pass; the error is fixed for each failure in the library's order: malformed, then non-HMAC, then wrong key, then the time check's own failure |
| Jwt.StringClaim | internal/services/auth_service.go:121-129 | a claim is read as a string iff it is present and holds a string |
| Jwt.SignThenParse | internal/services/auth_service.go:242-251 | a token parses under its own key and gives back its claims when its times accept now |
| Jwt.ParseUnderOtherKey | internal/services/auth_service.go:183-191 | under any other key the same token is refused for its signature |
| PasswordHash.HashPassword | internal/services/auth_service.go:209-220 | no hash iff the random source failed; otherwise base64 salt, ':' and base64 Argon2id digest |
| PasswordHash.PasswordParts | internal/services/auth_service.go:274-289 | the ':'-separated pieces, empty ones kept, with only a trailing empty piece dropped |
| PasswordHash.SplitPasswordHash | internal/services/auth_service.go:274-289 | the character loop computes exactly `PasswordParts` |
| PasswordHash.PasswordPartsSplitsEveryColon | internal/services/auth_service.go:274-289 | every ':' ends a piece, so "a:b:c" has three parts (and fails the two-part check at line 223), while "a:b:" loses its empty last piece and has the two parts of "a:b" |
| PasswordHash.PasswordPartsDropsOneTrailingEmpty | internal/services/auth_service.go:284-288 | a single trailing empty piece is dropped ("a:" gives ["a"]) but an inner empty piece is kept ("a::" gives ["a", ""]) |
| PasswordHash.PasswordPartsOfPair | internal/services/auth_service.go:218 | `s + ":" + h` splits back into `[s, h]` when neither part has ':' and `h` is not empty |
| PasswordHash.Subtle | internal/services/auth_service.go:291-300 | the OR-accumulating comparison is true iff the two byte strings are equal |
| PasswordHash.VerifyPassword | internal/services/auth_service.go:222-240 | true iff there are exactly two parts, both decode, and the stored digest equals the candidate's digest under the stored salt |
| PasswordHash.VerifyEncodedHash | internal/services/auth_service.go:209-240 | under lawful primitives a candidate verifies against a stored hash iff its digest matches; the hashed password always verifies |
| PasswordHash.DistinctSaltsDistinctHashes | internal/services/auth_service.go:209-218 | the same password under two different salts gives two different stored hashes |
| UserRepo.UserRepository.Create | internal/repositories/user_repo.go:23-27 | success inserts exactly the given row, failure changes nothing, and no email check is made |
| UserRepo.UserRepository.GetByEmail | internal/repositories/user_repo.go:29-40 | an error iff the database is down; otherwise a stored row with exactly that email, absent iff there is none |
| UserRepo.UserRepository.GetByID | internal/repositories/user_repo.go:42-53 | an error iff the database is down; otherwise the row with that id, absent iff there is none |
| UserRepo.InsertNewEmailKeepsUnique | internal/services/auth_service.go:33-39 | inserting a user whose email is new keeps emails unique |
| RefreshTokenRepo.Inserted | internal/repositories/refresh_token_repo.go:25-29 | the inserted row keeps jti, user id, expiry and creation time and has no revocation time |
| RefreshTokenRepo.RevokeRow | internal/repositories/refresh_token_repo.go:44-48 | only the matching row gets the revocation time; keys and every other row are unchanged; a missing JTI changes nothing |
| RefreshTokenRepo.DeleteExpiredRows | internal/repositories/refresh_token_repo.go:50-54 | exactly the rows with expiry strictly before now are removed; the rest are unchanged |
| RefreshTokenRepo.Lookup | internal/repositories/refresh_token_repo.go:31-42 | an error iff the database is down; otherwise the row with that JTI, absent iff there is none |
| RefreshTokenRepo.RefreshTokenRepository.Create | internal/repositories/refresh_token_repo.go:25-29 | success inserts the row with no revocation time; failure changes nothing |
| RefreshTokenRepo.RefreshTokenRepository.GetByJTI | internal/repositories/refresh_token_repo.go:31-42 | answers exactly `Lookup` and writes nothing |
| RefreshTokenRepo.RefreshTokenRepository.Revoke | internal/repositories/refresh_token_repo.go:44-48 | succeeds iff the database is up, and then the table becomes `RevokeRow` of the old one |
| RefreshTokenRepo.RefreshTokenRepository.DeleteExpired | internal/repositories/refresh_token_repo.go:50-54 | succeeds iff the database is up, and then the table becomes `DeleteExpiredRows` of the old one |
| RefreshTokenRepo.RevocationIsMonotonic | internal/repositories/refresh_token_repo.go:25-54 | a revoked row stays revoked through Revoke, through DeleteExpired if it survives, and through inserts of other JTIs |
| Config.ParseDuration | internal/config/config.go:50-59 | the default when the string is empty or does not parse, the parsed value otherwise |
| Config.TrimEach | internal/config/config.go:29-31 | the in-place loop leaves every origin trimmed by `TrimSpace`, and no entry is added or lost |
| Config.Load | internal/config/config.go:19-48 | port defaults to "8080"; a non-empty CORS_ORIGINS gives commas+1 entries, each the trimmed piece; an empty one gives the development origin; TTLs default to 15 min and 168 h; the URL and secrets are copied verbatim |
| Cors.OriginAllowed | internal/middleware/cors.go:11-17 | the loop answers true iff some configured origin equals the request's Origin or is "*" |
| Cors.Handle | internal/middleware/cors.go:5-36 | Allow-Origin is the request's own Origin when allowed, else `origins[0]`, else untouched; the three fixed headers are always set; OPTIONS gets 204 and everything else goes on; no other header changes |
| AuthGate.BearerToken | internal/middleware/auth.go:34-40 | a token is extracted only from a header that is "Bearer ", then that token, which has no space in it |
| AuthGate.BearerTokenShape | internal/middleware/auth.go:33-40 | the split-based check accepts exactly "Bearer " followed by a space-free token, and the token is the rest of the header |
| AuthGate.BearerTokenExamples | internal/middleware/auth.go:34-38 | "Bearer", "Token abc", "bearer abc" and "Bearer  abc" are refused; "Bearer abc" gives "abc" and "Bearer " gives "" |
| AuthGate.Gate | internal/middleware/auth.go:17-52 | GET and OPTIONS pass unchanged; every refusal is 401; a protected request passes only with a validated token, and only its user ID is added |
| AuthGate.GetUserID | internal/middleware/auth.go:55-61 | the user ID the gate attached, or "" when none was attached |
| AuthGate.GateMissingHeader | internal/middleware/auth.go:27-31 | a protected request without the header gets 401 "missing authorization header" |
| AuthGate.GateFormat | internal/middleware/auth.go:33-38 | a present header gets 401 "invalid authorization header format" iff it is not a well-formed bearer header |
| AuthGate.GateValidates | internal/middleware/auth.go:40-49 | every validation error gives the same 401 "invalid or expired token"; success passes the request on with exactly the validated user ID |
| JsonRepo.JsonRepository.GetByID | internal/repositories/json_post_repo.go:41-52 | a list error propagates; otherwise the first item with that ID, absent iff none has it (the contact, project and skill files repeat this at lines 40-51) |
| JsonRepo.JsonRepository.Create | internal/repositories/json_post_repo.go:54-56 | always `ReadOnly`; nothing can change |
| JsonRepo.JsonRepository.Update | internal/repositories/json_post_repo.go:58-60 | always `ReadOnly`; nothing can change |
| JsonRepo.JsonRepository.Delete | internal/repositories/json_post_repo.go:62-64 | always `ReadOnly`; nothing can change |
| JsonRepo.NewPostRepository | internal/repositories/json_post_repo.go:23-25 | a repository over the post file, keyed by `Post.ID` |
| JsonRepo.NewContactRepository | internal/repositories/json_contact_repo.go:22-24 | a repository over the contact file, keyed by `Contact.ID` |
| JsonRepo.NewProjectRepository | internal/repositories/json_project_repo.go:22-24 | a repository over the project file, keyed by `Project.ID` |
| JsonRepo.NewSkillRepository | internal/repositories/json_skill_repo.go:22-24 | a repository over the skill file, keyed by `Skill.ID` |
| AuthService.ValidateAccessToken | internal/services/auth_service.go:182-205 | accepted iff an HMAC token signed with the access secret, live at now, with a string "sub", which is the answer; every parse failure is "invalid access token" |
| AuthService.AccessClaims | internal/services/auth_service.go:242-251 | exactly the claims "sub", "exp" and "iat": the subject, then expiry and issue time each rounded down to a whole Unix second |
| AuthService.RefreshClaims | internal/services/auth_service.go:253-266 | the access-token claims plus "jti" holding the token's ID |
| AuthService.RefreshResult | internal/services/auth_service.go:103-153 | the checks in the code's order: "invalid refresh token" iff the parse fails; then a missing string "sub" gives `InvalidUserId`, then a missing string "jti" `InvalidJti`; a store error is passed on; an absent record gives "token not found", a revoked one "token has been revoked", one past its stored expiry "token has expired"; otherwise success, a new access token for sub |
| AuthService.LogoutTarget | internal/services/auth_service.go:156-176 | the JTI to revoke iff the token parses under the refresh secret and has a string "jti"; parse errors come back unchanged; a parsed token without a string "jti" gives "invalid JTI in token"; sub is not looked at |
| AuthService.AuthService.constructor | internal/services/auth_service.go:22-28 | the service holds exactly the two stores, the configuration and the primitives it is given, and starts valid when they are |
| AuthService.AuthService.Register | internal/services/auth_service.go:31-60 | an existing email gives "user already exists" and writes nothing; a lookup, random-source or insert failure writes nothing; otherwise exactly one user with the salted hash is inserted and returned; unique emails stay unique |
| AuthService.AuthService.Login | internal/services/auth_service.go:63-100 | an unknown email and a wrong password give the same "invalid credentials" and write nothing; success returns the stored user and the token pair and inserts exactly the record with that JTI, that user, no revocation and expiry now + RefreshTTL; a store failure fails the login |
| AuthService.AuthService.Refresh | internal/services/auth_service.go:103-153 | answers exactly `RefreshResult` and writes nothing |
| AuthService.AuthService.Logout | internal/services/auth_service.go:156-179 | revokes exactly the token's JTI at now; parse and claim errors come back unchanged with nothing written; a store failure writes nothing |
| AuthService.AuthService.SessionLifecycle | internal/services/auth_service.go:139-141 | register, login and refresh succeed for a new user, and after logout the same refresh token gets "token has been revoked" |
| AuthService.UnixSecondsBounds | internal/services/auth_service.go:245 | `Unix()` rounds down to a whole second |
| AuthService.AccessTokenLifetime | internal/services/auth_service.go:242-251 | an issued access token is accepted with its subject exactly before its expiry rounded down to a second, or always when that second is 0 |
| AuthService.AccessTokenValidAtIssue | internal/services/auth_service.go:242-251 | with AccessTTL of at least a second, a new access token is accepted at once |
| AuthService.SubSecondAccessTtlExpiresAtIssue | internal/services/auth_service.go:245 | with AccessTTL under a second, a token issued on a whole second other than 0 is refused at once; at second 0 it is accepted |
| AuthService.RefreshTokenLifetime | internal/services/auth_service.go:142-144 | a refresh token from Login refreshes exactly until its `exp` second, so the stored-expiry check never fires for it; when `exp` rounds to 0 only the stored expiry decides |
| AuthService.RevokedTokenCannotRefresh | internal/services/auth_service.go:139-141 | after its row is revoked a token never refreshes again, and if it still parses the error is "token has been revoked" |
| AuthService.ExpiredTokenCannotLogOut | internal/services/auth_service.go:157-166 | a Login refresh token presented at or after its `exp` second gets back the parse's error wrapping `ErrTokenExpired`, so nothing is revoked; an `exp` of 0 is never expired |
| AuthService.LogoutLeavesOtherTokens | internal/services/auth_service.go:173-178 | revoking one JTI leaves the refresh answer for every token with another JTI unchanged |
| AuthService.SecretsSeparateTokenKinds | internal/services/auth_service.go:242-265 | with distinct secrets a refresh token is not an access token, and an access token can neither refresh nor log out |
| AuthService.SharedSecretAdmitsRefreshTokens | internal/services/auth_service.go:183-188 | with equal secrets a live refresh token validates as an access token for its subject |
| AuthService.NonHmacRefused | internal/services/auth_service.go:105-110 | all three parse sites refuse a token whose algorithm is not HMAC |
| AuthService.GateAdmitsValidAccessTokens | internal/middleware/auth.go:40-49 | a protected request with a bearer token goes through iff the service accepts the token, and then carries the token's subject |

## Left out

- Argon2id, base64 and `crypto/rand` are foreign code. They are parameters, and the laws used about them are hypotheses in `Lawful`. Nothing is claimed about the strength of the hash.
- Jwt.Parse: HMAC signatures and the compact `header.payload.signature` text are not modelled. A token is the algorithm, claims and key it carries. The time checks follow golang-jwt v5's default validator: `exp` is strict, `nbf` inclusive, there is no leeway and `iat` is not checked. Numeric claims are whole seconds; the library decodes them as floating-point numbers and reads a claim equal to 0 as absent, which the model keeps. Fractional seconds and `json.Number` decoding are not modelled. Each `JwtError` constructor stands for the sentinel that `errors.Is` finds in the library's error. The exact error text is not modelled: the time-claim failures are wrapped in `ErrTokenInvalidClaims`, and when several validations fail at once the library joins their errors, while the model reports the first in its order. The library itself is not part of this model.
- Strings are sequences of Unicode characters, while Go strings are bytes. For example, `splitPasswordHash`'s `range` loop turns an invalid UTF-8 byte into U+FFFD, and the model has no such input. Nothing in the core depends on this: base64 output, the stored hash and the bearer tokens are ASCII.
- Signing with an HMAC key never fails, so the error returns after `generateAccessToken` and `generateRefreshToken` are not modelled.
- The "invalid token claims" branches in Refresh, Logout and ValidateAccessToken cannot be reached: `jwt.Parse` always produces map claims.
- `generateID` ignores the `rand.Read` error. Its result is the caller-supplied `newId` or `newJti`.
- Each call reads the clock once as `now`. The few nanoseconds between the several `time.Now()` calls inside one Go call are not modelled.
- SQL transport, row scanning and the table schema are not part of this model.
  - UserRepo.UserRepository.Create leaves open whether inserting an existing id fails.
  - RefreshTokenRepo.RefreshTokenRepository.Create leaves open whether inserting an existing JTI fails.
  - UserRepo.UserRepository.GetByEmail, when several rows share the email, returns one of them without saying which.
- Concurrency is not modelled: each call runs alone, so Register's check-then-insert race is not represented.
- Opening and decoding the JSON files inside `List` is not modelled. A repository holds the decoded items or the error `List` returns. `ErrReadOnly` is the constructor `ReadOnly`; the file defining it is not part of this model.
- internal/models/user.go, project.go and skill.go are not part of this model. The `User` fields follow the columns `user_repo.go` reads. `Project` and `Skill` carry only their ID, with their other fields left opaque.
- `time.ParseDuration` is not part of this model. It is a parameter that answers `None` where it returns an error.
- The HTTP handlers, the entity services, the `pg_*` repositories and `cmd/server/main.go` are not part of this model.
- Writing the HTTP response is not modelled. The middlewares return a decision (forward, or a status and message) and the response headers.
