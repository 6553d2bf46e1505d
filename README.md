# University records API: authentication core

This project models, in Dafny, the authentication flow of the university
records REST service (`internal/service/service.go`): the e-mail format check
applied at registration, registration itself (an ordered chain of checks,
then a uniqueness lookup and an insert into the user table), login (account
lookup, active flag, password comparison, issuing a signed session token that
lasts 24 hours) and the extraction of the subject (the user id) from a
session token.

Files, one module each:

- `wrappers.dfy` (`Wrappers`): `Option` and `Result`, standing in for Go's
  `(value, error)` returns.
- `email.dfy` (`Email`): the pattern `^[a-zA-Z0-9._%+-]+@[a-zA-Z0-9.-]+\.[a-zA-Z]{2,}$`.
  `MatchesPattern` is its declarative reading: the string can be cut into
  local part, `@`, domain, `.` and top label. `IsValidEmail` is a direct
  scanner. It cuts at the first `@` and at the last `.` after it. The two are
  proved equal.
- `decimal.dfy` (`Decimal`): `%d` formatting of the user id, with a reference
  reader of decimal strings that says what the formatted string means.
- `crypto.dfy` (`Crypto`): the interface of bcrypt. A stored hash records its
  cost, its salt and the derived key. Comparison re-derives the key. The key
  derivation is a function value about which nothing is assumed.
- `jwt.dfy` (`Jwt`): the token library, modelled symbolically. A signature is
  the term `Signature(alg, key, claims)`, which only signing with that key
  produces. Parsing returns the claims JSON-decoded, so every number comes
  back as a float64.
- `model.dfy` (`Model`): `User`, `AuthRequest`, `LoginResponse`.
- `storage.dfy` (`Storage`): the user table as a class. It holds a map from
  e-mail to account and the next id of the sequence. A database failure is an
  explicit `fault` parameter.
- `service.dfy` (`Service`): the error values and their messages, the
  `Service` class (`NewService`, `Register`, `Login`, `ValidateToken`), the
  token round-trip lemmas, and two whole flows on a fresh store.

Parameters instead of hidden inputs: the clock reading `now`, which stands
for both `time.Now()` calls of `Login`. The random bcrypt salt. The value of
the `JWT_SECRET` environment variable. The outcome of each database call
(`lookupFault`, `createFault`).

Partial updates (PATCH) of students and schedules are not modelled: the
service methods for them (`internal/service/service.go:42-44`, `:70-72`) only
forward to a repository whose implementation is not part of this model.

## Model

| member | source | states |
|---|---|---|
| Email.ScannerMatchesPattern | internal/service/service.go:293-297 | the scanner accepts a string exactly when it is local@domain.top with a non-empty local part over `[a-zA-Z0-9._%+-]`, a non-empty domain over `[a-zA-Z0-9.-]` and a top label of two or more ASCII letters |
| Email.ScannerIsSound | internal/service/service.go:293-297 | every string the scanner accepts has such a cut |
| Email.ScannerIsComplete | internal/service/service.go:293-297 | every string with such a cut is accepted by the scanner |
| Email.JoinCutPoints | internal/service/service.go:294 | in a matching string the first `@` ends the local part and the top label is everything after the last `.` |
| Email.SplitIsUnique | internal/service/service.go:294 | a matching string has only one cut into local part, domain and top label |
| Email.MatchHasOneAt | internal/service/service.go:294 | a matching string contains exactly one `@` |
| Email.MatchesPattern | internal/service/service.go:294 | the declarative reading of the pattern: the string is local@domain.top with the three parts in their classes; a matching string has at least six characters, so it is never empty |
| Email.IsValidEmail | internal/service/service.go:293-297 | the scanner registration calls; an accepted address has at least six characters, and ScannerMatchesPattern shows it accepts exactly the matching strings |
| Email.ExampleAddressMatches | internal/service/service.go:294 | `a@b.com` matches |
| Email.ShortTopLabelIsRefused | internal/service/service.go:294 | `a@b.c` does not match: the top label needs two letters |
| Email.SecondAtIsRefused | internal/service/service.go:294 | `a@b@c.com` does not match |
| Email.FirstIndexOf | internal/service/service.go:294 | gives the first position holding the character, or none when it is absent |
| Email.LastIndexOf | internal/service/service.go:294 | gives the last position holding the character, or none when it is absent |
| Decimal.FormatNat | internal/service/service.go:289 | `%d` of a natural number is a non-empty string of digits with no leading zero |
| Decimal.FormatInt | internal/service/service.go:289 | `%d` of an integer starts with `-` exactly when the integer is negative |
| Decimal.ParseFormatInt | internal/service/service.go:289 | parsing the decimal string of n gives back n |
| Decimal.FormatIntIsInjective | internal/service/service.go:289 | different ids give different subject strings |
| Crypto.GenerateFromPassword | internal/service/service.go:182 | the hash records the cost and salt it was made with (Register passes the default cost) |
| Crypto.CompareHashAndPassword | internal/service/service.go:223 | a password matches a stored hash exactly when hashing it again with the stored salt and cost reproduces that hash |
| Crypto.HashedPasswordMatches | internal/service/service.go:182-223 | the password a hash was made from compares equal to it, whatever the salt and cost |
| Jwt.Sign | internal/service/service.go:229-236 | the token carries the algorithm and claims it was signed with, and is signed with the key |
| Jwt.Decoded | internal/service/service.go:271 | after JSON decoding a number comes back as a float64 with the same value; other values are unchanged |
| Jwt.DecodedClaims | internal/service/service.go:271 | decoding keeps the claim names and decodes each value |
| Jwt.ParseWithClaims | internal/service/service.go:254-264 | a malformed token fails; an algorithm the key function refuses fails; otherwise, leaving aside the library's checks of registered claims, parsing succeeds exactly when the signature was made with the key function's key, and returns the decoded claims |
| Jwt.SignThenParse | internal/service/service.go:254-264 | a token signed with the key the key function gives parses to its decoded claims |
| Jwt.OtherKeyIsRejected | internal/service/service.go:254-264 | a token signed with any other key fails with an invalid signature |
| Storage.UserStore.GetUserByEmail | internal/service/service.go:173-179 | the lookup returns the account filed under the address, no-rows when there is none, or the database's error |
| Storage.UserStore.CreateUser | internal/service/service.go:188-191 | the insert adds one active account with the next id under the address and keeps the store's invariant; on a database error or a duplicate address nothing changes |
| Service.SessionClaims | internal/service/service.go:229-234 | the claims are exactly user_id (int), email, iat = now and exp = now + 86400 seconds |
| Service.Message | internal/service/service.go:154-286 | the texts of the service's errors; apart from a store error passed through verbatim, "invalid email or password" is the text of the one error both unknown address and wrong password give, and "user account is inactive" the text of the inactive-account error alone |
| Service.SubjectOf | internal/service/service.go:271-289 | an absent user_id gives "user_id not found in token"; a non-numeric one gives "invalid user_id type in token"; an int, int64 or float64 one gives its `%d` string, which parses back to its value |
| Service.Service.constructor | internal/service/service.go:22-31 | the secret is the configured one, or "secretkey0909" when that is empty, so it is never empty |
| Service.Service.Register | internal/service/service.go:151-194 | the first failing check decides the error, in the order empty email, empty password, bad format, password shorter than 6 bytes, existing address, lookup error (passed through), insert error; on any error the store is unchanged; on success the address matches the pattern and was absent, the store holds exactly one more account, with the next unused id, this address, active, and the bcrypt hash of the password rather than the password, and every other account is unchanged, and the id sequence advances by one |
| Service.Service.IssueToken | internal/service/service.go:229-236 | the session token is HS256-signed with the service's secret over the session claims |
| Service.Service.Login | internal/service/service.go:197-245 | empty email, then empty password are refused first; a lookup error is wrapped as "failed to get user"; an unknown address and a wrong password both give "invalid email or password"; an inactive account is refused before its password is compared; success happens exactly for an active account whose hash matches, and returns the stored user with the token issued for it at now |
| Service.Service.KeyFor | internal/service/service.go:254-260 | the key function gives the secret for HMAC algorithms and refuses every other algorithm |
| Service.Service.ValidateToken | internal/service/service.go:253-290 | a malformed token, a non-HMAC algorithm and a signature not made with the secret are each refused with their own reason; for an HMAC token signed with the secret, a missing user_id gives "user_id not found in token", a non-numeric one "invalid user_id type in token", and the call succeeds exactly when user_id is numeric; success implies an HMAC token signed with the secret whose user_id claim is numeric, and the result is the `%d` string of that id |
| Service.IssuedTokenValidates | internal/service/service.go:229-289 | validating a token from Login with the same service gives the decimal form of the user's id |
| Service.ForeignTokenIsRejected | internal/service/service.go:254-264 | an HMAC token signed with any other secret is refused for its signature |
| Service.RegisterTwice | internal/service/service.go:172-176 | on a fresh store, a second registration of the same address fails with "user already exists" and the store holds one account |
| Service.RegisterLoginValidate | internal/service/service.go:151-290 | on a fresh store, register then log in with the same credentials succeeds, the login returns the new user with its session claims, and validating the token gives "1" |

## Left out

- The pass-through methods `GetStudentByID` … `GetAttendanceRecordsBySubjectID` and `GetCurrentUser` (internal/service/service.go:34-148, 247-250): they only forward to a repository whose implementation is not part of this model.
- The partial-update (PATCH) builder: the repository code that would build it is not part of this model (internal/storage/storage.go is a three-method interface).
- internal/handler/handler.go, internal/server/server.go and cmd/main.go: HTTP plumbing, server setup and process bootstrap.
- Service.Service.Register: does not model the "failed to hash password" error (lines 183-185). bcrypt is foreign and its failure conditions are not visible in this code.
- Service.Service.Login: does not model the "failed to sign token" error (lines 237-239). Signing is symbolic and HMAC signing with a byte key does not fail.
- Service.Service.ValidateToken: does not model the expiry check that the token library applies while parsing. It is not visible in this code.
- Jwt.ParseWithClaims: does not model the library's validation of registered claims after the signature check (the types and values of exp, nbf and iat). It is inside the library and not visible in this code.
- Jwt.OtherKeyIsRejected and Service.ForeignTokenIsRejected hold because a signature is modelled as a perfect MAC. Real HMAC treats some different keys as one key (a key padded with trailing zero bytes, a key longer than the block size and its digest); this is not modelled.
- Service.Service.ValidateToken: does not model the "invalid token claims" branch (lines 266-269). After a successful parse the claims are always a map and the token is valid, so the branch cannot be taken.
- Service.SubjectOf: a float64 user_id is modelled as already integral. The truncation `int(v)` of a fractional value, and the rounding of ids above 2^53 on the JSON round trip, are floating point and left out. Go's 64-bit `int` range is not modelled either; ids are unbounded integers.
- Jwt.ParseWithClaims: the compact text encoding (base64url, JSON) is not modelled. A string that does not parse is the single value `Malformed`, and the wording of the library's error messages is approximated.
- Crypto.GenerateFromPassword: the bcrypt key derivation itself, its 72-byte input limit and the random generation of the salt are not modelled. The salt is a parameter.
- Storage.UserStore.CreateUser: the repository's insert is not part of this model. That ids come from a sequence, that new accounts start active and that the address is unique in the table are assumptions; the code shown only relies on the insert returning the new user.
- Concurrency: store calls are taken to run one at a time. Two registrations of one address racing between lookup and insert (the store's unique constraint, `UniqueViolation`) are therefore not modelled as a reachable outcome of `Register`.
- `time.Now()`: Login reads the clock twice (lines 232-233). The model uses one reading `now` for both `iat` and `exp`. The account's creation time is a parameter of `Register`.
