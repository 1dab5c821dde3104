# Authentication, authorisation and throttling of the Vibecon backend

This project is a Dafny model of the request-guarding core of a NestJS backend, together with proofs about it. It covers eight parts:

- **Rate limiter** (`RateLimit`). A per-user fixed window of 20 requests per 60 000 ms. The count is reset lazily, a rejected request's increment is rolled back, and expired entries are sometimes swept.
  - `RateLimitGuard` is a class whose `rateLimits` map the methods change in place.
  - The clock and the `Math.random() < 0.1` coin are parameters.
  - `Check` and `Sweep` are the functions the methods are proved against.
- **Role service** (`Roles`). The static role hierarchy (`admin` satisfies `admin` and `user`; `user` satisfies `user`), with `hasPermission`, `getAllowedRoles`, `isValidRole`, and the store-backed `getRole` and `update`.
- **Role guard** (`RolesGuard`). Required-roles metadata against the `roles` list of the attached identity. Roles are compared verbatim.
- **Body guard** (`BodyGuard`). Checks the shape of a JSON-like body (`JsonValue.Json`), branching on substrings of the route path.
- **Bearer guard** (`JwtGuard`). Splits the header on single spaces. It then verifies, decodes and looks up the token's subject, in that order. On success it writes the identity into `Request.user`.
- **User store** (`UserStore`). `DbService` is a class holding the user table as a `map` keyed by id. The uuid that the repository generates is a parameter of `Create`.
- **Credential service** (`AuthService`). Login, registration, refresh and the logged-in check, over the store.
  - JWT signing, verification, decoding and bcrypt are uninterpreted functions (`Tokens.Primitives`).
  - A ghost `trace` records the calls each operation makes, in order.
- **Room-password validator** (`PrivatePassword`). `validate` and `defaultMessage`, with the white-space set of `String.prototype.trim`.

JavaScript truthiness is modelled where the code relies on it: `""`, `null` and `undefined` are falsy.

Where the documentation and the code disagree, the model follows the code:

- the role guard does not expand roles through the hierarchy;
- `refresh` decodes the token without verifying it first;
- the body guard checks `username` and `password`, not `email`: its test file expects `{email, password}` on a login route to pass (src/auth/body-required.guard.spec.ts:47-52), which the code rejects, and expects `{password, username}` without `email` on a register route to be rejected (src/auth/body-required.guard.spec.ts:54-63), which the code lets through;
- `refresh` takes one argument, although src/auth/auth.service.spec.ts:125 passes two.

## Model

| member | source | states |
|---|---|---|
| RateLimit.CeilSeconds | src/claude/rate-limit.guard.ts:58 | the result is the least whole number of seconds covering the milliseconds left: `1000*(r-1) < d <= 1000*r` |
| RateLimit.Check | src/claude/rate-limit.guard.ts:26-70 | one call of the guard as a function of the table: rejected iff the caller has an unexpired entry already at 20; a caller with an id always has an entry afterwards |
| RateLimit.Sweep | src/claude/rate-limit.guard.ts:72-78 | a key survives the sweep iff its window has not passed (`now <= resetTime`); survivors keep their entry |
| RateLimit.RateLimitGuard.CanActivate | src/claude/rate-limit.guard.ts:26-70 | the new table and the decision are those of `Check` on the old table; the table invariant is kept |
| RateLimit.RateLimitGuard.CleanupExpiredEntries | src/claude/rate-limit.guard.ts:72-78 | deleting while iterating leaves exactly `Sweep` of the old table |
| RateLimit.NoUserLeavesTable | src/claude/rate-limit.guard.ts:28-33 | without a user id, or with an empty one, the request is allowed and the table is unchanged, even when the coin says sweep |
| RateLimit.FreshWindow | src/claude/rate-limit.guard.ts:43-50 | a missing or expired entry becomes `{count 1, resetTime now+60000}` and the request is allowed; at `now == resetTime` the old window is kept |
| RateLimit.WithinWindow | src/claude/rate-limit.guard.ts:52-69 | inside a window, below the quota the count goes up by one and the request is allowed; at the quota the request is rejected, the entry keeps its pre-call value and the retry hint is `ceil((resetTime-now)/1000)` |
| RateLimit.CheckKeepsCountsInRange | src/claude/rate-limit.guard.ts:43-57 | every stored count stays in 1..20 |
| RateLimit.CheckTouchesOnlyCaller | src/claude/rate-limit.guard.ts:36-50 | without a sweep, every other user's entry (present or absent) is unchanged |
| RateLimit.SweepIsInvisible | src/claude/rate-limit.guard.ts:36-50 | sweeping does not change the decision; the table after a sweeping call is the swept table of the non-sweeping call |
| RateLimit.CheckKeepsWindowsBounded | src/claude/rate-limit.guard.ts:43-50 | with a clock that does not go backwards, every stored window ends at most 60 000 ms after the current time |
| RateLimit.RetryAfterInRange | src/claude/rate-limit.guard.ts:55-66 | under that bound, a rejection's retry hint is between 0 and 60 seconds |
| RateLimit.RunWithinWindow | src/claude/rate-limit.guard.ts:52-69 | a run of calls inside one window counts up from the stored count to 20, and every later call is rejected with the matching retry hint |
| RateLimit.TwentyAllowedThenRejected | src/claude/rate-limit.guard.ts:43-69 | from a missing or expired entry, 21 calls within 60 s: the first 20 are allowed, the 21st is rejected with a hint of 0..60 s |
| Roles.Hierarchy | src/roles/roles.service.ts:15-18 | exactly the two enum values have a row; every row contains its own role and only enum values |
| Roles.AnyHeldSatisfies | src/roles/roles.service.ts:22-23 | true iff some held role's hierarchy row contains the required role |
| Roles.HasPermission | src/roles/roles.service.ts:20-24 | true iff some required role and some held role have the required role in the held role's row |
| Roles.GetAllowedRoles | src/roles/roles.service.ts:27-29 | the role's row of the hierarchy, or `[]` for any other string; `x` is in the result iff the role satisfies `x` |
| Roles.IsValidRole | src/roles/roles.service.ts:31-33 | true exactly for `"admin"` and `"user"` (case-sensitive), i.e. exactly for the roles with a hierarchy row |
| Roles.GetRole | src/roles/roles.service.ts:35-41 | the stored role of the user with a truthy id `userId`; Unauthorized when there is no such user |
| Roles.Update | src/roles/roles.service.ts:43-46 | through `updateRole`: only that user's role changes, and an unknown id gives Unauthorized with the table unchanged |
| Roles.HierarchyReflexive | src/roles/roles.service.ts:15-18 | every valid role satisfies itself: `hasPermission([r],[r])` |
| Roles.HierarchyTransitive | src/roles/roles.service.ts:15-18 | the table is closed under satisfaction |
| Roles.UnknownRolesGrantNothing | src/roles/roles.service.ts:21-23 | held roles outside the table grant nothing, and an empty required list is never met |
| Roles.HasPermissionMonotone | src/roles/roles.service.ts:20-24 | holding more roles never removes a permission |
| Roles.EmptyRequirementNeverMet | src/roles/roles.service.ts:20-24 | an empty list of required roles is met by no list of held roles, since `some` over an empty list is false |
| Roles.HasPermissionExamples | src/roles/roles.service.ts:15-24 | `[admin]` meets `[user]`, `[user]` does not meet `[admin]`, and `[user]` meets `[admin, user]` |
| Roles.AllowedRolesExamples | src/roles/roles.service.ts:27-33 | `admin` gives `[admin, user]` in that order, `user` gives `[user]`, anything else gives `[]`; `"root"` and `"Admin"` are not valid roles |
| Roles.HierarchyAsWritten | src/roles/roles.service.ts:15-18 | indexing the object literal gives the row for the two roles, an inherited member for Object.prototype names, and undefined otherwise |
| Roles.AnyHeldAsWritten | src/roles/roles.service.ts:22-23 | the inner `some` as written throws only when some held role is an Object.prototype name, and otherwise answers as `AnyHeldSatisfies` |
| Roles.HasPermissionAsWritten | src/roles/roles.service.ts:20-24 | `hasPermission` as written throws only when some held role is an Object.prototype name, and when it returns it answers as `HasPermission` |
| Roles.GetAllowedRolesAsWritten | src/roles/roles.service.ts:27-29 | as written, the result is an inherited member exactly for Object.prototype names, and otherwise the corrected `GetAllowedRoles` |
| Roles.AsWrittenAgreesOffPrototype | src/roles/roles.service.ts:20-24 | when no held role is an Object.prototype name, `hasPermission` as written returns `HasPermission` without throwing |
| Roles.AnyHeldAgreesOffPrototype | src/roles/roles.service.ts:22-23 | the same for the inner `some` over the held roles |
| Roles.PrototypeNamesMisbehave | src/roles/roles.service.ts:20-29 | as written, held role `"constructor"` makes `hasPermission` throw and `getAllowedRoles("toString")` return a non-array; the corrected functions answer false and `[]` |
| RolesGuard.CanActivate | src/roles/roles.guard.ts:15-33 | never false. No metadata allows. No user, or `roles` missing or not an array, is Forbidden. Otherwise it allows iff some required role appears verbatim among the held roles |
| RolesGuard.EmptyRequirementDenies | src/roles/roles.guard.ts:17-30 | a declared but empty required list denies every identity |
| RolesGuard.NoMetadataIgnoresUser | src/roles/roles.guard.ts:16-19 | without metadata the outcome does not depend on the user |
| RolesGuard.NoHierarchyExpansion | src/roles/roles.guard.ts:29-30 | `[admin]` does not pass a required `[user]`, although `hasPermission` grants it |
| RolesGuard.GuardImpliesPermission | src/roles/roles.guard.ts:29-30 | for identities holding only valid roles, passing the guard implies `hasPermission` |
| RolesGuard.GuardExamples | src/roles/roles.guard.ts:15-33 | no metadata allows; a matching role allows; a missing user, a non-array `roles` and a non-matching role are rejected |
| BodyGuard.IsNonEmptyPlainObject | src/auth/body-required.guard.ts:18-24 | true exactly for an object that is neither null nor an array and has at least one key |
| BodyGuard.IsCredentialsDto | src/auth/body-required.guard.ts:47-60 | true exactly for an object carrying `username` and `password` as strings; such a body is a non-empty plain object |
| BodyGuard.GetRoutePath | src/auth/body-required.guard.ts:32-43 | a path is found iff `route` is an object whose `path` is a string, and it is that string |
| BodyGuard.CanActivate | src/auth/body-required.guard.ts:13-79 | never false; only BadRequest. A body that is not a non-empty plain object gets "Request body is required". On a path containing "login" or "register" it passes iff `username` and `password` are non-empty strings; elsewhere any non-empty plain object passes |
| BodyGuard.OtherRoutesNeedOnlyABody | src/auth/body-required.guard.ts:32-78 | off the login and register routes, or without a string path, every non-empty plain object passes |
| BodyGuard.SubstringRouteMatch | src/auth/body-required.guard.ts:62-69 | `/x/loginfoo` gets the credentials check |
| BodyGuard.RejectedBodies | src/auth/body-required.guard.ts:18-28 | null, undefined, `{}`, an array and a string are rejected on every route |
| BodyGuard.EmailIsNotUsername | src/auth/body-required.guard.ts:47-68 | `{email, password}` is rejected on a login route |
| BodyGuard.RegisterBodyWithoutEmailPasses | src/auth/body-required.guard.ts:69-78 | `{password, username}` with no `email` passes on `/auth/register` |
| BodyGuard.EmptyCredentialsRejected | src/auth/body-required.guard.ts:66-75 | an empty `username` is rejected on a register route |
| JwtGuard.Split | src/auth/jwt-auth.guard.ts:38 | `split(" ")` always yields at least one piece |
| JwtGuard.JoinSplit | src/auth/jwt-auth.guard.ts:38 | joining the pieces with single spaces gives the header back, and no piece contains a space |
| JwtGuard.SplitJoin | src/auth/jwt-auth.guard.ts:38 | splitting the join of space-free pieces gives those pieces back |
| JwtGuard.SplitWord | src/auth/jwt-auth.guard.ts:38 | a word without spaces splits into itself |
| JwtGuard.ParseBearer | src/auth/jwt-auth.guard.ts:34-41 | a missing or empty header is "Authorization header is missing". A header is accepted iff its first piece is exactly "Bearer" and its second is non-empty; the token is that second piece |
| JwtGuard.IdentityOf | src/auth/jwt-auth.guard.ts:63-68 | the identity's id, username and role come from the stored record, and `roles` is `[role]` |
| JwtGuard.Authenticate | src/auth/jwt-auth.guard.ts:30-74 | success iff the header parses, verify returns true, the payload has a subject, and the lookup finds a user; the identity is then built from that record. A header error is reported as such; every later failure is "Token validation failed" |
| JwtGuard.HeaderCheckedFirst | src/auth/jwt-auth.guard.ts:34-41 | a bad header gives the same result whatever verify, decode and lookup do |
| JwtGuard.VerifyBeforeDecode | src/auth/jwt-auth.guard.ts:45-48 | a token that fails verification, or whose verification throws, is rejected whatever decode and lookup do |
| JwtGuard.DecodeBeforeLookup | src/auth/jwt-auth.guard.ts:51-54 | a payload without a subject is rejected whatever the lookup does |
| JwtGuard.ExtraPiecesIgnored | src/auth/jwt-auth.guard.ts:38-41 | pieces after the token do not change the parsed token |
| JwtGuard.MissingHeaderExamples | src/auth/jwt-auth.guard.ts:34-36 | no header and an empty header are reported as missing |
| JwtGuard.MalformedHeaderExamples | src/auth/jwt-auth.guard.ts:38-41 | `"Bad token"` and `"Bearer"` are format errors |
| JwtGuard.WellFormedHeaderExample | src/auth/jwt-auth.guard.ts:38-41 | `"Bearer abc"` yields token `abc` |
| JwtGuard.JwtAuthGuard.CanActivate | src/auth/jwt-auth.guard.ts:30-74 | returns true iff `Authenticate` succeeds, and then `request.user` is the identity; on failure the error is `Authenticate`'s and `request.user` is not written |
| UserStore.ByUsername | src/db/db.service.ts:40-42 | the record with a given username exists iff the username is taken, and it is the stored record under its own id |
| UserStore.DbService.FindOne | src/db/db.service.ts:36-44 | by id when `uuid` is truthy, else by username when `username` is truthy, else nothing |
| UserStore.DbService.Create | src/db/db.service.ts:26-34 | fails iff the username is taken (Conflict when the username is truthy), with the table unchanged; otherwise inserts the record under the generated id, keeping usernames unique |
| UserStore.DbService.Remove | src/db/db.service.ts:46-55 | returns the record iff the id is present; the table loses exactly that key |
| UserStore.DbService.Update | src/db/db.service.ts:57-66 | an absent id gives nothing and changes nothing; otherwise only the dto's fields are copied onto the record |
| UserStore.DbService.UpdateRole | src/db/db.service.ts:68-77 | an absent id gives Unauthorized with the table unchanged; otherwise only that record's role changes |
| UserStore.DbService.SaveRefreshToken | src/db/db.service.ts:79-86 | fails with Unauthorized unless a user has the truthy id; otherwise only that record's refresh hash changes |
| UserStore.Assign | src/db/db.service.ts:64 | only `password` is taken from the dto, and only when the dto carries it; id, username, role and refresh hash are kept |
| UserStore.ReplaceKeepsWellKeyed | src/db/db.service.ts:57-86 | replacing a record without changing its id or username keeps ids as keys and usernames unique |
| UserStore.InsertKeepsWellKeyed | src/db/db.service.ts:26-34 | inserting under a fresh id with an unused username keeps ids as keys and usernames unique |
| UserStore.UsernameDeterminesRecord | src/db/db.service.ts:40-42 | in such a table a username names at most one record |
| Tokens.RotateTokens | src/auth/auth.service.ts:59 | both tokens are signed from `{sub: userId, role}`, and the returned hash is the hash of the refresh token |
| AuthService.LoginSubject | src/auth/auth.service.ts:50-57 | the found user's hash, id and role, or the placeholder hash, id `ycuvybuuyvyderyfutg7iyunhbgjftru` and role `USER` |
| AuthService.GetLoggedIn | src/auth/auth.service.ts:182-190 | logged in iff verification returns true; false when it throws |
| AuthService.MissingUserNeverAccepted | src/auth/auth.service.ts:49-54 | a missing user is never accepted, whatever `compare` answers for the placeholder hash; `Login`'s ensures rejects exactly the cases that are not `LoginAccepts` |
| AuthService.AuthService.Login | src/auth/auth.service.ts:45-73 | the lookup, the comparison and the rotation always run, in that order. "Invalid credentials" iff the user is missing or the comparison fails, with nothing written. On success only the found user's refresh hash is replaced, and its id and the rotated tokens are returned |
| AuthService.AuthService.Register | src/auth/auth.service.ts:89-132 | a taken username gives BadRequest after the lookup alone, with nothing written. A hashing failure writes nothing. On success the record holds the hashed password, `role` or `'user'`, and the new refresh hash, under the created id that the tokens were rotated for |
| AuthService.AuthService.Refresh | src/auth/auth.service.ts:149-180 | undecodable or subject-less tokens, missing users or empty stored hashes, and mismatched tokens each give their Unauthorized with nothing written. On success the stored hash becomes the hash of the returned refresh token, and nothing else changes |
| AuthService.BcryptPrefix | src/jwt/jwt.service.ts:42-57 | what bcrypt reads of a token: the whole of one of at most 72 characters, else its first 72 |
| AuthService.TruncationBreaksBinding | src/jwt/jwt.service.ts:42-57 | when `hashToken`/`compareToken` behave as bcrypt does, a token matches the hash of a different token, so the hash does not bind |
| AuthService.ReplayedRefreshTokenAccepted | src/auth/auth.service.ts:162-173 | as written, with bcrypt truncation: a refresh token sharing its first 72 characters with the tokens minted for its user is accepted again after a refresh has rotated it away, with the same result |
| AuthService.DigestFirst | src/jwt/jwt.service.ts:42-57 | the corrected primitives hash and compare a digest of the token; signing, verification and decoding are unchanged |
| AuthService.DigestFirstBinds | src/jwt/jwt.service.ts:42-57 | with a collision-free digest that bcrypt reads whole, the corrected primitives bind: a token matches only its own hash |
| AuthService.ReplayedRefreshTokenFails | src/auth/auth.service.ts:162-173 | intended single use: with binding primitives (such as `DigestFirst`'s), a refresh token that was just rotated away, and differs from its replacement, is rejected as "Invalid refresh token" when presented again |
| PrivatePassword.TrimStart | src/validators/private-password.validator.ts:26 | the result is a suffix after a white-space prefix and does not start with white space |
| PrivatePassword.TrimEnd | src/validators/private-password.validator.ts:26 | the result is a prefix before a white-space suffix and does not end with white space |
| PrivatePassword.Trim | src/validators/private-password.validator.ts:26 | `trim()` is the input with a white-space prefix and a white-space suffix removed, and neither starts nor ends with white space |
| PrivatePassword.TrimEmptyIffAllWhitespace | src/validators/private-password.validator.ts:26 | `trim()` is empty iff every character is white space |
| PrivatePassword.Validate | src/validators/private-password.validator.ts:23-30 | for a truthy `private`, valid iff the value is a string with a non-white-space character; otherwise valid iff the value is undefined or null |
| PrivatePassword.DefaultMessage | src/validators/private-password.validator.ts:31-35 | the "required" message iff `private` is truthy, the "must not be set" message iff it is falsy |
| PrivatePassword.PublicRoomRejectsStrings | src/validators/private-password.validator.ts:27-28 | a public room rejects every string, `""` included |
| PrivatePassword.PrivateRoomExamples | src/validators/private-password.validator.ts:25-29 | white space only, `""` and undefined are rejected for a private room; `" pw "` is accepted; null and undefined pass for a public room |

## Left out

- Controllers, modules, bootstrap, DTO and entity decorators: HTTP wiring and class-validator/TypeORM semantics.
- The LLM client and conversation storage: third-party calls.
- The JWT service's internals: signing, expiry, signature checking, bcrypt cost and salts. They are uninterpreted functions; only the shape of `rotateTokens` is fixed.
- AuthService.ReplayedRefreshTokenFails: its hypothesis `HashBinds` (a token matches only its own hash) is false for the program's own primitives. bcrypt reads only the first 72 characters, and all refresh tokens of one user share the JWT header and the start of the payload there (`TruncationBreaksBinding`). Single-use rotation is therefore not a property of the program as written (see Findings); the lemma states it for corrected primitives such as `DigestFirst`. It also takes "the new token differs from the presented one" as a hypothesis, since token freshness (`iat`, `exp`) is not modelled.
- AuthService.DigestFirstBinds: a collision-resistant digest is idealised as injective, and bcrypt is assumed to bind on the digests it reads whole.
- Timing: login's constant-time intent is captured only structurally, by the ghost trace showing that compare and rotate always run.
- `hashToken` or `compareToken` throwing, and store calls failing for reasons other than those modelled.
- `Date.now()`, `Math.random()` and the uuid generator: parameters (`now`, `sweep`, `newId`).
- Concurrency and `async` interleavings: each operation is one sequential step.
- JwtGuard.ParseBearer: the header is an optional string, so the `typeof authorization !== 'string'` branch is not modelled.
- `createdAt` on registration, and the non-credential fields a registration body may carry.
- `findAll` in the store, which no core operation uses.
- NaN: JSON numbers are reals, so a NaN value (falsy in JavaScript) cannot be represented.
- AuthService.AuthService.Register: the precondition `newId !in db.users` stands for the uuid generator producing fresh ids.
- JavaScript's `in` on DTO keys and on `route` sees inherited Object.prototype members. The body guard model uses the object's own keys only.

## Findings

| source | as written | input that shows it | evidently intended | confidence | as-written member | corrected member |
|---|---|---|---|---|---|---|
| src/roles/roles.service.ts:20-24 | `this.roleHierarchy[userRole]?.includes(...)` indexes a plain object literal, so a held role named after an Object.prototype member reaches an inherited function, and `.includes` on it throws a TypeError | `hasPermission(["constructor"], ["user"])` | unknown held roles grant nothing; the answer is false | not executed; high | Roles.PrototypeNamesMisbehave | Roles.HasPermission |
| src/roles/roles.service.ts:27-29 | `this.roleHierarchy[userRole] \|\| []` returns the inherited member for an Object.prototype name, because a function is truthy | `getAllowedRoles("toString")` | any other string gives `[]` | not executed; high | Roles.PrototypeNamesMisbehave | Roles.GetAllowedRoles |
| src/auth/auth.service.ts:162-169 | `compareToken` is bcrypt, which reads only the first 72 characters of the refresh token; every refresh token of one user agrees on those (header and the start of `{"sub":"<id>"`), and refresh checks no signature or expiry before comparing | replay the refresh token the last refresh replaced | a token rotated away is rejected, so each refresh token is single-use | not executed; high | AuthService.ReplayedRefreshTokenAccepted | AuthService.ReplayedRefreshTokenFails (with AuthService.DigestFirstBinds) |
