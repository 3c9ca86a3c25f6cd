# Authentication and request authorization of the micro-helpdesk API, in Dafny

This project models the part of the helpdesk API that decides who a caller
is and what they may do:

- **registration and login** (`register`, `login`, `signToken`): email
  normalisation, input checks in a fixed order, email uniqueness against the
  credential store, password hashing and token issuance;
- the **per-request identity resolver** (`getBearerToken`, `verifyToken`,
  `buildContext`): reading `Authorization: Bearer <token>`, checking the
  token's payload shape against the closed role set ADMIN / AGENT / CLIENT,
  and failing closed: no token means an anonymous request, a present but
  invalid token fails the request with UNAUTHENTICATED;
- the **authorization gate** of the user listing (`getUsers`):
  authentication before the ADMIN role, and a default page size of 50;
- the **credential store** (`findUserAuthByEmail`, `createUser`,
  `listUsers`) as a sequence of rows with the semantics of its SQL: exact
  email lookup, insert one row, newest-first bounded listing.

Everything is a pure function over immutable values. The store is a
`seq<Record>` in insertion order; a registration returns the new store.
Password hashing and JWT signing are oracles: `Crypto.Hasher` and
`Crypto.Jwt` are values whose functions the caller supplies, and the laws of
the real libraries are predicates that lemmas assume
(`SoundHasher`: a password verifies against every hash of it, whatever the
salt; `SoundJwt`: a signed payload verifies back to itself and the token is
a non-empty string without spaces). The values the runtime produces are
parameters: bcrypt's salt, the id and `created_at` the database assigns,
the clock in seconds, and the fresh request id.

Modules, one per source file plus shared layers:

| module | file | models |
|---|---|---|
| `Base` | base.dfy | optional values, results, error codes |
| `Text` | text.dfy | the JavaScript string operations used: `trim`, `toLowerCase`, `toUpperCase`, `length`, `split` |
| `Crypto` | crypto.dfy | hash and JWT oracles, the token's claims, `jwtVerify`'s claim checks |
| `UserRepo` | user_repo.dfy | apps/api/src/data/repositories/user.repo.ts |
| `AuthService` | auth_service.dfy | apps/api/src/application/services/auth.service.ts |
| `Context` | context.dfy | apps/api/src/infra/graphql/context.ts |
| `UserService` | user_service.dfy | apps/api/src/application/services/user.service.ts |
| `Flows` | flows.dfy | properties across the files: log in, present the token, call the listing |

Facts about the code that shape the model:

- `register` upper-cases the role but never checks it against ADMIN, AGENT
  or CLIENT (apps/api/src/application/services/auth.service.ts:41):
  `"root"` is stored as `"ROOT"`, and an empty role stays empty because
  only a missing one defaults to CLIENT. Only the token verifier restricts
  roles, so such a user can register but never authenticate a request
  (`Flows.UnknownRoleNeverAuthenticates`).
- `verifyToken` rejects an empty `sub` as well as a non-string one
  (apps/api/src/infra/graphql/context.ts:36).

## Model

| member | source | states |
|---|---|---|
| `Text.Trim` | apps/api/src/application/services/auth.service.ts:40 | the trimmed email is the infix of the input that starts after its leading whitespace and is followed only by whitespace; it neither starts nor ends with whitespace |
| `Text.ToLower` | apps/api/src/application/services/auth.service.ts:40 | `toLowerCase` turns each ASCII capital into its small letter and keeps every other character, so the length is kept |
| `Text.ToUpper` | apps/api/src/application/services/auth.service.ts:41 | `toUpperCase` turns each ASCII small letter into its capital and keeps every other character, so the length is kept |
| `Text.ToUpperMeaning` | apps/api/src/application/services/auth.service.ts:41 | upper-casing leaves no small ASCII letter, keeps every other character, is idempotent, and lower-casing undoes it on a string without capitals |
| `Text.ToLowerMeaning` | apps/api/src/application/services/auth.service.ts:40 | lower-casing leaves no upper-case ASCII letter, keeps every other character, and is idempotent |
| `Text.Utf16Length` | apps/api/src/application/services/auth.service.ts:46 | the password length is counted in UTF-16 code units: the number of characters plus one more for each character above U+FFFF, so between one and two per character |
| `Text.Split` | apps/api/src/infra/graphql/context.ts:22 | `split(" ")` yields at least one piece and no piece contains a space |
| `Text.JoinSplit` | apps/api/src/infra/graphql/context.ts:22 | splitting loses nothing: joining the pieces with the separator gives back the header |
| `Text.SplitAtFirstSeparator` | apps/api/src/infra/graphql/context.ts:22 | the first piece is the text before the first space; the rest are the pieces of what follows it |
| `Text.SplitNoSeparator` | apps/api/src/infra/graphql/context.ts:22 | a string without a space splits into itself alone |
| `Crypto.SignToken` | apps/api/src/application/services/auth.service.ts:20-28 | the token's subject is the user id, its role claim the user's role, issued now and expiring 7200 seconds later |
| `Crypto.JwtVerify` | apps/api/src/infra/graphql/context.ts:31 | a token is accepted iff its signature checks, its `iat` is absent or a number, and its `exp` is absent or a number after now; it then yields the signed payload; a bad signature, a non-numeric `iat` and an `exp` at or before now are each rejected with their own reason |
| `Crypto.IssuedTokenWindow` | apps/api/src/application/services/auth.service.ts:25-27 | an issued token verifies to exactly its claims before `iat + 2h` and is rejected as expired from then on |
| `UserRepo.FindUserAuthByEmail` | apps/api/src/data/repositories/user.repo.ts:48-64 | the row found has exactly the given email (no normalisation); null iff no row has it; with unique emails it is that row |
| `UserRepo.CreateUser` | apps/api/src/data/repositories/user.repo.ts:75-92 | exactly one row is appended, holding the given email, hash and role with the database's id and timestamp; the result is its projection without the hash |
| `UserRepo.FindAfterCreate` | apps/api/src/data/repositories/user.repo.ts:58 | after inserting a row under an email no row had, looking that email up finds the new row, and looking up any other email finds what it found before |
| `UserRepo.SortNewestFirst` | apps/api/src/data/repositories/user.repo.ts:31 | ordering by creation time, descending, gives a permutation of the rows, newest first |
| `UserRepo.PrefixOfNewestFirst` | apps/api/src/data/repositories/user.repo.ts:31-32 | cutting a newest-first list at the LIMIT keeps it newest first and keeps only its own elements |
| `UserRepo.ListUsers` | apps/api/src/data/repositories/user.repo.ts:22-37 | the page holds min(limit, row count) projections (limit 50 by default), newest first, drawn from the store without duplication; a negative LIMIT is a database error |
| `UserRepo.ListUsersIsNewestPage` | apps/api/src/data/repositories/user.repo.ts:25-32 | a row left off the page is no newer than any row on it, and every row is on it when the limit allows |
| `AuthService.NormalizeEmail` | apps/api/src/application/services/auth.service.ts:40 | the normalised email is the trimmed email with its ASCII capitals made small: same length, no capital left, every other character kept, no whitespace at either end |
| `AuthService.ValidEmail` | apps/api/src/application/services/auth.service.ts:43 | an email passes iff it contains an `@` |
| `AuthService.ValidPassword` | apps/api/src/application/services/auth.service.ts:46 | a password passes iff its character count plus its number of characters above U+FFFF (its UTF-16 length) is at least 8: 8 characters always pass, fewer than 4 never do, and within the Basic Multilingual Plane the check counts characters |
| `AuthService.NormalizeRole` | apps/api/src/application/services/auth.service.ts:41 | a missing role becomes CLIENT; a given role is upper-cased: each small ASCII letter becomes its capital and every other character is kept |
| `AuthService.UnknownRoleIsKept` | apps/api/src/application/services/auth.service.ts:41 | an unknown role is kept, upper-cased, and an empty role stays empty |
| `AuthService.NormalizeEmailIdempotent` | apps/api/src/application/services/auth.service.ts:79 | a normalised email is its own normal form, so the email stored at registration is the email looked up at login |
| `AuthService.EmailVariantNormalizes` | apps/api/src/application/services/auth.service.ts:40 | ` A@Example.com ` normalises to `a@example.com` |
| `AuthService.NormalEmailUnchanged` | apps/api/src/application/services/auth.service.ts:79 | `a@example.com` normalises to itself, so both spellings address the same row |
| `AuthService.Register` | apps/api/src/application/services/auth.service.ts:39-68 | BAD_USER_INPUT for a normalised email without `@`, then for a password under 8 code units, whatever the store; then CONFLICT if the normalised email is taken; otherwise exactly one row is added with the normalised email, the hash of the password and the upper-cased role, and the result is its projection with a token for its id and role |
| `AuthService.Login` | apps/api/src/application/services/auth.service.ts:78-99 | fails only with UNAUTHENTICATED, for an unknown normalised email or a password that does not match; on success returns the row without its hash and a token for its id and role expiring 2h after issue; never changes the store |
| `AuthService.RegisterPreservesUniqueEmails` | apps/api/src/application/services/auth.service.ts:52-63 | input that passes both checks under an email not yet taken registers, and registration keeps emails unique across rows |
| `AuthService.RegisterTwiceConflicts` | apps/api/src/application/services/auth.service.ts:52-55 | after a registration, registering any email with the same normal form and a password of at least 8 code units fails with CONFLICT (a shorter password fails the length check first) |
| `AuthService.LoginAfterRegister` | apps/api/src/application/services/auth.service.ts:88 | with a sound hasher, logging in with the registered password and any email spelling that normalises alike returns the registered user and a token for its id and role |
| `AuthService.LoginRejectsWrongPassword` | apps/api/src/application/services/auth.service.ts:88-93 | a password the hasher does not match never logs in |
| `Context.ParseRole` | apps/api/src/infra/graphql/context.ts:36 | a role claim is accepted iff it is exactly ADMIN, AGENT or CLIENT, and maps to the role of that name |
| `Context.ParseRoleName` | apps/api/src/infra/graphql/context.ts:7 | every role survives the trip through its name |
| `Context.GetBearerToken` | apps/api/src/infra/graphql/context.ts:20-25 | no token for an absent or empty header; a token found is non-empty, has no space, and follows `Bearer ` at the start of the header up to the end or the next space |
| `Context.BearerPieces` | apps/api/src/infra/graphql/context.ts:22 | the second piece of a header whose first piece is `Bearer` starts right after `Bearer ` and ends at the end or a space |
| `Context.BearerTokenCharacterization` | apps/api/src/infra/graphql/context.ts:20-25 | a token is extracted iff the header is `Bearer ` then a non-empty space-free token then the end or a space |
| `Context.BearerPlain` | apps/api/src/infra/graphql/context.ts:22-24 | `Bearer abc` yields `abc` |
| `Context.BearerStopsAtSpace` | apps/api/src/infra/graphql/context.ts:22-24 | `Bearer a b` yields `a`: anything after a second space is ignored |
| `Context.BearerDoubleSpace` | apps/api/src/infra/graphql/context.ts:23 | `Bearer  a` (two spaces) yields no token |
| `Context.BearerSchemeCaseSensitive` | apps/api/src/infra/graphql/context.ts:23 | `bearer abc` yields no token: the scheme is case-sensitive |
| `Context.BearerWithoutToken` | apps/api/src/infra/graphql/context.ts:23 | `Bearer` and `Bearer ` yield no token |
| `Context.VerifyToken` | apps/api/src/infra/graphql/context.ts:27-43 | accepts iff `jwtVerify` accepts and the payload has a non-empty string subject and one of the three role names; the identity returned carries exactly those values; a `jwtVerify` rejection is passed on |
| `Context.UnknownRoleRejected` | apps/api/src/infra/graphql/context.ts:36-40 | a payload whose role claim is not one of the three names is rejected |
| `Context.BuildContext` | apps/api/src/infra/graphql/context.ts:45-67 | the request id is `x-request-id` or a fresh id; no token gives an anonymous context without error; a token that fails verification fails the request with UNAUTHENTICATED; a verified token's identity is the context's user |
| `Context.NoAnonymousFallback` | apps/api/src/infra/graphql/context.ts:55-63 | a request is anonymous iff it carries no token; an authenticated user is what the carried token verifies to; a failed request carried a token and fails with UNAUTHENTICATED |
| `Context.IssuedTokenAuthenticates` | apps/api/src/infra/graphql/context.ts:55-57 | a token issued for a non-empty id and a known role, sent as `Bearer <token>` before it expires, authenticates exactly that identity; after expiry it fails the request |
| `UserService.GetUsers` | apps/api/src/application/services/user.service.ts:14-33 | a null user gets UNAUTHENTICATED, a non-ADMIN gets FORBIDDEN, an ADMIN gets the listing with the given limit or 50 |
| `UserService.GateIgnoresStore` | apps/api/src/application/services/user.service.ts:19-29 | a rejected call fails whatever the store holds: it is decided before the store is read |
| `UserService.AdminGetsDefaultPage` | apps/api/src/application/services/user.service.ts:31-32 | an ADMIN without a limit gets min(50, row count) users, newest first |
| `Flows.AdminLoginListsUsers` | apps/api/src/application/services/user.service.ts:25-32 | an ADMIN who logs in and presents the token within 2h is authenticated as that row's id with role ADMIN and may list users |
| `Flows.UnknownRoleNeverAuthenticates` | apps/api/src/infra/graphql/context.ts:36 | a user registered with a role outside the three gets a token that fails every request with UNAUTHENTICATED |
| `Flows.AnonymousRequestIsUnauthenticated` | apps/api/src/application/services/user.service.ts:19-23 | a request that resolves to no user carried no token and gets UNAUTHENTICATED from the listing, never FORBIDDEN |
| `Flows.LongPasswords` | apps/api/src/application/services/auth.service.ts:46 | `password123` and `different1` pass the length check |
| `Flows.ShortPassword` | apps/api/src/application/services/auth.service.ts:46 | `short12` fails the length check |
| `Flows.FirstEmailValid` | apps/api/src/application/services/auth.service.ts:43 | ` A@Example.com ` normalises to an email with `@` |
| `Flows.RegisterIntoEmptyStore` | apps/api/src/application/services/auth.service.ts:52-63 | into an empty store, input that passes both checks registers one row with the normalised email and role |
| `Flows.FirstRegistration` | apps/api/src/application/services/auth.service.ts:40-63 | ` A@Example.com ` / `password123` registers with email `a@example.com` and role CLIENT |
| `Flows.SecondRegistrationConflicts` | apps/api/src/application/services/auth.service.ts:52-55 | after ` A@Example.com ` / `password123` registers, `a@example.com` / `different1` fails with CONFLICT |
| `Flows.ShortPasswordRejected` | apps/api/src/application/services/auth.service.ts:46-50 | `short12` is rejected with BAD_USER_INPUT whatever the store holds |

## Left out

- Cryptography: bcrypt's cost-10 hashing, HS256 signing and `jose`'s signature check are oracles; their laws are assumed by the lemmas that need them. That a tampered token is rejected is a property of HMAC and is not stated.
- The signing secret (`JWT_SECRET`) is not read from the environment; a `Jwt` value stands for the codec of one secret. Signing with a missing or unusable secret, which throws in the source, is not modelled.
- Crypto.SignToken: `iat` and `exp` come from one clock reading; the library reads the clock twice, so they may in rare cases be 7201 seconds apart.
- Crypto.JwtVerify: only the `iat` and `exp` claim checks are modelled, on whole seconds; `nbf`, `crit`, algorithm restrictions and fractional times are not.
- Text.ToLower: maps only the ASCII letters; JavaScript's full Unicode case mapping is not modelled. This includes non-ASCII characters that lower-case to ASCII letters, such as the Kelvin sign `K` (U+212A) to `k`, so `K@x.com` and `k@x.com` are one account in the source but two in the model; and length-changing mappings such as `İ` to `i̇`.
- Text.ToUpper: maps only the ASCII letters; JavaScript's full Unicode case mapping is not modelled. This includes non-ASCII characters that upper-case to ASCII letters, such as the dotless `ı` (U+0131) to `I`: the source stores the role `admın` as `ADMIN`, which then authenticates as ADMIN, while the model stores `ADMıN`, which `Flows.UnknownRoleNeverAuthenticates` covers; and length-changing mappings such as `ß` to `SS`.
- Strings are sequences of Unicode scalar values, so JavaScript strings holding unpaired surrogates cannot be represented.
- Error messages are not modelled, only their codes, so the login message that tells an unknown email from a wrong password is not either.
- UserRepo.ListUsers: the limit is modelled as a whole number; JavaScript passes a number, and a fractional, NaN or out-of-range limit, which PostgreSQL rejects with an unclassified error, cannot be expressed.
- UserService.GetUsers: the limit is a whole number, as for UserRepo.ListUsers.
- A uniqueness error raised by the insert is not modelled.
- Database failures other than a negative LIMIT (lost connection, a failing insert, column constraints not shown in the source) are not modelled.
- `findUserAuthByEmail` returns the first matching row in insertion order; SQL leaves the choice open, which matters only when emails are not unique.
- Rows with the same `created_at` are listed most recently inserted first; SQL leaves their order open.
- Header parsing by Node (case-insensitive names, repeated headers) is not modelled: each header is absent or one string.
- Concurrency: async sequencing, concurrent registrations racing on one email, and any database uniqueness constraint.
- Transport and wiring: the Express bootstrap, health check and process exit (apps/api/src/main.ts), the connection pool (apps/api/src/infra/db/pool.ts), GraphQL type definitions, resolvers and schema assembly. The context's `db` handle is dropped.
- Randomness and clocks (`crypto.randomUUID`, the database clock, the signing clock) are parameters.
