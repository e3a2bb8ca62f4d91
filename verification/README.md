# simple-user-auth: the user router as a state machine

This project models the account, credential and session lifecycle of the
`simple-user-auth` server in Dafny. The model covers the six routes of the user
router (`/create`, `/login`, `/forgot-password`, `/me`, `/reset-password`,
`/logout`) and the four zod request schemas they validate against.

Each route is a pure function from the current state and the request to the
first response it writes and the next state. The state is immutable and has
three parts:

- the `User` table, a sequence of `Account` rows (id, email, password hash,
  display name, creation time, role, `resetCode`), searched like Prisma's
  `findUnique` by email or by id;
- the session store, a map from session id to the user id saved at login and
  the session's absolute expiry (login time + 604800000 ms, the cookie
  `maxAge` of `server/src/main.ts`);
- an outbox that records each forgot-password mail the router tried to send:
  recipient, token, and whether the transport accepted it.

Modules, one per part of the program:

- `Wrappers`: `Option`.
- `Hashing`: a stand-in for bcrypt. `Hash(pw, salt)` produces a record that
  carries its salt, and `Verify(pw, h)` recomputes the digest and compares.
  The digest function `Mix` is an injective keyed encoding. It is not a one-way
  function. It gives exactly the two facts the router relies on: a password
  verifies against its own hash, and no other password does.
- `UserSchema`: the strict zod object schemas. `Validate` is the generic
  mechanism. It reports issues for the declared fields in declaration order,
  then one issue naming every undeclared key. `Accepts` is its declarative
  reference. The `Parse*` functions play the part of `safeParse` for each
  schema. `.min(7).max(30)` counts UTF-16 code units, as JavaScript's
  `String.length` does for well-formed text (`Utf16Length`). zod's email regular expression is the
  parameter `isEmail`.
- `Store`: accounts, sessions, the outbox, `findUnique`, and the state
  invariant `Inv`. The invariant says that emails and ids are unique, ids are
  below the autoincrement counter, every session names an existing account,
  and every pending reset code was first handed to the mail transport for that
  account's address.
- `UserRouter`: the six handlers and the `/me` projection.
- `Lifecycle`: requests as commands and their sequential composition (`Run`).
  It proves the invariant for every handler and every run, plus the
  properties that connect several routes.

Inputs the source takes from its environment are parameters of the handlers:
the clock (`now`), the bcrypt salt, the uuid token (required to be non-empty),
the session id the request carries, and whether the mail transport accepted
the message.

Some behaviour of the code is easy to misread. The model follows the code:

- Login with an unknown email answers `"An unknown error occured."`. The
  thrown `Error` is caught by the generic branch. A wrong password answers
  `"Invalid email or password."`. The two failures are distinguishable, not
  identical (`LoginFailuresDiffer`).
- Logout without a session user still destroys the session. Its first
  response is 500 `"Session does not exist."`.
- Reset-password validation failures answer 500. The handler sets 400 and then
  overrides it. Every other reset failure answers 400 `{message: "Unknown error."}`.
- The reset code is checked by a read followed by an update, not by an atomic
  compare-and-clear. Single use is proved for sequential requests only.
- A forgot-password mail failure keeps the stored token and answers 500
  `"An unknown error occured."`.

## Model

| member | source | states |
|---|---|---|
| Hashing.Hash | server/src/router/user.router.ts:39-40 | the stored record carries its salt, and the password it was made from verifies against it |
| Hashing.VerifyExactly | server/src/router/user.router.ts:93 | `compare` accepts a candidate against `Hash(pw, salt)` if and only if the candidate is `pw` |
| Hashing.SaltsDistinguish | server/src/router/user.router.ts:39-40 | one password hashed under two different salts gives two different records |
| UserSchema.Utf16Length | server/src/schemas/user.schema.ts:6 | the length zod measures counts UTF-16 code units, between the number of characters and twice that |
| UserSchema.Utf16LengthBmp | server/src/schemas/user.schema.ts:6 | for text inside the Basic Multilingual Plane the measured length is the number of characters |
| UserSchema.Utf16LengthCounts | server/src/schemas/user.schema.ts:6 | the measured length is the number of characters plus the number of characters outside the Basic Multilingual Plane, each of which is a surrogate pair |
| UserSchema.FieldIssues | server/src/schemas/user.schema.ts:5-7 | a field raises at most one issue, and raises none exactly when it is a string passing its check or is absent and optional |
| UserSchema.FieldsIssues | server/src/schemas/user.schema.ts:4-8 | the field issues are empty exactly when every declared field is fine |
| UserSchema.KeyIssues | server/src/schemas/user.schema.ts:9 | `.strict()` raises one issue naming all undeclared keys, and none exactly when every key is declared |
| UserSchema.Validate | server/src/schemas/user.schema.ts:3-9 | `safeParse` reports no issue if and only if the declarative `Accepts` holds |
| UserSchema.ParseCreate | server/src/schemas/user.schema.ts:3-9 | valid iff the create schema accepts the body; a valid email passes the email check and the password lies in [7, 30] |
| UserSchema.ParseLogin | server/src/schemas/user.schema.ts:13-18 | valid iff the login schema accepts the body; then the email passes the check and the password lies in [7, 30] |
| UserSchema.ParseForgotPassword | server/src/schemas/user.schema.ts:22-26 | valid iff the forgot-password schema accepts the body; then the email passes the check |
| UserSchema.ParseResetPassword | server/src/schemas/user.schema.ts:30-36 | valid iff the reset schema accepts the body; then the email passes the check and the password lies in [7, 30] |
| UserSchema.CreateParseEncodes | server/src/schemas/user.schema.ts:3-9 | an accepted create body holds exactly the parsed fields and no other key |
| UserSchema.LoginParseEncodes | server/src/schemas/user.schema.ts:13-18 | an accepted login body holds exactly the parsed fields and no other key |
| UserSchema.ForgotPasswordParseEncodes | server/src/schemas/user.schema.ts:22-26 | an accepted forgot-password body holds exactly the email and no other key |
| UserSchema.ResetPasswordParseEncodes | server/src/schemas/user.schema.ts:30-36 | an accepted reset body holds exactly email, key and password and no other key |
| UserSchema.CreateRoundTrip | server/src/schemas/user.schema.ts:3-9 | every create request with a good email and a password in the window is accepted, with or without `displayName`, and parses back to itself |
| UserSchema.LoginRoundTrip | server/src/schemas/user.schema.ts:13-18 | every login request with a good email and a password in the window is accepted and parses back to itself |
| UserSchema.ForgotPasswordRoundTrip | server/src/schemas/user.schema.ts:22-26 | every forgot-password request with a good email is accepted |
| UserSchema.ResetPasswordRoundTrip | server/src/schemas/user.schema.ts:30-36 | every reset request with a good email and password is accepted, whatever its key, the empty key included |
| UserSchema.EmailRequired | server/src/schemas/user.schema.ts:3-36 | each of the four schemas accepts only bodies with a string `email` passing the email check |
| UserSchema.PasswordWindow | server/src/schemas/user.schema.ts:6-34 | the create, login and reset schemas accept only a string password whose length lies in [7, 30] |
| UserSchema.StrictRejectsUnknownKey | server/src/schemas/user.schema.ts:9 | a key outside the declared fields makes a schema refuse the body, and the last issue is the unrecognised-keys issue |
| UserSchema.DisplayNameOnlyOnCreate | server/src/schemas/user.schema.ts:13-36 | a body carrying `displayName` is refused by the login, forgot-password and reset schemas |
| Store.Locate | server/src/router/user.router.ts:83-87 | the position found is the first row matching the clause, and nothing is found exactly when no row matches |
| Store.FindUnique | server/src/router/user.router.ts:83-87 | `findUnique` returns a row of the table that matches, or nothing exactly when no row matches |
| UserRouter.ProfileIgnoresSecrets | server/src/router/user.router.ts:192-203 | the `/me` projection is the same whatever the password hash and reset code are, so it never reveals either |
| UserRouter.Create | server/src/router/user.router.ts:26-69 | an invalid body changes nothing and gets its 500 answer; a taken email gets the unique-constraint answer and only uses up the next id; otherwise exactly one row is appended with the email, a hash verifying the password, the default role and no pending reset |
| UserRouter.Login | server/src/router/user.router.ts:72-115 | success iff the email's account verifies the password, and then the session is bound to that account's id for seven days; an unknown email and a wrong password answer different 500 bodies; no failure changes the state |
| UserRouter.ForgotPassword | server/src/router/user.router.ts:118-187 | an unknown email is a silent 200 with no change; a known one gets the token as its only changed column, then the mail is recorded; a failed mail keeps the token and answers 500 |
| UserRouter.Me | server/src/router/user.router.ts:189-224 | no live session user gives "You are not logged in."; a vanished account gives "Invalid user."; otherwise the account's public projection; state unchanged |
| UserRouter.ResetPassword | server/src/router/user.router.ts:227-295 | unknown email, no pending reset (any key) or a mismatched key answer 400 "Unknown error." and change nothing; a matching key rewrites the hash and clears the code in one update |
| UserRouter.Logout | server/src/router/user.router.ts:298-308 | the session is removed whether or not it held a user, every other session is unchanged, and the first response is 500 only when there was no session user |
| Lifecycle.AppendPreservesInv | server/src/router/user.router.ts:42-48 | inserting a row with a fresh id, an unused email and no pending reset keeps emails and ids unique and the invariant intact |
| Lifecycle.CreatePreservesInv | server/src/router/user.router.ts:26-69 | account creation preserves the invariant, in particular one account per email |
| Lifecycle.LoginPreservesInv | server/src/router/user.router.ts:72-115 | login preserves the invariant: a session only ever names an existing account |
| Lifecycle.ForgotPasswordPreservesInv | server/src/router/user.router.ts:118-187 | forgot-password preserves the invariant: the token it stores is mailed to that account's address |
| Lifecycle.ResetPasswordPreservesInv | server/src/router/user.router.ts:227-295 | reset-password preserves the invariant |
| Lifecycle.HandlePreservesInv | server/src/router/user.router.ts:26-308 | every route preserves the invariant |
| Lifecycle.RunPreservesInv | server/src/router/user.router.ts:26-308 | every sequence of requests from a good state ends in a good state |
| Lifecycle.HandleKeepsSession | server/src/router/user.router.ts:26-308 | only a login on a session id writes that stored session; every other route leaves it exactly as it was or removes it |
| Lifecycle.RunNeverRenews | server/src/main.ts:25-28 | over any run without a login on that session id, the stored session is kept unchanged or dropped, so a session that reads as absent stays absent at every later time (the store's own renewal on each response is left out) |
| Lifecycle.InvalidBodyChangesNothing | server/src/router/user.router.ts:28-34 | a body that fails its schema leaves the whole state unchanged and is answered 500 with the issues, on all four validating routes |
| Lifecycle.CreateThenLogin | server/src/router/user.router.ts:26-115 | after creating an account, logging in with the same credentials succeeds and binds the session to the new id |
| Lifecycle.CreateRegistersEmail | server/src/router/user.router.ts:42-51 | after a well-formed create the email belongs to an account, new or existing |
| Lifecycle.DuplicateCreateRefused | server/src/router/user.router.ts:52-56 | of two creates for one email the second answers "An account with this email already exists." and changes nothing but the id counter, which it advances by one |
| Lifecycle.LoginFailuresDiffer | server/src/router/user.router.ts:89-112 | an unknown email answers "An unknown error occured.", a wrong password "Invalid email or password.", and the two responses differ |
| Lifecycle.SessionExpires | server/src/main.ts:25-28 | a login whose password verifies against the account with that email succeeds, and its session reads as live until, and only until, login time + 604800000 ms |
| Lifecycle.NothingPendingRefusesEveryKey | server/src/router/user.router.ts:247-248 | with an empty reset code, reset fails for every key, the empty key included, and changes nothing |
| Lifecycle.ResetCodeSingleUse | server/src/router/user.router.ts:249-261 | when the account's pending code equals the key, the first reset answers 200 "Your password has been updated." and redeeming the same key again is refused with no change |
| Lifecycle.ResetChangesCredentials | server/src/router/user.router.ts:249-261 | after a reset with the pending key the new password logs in and any other password, the old one included, gets "Invalid email or password." |
| Lifecycle.RedeemedKeyWasMailed | server/src/router/user.router.ts:134-161 | a key that redeems was earlier handed to the mail transport addressed to that account's email |
| Lifecycle.SecondRequestOverwrites | server/src/router/user.router.ts:134-143 | a second forgot-password request replaces the stored token, and the first token no longer redeems |
| Lifecycle.LogoutEndsSession | server/src/router/user.router.ts:298-307 | after logout, `/me` with the same session id answers "You are not logged in." at any time |
| Lifecycle.MeFindsAccount | server/src/router/user.router.ts:189-211 | in a good state a live session user always gets its own profile, never "Invalid user." |
| Lifecycle.MeHidesSecrets | server/src/router/user.router.ts:192-203 | two states that differ only in password hashes and reset codes give identical `/me` responses |
| Lifecycle.LoginLogoutScenario | server/src/router/user.router.ts:26-308 | create, login, `/me`, logout, `/me`: 200, 200, the new account's profile, 200, then "You are not logged in." |
| Lifecycle.ResetScenario | server/src/router/user.router.ts:118-295 | forgot, wrong key, mailed key, old password, new password: 200, 400, 200, "Invalid email or password.", 200 |
| Lifecycle.HandleNeverInvalidUser | server/src/router/user.router.ts:209-211 | in a good state no route answers "Invalid user." |
| Lifecycle.RunNeverInvalidUser | server/src/router/user.router.ts:209-211 | no response of any run from a good state is "Invalid user." |

## Left out

- Request strings that are not valid Unicode: a JSON body may carry a lone surrogate (`"\ud800abcdef"` has `String.length` 7), but a Dafny `string` holds Unicode scalar values only. The password window is not modelled for such bodies.
- bcrypt internals (salt generation, the cost factor of 10, the encoding of the hash string) belong to a foreign library. `Hash`/`Verify` keep only the salt-in-record shape, correctness and injectivity. bcrypt's truncation of passwords longer than 72 bytes is not modelled. Thirty UTF-16 units of three-byte characters can exceed it.
- uuid generation is the non-empty `token` parameter of forgot-password.
- Prisma and Postgres are replaced by values. The Prisma schema is not part of this model, so the id is an autoincrement counter from 1 (a create refused by the unique email index still uses up one value, as a Postgres sequence does), `role` defaults to `DefaultRole`, `resetCode` defaults to "", and `createdAt` is the request's clock. Store failures are not modelled: "Error while creating account", the known-request-error branches of forgot-password and reset-password, and update calls that throw. The falsy-`updateUser` branches (lines 144/163 and 263/267) cannot be reached, because `update` throws instead of returning null.
- The mail transport is the `delivered` parameter. Mail content and SMTP configuration are I/O.
- express-session plumbing is not modelled: cookie signing, the secret, the two-minute reap period, the renewal of the cookie expiry on each response, and a fresh session id issued when the cookie names no stored session. A destroy failure ("Error destroying user session.") is store I/O.
- Concurrency: requests are sequential. Single use of a reset code is not claimed for concurrent redemptions, which the read-then-update at lines 236-261 does not prevent.
- Second responses after a first one (lines 167, 300, 304) are not modelled, nor is Express's "headers already sent" behaviour. The model keeps the first response and the state effect.
- zod message texts and the order of keys inside the unrecognised-keys issue are zod's. Issues carry a kind and a path. Bodies that are not JSON objects are not modelled.
- Errors other than zod and Prisma ones are not modelled, for example bcrypt throwing on a malformed hash.
- Logging (`server/src/logger.ts`, `console.log` in `/me`), route mounting (`server/src/router/index.ts`) and the rest of `server/src/main.ts` (CORS, body parsers, listen) are glue or I/O.
- Session expiry: a session is live while `now < expires`. The source leaves the instant of expiry itself to the session store.
- `/me` on a vanished account answers "Invalid user.". This assumes `findUniqueOrThrow` throws a known request error, as Prisma 5 does. Older Prisma versions would answer `{message: "Unknown error."}`.
- UserRouter.Login: the per-account outcome is stated for tables whose emails are unique. The database's unique index guarantees this, and `Inv` includes it.
- UserRouter.ForgotPassword: the per-account outcome is stated for tables whose emails are unique, as for Login.
- UserRouter.ResetPassword: the per-account outcome is stated for tables whose emails are unique, as for Login.
- UserRouter.Me: the profile case is stated for tables whose ids are unique, which the primary key guarantees.
