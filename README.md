# Account and authentication core of a NestJS GraphQL service, in Dafny

This project models the account and authentication logic of a small NestJS
service. That logic has three parts:

- **The user directory** (`UsersService`). It creates users, storing the
  password only as a bcrypt digest. It finds users by email or id, lists them
  by role, updates them, and blocks them. It also maps database driver errors
  to HTTP exceptions.
- **The auth service** (`AuthService`). It handles signup, login, the
  active-status check on a token's subject (`validateUser`) and re-issuing a
  token (`revalidateToken`).
- **The request gate**. This is the GraphQL `context` callback. It strips
  `Bearer ` from the `Authorization` header and rejects a request whose token
  is missing, empty or does not decode.

The database, bcrypt and JWT are kept abstract:

- The users table is a `map<UserId, User>` held by the `UsersService` class.
  The methods `Create`, `Update` and `Block` reassign it.
- The table's primary key and its unique email index are modelled by
  `Insert` and `Save`. A clash gives PostgreSQL's `unique_violation` code
  `23505`, with the driver's detail `Key (column)=(value) already exists.`.
- `bcrypt.hashSync(_, 10)` is a function `hash` held by `UsersService`.
  `bcrypt.compareSync` is a function `compare` held by `AuthService`.
  `jwtService.sign({ id })` is a function `sign` held by `AuthService`.
  The gate's `jwtService.decode` is a parameter `decode`.
- The id the database assigns to a new user is a parameter `newId` of
  `Create` and `Signup`.

Modules: `Exceptions` holds the `Option` and `Result` wrappers and one `Error`
constructor per exception class the code throws. `Strings` holds JavaScript's
`String.prototype.replace` with a string pattern, which replaces only the
first occurrence, for a replacement without `$` patterns (the code only passes
`''`). `Users`, `Auth` and `AppGate` hold the three parts above.

Behaviour of the code a reader may not expect:

- A duplicate email gives `BadRequest`, not a separate conflict error.
- An inactive user gives `Unauthorized`, not a forbidden error.
- Login reports an unknown email as `NotFound`, distinct from a wrong password.
- The request gate does no user lookup and no active-status or role check.
  A blocked user's token still passes it. `Auth.AuthService.BlockedUserCanLogIn`
  shows that login does not look at `isActive` either.
- The code has no role-requirement check.

## Model

| member | source | states |
|---|---|---|
| `Strings.IndexOf` | src/app.module.ts:28 | the index it returns is the first index at which the pattern occurs; None only when the pattern occurs nowhere |
| `Strings.ReplaceFirst` | src/app.module.ts:28 | `replace` with a string pattern: unchanged when the pattern does not occur, otherwise exactly the first occurrence is swapped for the replacement |
| `Strings.ReplacePrefix` | src/users/users.service.ts:102 | a string that begins with the pattern loses exactly that prefix when it is replaced by "" |
| `Users.Insert` | src/users/users.service.ts:24-29 | saving a new record succeeds iff neither its id nor its email is taken; it then adds exactly that record; a clash is a `23505` unique violation |
| `Users.Save` | src/users/users.service.ts:83 | saving a loaded record overwrites the record with its id; it fails with a `23505` violation on the email exactly when another user has that email |
| `Users.Preload` | src/users/users.service.ts:81 | preload finds the record named by the input's id, or nothing; given fields overwrite, absent ones keep the stored values; id, digest and lastUpdateBy are kept |
| `Users.HandleDbError` | src/users/users.service.ts:99-109 | never yields a value, only an exception: always BadRequest or InternalServerError; BadRequest iff the code is `23505` (detail minus the first `Key `) or `error-001` (detail); otherwise "Please check server logs" |
| `Users.DuplicateEmailMessage` | src/users/users.service.ts:101-102 | inserting a user whose email is taken yields BadRequest("(email)=(e) already exists.") |
| `Users.SameEmailSaves` | src/users/users.service.ts:95 | saving a record under its own id with its email unchanged never violates the unique index |
| `Users.BlockIdempotent` | src/users/users.service.ts:89-95 | blocking the same id twice with the same admin leaves the same table as blocking once |
| `Users.NewUser` | src/users/users.service.ts:24-27 | the record built for a signup: the input's email and full name, the digest given in place of the plaintext password, role `user`, active, no lastUpdateBy |
| `Users.Blocked` | src/users/users.service.ts:92-93 | the blocked record: inactive, lastUpdateBy the admin's id, and id, email, full name, digest and roles as before |
| `Users.UsersService.constructor` | src/users/users.service.ts:17-20 | a new service starts on an empty, well-formed table with the given hash |
| `Users.UsersService.Create` | src/users/users.service.ts:22-33 | succeeds iff the id and email are free; then stores and returns the input's email and name with `hash(password)` in place of the plaintext, role `user`, active; otherwise the error is `handleDBError` of the save's unique violation (for a taken email, BadRequest("(email)=(e) already exists.") by `Users.DuplicateEmailMessage`) and the table is unchanged; the table invariant (unique emails) is kept |
| `Users.UsersService.FindAll` | src/users/users.service.ts:35-51 | an empty filter lists every stored user; a non-empty one lists exactly the stored users whose roles share an element with the filter |
| `Users.UsersService.FindAllWithinAll` | src/users/users.service.ts:35-51 | a role filter only ever narrows the unfiltered listing |
| `Users.UsersService.FindAllEveryRole` | src/users/users.service.ts:47-50 | filtering by all three roles lists exactly the users holding at least one role |
| `Users.UsersService.FindOneByEmail` | src/users/users.service.ts:53-66 | the stored user with that email if one exists, otherwise NotFound("User with email e not found") and no other error |
| `Users.UsersService.FindOneById` | src/users/users.service.ts:68-77 | the stored user with that id if one exists, otherwise NotFound("User with id i not found") and no other error |
| `Users.UsersService.Update` | src/users/users.service.ts:79-87 | ignores its `id` argument; targets `input.id`; a missing record gives InternalServerError("Please check server logs"); an email clash gives BadRequest; otherwise only that record changes, to the merged record with lastUpdateBy the updater; failures leave the table unchanged |
| `Users.UsersService.Block` | src/users/users.service.ts:89-97 | an unknown id gives NotFound and changes nothing; otherwise only that record changes: isActive false, lastUpdateBy the admin, every other field and user untouched |
| `Auth.AuthService.constructor` | src/auth/auth.service.ts:13-16 | the service keeps the given user directory, signer and comparison |
| `Auth.AuthService.GetJwtToken` | src/auth/auth.service.ts:18-20 | the token is the signature of the user's id alone |
| `Auth.AuthService.Signup` | src/auth/auth.service.ts:22-33 | succeeds iff creation succeeds; then returns the created user (digest of the password) with `sign(newId)` and stores it; otherwise exactly the error `create` raises (`handleDBError` of the unique violation), no token, and an unchanged table |
| `Auth.AuthService.Login` | src/auth/auth.service.ts:35-49 | an unknown email gives NotFound whatever the password; a stored user whose digest does not match gives BadRequest("Email/Password do not match"); a match gives that stored user and `sign(id)`; isActive is never consulted |
| `Auth.AuthService.ValidateUser` | src/auth/auth.service.ts:51-61 | unknown id gives NotFound; an inactive user gives Unauthorized("User is inactive, talk with an admin"); an active user is returned with no password digest and every other field as stored |
| `Auth.AuthService.RevalidateToken` | src/auth/auth.service.ts:63-69 | returns the given user unchanged with `sign(user.id)`; reads no state |
| `Auth.AuthService.LoginAfterSignup` | src/auth/auth.service.ts:22-49 | after signup has stored a user, login with the same email and password returns that user and `sign(newId)`, given that the comparison accepts the digest of that password |
| `Auth.AuthService.BlockedUserCanLogIn` | src/auth/auth.service.ts:35-49 | an inactive user with a matching password still logs in and gets a token |
| `AppGate.ExtractToken` | src/app.module.ts:28 | a missing header gives no token; a header without `Bearer ` is the token unchanged; otherwise the token is the header with its first `Bearer ` cut out |
| `AppGate.Context` | src/app.module.ts:26-33 | missing header or empty token gives Error("Token needed") whatever the decoder does; a non-empty token that does not decode gives Error("Token not valid"); otherwise the request goes ahead |
| `AppGate.AcceptsIff` | src/app.module.ts:26-33 | the gate accepts exactly when a non-empty token remains after stripping and the decoder yields a payload |
| `AppGate.BearerHeaderToken` | src/app.module.ts:28 | the header `Bearer <t>` yields exactly the token `<t>` |
| `AppGate.EmptyBearerRejected` | src/app.module.ts:28-29 | the header that is exactly `Bearer ` is rejected with "Token needed" |
| `AppGate.HeaderWithoutBearer` | src/app.module.ts:28 | a header that does not contain `Bearer ` is passed on unchanged as the token |
| `AppGate.BearerRemovedAnywhere` | src/app.module.ts:28 | `Bearer ` is removed at its first occurrence even in the middle of the header, keeping what precedes it; this is looser than section 2.1 of RFC 6750 |

## Left out

- bcrypt: hashing and comparison are abstract functions. The random salt of
  `hashSync` is not modelled, so equal passwords get equal digests. Nothing is
  assumed about how `compare` relates to `hash`, except in the precondition of
  `Auth.AuthService.LoginAfterSignup`.
- JWT: `sign` and `decode` are abstract. This leaves out the secret, the
  4-hour expiry (src/auth/auth.module.ts:21-27) and time. The gate calls
  `jwtService.decode` (src/app.module.ts:31), which checks neither the
  signature nor the expiry: a forged or expired token that parses passes the
  gate. The unconstrained `decode` parameter allows exactly that.
  The gate's `decode` gives an `Option`, so a payload that JavaScript would
  treat as falsy without being null is not modelled.
- TypeORM and PostgreSQL are modelled only as the in-memory table and its two
  unique constraints. The SQL `ARRAY[roles] && ARRAY[...]` is taken as role-set
  overlap. Connection settings and `synchronize` are left out, and so are
  driver errors other than the unique violations on id and email.
- Users.UsersService.Update and Users.UsersService.Block: accept any
  `updateBy`/`adminUser`. `lastUpdateBy` is a relation to another user
  (src/users/users.service.ts:82, 93); a foreign-key rejection of an acting
  user who is not in the table is not modelled.
- When a new record clashes on both its id and its email, the model reports
  the id. PostgreSQL's order of index checks is not modelled.
- Users.UsersService.FindAll: returns a set, not an ordered array, because the
  query has no ORDER BY and its row order is unspecified.
- The User entity, the DTOs and their validation are not part of this model.
  The model assumes these things about them:
  - A new record gets role `user`, is active and has no `lastUpdateBy`.
  - An update input carries an id and optional email, full name, roles and
    active flag.
  - No email case normalisation happens.
- `validateUser` deletes the password from the entity it has just fetched.
  That object is a fresh copy, so the model returns a copy of the record
  without the digest. The stored record is not touched.
- `lastUpdateBy` refers to the acting user by id, not by an embedded object.
- Logger calls, async/Promise plumbing and concurrent requests are not
  modelled. Calls are sequential, and email uniqueness is a sequential check
  at save time.
- The GraphQL/Apollo setup, ConfigModule, Passport, the DI module definitions
  (all of src/auth/auth.module.ts), resolvers, JwtStrategy and role guards are
  not part of this model.
