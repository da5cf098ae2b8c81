# User management with authorization: a Dafny model

This project models the core of a small HTTP user-management API: user
registration and login, listing, fetching, updating and deleting users, the
bearer-token and admin gates in front of the routes, the input schemas, the
error handler that turns thrown errors into status codes, and what a client
receives when a handler passes an error on.

Everything is pure. The user table is an immutable value
(`Users.Store`: rows in a `map<nat, User>` keyed by id, plus the next serial
id), every service operation is a function from a table to a result (and, for
mutations, a new table), and every handler returns the table it leaves behind
together with how it ends: it answers, or it calls `next(error)`. Outside
collaborators are parameters:

- the password-hashing library is `AuthService.Hasher`, a pair of functions
  whose `None` result means the library threw; the random salt is modelled
  by letting every call be given a different hasher;
- token verification is a partial function `verify: string -> Option<Principal>`;
- the email-syntax check of the schema library is a predicate `isEmail`;
- the clock is a parameter `now: Time`.

Modules follow the source files: `Validation` (user.validation.js),
`UserService` (user.services.js), `AuthService` (auth.service.js),
`AuthMiddleware` (auth.middleware.js), `ErrorMiddleware`
(error.middleware.js), `UserController` (user.controller.js), and `Routes`
(the `authenticate`-then-handler chaining of the protected routes). `Users`
holds the data model, `Http` the errors and responses, `Text` the string
primitives (digit strings, `trim`, `toLowerCase`, `join`/`split`), and
`Results` the `Option` and `Result` types.

Points where the code does something other than its own pieces suggest; the
model follows the code:

- `errorHandler` (src/middleware/error.middleware.js:4-41) is defined but
  never mounted: src/app.js:12-49 installs no error-handling middleware after
  the routes. Whatever the user controller passes to `next` is therefore
  answered by Express's default final handler, with 500, since none of these
  errors carries a status of its own. `Routes.Finish` takes the error stage as
  a parameter; `Routes.Wired` is the application as wired, and
  `Routes.MalformedIdIsValidationError` states both answers to a malformed
  id: 500 as wired, 400 with an `id` detail if `errorHandler` were mounted.
- src/middleware/error.middleware.js:29-34 maps 'User already exists' to 409,
  but `createUser`'s catch (src/services/auth.service.js:50-53) re-throws it
  as 'Error in creating user' (`AuthService.DuplicateEmailSurfacesAsCreateFailed`),
  which `errorHandler` would map to 500. The auth controller that calls
  `createUser` is not part of this model, so the status a client finally sees
  is not stated here.
- Login tells an unknown email (`'User not found'`) apart from a wrong
  password (`'Invalid password'`), as `AuthService.AuthenticateUser` states.
- Thrown errors are a tagged type (`Http.Error`): a schema-validation error
  or a plain error identified by its message. The error handler tests for a
  validation error before it compares messages; since the two are distinct
  constructors here, no validation error can be mistaken for a known message.
- Email uniqueness is checked only by registration; `updateUser` can store an
  email that another row already has, unless a database constraint refuses
  it (the table definition is not part of this model).

## Model

| member | source | states |
|---|---|---|
| `Users.ProjectForgetsOnlyPassword` | src/services/user.services.js:8-15 | The public projection drops exactly the password: two rows project alike iff they agree on every other column. |
| `Users.IdentityIgnoresPassword` | src/services/user.services.js:100-105 | The `{id, name, email, role}` projection never depends on the stored password or the timestamps. |
| `Users.FindByEmail` | src/services/auth.service.js:58-62 | Lookup by email returns a row with that email; on a valid table it finds one iff some row has the email, and with unique emails it finds that row. |
| `Validation.ParseId` | src/validations/user.validation.js:4 | An id is accepted iff it is non-empty and all ASCII digits; a rejection is the single issue at path `id` with message 'ID must be a valid number'. |
| `Validation.ParseIdOfDecimal` | src/validations/user.validation.js:4 | Every number's decimal rendering is accepted and converts back to that number. |
| `Validation.ParseIdCanonical` | src/validations/user.validation.js:4 | An accepted id without leading zeros is exactly the decimal rendering of its value. |
| `Validation.LeadingZeroIgnored` | src/validations/user.validation.js:4 | A leading zero does not change the converted value. |
| `Validation.ValidateUpdate` | src/validations/user.validation.js:7-22 | The body is accepted iff name is 2-255 chars, email passes the syntax check and is at most 255, password is 6-128, role is 'admin' or 'user' (each when present) and at least one field is present; accepted values keep presence, with name trimmed and email lower-cased and trimmed; when nothing was sent the only issue is the path-less 'At least one field must be provided for update', and otherwise every issue points at a present field that fails its rule. |
| `Validation.ValidatedFieldsInBounds` | src/validations/user.validation.js:11-21 | A validated body has at least one field, a 6-128 char password and an enumerated role. |
| `Validation.ValidatedNameIsTrimmed` | src/validations/user.validation.js:9 | A validated name is at most 255 chars and already trimmed. |
| `Validation.EmailNormalizationIsStable` | src/validations/user.validation.js:10 | Lower-casing then trimming an email never lengthens it, and normalising a normalised email changes nothing. |
| `Text.Trim` | src/validations/user.validation.js:9-10 | Trimming yields a contiguous piece of the input with only whitespace cut off before and after it; the piece neither starts nor ends with whitespace and is empty iff the input was all whitespace. |
| `Text.TrimOfTrimmed` | src/validations/user.validation.js:9-10 | A string that neither starts nor ends with whitespace is left as it is by trimming. |
| `Text.TrimIdempotent` | src/validations/user.validation.js:9-10 | Trimming twice is trimming once. |
| `Text.ToLowerIdempotent` | src/validations/user.validation.js:10 | Lower-casing leaves no upper-case ASCII letter and is idempotent. |
| `ErrorMiddleware.ErrorHandler` | src/middleware/error.middleware.js:4-41 | Every error gets exactly one of 400/404/409/500: 400 iff it is a validation error (one detail per issue, field = path joined by '.'), 404 iff its message is 'User not found', 409 iff 'User already exists', and otherwise the fixed 500 'Something went wrong'. |
| `ErrorMiddleware.InternalErrorsIndistinguishable` | src/middleware/error.middleware.js:36-40 | All 500 answers are identical, so no error detail reaches the client. |
| `ErrorMiddleware.FieldNameRecoversPath` | src/middleware/error.middleware.js:9-12 | Splitting a detail's `field` at the dots gives back the issue path, when no key contains a dot. |
| `UserService.GetAllUsers` | src/services/user.services.js:6-15 | Each listed entry is the password-free projection of the stored row with that id, and no id is listed twice. |
| `UserService.GetAllUsersComplete` | src/services/user.services.js:6-15 | On a valid table the listing names every stored id and has exactly as many entries as there are users. |
| `UserService.GetUserById` | src/services/user.services.js:23-41 | Lookup succeeds iff the id is stored and then returns that row's projection; otherwise it fails with 'User not found'. |
| `UserService.GetUserByIdAgreesWithListing` | src/services/user.services.js:6-41 | Lookup by id returns exactly the listed projection that carries that id. |
| `UserService.UpdateUser` | src/services/user.services.js:48-82 | A missing id fails with 'User not found'; otherwise only the target row changes, its supplied fields are overwritten, the others kept, `updatedAt` set to now, and the row's new projection is returned. |
| `UserService.UpdateIdempotent` | src/services/user.services.js:61-67 | Repeating an update at the same time changes nothing further. |
| `UserService.UpdateThenGet` | src/services/user.services.js:61-77 | After an update, lookup returns what the update returned. |
| `UserService.UpdatePreservesValid` | src/services/user.services.js:61-67 | An update keeps every stored id below the id sequence. |
| `UserService.DeleteUser` | src/services/user.services.js:84-112 | A missing id fails with 'User not found'; otherwise exactly that key is removed, every other row kept, the id sequence untouched, and the removed row's `{id, name, email, role}` returned. |
| `UserService.DeleteThenGone` | src/services/user.services.js:87-107 | After a delete, lookup and a second delete of the same id both fail with 'User not found'. |
| `UserService.DeletePreservesInvariants` | src/services/user.services.js:97-99 | A delete keeps ids below the id sequence and keeps emails unique. |
| `AuthService.HashPassword` | src/services/auth.service.js:7-14 | The result is the library's hash, or 'Error in hashPassword' exactly when the library throws. |
| `AuthService.ComparePassword` | src/services/auth.service.js:16-23 | The result is the library's verdict, or 'Error in comparePassword' exactly when the library throws. |
| `AuthService.CreateUserSteps` | src/services/auth.service.js:27-34 | An email already stored is refused with 'User already exists' before anything is hashed or inserted. |
| `AuthService.CreateUser` | src/services/auth.service.js:25-53 | Registration succeeds iff the email is not stored and hashing succeeds; it then inserts one row under the next serial id with the hashed password and role defaulted to 'user', changes no other row, and returns `{id, name, email, role}`; the stored row holds the given name and email, the hash, that role, and the insert time in both timestamps; every failure is 'Error in creating user'. |
| `AuthService.DuplicateEmailSurfacesAsCreateFailed` | src/services/auth.service.js:27-53 | A duplicate email is detected as 'User already exists' but reaches the caller as 'Error in creating user'. |
| `AuthService.CreatePreservesInvariants` | src/services/auth.service.js:27-47 | Registration keeps ids below the id sequence and keeps emails unique. |
| `AuthService.AuthenticateUser` | src/services/auth.service.js:56-86 | Login fails with 'User not found' iff no row has the email, with 'Invalid password' iff the compare says no, with the compare's own error iff it throws, and otherwise returns the found row's `{id, name, email, role}`. |
| `AuthService.RegisterThenLogin` | src/services/auth.service.js:25-81 | Registering a fresh email and logging in with the same password returns the registered identity, assuming the library accepts a password against its own hash. |
| `AuthMiddleware.Authenticate` | src/middleware/auth.middleware.js:4-27 | The request proceeds iff the header exists, starts with exactly 'Bearer ' and the rest verifies, with the user set to the verified claims; every other case is 401, 'Invalid or expired token' iff the prefix was right. |
| `AuthMiddleware.BearerHeaderRoundTrip` | src/middleware/auth.middleware.js:8-20 | The header 'Bearer t' hands exactly t to the verifier, and every accepted header is 'Bearer ' followed by its token. |
| `AuthMiddleware.SchemeIsCaseSensitive` | src/middleware/auth.middleware.js:8-13 | A header starting 'bearer ' is refused with the missing-token 401 whatever follows. |
| `AuthMiddleware.RequireAdmin` | src/middleware/auth.middleware.js:37-53 | No user gives 401, a role other than 'admin' gives 403, and only an admin passes. |
| `UserController.UpdateDecision` | src/controllers/user.controller.js:62-79 | An update is allowed iff the requester owns the profile or is admin, and sends no role unless admin; a non-owner non-admin always gets the own-profile denial, an owner non-admin sending a role the role denial. |
| `UserController.DeleteDecision` | src/controllers/user.controller.js:112-122 | A delete is allowed iff the requester owns the profile or is admin. |
| `UserController.Catch` | src/controllers/user.controller.js:94-103 | A 'User not found' error is answered 404 `{Not Found, User not found}` by the handler; every other error is passed on unchanged. |
| `UserController.FetchAllUsers` | src/controllers/user.controller.js:14-27 | The listing is answered 200 with the users and a `count` equal to their number. |
| `UserController.FetchAllUsersCountsUsers` | src/controllers/user.controller.js:17-22 | The `count` is the number of stored users. |
| `UserController.FetchUserById` | src/controllers/user.controller.js:29-52 | A malformed id is passed to `next` as a validation error; a missing id is answered 404; otherwise 200 with the projection. |
| `UserController.HashIfPresent` | src/controllers/user.controller.js:81-85 | A supplied password is replaced by its hash, failing exactly when hashing fails; no password means nothing is hashed. |
| `UserController.UpdateUserById` | src/controllers/user.controller.js:54-104 | Id and body validation errors come first, then a denial answers 403; the table changes only when the update is authorized, the id exists and hashing succeeded, and then only the target row's supplied fields change, the password stored as its hash, with 200 and the new projection. |
| `UserController.UpdateErrorOutcomes` | src/controllers/user.controller.js:81-100 | An authorized update of a missing id is answered 404; a hashing failure is passed to `next` as 'Error in hashPassword'. |
| `UserController.UpdateDenialPrecedesEffects` | src/controllers/user.controller.js:62-88 | A denied update answers 403 the same whatever the table and the hasher, and leaves the table unchanged. |
| `UserController.NonAdminCannotSetRole` | src/controllers/user.controller.js:73-79 | No update by a non-admin changes any stored role. |
| `UserController.DeleteUserById` | src/controllers/user.controller.js:106-141 | A malformed id is a validation error; a denial is 403; a missing id 404; otherwise exactly that row is removed and its identity answered with 200. |
| `UserController.DeleteAllowedIffOwnerOrAdmin` | src/controllers/user.controller.js:112-130 | An existing user is deleted iff the requester owns the profile or is admin; the answer is the 403 delete denial exactly when they are neither, and then the table is kept. |
| `Routes.Finish` | src/app.js:41-48 | A handler's answer is sent as it is; an error passed to `next` is answered 500 by Express's default handler when no error middleware is mounted, as in the application, and by `errorHandler` when it is. |
| `Routes.ServeFetchUser` | src/routes/user.routes.js:16 | A request the token gate refuses gets its 401; every answer is one of 200/400/401/404/500, and with no error middleware mounted never 400. |
| `Routes.ServeUpdateUser` | src/routes/user.routes.js:17 | A refused token leaves the table unchanged with 401; every answer is one of 200/400/401/403/404/500 (never 400 with no error middleware mounted), and the table changes only with a 200. |
| `Routes.ServeDeleteUser` | src/routes/user.routes.js:18 | A refused token leaves the table unchanged with 401; every answer is one of 200/400/401/403/404/500 (never 400 with no error middleware mounted), and the table changes only with a 200. |
| `Routes.MalformedIdIsValidationError` | src/controllers/user.controller.js:106-110 | A malformed id is passed to `next` before any authorization or table access; as the application is wired it is answered 500, and `errorHandler`, if mounted, would answer 400 with the single detail `{field: 'id'}`. |
| `Routes.UpdateThenFetch` | src/routes/user.routes.js:16-17 | After an update goes ahead with 200, fetching the same id answers 200 with the projection the update returned. |
| `Routes.OtherUsersRecordsAreProtected` | src/controllers/user.controller.js:112-122 | A non-admin holding a valid token gets 403 for updating or deleting another user's record, and the table is unchanged. |

## Left out

- Database access and the logger are not modelled as I/O: the table is a value, and database failures (connection errors, constraint violations) are not modelled, so `getAllUsers` re-wrapping such errors is not represented.
- The table definition is not part of this model: whether the table enforces unique emails, what `createdAt`/`updatedAt` default to (the model sets both to the insert time), and whether `users.created_at` in the registration's returned columns names a real column. `AuthService.CreateUser` therefore returns `{id, name, email, role}` only.
- Row order: the listing query has no ORDER BY; `UserService.GetAllUsers` lists by ascending id, and `Users.FindByEmail` picks the lowest id when several rows share an email.
- bcrypt (including its work factor of 12) and JSON Web Token signing and verification are parameters; that a password matches its own hash is an explicit assumption (`AuthService.AcceptsOwnHash`), never proved.
- The claims a token carries are modelled as a numeric id and a role string; the token utility that produces them is not part of this model, and a string id in the claims (which would never equal the numeric path id) is not modelled.
- The outer 500 'Authentication error' branch of `authenticate` is not modelled: with a string header nothing in its try block can throw outside the inner verification.
- `requireAdmin` is modelled but is not mounted on any route shown.
- The schema library: its email regex is the parameter `isEmail`; issue messages use its default wording as constants; field checks are applied to the string as received, before trimming and lower-casing, and no interaction between length bounds and trimming is proved; keys other than the four fields and non-object bodies are not modelled.
- `Validation.ValidateUpdate` reports the at-least-one-field issue only when no field was sent; when a field fails a check the refinement still passes because that field is present, and a type error stops the object before the refinement runs.
- `Text.ToLower` lower-cases ASCII letters only, and lengths count Unicode code points rather than UTF-16 code units.
- `Number(...)` loses precision above 2^53; the converted id is an unbounded `nat`.
- Races between the email check and the insert, and between the existence check and the update or delete, are concurrency concerns and are not modelled.
- Routes.Finish: the application mounts no error-handling middleware (src/app.js:12-49), so the model's answer to an error passed to `next` is Express's default 500 (`Routes.Wired`); the HTML page it writes, which includes the stack trace outside production, is the bodiless `Http.ErrorPage`, and `errorHandler`'s answers are stated only for the alternative stage in which it is mounted.
- Express setup, security middleware, the `/` and `/health` handlers, the 404 fallback, and the auth routes and controller are not part of this model.
