/**
 * The user controller: request handlers for listing, fetching, updating and
 * deleting users. Update and delete decide self-or-admin access, and update
 * additionally forbids non-admins to set a role; every denial is answered
 * before the password is hashed and before the table is touched.
 */
module UserController {
  import opened Results
  import opened Users
  import opened Http
  import opened Validation
  import opened UserService
  import opened AuthService

  // ---------------------------------------------------------------------
  // Access decisions
  // ---------------------------------------------------------------------

  /** `req.user && req.user.id === id`. */
  predicate IsOwnProfile(requester: Option<Principal>, id: nat) {
    requester.Some? && requester.value.id == id
  }

  /** `req.user && req.user.role === 'admin'`. */
  predicate IsAdmin(requester: Option<Principal>) {
    requester.Some? && requester.value.role == AdminRole
  }

  const OwnProfileOnly: string := "You can only update your own profile"
  const AdminOnlyRoleChange: string := "Only administrators can change user roles"
  const OwnOrAdminDelete: string := "You can only delete your own profile or must be an administrator"

  datatype Decision = Allow | Deny(message: string)

  function Forbidden(message: string): Response {
    Response(403, ErrorBody("Forbidden", message))
  }

  /**
   * Update access: the requester must own the profile or be an admin, and
   * only an admin may send a role. Ownership is checked first, so a
   * non-admin editing someone else's profile gets the ownership message even
   * when the body also carries a role.
   */
  function UpdateDecision(requester: Option<Principal>, id: nat, fields: UpdateFields): (d: Decision)
    ensures d == Allow <==>
      (IsOwnProfile(requester, id) || IsAdmin(requester)) && (fields.role.None? || IsAdmin(requester))
    ensures !IsOwnProfile(requester, id) && !IsAdmin(requester) ==> d == Deny(OwnProfileOnly)
    ensures IsOwnProfile(requester, id) && !IsAdmin(requester) && fields.role.Some? ==> d == Deny(AdminOnlyRoleChange)
  {
    var isOwnProfile := IsOwnProfile(requester, id);
    var isAdmin := IsAdmin(requester);
    if !isOwnProfile && !isAdmin then Deny(OwnProfileOnly)
    // A validated role is 'admin' or 'user', so it is truthy exactly when present.
    else if fields.role.Some? && !isAdmin then Deny(AdminOnlyRoleChange)
    else Allow
  }

  /** Delete access: the requester must own the profile or be an admin. */
  function DeleteDecision(requester: Option<Principal>, id: nat): (d: Decision)
    ensures d == Allow <==> IsOwnProfile(requester, id) || IsAdmin(requester)
    ensures d.Deny? ==> d.message == OwnOrAdminDelete
  {
    if !IsOwnProfile(requester, id) && !IsAdmin(requester) then Deny(OwnOrAdminDelete) else Allow
  }

  /** The handlers' catch block: a missing user is answered 404 here, anything else goes to `next`. */
  function Catch(e: Error): (o: Outcome)
    ensures o.Respond? <==> e == AppError(UserNotFound)
    ensures o.Respond? ==> o.response == NotFoundResponse
    ensures o.Next? ==> o.error == e
  {
    if e.AppError? && e.message == UserNotFound then Respond(NotFoundResponse) else Next(e)
  }

  // ---------------------------------------------------------------------
  // fetchAllUsers, fetchUserById
  // ---------------------------------------------------------------------

  function FetchAllUsers(s: Store): (r: Response)
    ensures r.status == 200 && r.body.UserListBody?
    ensures r.body.users == GetAllUsers(s) && r.body.count == |r.body.users|
  {
    var all := GetAllUsers(s);
    Response(200, UserListBody("All users successfully Fetched", all, |all|))
  }

  /** The listing's `count` is the number of stored users. */
  lemma FetchAllUsersCountsUsers(s: Store)
    requires Valid(s)
    ensures FetchAllUsers(s).body.count == |s.users|
  {
    GetAllUsersComplete(s);
  }

  function FetchUserById(s: Store, rawId: string): (o: Outcome)
    ensures ParseId(rawId).Err? ==> o == Next(ValidationError(ParseId(rawId).error))
    ensures ParseId(rawId).Ok? ==>
      var id := ParseId(rawId).value;
      && (id !in s.users ==> o == Respond(NotFoundResponse))
      && (id in s.users ==> o == Respond(Response(200, UserBody("User successfully fetched", Project(id, s.users[id])))))
  {
    match ParseId(rawId)
    case Err(issues) => Catch(ValidationError(issues))
    case Ok(id) =>
      match GetUserById(s, id)
      case Err(e) => Catch(e)
      case Ok(user) => Respond(Response(200, UserBody("User successfully fetched", user)))
  }

  // ---------------------------------------------------------------------
  // updateUserById
  // ---------------------------------------------------------------------

  /** The password to write: the hash of the supplied plaintext, when one was supplied. */
  function HashIfPresent(h: Hasher, password: Option<string>): (r: Result<Option<string>, Error>)
    ensures password.None? ==> r == Ok(None)
    ensures password.Some? ==> (r.Ok? <==> h.hash(password.value).Some?)
    ensures password.Some? && r.Ok? ==> r.value == h.hash(password.value)
    ensures r.Err? ==> r.error == AppError(HashFailed)
  {
    match password
    case None => Ok(None)
    // A validated password has at least six characters, so it is truthy exactly when present.
    case Some(plain) =>
      match HashPassword(h, plain)
      case Err(e) => Err(e)
      case Ok(hashed) => Ok(Some(hashed))
  }

  /** The body of the handler's try block: it answers, or throws. */
  function UpdateSteps(s: Store, requester: Option<Principal>, rawId: string, rawBody: RawUpdate,
                       isEmail: string -> bool, h: Hasher, now: Time): Result<(Store, Response), Error>
  {
    match ParseId(rawId)
    case Err(issues) => Err(ValidationError(issues))
    case Ok(id) =>
      match ValidateUpdate(rawBody, isEmail)
      case Err(issues) => Err(ValidationError(issues))
      case Ok(fields) =>
        match UpdateDecision(requester, id, fields)
        case Deny(message) => Ok((s, Forbidden(message)))
        case Allow =>
          match HashIfPresent(h, fields.password)
          case Err(e) => Err(e)
          case Ok(password) =>
            match UpdateUser(s, id, Changes(fields.name, fields.email, password, fields.role), now)
            case Err(e) => Err(e)
            case Ok((s', user)) => Ok((s', Response(200, UserBody("User successfully updated", user))))
  }

  /** The update reached the table: it was authorized, the id exists, and any password was hashed. */
  predicate UpdateGoesAhead(s: Store, requester: Option<Principal>, rawId: string, rawBody: RawUpdate,
                            isEmail: string -> bool, h: Hasher)
  {
    && ParseId(rawId).Ok?
    && ValidateUpdate(rawBody, isEmail).Ok?
    && UpdateDecision(requester, ParseId(rawId).value, ValidateUpdate(rawBody, isEmail).value) == Allow
    && ParseId(rawId).value in s.users
    && var password := ValidateUpdate(rawBody, isEmail).value.password;
       password.Some? ==> h.hash(password.value).Some?
  }

  /**
   * The row after a successful update: validated fields overwritten, the
   * password replaced by the hash of the supplied plaintext, `updatedAt` at
   * `now`, every other row and column as it was.
   */
  predicate UpdatedAsRequested(s: Store, s': Store, id: nat, fields: UpdateFields, h: Hasher, now: Time)
    requires id in s.users
  {
    var before := s.users[id];
    && s'.nextId == s.nextId
    && s'.users.Keys == s.users.Keys
    && (forall k | k in s.users && k != id :: s'.users[k] == s.users[k])
    && s'.users[id].name == fields.name.GetOr(before.name)
    && s'.users[id].email == fields.email.GetOr(before.email)
    && s'.users[id].role == fields.role.GetOr(before.role)
    && (fields.password.None? ==> s'.users[id].password == before.password)
    && (fields.password.Some? ==> Some(s'.users[id].password) == h.hash(fields.password.value))
    && s'.users[id].createdAt == before.createdAt
    && s'.users[id].updatedAt == now
  }

  /**
   * `updateUserById`: validation of the id, then of the body; then the
   * access decision; then hashing and the update. A failed step leaves the
   * table as it was.
   */
  function UpdateUserById(s: Store, requester: Option<Principal>, rawId: string, rawBody: RawUpdate,
                          isEmail: string -> bool, h: Hasher, now: Time): (r: (Store, Outcome))
    ensures ParseId(rawId).Err? ==> r == (s, Next(ValidationError(ParseId(rawId).error)))
    ensures ParseId(rawId).Ok? && ValidateUpdate(rawBody, isEmail).Err? ==>
      r == (s, Next(ValidationError(ValidateUpdate(rawBody, isEmail).error)))
    ensures ParseId(rawId).Ok? && ValidateUpdate(rawBody, isEmail).Ok? ==>
      var d := UpdateDecision(requester, ParseId(rawId).value, ValidateUpdate(rawBody, isEmail).value);
      d.Deny? ==> r == (s, Respond(Forbidden(d.message)))
    ensures !UpdateGoesAhead(s, requester, rawId, rawBody, isEmail, h) ==> r.0 == s
    ensures UpdateGoesAhead(s, requester, rawId, rawBody, isEmail, h) ==>
      var id := ParseId(rawId).value;
      && UpdatedAsRequested(s, r.0, id, ValidateUpdate(rawBody, isEmail).value, h, now)
      && r.1 == Respond(Response(200, UserBody("User successfully updated", Project(id, r.0.users[id]))))
  {
    match UpdateSteps(s, requester, rawId, rawBody, isEmail, h, now)
    case Ok((s', response)) => (s', Respond(response))
    case Err(e) => (s, Catch(e))
  }

  /** An authorized update of a missing id is answered 404; a hashing failure goes to `next`. */
  lemma UpdateErrorOutcomes(s: Store, requester: Option<Principal>, rawId: string, rawBody: RawUpdate,
                            isEmail: string -> bool, h: Hasher, now: Time)
    requires ParseId(rawId).Ok? && ValidateUpdate(rawBody, isEmail).Ok?
    requires UpdateDecision(requester, ParseId(rawId).value, ValidateUpdate(rawBody, isEmail).value) == Allow
    ensures var password := ValidateUpdate(rawBody, isEmail).value.password;
      password.Some? && h.hash(password.value).None? ==>
        UpdateUserById(s, requester, rawId, rawBody, isEmail, h, now) == (s, Next(AppError(HashFailed)))
    ensures var password := ValidateUpdate(rawBody, isEmail).value.password;
      (password.None? || h.hash(password.value).Some?) && ParseId(rawId).value !in s.users ==>
        UpdateUserById(s, requester, rawId, rawBody, isEmail, h, now) == (s, Respond(NotFoundResponse))
  {
  }

  /**
   * A denied update is decided before the hasher or the table is consulted:
   * its answer is the same whatever the table holds and whatever the hasher
   * does, and the table comes back unchanged.
   */
  lemma UpdateDenialPrecedesEffects(s1: Store, s2: Store, requester: Option<Principal>, rawId: string,
                                    rawBody: RawUpdate, isEmail: string -> bool, h1: Hasher, h2: Hasher,
                                    now1: Time, now2: Time)
    requires ParseId(rawId).Ok? && ValidateUpdate(rawBody, isEmail).Ok?
    requires UpdateDecision(requester, ParseId(rawId).value, ValidateUpdate(rawBody, isEmail).value).Deny?
    ensures UpdateUserById(s1, requester, rawId, rawBody, isEmail, h1, now1).0 == s1
    ensures UpdateUserById(s1, requester, rawId, rawBody, isEmail, h1, now1).1 ==
            UpdateUserById(s2, requester, rawId, rawBody, isEmail, h2, now2).1
    ensures UpdateUserById(s1, requester, rawId, rawBody, isEmail, h1, now1).1.response.status == 403
  {
  }

  /** A non-admin can never change a stored role: a body that sends one is refused, even on their own profile. */
  lemma NonAdminCannotSetRole(s: Store, requester: Option<Principal>, rawId: string, rawBody: RawUpdate,
                              isEmail: string -> bool, h: Hasher, now: Time)
    requires !IsAdmin(requester)
    ensures var r := UpdateUserById(s, requester, rawId, rawBody, isEmail, h, now);
      forall k | k in s.users :: k in r.0.users && r.0.users[k].role == s.users[k].role
  {
  }

  // ---------------------------------------------------------------------
  // deleteUserById
  // ---------------------------------------------------------------------

  function DeleteSteps(s: Store, requester: Option<Principal>, rawId: string): Result<(Store, Response), Error> {
    match ParseId(rawId)
    case Err(issues) => Err(ValidationError(issues))
    case Ok(id) =>
      match DeleteDecision(requester, id)
      case Deny(message) => Ok((s, Forbidden(message)))
      case Allow =>
        match DeleteUser(s, id)
        case Err(e) => Err(e)
        case Ok((s', removed)) => Ok((s', Response(200, IdentityBody("User successfully deleted", removed))))
  }

  /**
   * `deleteUserById`: validation of the id, then the access decision, then
   * the delete. Only an authorized delete of an existing id changes the table,
   * and it removes exactly that row.
   */
  function DeleteUserById(s: Store, requester: Option<Principal>, rawId: string): (r: (Store, Outcome))
    ensures ParseId(rawId).Err? ==> r == (s, Next(ValidationError(ParseId(rawId).error)))
    ensures ParseId(rawId).Ok? ==>
      var id := ParseId(rawId).value;
      && (DeleteDecision(requester, id).Deny? ==> r == (s, Respond(Forbidden(OwnOrAdminDelete))))
      && (DeleteDecision(requester, id) == Allow && id !in s.users ==> r == (s, Respond(NotFoundResponse)))
      && (DeleteDecision(requester, id) == Allow && id in s.users ==>
            && r.0.users.Keys == s.users.Keys - {id}
            && (forall k | k in r.0.users :: r.0.users[k] == s.users[k])
            && r.0.nextId == s.nextId
            && r.1 == Respond(Response(200, IdentityBody("User successfully deleted", ToIdentity(id, s.users[id])))))
  {
    match DeleteSteps(s, requester, rawId)
    case Ok((s', response)) => (s', Respond(response))
    case Err(e) => (s, Catch(e))
  }

  /** An existing user is deleted iff the requester owns the profile or is an admin; otherwise the answer is 403 and the table is kept. */
  lemma DeleteAllowedIffOwnerOrAdmin(s: Store, requester: Option<Principal>, rawId: string)
    requires ParseId(rawId).Ok? && ParseId(rawId).value in s.users
    ensures var r := DeleteUserById(s, requester, rawId);
      var allowed := IsOwnProfile(requester, ParseId(rawId).value) || IsAdmin(requester);
      && (r.1 == Respond(Forbidden(OwnOrAdminDelete)) <==> !allowed)
      && (r.0 != s <==> allowed)
  {
  }
}
