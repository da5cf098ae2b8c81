/**
 * The authentication service: password hashing and comparison, user
 * registration and credential checking. The hashing library is a parameter
 * (`Hasher`); the model assumes nothing about it unless a lemma says so.
 */
module AuthService {
  import opened Results
  import opened Users
  import opened Http

  /**
   * The password-hashing library as the service sees it. `None` means the
   * library threw. The hash is salted at random, so each call of an
   * operation may be given a different `hash`.
   */
  datatype Hasher = Hasher(hash: string -> Option<string>, compare: (string, string) -> Option<bool>)

  /** The library's verdict on a password and a hash it produced itself: a match. Lemmas assume this explicitly. */
  predicate AcceptsOwnHash(h: Hasher, password: string) {
    h.hash(password).Some? ==> h.compare(password, h.hash(password).value) == Some(true)
  }

  /** `hashPassword`: the library's hash, or the error `'Error in hashPassword'` when it throws. */
  function HashPassword(h: Hasher, password: string): (r: Result<string, Error>)
    ensures r.Ok? <==> h.hash(password).Some?
    ensures r.Ok? ==> Some(r.value) == h.hash(password)
    ensures r.Err? ==> r.error == AppError(HashFailed)
  {
    match h.hash(password)
    case Some(hashed) => Ok(hashed)
    case None => Err(AppError(HashFailed))
  }

  /** `comparePassword`: the library's verdict, or the error `'Error in comparePassword'` when it throws. */
  function ComparePassword(h: Hasher, password: string, hashed: string): (r: Result<bool, Error>)
    ensures r.Ok? <==> h.compare(password, hashed).Some?
    ensures r.Ok? ==> Some(r.value) == h.compare(password, hashed)
    ensures r.Err? ==> r.error == AppError(CompareFailed)
  {
    match h.compare(password, hashed)
    case Some(ok) => Ok(ok)
    case None => Err(AppError(CompareFailed))
  }

  // ---------------------------------------------------------------------
  // createUser
  // ---------------------------------------------------------------------

  /** Registration input; an omitted role defaults to `'user'`. */
  datatype SignUp = SignUp(name: string, email: string, password: string, role: Option<string>)

  /** The row registration inserts: the hash in place of the password, both timestamps at `now`. */
  function NewRow(input: SignUp, passwordHash: string, now: Time): User {
    User(input.name, input.email, passwordHash, input.role.GetOr(UserRole), now, now)
  }

  /** The steps of registration with the errors they throw, before the catch-all rewraps them. */
  function CreateUserSteps(s: Store, input: SignUp, h: Hasher, now: Time): (r: Result<(Store, Identity), Error>)
    ensures FindByEmail(s, input.email).Some? ==> r == Err(AppError(UserAlreadyExists))
  {
    if FindByEmail(s, input.email).Some? then Err(AppError(UserAlreadyExists))
    else
      match HashPassword(h, input.password)
      case Err(e) => Err(e)
      case Ok(passwordHash) =>
        var id := s.nextId;
        var row := NewRow(input, passwordHash, now);
        Ok((Store(s.users[id := row], id + 1), ToIdentity(id, row)))
  }

  /**
   * `createUser`: refuses an email that is already stored, hashes the
   * password, inserts the row under the next serial id and returns its
   * identity. Every failure, the duplicate email included, is reported as
   * the one error `'Error in creating user'`.
   */
  function CreateUser(s: Store, input: SignUp, h: Hasher, now: Time): (r: Result<(Store, Identity), Error>)
    ensures r.Err? ==> r.error == AppError(CreateFailed)
    ensures r.Ok? <==> FindByEmail(s, input.email).None? && h.hash(input.password).Some?
    ensures Valid(s) && EmailTaken(s, input.email) ==> r.Err?
    ensures r.Ok? ==>
      var (s', created) := r.value;
      && created.id == s.nextId
      && created == Identity(s.nextId, input.name, input.email, input.role.GetOr(UserRole))
      && s'.nextId == s.nextId + 1
      && s'.users.Keys == s.users.Keys + {created.id}
      && Some(s'.users[created.id].password) == h.hash(input.password)
      && s'.users[created.id] == User(input.name, input.email, s'.users[created.id].password, created.role, now, now)
      && (forall k | k in s.users && k != created.id :: s'.users[k] == s.users[k])
  {
    match CreateUserSteps(s, input, h, now)
    case Ok(v) => Ok(v)
    case Err(_) => Err(AppError(CreateFailed))
  }

  /** A duplicate email is detected, but surfaces as the generic creation error, never as `'User already exists'`. */
  lemma DuplicateEmailSurfacesAsCreateFailed(s: Store, input: SignUp, h: Hasher, now: Time)
    requires Valid(s) && EmailTaken(s, input.email)
    ensures CreateUserSteps(s, input, h, now) == Err(AppError(UserAlreadyExists))
    ensures CreateUser(s, input, h, now) == Err(AppError(CreateFailed))
  {
  }

  /** Registration keeps every stored id below the id sequence and keeps emails unique. */
  lemma CreatePreservesInvariants(s: Store, input: SignUp, h: Hasher, now: Time)
    requires Valid(s) && CreateUser(s, input, h, now).Ok?
    ensures Valid(CreateUser(s, input, h, now).value.0)
    ensures UniqueEmails(s) ==> UniqueEmails(CreateUser(s, input, h, now).value.0)
  {
    var s' := CreateUser(s, input, h, now).value.0;
    assert !EmailTaken(s, input.email);
    if UniqueEmails(s) {
      forall j, k | j in s'.users && k in s'.users && s'.users[j].email == s'.users[k].email
        ensures j == k
      {
        if j != k && (j == s.nextId || k == s.nextId) {
          var other := if j == s.nextId then k else j;
          assert HasEmail(s, other, input.email);
          assert false;
        }
      }
    }
  }

  // ---------------------------------------------------------------------
  // authenticateUser
  // ---------------------------------------------------------------------

  /**
   * `authenticateUser`: finds the row by email and compares the password
   * with its stored hash; returns the row's identity. An unknown email and a
   * wrong password are reported with different messages; errors are
   * re-thrown as they are. The table is only read.
   */
  function AuthenticateUser(s: Store, email: string, password: string, h: Hasher): (r: Result<Identity, Error>)
    ensures r.Ok? ==>
      && FindByEmail(s, email).Some?
      && var k := FindByEmail(s, email).value;
      && r.value == ToIdentity(k, s.users[k])
      && r.value.email == email
      && h.compare(password, s.users[k].password) == Some(true)
    ensures FindByEmail(s, email).Some? &&
            h.compare(password, s.users[FindByEmail(s, email).value].password) == Some(true) ==>
      var k := FindByEmail(s, email).value;
      r == Ok(ToIdentity(k, s.users[k]))
    ensures r == Err(AppError(UserNotFound)) <==> FindByEmail(s, email).None?
    ensures Valid(s) ==> (r == Err(AppError(UserNotFound)) <==> !EmailTaken(s, email))
    ensures r == Err(AppError(InvalidPassword)) <==>
      FindByEmail(s, email).Some? && h.compare(password, s.users[FindByEmail(s, email).value].password) == Some(false)
    ensures r == Err(AppError(CompareFailed)) <==>
      FindByEmail(s, email).Some? && h.compare(password, s.users[FindByEmail(s, email).value].password).None?
  {
    match FindByEmail(s, email)
    case None => Err(AppError(UserNotFound))
    case Some(k) =>
      match ComparePassword(h, password, s.users[k].password)
      case Err(e) => Err(e)
      case Ok(valid) =>
        if !valid then Err(AppError(InvalidPassword))
        else Ok(ToIdentity(k, s.users[k]))
  }

  /**
   * Registering with a fresh email and then logging in with the same password
   * returns the identity registration returned, provided the library accepts
   * a password against its own hash (an assumption about the library, stated
   * here, not proved).
   */
  lemma RegisterThenLogin(s: Store, input: SignUp, h: Hasher, now: Time)
    requires Valid(s) && !EmailTaken(s, input.email)
    requires h.hash(input.password).Some?
    requires AcceptsOwnHash(h, input.password)
    ensures CreateUser(s, input, h, now).Ok?
    ensures var (s', created) := CreateUser(s, input, h, now).value;
      AuthenticateUser(s', input.email, input.password, h) == Ok(created)
  {
    var (s', created) := CreateUser(s, input, h, now).value;
    CreatePreservesInvariants(s, input, h, now);
    assert HasEmail(s', created.id, input.email);
    forall k: nat ensures k != created.id ==> !HasEmail(s', k, input.email) {
      assert !HasEmail(s, k, input.email);
    }
  }
}
