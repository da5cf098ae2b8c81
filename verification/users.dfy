/**
 * The user entity, the two public projections the services return, the
 * authenticated principal, and the user table as an immutable value.
 */
module Users {
  import opened Results

  /** Server-assigned timestamps, as an abstract clock reading. */
  type Time = nat

  /**
   * A stored user row. The id is the key under which the row is stored in the
   * table, so no operation can change it. `password` holds whatever the
   * hasher produced at registration or update.
   */
  datatype User = User(
    name: string,
    email: string,
    password: string,
    role: string,
    createdAt: Time,
    updatedAt: Time)

  /**
   * The user table: rows by id, and the next value of the serial id column.
   * Serial ids are handed out once and never reused, even after a delete.
   */
  datatype Store = Store(users: map<nat, User>, nextId: nat)

  /** Every stored id was handed out by the id sequence. Every operation of the model keeps this. */
  predicate Valid(s: Store) {
    forall k | k in s.users :: k < s.nextId
  }

  /** Row projection selected by the listing, lookup and update queries: everything but the password. */
  datatype PublicUser = PublicUser(
    id: nat,
    email: string,
    name: string,
    role: string,
    createdAt: Time,
    updatedAt: Time)

  /** Row projection returned by delete, registration and login: id, name, email, role. */
  datatype Identity = Identity(id: nat, name: string, email: string, role: string)

  /** The claims a verified bearer token carries, as installed on the request. */
  datatype Principal = Principal(id: nat, role: string)

  const AdminRole: string := "admin"
  const UserRole: string := "user"

  function Project(id: nat, u: User): PublicUser {
    PublicUser(id, u.email, u.name, u.role, u.createdAt, u.updatedAt)
  }

  function ToIdentity(id: nat, u: User): Identity {
    Identity(id, u.name, u.email, u.role)
  }

  /**
   * The public projection drops exactly the password: two rows have the same
   * projection iff they agree on every other column.
   */
  lemma ProjectForgetsOnlyPassword(id: nat, u: User, v: User)
    ensures Project(id, u) == Project(id, v) <==> u.(password := v.password) == v
  {
  }

  /** The identity projection never depends on the stored password. */
  lemma IdentityIgnoresPassword(id: nat, u: User, p: string)
    ensures ToIdentity(id, u.(password := p)) == ToIdentity(id, u)
    ensures ToIdentity(id, u) == ToIdentity(id, u.(createdAt := 0, updatedAt := 0))
  {
  }

  // ---------------------------------------------------------------------
  // Lookup by email (`select ... where email = ? limit 1`)
  // ---------------------------------------------------------------------

  predicate HasEmail(s: Store, k: nat, email: string) {
    k in s.users && s.users[k].email == email
  }

  ghost predicate EmailTaken(s: Store, email: string) {
    exists k :: HasEmail(s, k, email)
  }

  /** At most one row per email address. */
  ghost predicate UniqueEmails(s: Store) {
    forall j, k | j in s.users && k in s.users && s.users[j].email == s.users[k].email :: j == k
  }

  /** The lowest id at or above `k`, below the id sequence, whose row has this email. */
  function FindEmailFrom(s: Store, email: string, k: nat): (r: Option<nat>)
    ensures r.Some? ==> k <= r.value < s.nextId && HasEmail(s, r.value, email)
    ensures r.Some? ==> forall j | k <= j < r.value :: !HasEmail(s, j, email)
    ensures r.None? ==> forall j | k <= j < s.nextId :: !HasEmail(s, j, email)
    decreases s.nextId - k
  {
    if k >= s.nextId then None
    else if HasEmail(s, k, email) then Some(k)
    else FindEmailFrom(s, email, k + 1)
  }

  /**
   * The row a `limit 1` lookup by email returns. The table has no order, so
   * the model picks the lowest id; with unique emails there is only one.
   */
  function FindByEmail(s: Store, email: string): (r: Option<nat>)
    ensures r.Some? ==> HasEmail(s, r.value, email)
    ensures Valid(s) ==> (r.None? <==> !EmailTaken(s, email))
    ensures Valid(s) && UniqueEmails(s) ==> forall k: nat | HasEmail(s, k, email) :: r == Some(k)
  {
    FindEmailFrom(s, email, 0)
  }
}
