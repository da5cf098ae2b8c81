/**
 * The user service: listing, lookup, partial update and delete over the
 * user table. Each operation is a query or a transition of the table value;
 * a missing id is reported as the error `'User not found'`.
 */
module UserService {
  import opened Results
  import opened Users
  import opened Http

  // ---------------------------------------------------------------------
  // getAllUsers
  // ---------------------------------------------------------------------

  /** Projections of the rows with ids from `k` up to the id sequence, in id order. */
  function ListFrom(s: Store, k: nat): (r: seq<PublicUser>)
    ensures forall i | 0 <= i < |r| ::
      k <= r[i].id < s.nextId && r[i].id in s.users && r[i] == Project(r[i].id, s.users[r[i].id])
    ensures forall i, j | 0 <= i < j < |r| :: r[i].id < r[j].id
    decreases s.nextId - k
  {
    if k >= s.nextId then []
    else (if k in s.users then [Project(k, s.users[k])] else []) + ListFrom(s, k + 1)
  }

  /**
   * Every row's public projection. The table query has no ORDER BY; the
   * model lists rows by ascending id.
   */
  function GetAllUsers(s: Store): (r: seq<PublicUser>)
    ensures forall i | 0 <= i < |r| :: r[i].id in s.users && r[i] == Project(r[i].id, s.users[r[i].id])
    ensures forall i, j | 0 <= i < j < |r| :: r[i].id != r[j].id
  {
    ListFrom(s, 0)
  }

  ghost function KeysFrom(s: Store, k: nat): set<nat> {
    set key | key in s.users && k <= key < s.nextId
  }

  /** The ids a listing mentions. */
  ghost function Ids(r: seq<PublicUser>): set<nat> {
    set i | 0 <= i < |r| :: r[i].id
  }

  lemma KeysFromStep(s: Store, k: nat)
    requires k < s.nextId
    ensures KeysFrom(s, k) == (if k in s.users then {k} else {}) + KeysFrom(s, k + 1)
    ensures k !in KeysFrom(s, k + 1)
  {
  }

  lemma IdsConcat(a: seq<PublicUser>, b: seq<PublicUser>)
    ensures Ids(a + b) == Ids(a) + Ids(b)
  {
    var ab := a + b;
    forall x | x in Ids(ab) ensures x in Ids(a) + Ids(b) {
      var i :| 0 <= i < |ab| && ab[i].id == x;
      if i < |a| { assert a[i] == ab[i]; } else { assert b[i - |a|] == ab[i]; }
    }
    forall x | x in Ids(a) + Ids(b) ensures x in Ids(ab) {
      if x in Ids(a) {
        var i :| 0 <= i < |a| && a[i].id == x;
        assert ab[i] == a[i];
      } else {
        var i :| 0 <= i < |b| && b[i].id == x;
        assert ab[|a| + i] == b[i];
      }
    }
  }

  lemma {:induction false} ListFromIds(s: Store, k: nat)
    ensures Ids(ListFrom(s, k)) == KeysFrom(s, k)
    decreases s.nextId - k
  {
    if k < s.nextId {
      ListFromIds(s, k + 1);
      KeysFromStep(s, k);
      var head: seq<PublicUser> := if k in s.users then [Project(k, s.users[k])] else [];
      assert ListFrom(s, k) == head + ListFrom(s, k + 1);
      IdsConcat(head, ListFrom(s, k + 1));
      if k in s.users {
        assert head[0].id == k;
        assert Ids(head) == {k};
      } else {
        assert Ids(head) == {};
      }
    } else {
      assert KeysFrom(s, k) == {};
    }
  }

  lemma {:induction false} ListFromCount(s: Store, k: nat)
    ensures |ListFrom(s, k)| == |KeysFrom(s, k)|
    decreases s.nextId - k
  {
    if k < s.nextId {
      ListFromCount(s, k + 1);
      KeysFromStep(s, k);
    } else {
      assert KeysFrom(s, k) == {};
    }
  }

  /** The listing holds exactly one projection per stored row, so its `count` is the number of users. */
  lemma GetAllUsersComplete(s: Store)
    requires Valid(s)
    ensures Ids(GetAllUsers(s)) == s.users.Keys
    ensures |GetAllUsers(s)| == |s.users|
  {
    ListFromIds(s, 0);
    ListFromCount(s, 0);
    assert KeysFrom(s, 0) == s.users.Keys;
  }

  // ---------------------------------------------------------------------
  // getUserById
  // ---------------------------------------------------------------------

  /** The projection of the row with this id, or `'User not found'`. */
  function GetUserById(s: Store, id: nat): (r: Result<PublicUser, Error>)
    ensures r.Ok? <==> id in s.users
    ensures r.Ok? ==> r.value.id == id && r.value == Project(id, s.users[id])
    ensures r.Err? ==> r.error == AppError(UserNotFound)
  {
    if id in s.users then Ok(Project(id, s.users[id])) else Err(AppError(UserNotFound))
  }

  /** Lookup by id agrees with the listing: it finds exactly the listed projection carrying that id. */
  lemma GetUserByIdAgreesWithListing(s: Store, id: nat, p: PublicUser)
    requires Valid(s)
    ensures GetUserById(s, id) == Ok(p) <==> p in GetAllUsers(s) && p.id == id
  {
    GetAllUsersComplete(s);
    if GetUserById(s, id) == Ok(p) {
      assert id in Ids(GetAllUsers(s));
    }
  }

  // ---------------------------------------------------------------------
  // updateUser
  // ---------------------------------------------------------------------

  /** The column values an update writes; absent fields are left alone. */
  datatype Changes = Changes(
    name: Option<string>,
    email: Option<string>,
    password: Option<string>,
    role: Option<string>)

  /** `after` is `before` with the supplied fields overwritten and `updatedAt` set to `now`; nothing else differs. */
  predicate Overwrites(before: User, after: User, c: Changes, now: Time) {
    && after.name == c.name.GetOr(before.name)
    && after.email == c.email.GetOr(before.email)
    && after.password == c.password.GetOr(before.password)
    && after.role == c.role.GetOr(before.role)
    && after.createdAt == before.createdAt
    && after.updatedAt == now
  }

  function ApplyChanges(u: User, c: Changes, now: Time): (v: User)
    ensures Overwrites(u, v, c, now)
  {
    u.(name := c.name.GetOr(u.name), email := c.email.GetOr(u.email),
       password := c.password.GetOr(u.password), role := c.role.GetOr(u.role),
       updatedAt := now)
  }

  /**
   * Overwrites the supplied fields of one row and refreshes its `updatedAt`;
   * returns the row's new public projection. A missing id is an error.
   */
  function UpdateUser(s: Store, id: nat, c: Changes, now: Time): (r: Result<(Store, PublicUser), Error>)
    ensures r.Err? <==> id !in s.users
    ensures r.Err? ==> r.error == AppError(UserNotFound)
    ensures r.Ok? ==>
      var (s', p) := r.value;
      && s'.nextId == s.nextId
      && s'.users.Keys == s.users.Keys
      && (forall k | k in s.users && k != id :: s'.users[k] == s.users[k])
      && Overwrites(s.users[id], s'.users[id], c, now)
      && p == Project(id, s'.users[id])
  {
    if id !in s.users then Err(AppError(UserNotFound))
    else
      var u := ApplyChanges(s.users[id], c, now);
      Ok((Store(s.users[id := u], s.nextId), Project(id, u)))
  }

  /** Repeating the same update at the same time changes nothing more. */
  lemma UpdateIdempotent(s: Store, id: nat, c: Changes, now: Time)
    requires UpdateUser(s, id, c, now).Ok?
    ensures var (s', p) := UpdateUser(s, id, c, now).value;
      UpdateUser(s', id, c, now) == Ok((s', p))
  {
    var (s', p) := UpdateUser(s, id, c, now).value;
    var (s'', p') := UpdateUser(s', id, c, now).value;
    assert s''.users[id] == s'.users[id];
    assert s''.users == s'.users;
  }

  /** After an update, a lookup returns what the update returned. */
  lemma UpdateThenGet(s: Store, id: nat, c: Changes, now: Time)
    requires UpdateUser(s, id, c, now).Ok?
    ensures GetUserById(UpdateUser(s, id, c, now).value.0, id) == Ok(UpdateUser(s, id, c, now).value.1)
  {
  }

  lemma UpdatePreservesValid(s: Store, id: nat, c: Changes, now: Time)
    requires Valid(s) && UpdateUser(s, id, c, now).Ok?
    ensures Valid(UpdateUser(s, id, c, now).value.0)
  {
  }

  // ---------------------------------------------------------------------
  // deleteUser
  // ---------------------------------------------------------------------

  /** Removes the row with this id and returns its identity projection. A missing id is an error. */
  function DeleteUser(s: Store, id: nat): (r: Result<(Store, Identity), Error>)
    ensures r.Err? <==> id !in s.users
    ensures r.Err? ==> r.error == AppError(UserNotFound)
    ensures r.Ok? ==>
      var (s', removed) := r.value;
      && s'.users.Keys == s.users.Keys - {id}
      && (forall k | k in s'.users :: s'.users[k] == s.users[k])
      && |s'.users| == |s.users| - 1
      && s'.nextId == s.nextId
      && removed == ToIdentity(id, s.users[id])
  {
    if id !in s.users then Err(AppError(UserNotFound))
    else Ok((Store(s.users - {id}, s.nextId), ToIdentity(id, s.users[id])))
  }

  /** A deleted user is gone: looking it up or deleting it again reports `'User not found'`. */
  lemma DeleteThenGone(s: Store, id: nat)
    requires DeleteUser(s, id).Ok?
    ensures GetUserById(DeleteUser(s, id).value.0, id) == Err(AppError(UserNotFound))
    ensures DeleteUser(DeleteUser(s, id).value.0, id) == Err(AppError(UserNotFound))
  {
  }

  /** Deleting keeps serial ids unused and keeps emails unique. */
  lemma DeletePreservesInvariants(s: Store, id: nat)
    requires DeleteUser(s, id).Ok?
    ensures Valid(s) ==> Valid(DeleteUser(s, id).value.0)
    ensures UniqueEmails(s) ==> UniqueEmails(DeleteUser(s, id).value.0)
  {
  }
}
