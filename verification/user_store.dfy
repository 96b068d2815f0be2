/** backend/models/User.js: the users table. Rows are kept in insertion order and
    a query's `rows[0]` is read as the first matching row in that order. The
    password hash is computed by an oracle passed in by the caller. */
module UserStore {
  import opened Wrappers
  import opened Helpers

  datatype User = User(userId: nat, username: string, email: string, passwordHash: string,
                       role: Role, createdAt: nat)

  datatype UserDb = UserDb(users: seq<User>, nextId: nat)

  /** What `createUser` returns and `getProfile` sends: every column but the hash. */
  datatype PublicUser = PublicUser(userId: nat, username: string, email: string, role: Role, createdAt: nat)

  function Public(u: User): PublicUser {
    PublicUser(u.userId, u.username, u.email, u.role, u.createdAt)
  }

  /** Table invariant: ids below the serial counter, and user ids, usernames and
      e-mails each distinct. */
  ghost predicate Valid(db: UserDb) {
    && (forall i :: 0 <= i < |db.users| ==> db.users[i].userId < db.nextId)
    && (forall i, j :: 0 <= i < j < |db.users| ==>
          && db.users[i].userId != db.users[j].userId
          && db.users[i].username != db.users[j].username
          && db.users[i].email != db.users[j].email)
  }

  // ---------------------------------------------------------------------------
  // lookups

  /** The `WHERE username = $1 OR email = $2` test. A null parameter compares
      as SQL NULL and matches nothing. */
  predicate Hit(u: User, username: Option<string>, email: Option<string>) {
    (username.Some? && u.username == username.value) || (email.Some? && u.email == email.value)
  }

  /** Index of the first row that passes `Hit`. */
  function FirstHit(users: seq<User>, username: Option<string>, email: Option<string>): (r: Option<nat>)
    ensures r.None? <==> forall i :: 0 <= i < |users| ==> !Hit(users[i], username, email)
    ensures r.Some? ==> r.value < |users| && Hit(users[r.value], username, email)
    ensures r.Some? ==> forall j :: 0 <= j < r.value ==> !Hit(users[j], username, email)
  {
    if |users| == 0 then None
    else if Hit(users[0], username, email) then Some(0)
    else match FirstHit(users[1..], username, email)
      case None => None
      case Some(k) => Some(k + 1)
  }

  /** `findUserByUsernameOrEmail(username, email)`. */
  function FindUserByUsernameOrEmail(db: UserDb, username: Option<string>, email: Option<string>): (r: Option<User>)
    ensures r.None? <==> forall i :: 0 <= i < |db.users| ==> !Hit(db.users[i], username, email)
    ensures r.Some? ==> r.value in db.users && Hit(r.value, username, email)
  {
    match FirstHit(db.users, username, email)
    case None => None
    case Some(k) => Some(db.users[k])
  }

  /** With distinct e-mails, looking a user up by e-mail alone finds that user. */
  lemma FindByEmail(db: UserDb, k: nat)
    requires Valid(db) && k < |db.users|
    ensures FindUserByUsernameOrEmail(db, None, Some(db.users[k].email)) == Some(db.users[k])
  {
    var first := FirstHit(db.users, None, Some(db.users[k].email));
    assert !(first.value < k);
  }

  /** With distinct usernames, looking a user up by username alone finds that user. */
  lemma FindByUsername(db: UserDb, k: nat)
    requires Valid(db) && k < |db.users|
    ensures FindUserByUsernameOrEmail(db, Some(db.users[k].username), None) == Some(db.users[k])
  {
    var first := FirstHit(db.users, Some(db.users[k].username), None);
    assert !(first.value < k);
  }

  /** `findUserById(userId)`. */
  function FindUserById(db: UserDb, userId: int): (r: Option<User>)
    ensures r.None? <==> forall i :: 0 <= i < |db.users| ==> db.users[i].userId != userId
    ensures r.Some? ==> r.value in db.users && r.value.userId == userId
  {
    FindId(db.users, userId)
  }

  function FindId(users: seq<User>, userId: int): (r: Option<User>)
    ensures r.None? <==> forall i :: 0 <= i < |users| ==> users[i].userId != userId
    ensures r.Some? ==> r.value in users && r.value.userId == userId
  {
    if |users| == 0 then None
    else if users[0].userId == userId then Some(users[0])
    else FindId(users[1..], userId)
  }

  /** With distinct ids the row found by id is the one row with that id. */
  lemma {:induction false} FindIdUnique(users: seq<User>, k: nat)
    requires k < |users|
    requires forall i, j :: 0 <= i < j < |users| ==> users[i].userId != users[j].userId
    ensures FindId(users, users[k].userId) == Some(users[k])
  {
    if k > 0 {
      assert users[0].userId != users[k].userId;
      assert users[1..][k - 1] == users[k];
      FindIdUnique(users[1..], k - 1);
    }
  }

  // ---------------------------------------------------------------------------
  // writes

  /** `createUser(username, email, password, role)`: hashes the password and
      inserts the row under the next serial id; the hash is not returned. */
  function CreateUser(db: UserDb, username: string, email: string, password: string, role: Role,
                      hash: string -> string, now: nat): (r: (UserDb, PublicUser))
    ensures |r.0.users| == |db.users| + 1 && r.0.users[..|db.users|] == db.users
    ensures var u := r.0.users[|db.users|];
            && u.username == username && u.email == email && u.role == role
            && u.passwordHash == hash(password) && r.1 == Public(u)
    ensures Valid(db) ==> forall i :: 0 <= i < |db.users| ==> db.users[i].userId != r.1.userId
    ensures Valid(db) && (forall i :: 0 <= i < |db.users| ==> !Hit(db.users[i], Some(username), Some(email)))
            ==> Valid(r.0) && FindUserById(r.0, r.1.userId) == Some(r.0.users[|db.users|])
  {
    var u := User(db.nextId, username, email, hash(password), role, now);
    var db' := UserDb(db.users + [u], db.nextId + 1);
    assert db'.users[..|db.users|] == db.users;
    CreateUserFresh(db, u, db');
    (db', Public(u))
  }

  lemma CreateUserFresh(db: UserDb, u: User, db': UserDb)
    requires u.userId == db.nextId && db' == UserDb(db.users + [u], db.nextId + 1)
    ensures Valid(db) && (forall i :: 0 <= i < |db.users| ==> !Hit(db.users[i], Some(u.username), Some(u.email)))
            ==> Valid(db') && FindUserById(db', u.userId) == Some(u)
  {
    if Valid(db) && (forall i :: 0 <= i < |db.users| ==> !Hit(db.users[i], Some(u.username), Some(u.email))) {
      assert db'.users[|db.users|] == u;
      FindIdUnique(db'.users, |db.users|);
    }
  }

  /** `verifyPassword(user, password)`: the Argon2 comparison, an oracle here. */
  function VerifyPassword(u: User, password: string, compare: (string, string) -> bool): bool {
    compare(password, u.passwordHash)
  }
}
