/** backend/controllers/authController.js: registration, login and the profile
    handlers. Password hashing, password comparison and token signing are
    oracles passed in by the caller. */
module AuthController {
  import opened Wrappers
  import opened Helpers
  import opened UserStore
  import AuthMiddleware

  // ---------------------------------------------------------------------------
  // register

  /** The four registration checks, in the order the handler makes them. */
  predicate AllFields(username: Option<string>, email: Option<string>,
                      password: Option<string>, passwordConfirm: Option<string>) {
    Truthy(username) && Truthy(email) && Truthy(password) && Truthy(passwordConfirm)
  }

  predicate Admissible(username: Option<string>, email: Option<string>,
                       password: Option<string>, passwordConfirm: Option<string>) {
    && AllFields(username, email, password, passwordConfirm)
    && IsValidEmail(email.value)
    && IsValidPassword(password)
    && password == passwordConfirm
  }

  /** Some account already has this username or this e-mail. */
  predicate Taken(db: UserDb, username: string, email: string) {
    exists i :: 0 <= i < |db.users| && (db.users[i].username == username || db.users[i].email == email)
  }

  /** The 400 message of the first registration check that fails, if any. */
  function RegistrationError(username: Option<string>, email: Option<string>,
                             password: Option<string>, passwordConfirm: Option<string>): (m: Option<string>)
    ensures m.None? <==> Admissible(username, email, password, passwordConfirm)
    ensures m.Some? ==> m.value != ""
    ensures m == Some("All fields are required (username, email, password, passwordConfirm).")
            <==> !AllFields(username, email, password, passwordConfirm)
    ensures m == Some("Invalid email format.")
            <==> AllFields(username, email, password, passwordConfirm) && !IsValidEmail(email.value)
    ensures m == Some("Password must be at least 6 characters long.")
            <==> AllFields(username, email, password, passwordConfirm) && IsValidEmail(email.value)
                 && !IsValidPassword(password)
    ensures m == Some("Passwords do not match.")
            <==> AllFields(username, email, password, passwordConfirm) && IsValidEmail(email.value)
                 && IsValidPassword(password) && password != passwordConfirm
  {
    if !AllFields(username, email, password, passwordConfirm) then
      Some("All fields are required (username, email, password, passwordConfirm).")
    else if !IsValidEmail(email.value) then Some("Invalid email format.")
    else if !IsValidPassword(password) then Some("Password must be at least 6 characters long.")
    else if password != passwordConfirm then Some("Passwords do not match.")
    else None
  }

  /** `register`: 400 for the first failed check, 409 when the username or the
      e-mail is in use, otherwise a new customer account. */
  function Register(db: UserDb, username: Option<string>, email: Option<string>,
                    password: Option<string>, passwordConfirm: Option<string>,
                    hash: string -> string, now: nat): (r: (Response<PublicUser>, UserDb))
    ensures r.0.code in {201, 400, 409}
    ensures r.0.code == 400 <==> !Admissible(username, email, password, passwordConfirm)
    ensures r.0.code == 400 ==> r.0.message == RegistrationError(username, email, password, passwordConfirm)
    ensures r.0.code == 409 <==> Admissible(username, email, password, passwordConfirm)
                                 && Taken(db, username.value, email.value)
    ensures r.0.code != 201 ==> r.1 == db && r.0.data.None?
    ensures r.0.code == 201 ==>
              && |r.1.users| == |db.users| + 1 && r.1.users[..|db.users|] == db.users
              && var u := r.1.users[|db.users|];
                 && u.username == username.value && u.email == email.value && u.role == Customer
                 && u.passwordHash == hash(password.value) && r.0.data == Some(Public(u))
    ensures Valid(db) ==> Valid(r.1)
  {
    var err := RegistrationError(username, email, password, passwordConfirm);
    if err.Some? then (Reply(400, err.value), db)
    else if FindUserByUsernameOrEmail(db, username, email).Some? then
      (Reply(409, "Username or email already in use. Please choose another."), db)
    else
      var (db', created) := CreateUser(db, username.value, email.value, password.value, Customer, hash, now);
      (SendResponse(201, Some(created), Some("User registered successfully.")), db')
  }

  // ---------------------------------------------------------------------------
  // login

  /** The login reply's data: the token and the account, never the hash. */
  datatype Session = Session(token: string, userId: nat, username: string, email: string, role: Role)

  /** What `generateToken` signs. */
  function ClaimsOf(u: User): Claims {
    Claims(u.userId, u.username, u.email, u.role)
  }

  function SessionOf(u: User, sign: Claims -> string): Session {
    Session(sign(ClaimsOf(u)), u.userId, u.username, u.email, u.role)
  }

  /** `login`: the account is looked up by e-mail alone; an unknown e-mail and a
      wrong password get the same 401. */
  function Login(db: UserDb, email: Option<string>, password: Option<string>,
                 compare: (string, string) -> bool, sign: Claims -> string): (r: Response<Session>)
    ensures r.code in {200, 400, 401}
    ensures r.code == 400 <==> !Truthy(email) || !Truthy(password)
    ensures r.code == 401 ==> r == Reply(401, "Invalid email or password.")
    ensures r.code == 200 ==>
              exists k :: 0 <= k < |db.users| && db.users[k].email == email.value
                          && compare(password.value, db.users[k].passwordHash)
                          && r.data == Some(SessionOf(db.users[k], sign))
    ensures Valid(db) && Truthy(email) && Truthy(password) ==>
              (r.code == 200 <==> exists k :: 0 <= k < |db.users| && db.users[k].email == email.value
                                               && compare(password.value, db.users[k].passwordHash))
  {
    if !Truthy(email) || !Truthy(password) then Reply(400, "Email and password are required.")
    else
      match FindUserByUsernameOrEmail(db, None, email)
      case None => Reply(401, "Invalid email or password.")
      case Some(u) =>
        LoginFinds(db, email.value, u);
        if !VerifyPassword(u, password.value, compare) then Reply(401, "Invalid email or password.")
        else SendResponse(200, Some(SessionOf(u, sign)), Some("Login successful."))
  }

  /** The row found by e-mail is a row of the table, and in a valid table the only one. */
  lemma LoginFinds(db: UserDb, email: string, u: User)
    requires FindUserByUsernameOrEmail(db, None, Some(email)) == Some(u)
    ensures exists k :: 0 <= k < |db.users| && db.users[k] == u
    ensures Valid(db) ==> forall k :: 0 <= k < |db.users| && db.users[k].email == email ==> db.users[k] == u
  {
    if Valid(db) {
      forall k | 0 <= k < |db.users| && db.users[k].email == email ensures db.users[k] == u {
        FindByEmail(db, k);
      }
    }
  }

  // ---------------------------------------------------------------------------
  // profile

  /** `getProfile`: the caller's account without the hash, or 404 when the
      account no longer exists. */
  function GetProfile(db: UserDb, caller: Claims): (r: Response<PublicUser>)
    ensures r.code in {200, 404}
    ensures r.code == 200 <==> exists k :: 0 <= k < |db.users| && db.users[k].userId == caller.userId
    ensures r.code == 200 ==> r.data.Some? && r.data.value.userId == caller.userId
                              && exists k :: 0 <= k < |db.users| && r.data == Some(Public(db.users[k]))
    ensures Valid(db) ==> forall k :: 0 <= k < |db.users| && db.users[k].userId == caller.userId
                                      ==> r.data == Some(Public(db.users[k]))
    ensures r.code == 404 ==> r == Reply(404, "User not found.")
  {
    match FindUserById(db, caller.userId)
    case None => Reply(404, "User not found.")
    case Some(u) =>
      ProfileFinds(db, caller.userId, u);
      SendResponse(200, Some(Public(u)), None)
  }

  lemma ProfileFinds(db: UserDb, userId: int, u: User)
    requires FindUserById(db, userId) == Some(u)
    ensures exists k :: 0 <= k < |db.users| && db.users[k] == u
    ensures Valid(db) ==> forall k :: 0 <= k < |db.users| && db.users[k].userId == userId ==> db.users[k] == u
  {
    if Valid(db) {
      forall k | 0 <= k < |db.users| && db.users[k].userId == userId ensures db.users[k] == u {
        FindIdUnique(db.users, k);
      }
    }
  }

  /** Another account than the caller's holds this e-mail. */
  predicate EmailHeldByOther(db: UserDb, caller: Claims, email: string) {
    exists k :: 0 <= k < |db.users| && db.users[k].email == email && db.users[k].userId != caller.userId
  }

  /** Another account than the caller's holds this username. */
  predicate UsernameHeldByOther(db: UserDb, caller: Claims, username: string) {
    exists k :: 0 <= k < |db.users| && db.users[k].username == username && db.users[k].userId != caller.userId
  }

  /** `updateProfile`: refuses an e-mail or username another account holds (the
      e-mail is checked first) and otherwise changes nothing. */
  function UpdateProfile(db: UserDb, caller: Claims, username: Option<string>, email: Option<string>): (r: Response<()>)
    ensures r.code in {200, 409}
    ensures r.code == 200 ==> r == Reply(200, "Profile update not yet implemented.")
    ensures r.message == Some("Email already in use.") ==> Truthy(email) && EmailHeldByOther(db, caller, email.value)
    ensures r.message == Some("Username already in use.") ==> Truthy(username) && UsernameHeldByOther(db, caller, username.value)
    ensures r.code == 409 ==> r.message == Some("Email already in use.") || r.message == Some("Username already in use.")
    ensures (!Truthy(email) || !EmailHeldByOther(db, caller, email.value))
            && (!Truthy(username) || !UsernameHeldByOther(db, caller, username.value))
            ==> r.code == 200
    ensures Valid(db) ==>
              (r.message == Some("Email already in use.") <==> Truthy(email) && EmailHeldByOther(db, caller, email.value))
    ensures Valid(db) ==>
              (r.message == Some("Username already in use.")
               <==> (!Truthy(email) || !EmailHeldByOther(db, caller, email.value))
                    && Truthy(username) && UsernameHeldByOther(db, caller, username.value))
  {
    var byEmail := if Truthy(email) then FindUserByUsernameOrEmail(db, None, email) else None;
    var byName := if Truthy(username) then FindUserByUsernameOrEmail(db, username, None) else None;
    EmailClash(db, caller, email);
    NameClash(db, caller, username);
    if byEmail.Some? && byEmail.value.userId != caller.userId then Reply(409, "Email already in use.")
    else if byName.Some? && byName.value.userId != caller.userId then Reply(409, "Username already in use.")
    else Reply(200, "Profile update not yet implemented.")
  }

  /** What the e-mail lookup of `updateProfile` decides. */
  lemma EmailClash(db: UserDb, caller: Claims, email: Option<string>)
    ensures Truthy(email) ==>
            var found := FindUserByUsernameOrEmail(db, None, email);
            && (found.Some? && found.value.userId != caller.userId ==> EmailHeldByOther(db, caller, email.value))
            && (!EmailHeldByOther(db, caller, email.value) ==> found.None? || found.value.userId == caller.userId)
            && (Valid(db) && EmailHeldByOther(db, caller, email.value) ==> found.Some? && found.value.userId != caller.userId)
  {
    if Truthy(email) {
      var found := FindUserByUsernameOrEmail(db, None, email);
      if found.Some? {
        LoginFinds(db, email.value, found.value);
      }
    }
    if Truthy(email) && Valid(db) && EmailHeldByOther(db, caller, email.value) {
      var k :| 0 <= k < |db.users| && db.users[k].email == email.value && db.users[k].userId != caller.userId;
      FindByEmail(db, k);
    }
  }

  /** What the username lookup of `updateProfile` decides. */
  lemma NameClash(db: UserDb, caller: Claims, username: Option<string>)
    ensures Truthy(username) ==>
            var found := FindUserByUsernameOrEmail(db, username, None);
            && (found.Some? && found.value.userId != caller.userId ==> UsernameHeldByOther(db, caller, username.value))
            && (!UsernameHeldByOther(db, caller, username.value) ==> found.None? || found.value.userId == caller.userId)
            && (Valid(db) && UsernameHeldByOther(db, caller, username.value) ==> found.Some? && found.value.userId != caller.userId)
  {
    if Truthy(username) {
      var found := FindUserByUsernameOrEmail(db, username, None);
      if found.Some? {
        var k :| 0 <= k < |db.users| && db.users[k] == found.value;
      }
    }
    if Truthy(username) && Valid(db) && UsernameHeldByOther(db, caller, username.value) {
      var k :| 0 <= k < |db.users| && db.users[k].username == username.value && db.users[k].userId != caller.userId;
      FindByUsername(db, k);
    }
  }

  // ---------------------------------------------------------------------------
  // properties

  /** An account just registered can log in with the same e-mail and password,
      as a customer, when the hash oracle accepts its own hashes. */
  lemma RegisterThenLogin(db: UserDb, username: string, email: string, password: string,
                          hash: string -> string, now: nat,
                          compare: (string, string) -> bool, sign: Claims -> string)
    requires Valid(db)
    requires Register(db, Some(username), Some(email), Some(password), Some(password), hash, now).0.code == 201
    requires compare(password, hash(password))
    ensures var db' := Register(db, Some(username), Some(email), Some(password), Some(password), hash, now).1;
            var r := Login(db', Some(email), Some(password), compare, sign);
            && r.code == 200 && r.data.value.role == Customer && r.data.value.username == username
  {
    var db' := Register(db, Some(username), Some(email), Some(password), Some(password), hash, now).1;
    var n := |db.users|;
    assert db'.users[n].email == email;
    FindByEmail(db', n);
  }

  /** The same username or e-mail cannot be registered twice. */
  lemma RegisterTwiceConflicts(db: UserDb, username: string, email: string, password: string,
                               hash: string -> string, now: nat,
                               email2: string, password2: string, now2: nat)
    requires Register(db, Some(username), Some(email), Some(password), Some(password), hash, now).0.code == 201
    requires Admissible(Some(username), Some(email2), Some(password2), Some(password2))
    ensures var db' := Register(db, Some(username), Some(email), Some(password), Some(password), hash, now).1;
            Register(db', Some(username), Some(email2), Some(password2), Some(password2), hash, now2).0.code == 409
  {
    var db' := Register(db, Some(username), Some(email), Some(password), Some(password), hash, now).1;
    assert db'.users[|db.users|].username == username;
  }

  /** A registered account's profile is what registration returned. */
  lemma RegisterThenProfile(db: UserDb, username: Option<string>, email: Option<string>,
                            password: Option<string>, passwordConfirm: Option<string>,
                            hash: string -> string, now: nat, caller: Claims)
    requires Valid(db)
    requires var r := Register(db, username, email, password, passwordConfirm, hash, now);
             r.0.code == 201 && caller.userId == r.0.data.value.userId
    ensures var r := Register(db, username, email, password, passwordConfirm, hash, now);
            GetProfile(r.1, caller) == SendResponse(200, r.0.data, None)
  {
    var r := Register(db, username, email, password, passwordConfirm, hash, now);
    assert r.1.users[|db.users|].userId == caller.userId;
  }

  /** An unknown e-mail and a wrong password are indistinguishable to the client. */
  lemma LoginFailuresAlike(db: UserDb, email: string, password: string,
                           compare: (string, string) -> bool, sign: Claims -> string,
                           db2: UserDb, password2: string)
    requires email != "" && password != "" && password2 != ""
    requires forall k :: 0 <= k < |db.users| ==> db.users[k].email != email
    requires Valid(db2) && forall k :: 0 <= k < |db2.users| && db2.users[k].email == email
                                       ==> !compare(password2, db2.users[k].passwordHash)
    ensures Login(db, Some(email), Some(password), compare, sign).code == 401
    ensures Login(db, Some(email), Some(password), compare, sign)
            == Login(db2, Some(email), Some(password2), compare, sign)
  {
  }

  /** The token from a successful login opens the authenticated routes as the
      same account, when the JWT oracle verifies what it signed. */
  lemma LoginTokenAuthenticates(db: UserDb, email: Option<string>, password: Option<string>,
                                compare: (string, string) -> bool, sign: Claims -> string,
                                verify: string -> Option<Claims>)
    requires Login(db, email, password, compare, sign).code == 200
    requires var s := Login(db, email, password, compare, sign).data.value;
             var c := Claims(s.userId, s.username, s.email, s.role);
             verify(sign(c)) == Some(c) && sign(c) != "" && ' ' !in sign(c)
    ensures var s := Login(db, email, password, compare, sign).data.value;
            AuthMiddleware.AuthenticateToken(Some("Bearer " + s.token), verify)
            == AuthMiddleware.Next(Claims(s.userId, s.username, s.email, s.role))
  {
    var r := Login(db, email, password, compare, sign);
    var k :| 0 <= k < |db.users| && r.data == Some(SessionOf(db.users[k], sign));
    var c := ClaimsOf(db.users[k]);
    assert r.data.value == SessionOf(db.users[k], sign);
    assert SessionOf(db.users[k], sign).token == sign(c);
    BearerAuthenticates(sign(c), c, verify);
  }

  /** A token the oracle verifies, sent as a bearer header, authenticates. */
  lemma BearerAuthenticates(token: string, c: Claims, verify: string -> Option<Claims>)
    requires verify(token) == Some(c) && token != "" && ' ' !in token
    ensures AuthMiddleware.AuthenticateToken(Some("Bearer " + token), verify) == AuthMiddleware.Next(c)
  {
    assert "Bearer " + token == "Bearer" + " " + token;
    AuthMiddleware.BearerTokenOfScheme("Bearer", token);
  }

  /** Submitting one's own username and e-mail is never a conflict. */
  lemma UpdateOwnDetails(db: UserDb, k: nat)
    requires Valid(db) && k < |db.users|
    ensures var u := db.users[k];
            UpdateProfile(db, ClaimsOf(u), Some(u.username), Some(u.email)).code == 200
  {
    var u := db.users[k];
    forall j | 0 <= j < |db.users| && (db.users[j].email == u.email || db.users[j].username == u.username)
      ensures db.users[j].userId == u.userId
    {
      assert j == k;
    }
  }
}
