/** The account handlers of backend/routes/auth.js. `sign` is `jwt.sign`
    with the server secret and a one-hour expiry; `matches(plain, hash)` is
    `bcrypt.compare`; `hashOf` is the hash of the user pre-save hook;
    `caller` is `req.user`, which the register route never sets because no
    middleware runs before it. */
module AccountRoutes {
  import opened Base
  import opened Text
  import opened UserModel
  import opened AuthMiddleware

  /** `{ token, userId }`. */
  datatype Session = Session(token: string, userId: Id)

  /** A user as `User.find().select('-password')` returns it. */
  datatype UserView = UserView(id: Id, username: Option<string>, email: string, role: string,
                               projectsOwned: seq<Id>, projectsJoined: seq<Id>,
                               createdAt: int, updatedAt: int)

  /** The claims every token of this server carries: the id and the role. */
  function TokenClaims(id: Id, role: string): Claims
  {
    Claims(id, Some(role), None)
  }

  /** The role a new user is stored with. */
  function StoredRole(role: Option<string>): (stored: string)
    ensures role.Some? ==> stored == role.value
    ensures role.None? ==> stored == DefaultRole
  {
    if role.Some? then role.value else DefaultRole
  }

  /** Why POST `/register` refuses, in the handler's order: an email already
      stored; role 'admin' asked for by a caller that is not an admin; then
      the schema validation inside `save()`, whose error ends in the catch
      (500). None: the user is stored. */
  function RegisterRefusal(emailTaken: bool, caller: Option<Claims>, username: Option<string>,
                           email: string, password: string, role: Option<string>): (f: Option<Failure>)
    ensures emailTaken <==> f == Some(BadRequest("User already exists"))
    ensures !emailTaken && role == Some("admin") && !(caller.Some? && IsAdmin(caller.value))
            <==> f == Some(Forbidden("Cannot create admin user"))
    ensures f == None <==>
              !emailTaken && !(role == Some("admin") && !(caller.Some? && IsAdmin(caller.value)))
              && SchemaValid(username, email, password)
    ensures !emailTaken && !(role == Some("admin") && !(caller.Some? && IsAdmin(caller.value)))
            && !SchemaValid(username, email, password)
            <==> f == Some(ServerError("Server error"))
    ensures f.Some? && f.value.ServerError? ==> f == Some(ServerError("Server error"))
  {
    if emailTaken then Some(BadRequest("User already exists"))
    else if role == Some("admin") && !(caller.Some? && IsAdmin(caller.value)) then
      Some(Forbidden("Cannot create admin user"))
    else if !SchemaValid(username, email, password) then Some(ServerError("Server error"))
    else None
  }

  /** Without the middleware there is no caller, so asking for the admin
      role is always refused. */
  lemma NoCallerCannotAskForAdmin(username: Option<string>, email: string, password: string)
    ensures RegisterRefusal(false, None, username, email, password, Some("admin"))
            == Some(Forbidden("Cannot create admin user"))
  {
  }

  /** The handler stores no username, so every request that passes the two
      guards fails the schema's `required` check and ends in 500. */
  lemma UsernameOmittedNeverRegisters(emailTaken: bool, caller: Option<Claims>, email: string,
                                      password: string, role: Option<string>)
    ensures RegisterRefusal(emailTaken, caller, None, email, password, role).Some?
    ensures !emailTaken && !(role == Some("admin") && !(caller.Some? && IsAdmin(caller.value))) ==>
              RegisterRefusal(emailTaken, caller, None, email, password, role) == Some(ServerError("Server error"))
  {
  }

  /** A role-less registration with a username is stored, and stored as an
      admin: the schema default is 'admin'. */
  lemma DefaultRegistrationIsAdmin(username: string, email: string, password: string)
    requires username != "" && email != "" && password != ""
    ensures RegisterRefusal(false, None, Some(username), email, password, None) == None
    ensures StoredRole(None) == "admin"
  {
  }

  /** POST `/register`, given the username it should store. On refusal
      nothing is stored; otherwise the new user, with the password hashed by
      the pre-save hook and the role defaulted, is appended, and the answer is
      a token for its id and role. Emails and ids stay unique. */
  method Register(users: UserCollection, caller: Option<Claims>, username: Option<string>,
                  email: string, password: string, role: Option<string>,
                  newId: Id, now: int, hashOf: string -> string, sign: Claims -> string)
    returns (r: Response<Session>)
    requires users.FindById(newId) == null
    modifies users
    ensures var refusal := old(RegisterRefusal(users.FindByEmail(email) != null, caller, username,
                                               email, password, role));
            && (refusal.Some? ==> r == Fail(refusal.value) && users.users == old(users.users))
            && (refusal.None? ==>
                  && r == Ok(Session(sign(TokenClaims(newId, StoredRole(role))), newId))
                  && |users.users| == |old(users.users)| + 1
                  && users.users[..|old(users.users)|] == old(users.users)
                  && var u := users.users[|old(users.users)|];
                  && fresh(u)
                  && u.id == newId && u.username == username && u.email == email
                  && u.password == hashOf(password) && u.role == StoredRole(role)
                  && u.projectsOwned == [] && u.projectsJoined == []
                  && u.createdAt == now && u.updatedAt == now)
    ensures old(users.Valid()) ==> users.Valid()
  {
    var existing := users.FindByEmail(email);
    var refusal := RegisterRefusal(existing != null, caller, username, email, password, role);
    if refusal.Some? {
      return Fail(refusal.value);
    }
    var user := new User(newId, username, email, password, role, now);
    user.Save(now, hashOf);
    users.users := users.users + [user];
    r := Ok(Session(sign(TokenClaims(user.id, user.role)), user.id));
  }

  /** POST `/register` as written: the username of the request body is not
      passed to `new User`, so nothing is ever stored. */
  method RegisterAsWritten(users: UserCollection, caller: Option<Claims>,
                           email: string, password: string, role: Option<string>,
                           newId: Id, now: int, hashOf: string -> string, sign: Claims -> string)
    returns (r: Response<Session>)
    requires users.FindById(newId) == null
    modifies users
    ensures r.Fail? && users.users == old(users.users)
    ensures old(users.FindByEmail(email)) != null ==> r == Fail(BadRequest("User already exists"))
    ensures old(users.FindByEmail(email)) == null && role == Some("admin") && !(caller.Some? && IsAdmin(caller.value))
            ==> r == Fail(Forbidden("Cannot create admin user"))
    // every request that passes both guards ends in the catch
    ensures old(users.FindByEmail(email)) == null && !(role == Some("admin") && !(caller.Some? && IsAdmin(caller.value)))
            ==> r == Fail(ServerError("Server error"))
  {
    UsernameOmittedNeverRegisters(users.FindByEmail(email) != null, caller, email, password, role);
    r := Register(users, caller, None, email, password, role, newId, now, hashOf, sign);
  }

  /** POST `/login`: an unknown email and a wrong password get the same
      400; otherwise a token for the stored id and role. A request without a
      password for a stored email makes the hash comparison reject its
      non-string argument, which the handler answers with 500. */
  function Login(users: UserCollection, email: string, password: Option<string>,
                 matches: (string, string) -> bool, sign: Claims -> string): (r: Response<Session>)
    reads users, users.users
    ensures users.FindByEmail(email) == null ==> r == Fail(BadRequest("Invalid credentials"))
    ensures r == Fail(ServerError("Server error")) <==> users.FindByEmail(email) != null && password.None?
    ensures r.Fail? && !r.failure.ServerError? ==> r == Fail(BadRequest("Invalid credentials"))
    ensures r.Ok? <==> users.FindByEmail(email) != null && password.Some?
                       && matches(password.value, users.FindByEmail(email).password)
    ensures r.Ok? ==> var u := users.FindByEmail(email);
                      r.body == Session(sign(TokenClaims(u.id, u.role)), u.id) && u.email == email
  {
    var user := users.FindByEmail(email);
    if user == null then Fail(BadRequest("Invalid credentials"))
    else if password.None? then Fail(ServerError("Server error"))
    else if !matches(password.value, user.password) then Fail(BadRequest("Invalid credentials"))
    else Ok(Session(sign(TokenClaims(user.id, user.role)), user.id))
  }

  /** A caller cannot tell an unknown email from a wrong password. */
  lemma LoginFailuresIndistinguishable(users: UserCollection, unknown: string, known: string,
                                       p1: Option<string>, p2: string,
                                       matches: (string, string) -> bool, sign: Claims -> string)
    requires users.FindByEmail(unknown) == null
    requires users.FindByEmail(known) != null && !matches(p2, users.FindByEmail(known).password)
    ensures Login(users, unknown, p1, matches, sign) == Login(users, known, Some(p2), matches, sign)
  {
  }

  /** A token from a successful login, sent back as `Bearer <token>`, passes
      the middleware with the user's id and role, and with an `admin` role
      requirement exactly when the stored role is `admin` ignoring case. */
  lemma LoginTokenAuthenticates(users: UserCollection, email: string, password: Option<string>,
                                matches: (string, string) -> bool, sign: Claims -> string,
                                verify: string -> Option<Claims>)
    requires Login(users, email, password, matches, sign).Ok?
    requires forall c :: sign(c) != "" && verify(sign(c)) == Some(c)
    ensures var s := Login(users, email, password, matches, sign).body;
            var u := users.FindByEmail(email);
            && Authenticate(Some(BearerPrefix + s.token), None, verify) == Next(TokenClaims(u.id, u.role))
            && (Authenticate(Some(BearerPrefix + s.token), Some("admin"), verify).Next?
                <==> SameIgnoringCase(u.role, "admin"))
  {
    var u := users.FindByEmail(email);
    var t := sign(TokenClaims(u.id, u.role));
    assert verify(t) == Some(TokenClaims(u.id, u.role));
    BearerHeaderToken(t);
  }

  /** `select('-password')`: every stored field but the password. */
  function ViewOf(u: User): UserView
    reads u
  {
    UserView(u.id, u.username, u.email, u.role, u.projectsOwned, u.projectsJoined, u.createdAt, u.updatedAt)
  }

  /** GET `/users`: only role 'admin' (exactly, unlike the middleware's
      role check); every stored user, in order, without the password. */
  function ListUsers(users: UserCollection, requester: Claims): (r: Response<seq<UserView>>)
    reads users, users.users
    ensures !IsAdmin(requester) <==> r == Fail(Forbidden("Access denied"))
    ensures r.Ok? <==> IsAdmin(requester)
    ensures r.Ok? ==> |r.body| == |users.users|
                      && forall i :: 0 <= i < |users.users| ==> r.body[i] == ViewOf(users.users[i])
  {
    if !IsAdmin(requester) then Fail(Forbidden("Access denied"))
    else
      var us := users.users;
      Ok(seq(|us|, i requires 0 <= i < |us| reads us => ViewOf(us[i])))
  }

  /** DELETE `/users/:id`: only role 'admin'; the user with that id goes,
      every other user stays, and the answer is the same whether or not
      the id was stored. */
  method DeleteUser(users: UserCollection, requester: Claims, id: Id) returns (r: Response<string>)
    modifies users
    ensures !IsAdmin(requester) ==> r == Fail(Forbidden("Access denied")) && users.users == old(users.users)
    ensures IsAdmin(requester) ==> r == Ok("User deleted") && users.users == WithoutId(old(users.users), id)
                                   && users.FindById(id) == null
    ensures old(users.Valid()) ==> users.Valid()
  {
    if !IsAdmin(requester) {
      return Fail(Forbidden("Access denied"));
    }
    if UniqueUsers(users.users) {
      WithoutIdKeepsUnique(users.users, id);
    }
    users.users := WithoutId(users.users, id);
    r := Ok("User deleted");
  }
}
