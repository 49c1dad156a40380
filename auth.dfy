/** The authentication router (routers/auth.py): registration, login and
    logout. Password hashing, password verification and token minting live
    in a module that is not part of this model; they are parameters here. */
module AuthRouter {
  import opened Common
  import opened Schemas
  import opened Tables

  const USERNAME_TAKEN: string := "Username already registered"
  const EMAIL_TAKEN: string := "Email already registered"
  const BAD_CREDENTIALS: string := "Incorrect username or password"
  const INACTIVE_USER: string := "Inactive user account"

  /** POST /auth/register: the username is checked before the e-mail; the
      new account stores the hash of the password, is active and has no
      store. */
  method RegisterUser(db: Db, req: UserCreate, hash: string -> string) returns (r: Result<User>)
    requires db.Valid()
    modifies db
    ensures db.Valid()
    ensures db.stores == old(db.stores) && db.menus == old(db.menus) && db.orders == old(db.orders)
    ensures db.nextMenuId == old(db.nextMenuId) && db.nextOrderId == old(db.nextOrderId)
    ensures !ValidUserCreate(req) ==> r == Err(Unprocessable)
    ensures ValidUserCreate(req) && IndexWhere(old(db.users), WithUsername(req.username)).Some? ==>
              r == Err(BadRequest(USERNAME_TAKEN))
    ensures ValidUserCreate(req) && IndexWhere(old(db.users), WithUsername(req.username)).None? &&
            IndexWhere(old(db.users), WithEmail(req.email)).Some? ==>
              r == Err(BadRequest(EMAIL_TAKEN))
    ensures r.Err? ==> db.users == old(db.users)
    ensures r.Ok? <==> (ValidUserCreate(req) &&
      forall u | u in old(db.users) :: u.username != req.username && u.email != req.email)
    ensures r.Ok? ==>
      var u := r.value;
      && db.users == old(db.users) + [u]
      && u.id !in UserIds(old(db.users))
      && u.username == req.username && u.email == req.email
      && u.hashedPassword == hash(req.password)
      && u.fullName == req.fullName && u.role == req.role
      && u.isActive && u.storeId == None
  {
    if !ValidUserCreate(req) {
      return Err(Unprocessable);
    }
    var byName := IndexWhere(db.users, WithUsername(req.username));
    if byName.Some? {
      assert db.users[byName.value] in db.users;
      return Err(BadRequest(USERNAME_TAKEN));
    }
    var byEmail := IndexWhere(db.users, WithEmail(req.email));
    if byEmail.Some? {
      assert db.users[byEmail.value] in db.users;
      return Err(BadRequest(EMAIL_TAKEN));
    }
    var u := User(db.nextUserId, req.username, req.email, hash(req.password),
                  req.fullName, req.role, true, None);
    forall v | v in db.users ensures v.username != u.username && v.email != u.email {
      var j :| 0 <= j < |db.users| && db.users[j] == v;
      assert !WithUsername(req.username)(db.users[j]) && !WithEmail(req.email)(db.users[j]);
    }
    assert u.id !in UserIds(db.users);
    AddUserKeepsIntegrity(db.users, db.menus, db.orders, db.nextUserId, db.nextMenuId, db.nextOrderId, u);
    db.users := db.users + [u];
    db.nextUserId := db.nextUserId + 1;
    r := Ok(u);
  }

  /** The body of a successful login, as its response model declares it:
      the refresh token the handler also builds is not one of its fields. */
  datatype TokenResponse = TokenResponse(accessToken: string, tokenType: string, user: User)

  /** POST /auth/login. A missing user and a wrong password give the same
      401; the active flag is looked at only once the credentials pass. The
      access token carries the username as its subject. */
  function Login(users: seq<User>, username: string, password: string,
                 verify: (string, string) -> bool,
                 accessToken: string -> string): (r: Result<TokenResponse>)
    ensures var k := IndexWhere(users, WithUsername(username));
      && (k.None? ==> r == Err(Unauthorized(BAD_CREDENTIALS)))
      && (k.Some? && !verify(password, users[k.value].hashedPassword) ==> r == Err(Unauthorized(BAD_CREDENTIALS)))
      && (k.Some? && verify(password, users[k.value].hashedPassword) && !users[k.value].isActive ==>
            r == Err(Forbidden(INACTIVE_USER)))
    ensures r.Ok? ==>
      && r.value.user in users
      && r.value.user.username == username
      && r.value.user.isActive
      && verify(password, r.value.user.hashedPassword)
      && r.value.tokenType == "bearer"
      && r.value.accessToken == accessToken(username)
  {
    match IndexWhere(users, WithUsername(username))
    case None => Err(Unauthorized(BAD_CREDENTIALS))
    case Some(k) =>
      var user := users[k];
      if !verify(password, user.hashedPassword) then Err(Unauthorized(BAD_CREDENTIALS))
      else if !user.isActive then Err(Forbidden(INACTIVE_USER))
      else Ok(TokenResponse(accessToken(user.username), "bearer", user))
  }

  /** With unique usernames, an active account whose password verifies can
      always log in, and the response carries that very account. */
  lemma LoginAcceptsValidAccount(users: seq<User>, i: nat, password: string,
                                 verify: (string, string) -> bool,
                                 accessToken: string -> string)
    requires i < |users| && UniqueUsers(users)
    requires users[i].isActive && verify(password, users[i].hashedPassword)
    ensures var r := Login(users, users[i].username, password, verify, accessToken);
      r.Ok? && r.value.user == users[i]
  {
    var k := IndexWhere(users, WithUsername(users[i].username));
    assert WithUsername(users[i].username)(users[i]);
    assert k.Some? && k.value <= i;
  }

  /** Registering an account under another username does not change how a
      login is answered: only the account with the given username is
      consulted. */
  lemma LoginIgnoresOtherAccounts(users: seq<User>, other: User, username: string, password: string,
                                  verify: (string, string) -> bool,
                                  accessToken: string -> string)
    requires other.username != username
    ensures Login(users + [other], username, password, verify, accessToken) ==
            Login(users, username, password, verify, accessToken)
  {
    var k := IndexWhere(users, WithUsername(username));
    var k' := IndexWhere(users + [other], WithUsername(username));
    if k.Some? {
      assert (users + [other])[k.value] == users[k.value];
      assert k' == k;
    } else {
      assert forall j :: 0 <= j < |users + [other]| ==> !WithUsername(username)((users + [other])[j]);
    }
  }

  datatype SuccessResponse = SuccessResponse(success: bool, message: string)

  /** POST /auth/logout: tokens are stateless, so logging out always succeeds
      and touches nothing. */
  function Logout(): (r: SuccessResponse)
    ensures r.success
    ensures r.message == "Successfully logged out"
  {
    SuccessResponse(true, "Successfully logged out")
  }
}
