/** Registration and login (backend/routers/auth.py). Password hashing, password
    checking and token creation belong to a module that is not part of this model;
    they are passed in as functions. */
module AuthRouter {
  import opened Common
  import opened Records
  import opened Database

  const DuplicateDetail: string := "Username or email already registered"
  const BadLoginDetail: string := "Incorrect username or password"
  const ServerErrorDetail: string := "Internal Server Error"
  const BearerScheme: string := "Bearer"
  const TokenType: string := "bearer"

  /** The two fields of `OAuth2PasswordRequestForm` the handler reads. */
  datatype LoginForm = LoginForm(username: string, password: string)

  datatype TokenResponse = TokenResponse(accessToken: string, tokenType: string)

  /** The 401 answer to every failed login. */
  function Unauthorized(): (e: HttpError)
    ensures e.status == 401 && e.detail == BadLoginDetail && e.authenticate == Some(BearerScheme)
  {
    HttpError(401, BadLoginDetail, Some(BearerScheme))
  }

  /** The claims of the token issued for a user: its subject is the username. */
  function Claims(username: string): map<string, string>
  {
    map["sub" := username]
  }

  /** `select(User).where(username == … | email == …)` and `.first()`. */
  method FindConflict(users: seq<User>, username: string, email: string) returns (found: Option<User>)
    ensures found.None? <==> !Taken(users, username, email)
    ensures found.Some? ==> found.value in users
    ensures found.Some? ==> found.value.username == username || found.value.email == email
  {
    var i := 0;
    while i < |users|
      invariant i <= |users|
      invariant forall k :: 0 <= k < i ==> users[k].username != username && users[k].email != email
    {
      if users[i].username == username || users[i].email == email {
        return Some(users[i]);
      }
      i := i + 1;
    }
    return None;
  }

  /** `register`: 400 when the username or the email is taken; otherwise one user is
      added with the hash of the password, never the password itself, and the answer
      leaves the hash out. The tables stay valid, so usernames and emails stay unique
      whatever sequence of registrations runs. */
  method Register(db: Db, request: UserCreate, hash: string -> string, now: int)
    returns (r: Result<UserResponse, HttpError>)
    requires db.Valid()
    modifies db
    ensures db.Valid()
    ensures Taken(old(db.users), request.username, request.email) ==>
      r == Err(Fail(400, DuplicateDetail)) && db.users == old(db.users)
    ensures var u := User(old(db.nextUserId), request.username, request.email, hash(request.password), now);
      !Taken(old(db.users), request.username, request.email) ==>
        if UserColumnsOk(u) then
          r == Ok(ToUserResponse(u)) && db.users == old(db.users) + [u]
        else
          r == Err(Fail(500, ServerErrorDetail)) && db.users == old(db.users)
    ensures db.positions == old(db.positions)
  {
    var existing := FindConflict(db.users, request.username, request.email);
    if existing.Some? {
      return Err(Fail(400, DuplicateDetail));
    }
    var hashed := hash(request.password);
    var inserted := db.InsertUser(request.username, request.email, hashed, now);
    if inserted.None? {
      return Err(Fail(500, ServerErrorDetail));
    }
    r := Ok(ToUserResponse(inserted.value));
  }

  /** `select(User).where(username == …)` and `.first()`. */
  function FirstByUsername(users: seq<User>, username: string): (r: Option<User>)
    ensures r.None? <==> forall i :: 0 <= i < |users| ==> users[i].username != username
    ensures r.Some? ==> r.value in users && r.value.username == username
    ensures r.Some? && |users| > 0 && users[0].username == username ==> r.value == users[0]
    decreases |users|
  {
    if |users| == 0 then None
    else if users[0].username == username then Some(users[0])
    else FirstByUsername(users[1..], username)
  }

  /** With unique usernames, the first user with a name is the only one. */
  lemma {:induction false} FirstIsTheOne(users: seq<User>, k: nat)
    requires UsersUnique(users) && k < |users|
    ensures FirstByUsername(users, users[k].username) == Some(users[k])
    decreases |users|
  {
    if k > 0 {
      assert users[0].username != users[k].username;
      assert UsersUnique(users[1..]) by {
        forall i, j | 0 <= i < j < |users| - 1
          ensures users[1..][i].id != users[1..][j].id && users[1..][i].username != users[1..][j].username
          ensures users[1..][i].email != users[1..][j].email
        {
          assert users[1..][i] == users[i + 1] && users[1..][j] == users[j + 1];
        }
      }
      FirstIsTheOne(users[1..], k - 1);
    }
  }

  /** `login`: a lookup and a password check over the user table, which it only reads. */
  function Login(users: seq<User>, form: LoginForm, verify: (string, string) -> bool,
                 createToken: map<string, string> -> string): (r: Result<TokenResponse, HttpError>)
    ensures r.Err? ==> r.error == Unauthorized()
    ensures r.Ok? ==> r.value == TokenResponse(createToken(Claims(form.username)), TokenType)
  {
    match FirstByUsername(users, form.username)
    case None => Err(Unauthorized())
    case Some(user) =>
      if !verify(form.password, user.hashedPassword) then Err(Unauthorized())
      else Ok(TokenResponse(createToken(Claims(user.username)), TokenType))
  }

  /** An unknown user and a wrong password get the same answer. */
  lemma LoginRejectsUniformly(users: seq<User>, form: LoginForm, verify: (string, string) -> bool,
                              createToken: map<string, string> -> string)
    requires forall i :: 0 <= i < |users| ==>
      (users[i].username != form.username || !verify(form.password, users[i].hashedPassword))
    requires UsersUnique(users)
    ensures Login(users, form, verify, createToken) == Err(Unauthorized())
  {
    var found := FirstByUsername(users, form.username);
    if found.Some? {
      var k :| 0 <= k < |users| && users[k] == found.value;
      FirstIsTheOne(users, k);
    }
  }

  /** In a valid user table, login succeeds exactly when some user has the name and
      the password checks against that user's hash. */
  lemma LoginSucceedsIff(users: seq<User>, form: LoginForm, verify: (string, string) -> bool,
                         createToken: map<string, string> -> string)
    requires UsersUnique(users)
    ensures Login(users, form, verify, createToken).Ok? <==>
      exists k :: 0 <= k < |users| && users[k].username == form.username &&
                  verify(form.password, users[k].hashedPassword)
  {
    if exists k :: 0 <= k < |users| && users[k].username == form.username &&
                   verify(form.password, users[k].hashedPassword) {
      var k :| 0 <= k < |users| && users[k].username == form.username &&
               verify(form.password, users[k].hashedPassword);
      FirstIsTheOne(users, k);
    } else {
      LoginRejectsUniformly(users, form, verify, createToken);
    }
  }

  /** A user who has just registered can log in with the same password, provided the
      password checks against its own hash. */
  lemma RegisteredUserCanLogIn(users: seq<User>, u: User, password: string,
                               verify: (string, string) -> bool,
                               createToken: map<string, string> -> string)
    requires UsersUnique(users) && !Taken(users, u.username, u.email)
    requires forall i :: 0 <= i < |users| ==> users[i].id != u.id
    requires verify(password, u.hashedPassword)
    ensures Login(users + [u], LoginForm(u.username, password), verify, createToken) ==
      Ok(TokenResponse(createToken(Claims(u.username)), TokenType))
  {
    var all := users + [u];
    assert all[|users|] == u;
    assert UsersUnique(all);
    LoginSucceedsIff(all, LoginForm(u.username, password), verify, createToken);
  }
}
