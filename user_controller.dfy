/** The user handlers: registration, login, and the helper that issues and
    stores an access token. */
module UserController {
  import opened Values
  import opened Strings
  import opened Envelope
  import opened Tables
  import opened Records
  import opened Database
  import opened AuthMiddleware

  /** The request body of a registration; every field may be absent. */
  datatype RegisterBody = RegisterBody(
    firstName: Option<string>,
    lastName: Option<string>,
    email: Option<string>,
    password: Option<string>,
    role: Option<string>)

  /** The request body of a login. */
  datatype LoginBody = LoginBody(email: Option<string>, password: Option<string>)

  /** The `{ user, accessToken }` a login responds with. */
  datatype LoggedIn = LoggedIn(user: Profile, accessToken: string)

  const AllFieldsMessage := "All fields are required"
  const UserExistsMessage := "User with email or username already exists"
  const RegisteredMessage := "User Registered Successfully"
  const CredentialsRequiredMessage := "Username or password is required!"
  const NoSuchUserMessage := "User does not exist"
  const BadCredentialsMessage := "Invalid user credentials"
  const TokenFailedMessage := "Unable to generate accessToken"
  /** What the password comparison throws when it is given no password. */
  const MissingPasswordMessage := "data and hash arguments required"
  const ValidationPrefix := "User validation failed: "
  const EmailRequiredError := "email: Path `email` is required."
  const PasswordRequiredError := "password: Path `password` is required."

  /** `field?.trim() === ""`: the field is present and blank. An absent
      field does not count. */
  predicate BlankField(f: Option<string>)
  {
    f.Some? && Blank(f.value)
  }

  predicate AnyBlankField(b: RegisterBody)
  {
    BlankField(b.firstName) || BlankField(b.lastName) || BlankField(b.email) || BlankField(b.password)
  }

  /** The roles the user schema accepts. */
  predicate KnownRole(role: string)
  {
    role == AdminRole || role == DefaultRole
  }

  /** The user schema accepts the document a registration builds: email
      and password present, and a given role one of the schema's. */
  predicate Savable(b: RegisterBody)
  {
    b.email.Some? && b.password.Some? && (b.role.Some? ==> KnownRole(b.role.value))
  }

  /** The messages of the schema validators that reject the document, in
      schema path order: a missing email, a missing password, an unknown
      role. */
  function SchemaErrors(b: RegisterBody): (errors: seq<string>)
    ensures errors == [] <==> Savable(b)
  {
    (if b.email.None? then [EmailRequiredError] else [])
    + (if b.password.None? then [PasswordRequiredError] else [])
    + (if b.role.Some? && !KnownRole(b.role.value)
       then ["role: `" + b.role.value + "` is not a valid enum value for path `role`."] else [])
  }

  /** `parts.join(", ")`. */
  function JoinComma(parts: seq<string>): string
  {
    if parts == [] then ""
    else if |parts| == 1 then parts[0]
    else parts[0] + ", " + JoinComma(parts[1..])
  }

  /** The validation error the save throws, a plain error and so a 500. */
  function Rejection(errors: seq<string>): Failure
  {
    Internal(ValidationPrefix + JoinComma(errors), Captured)
  }

  /** The user a registration stores: names trimmed by the schema, the
      email as sent, the password hashed, the role as sent or the default,
      and no token yet. */
  function NewUser(env: Env, b: RegisterBody): User
    requires Savable(b)
  {
    User(TrimIfGiven(b.firstName), TrimIfGiven(b.lastName), b.email.value, env.hash(b.password.value),
         if b.role.Some? then b.role.value else DefaultRole, None)
  }

  /** `findOne({ email })` finds a user. Mongoose drops an `undefined`
      value from a filter, so with no email the query is `findOne({})`,
      which finds a user whenever one is stored. */
  predicate EmailTaken(t: Table<User>, email: Option<string>)
  {
    if email.None? then t.docs != map[] else t.HasKey(UserEmail, email.value)
  }

  /** The checks of `registerUser`, in order: a present but blank name,
      email or password (400; absent ones pass), a stored user found by the
      email (409; with no email, any stored user), then the schema's
      rejection of the document (500). Passing them yields the new user,
      whose email no stored user has, whose password is the hash of the one
      sent and whose role the schema knows. */
  function CheckRegister(env: Env, t: Table<User>, b: RegisterBody): (r: Result<User>)
    ensures r == Err(Fail(400, AllFieldsMessage)) <==> AnyBlankField(b)
    ensures !AnyBlankField(b) && b.email.Some? && t.HasKey(UserEmail, b.email.value) ==>
              r == Err(Fail(409, UserExistsMessage))
    ensures !AnyBlankField(b) && b.email.None? && t.docs != map[] ==>
              r == Err(Fail(409, UserExistsMessage))
    ensures (!AnyBlankField(b) && !EmailTaken(t, b.email) && !Savable(b)) ==>
              r == Err(Rejection(SchemaErrors(b)))
    ensures r.Ok? <==> !AnyBlankField(b) && Savable(b) && !t.HasKey(UserEmail, b.email.value)
    ensures r.Ok? ==> r.value == NewUser(env, b)
    ensures r.Ok? ==> forall k :: k in t.docs ==> t.docs[k].record.email != r.value.email
    ensures r.Ok? ==> r.value.password == env.hash(b.password.value) && KnownRole(r.value.role)
  {
    if AnyBlankField(b) then Err(Fail(400, AllFieldsMessage))
    else if EmailTaken(t, b.email) then Err(Fail(409, UserExistsMessage))
    else if SchemaErrors(b) != [] then Err(Rejection(SchemaErrors(b)))
    else Ok(NewUser(env, b))
  }

  /** A registration that sends no fields at all is not refused as blank.
      While no user is stored it gets as far as the schema, which reports
      the missing email and password. */
  lemma EmptyRegistrationReachesSchema(env: Env, t: Table<User>)
    requires t.docs == map[]
    ensures CheckRegister(env, t, RegisterBody(None, None, None, None, None))
              == Err(Internal(ValidationPrefix + EmailRequiredError + ", " + PasswordRequiredError, Captured))
  {
    var b := RegisterBody(None, None, None, None, None);
    var errors := [EmailRequiredError, PasswordRequiredError];
    assert SchemaErrors(b) == errors;
    assert errors[1..] == [PasswordRequiredError];
    assert JoinComma(errors) == EmailRequiredError + ", " + PasswordRequiredError;
    assert ValidationPrefix + (EmailRequiredError + ", " + PasswordRequiredError)
        == ValidationPrefix + EmailRequiredError + ", " + PasswordRequiredError;
  }

  /** Once any user is stored, a registration without an email conflicts
      with that user, whatever else it sends, as long as no field is
      blank. */
  lemma MissingEmailConflicts(env: Env, t: Table<User>, b: RegisterBody, id: Id)
    requires id in t.docs && b.email.None? && !AnyBlankField(b)
    ensures CheckRegister(env, t, b) == Err(Fail(409, UserExistsMessage))
  {
  }

  /** `registerUser`: fails as `CheckRegister` says and changes nothing, or
      stores exactly the one new user and answers HTTP 201 with an envelope
      whose code is 200, carrying the stored user without its password. */
  method RegisterUser(db: Store, body: RegisterBody, newId: Id) returns (r: Reply<Profile>)
    requires db.Valid() && newId !in db.users.docs && db.env.validId(newId)
    modifies db`users
    ensures db.Valid()
    ensures CheckRegister(db.env, old(db.users), body).Err? ==>
              && r == Thrown(CheckRegister(db.env, old(db.users), body).failure)
              && db.users == old(db.users)
    ensures CheckRegister(db.env, old(db.users), body).Ok? ==>
              var u := CheckRegister(db.env, old(db.users), body).value;
              && db.users == old(db.users).Insert(newId, u)
              && |db.users.docs| == |old(db.users.docs)| + 1
              && r == Send(201, 200, ProfileOf(newId, u, true), Some(RegisteredMessage))
  {
    var checked := CheckRegister(db.env, db.users, body);
    if checked.Err? {
      return Thrown(checked.failure);
    }
    db.InsertUser(newId, checked.value);
    r := Send(201, 200, ProfileOf(newId, db.users.docs[newId].record, true), Some(RegisteredMessage));
  }

  /** `findOne({ email })`: the one stored user with that email, if any. */
  function FindByEmail(t: Table<User>, email: string): (r: Option<Id>)
    requires t.Unique(UserEmail)
    ensures r.Some? <==> t.HasKey(UserEmail, email)
    ensures r.Some? ==> r.value in t.docs && t.docs[r.value].record.email == email
  {
    if t.HasKey(UserEmail, email) then
      var id :| id in t.docs && UserEmail(t.docs[id].record) == email;
      Some(id)
    else None
  }

  /** The checks of `loginUser` before a token is issued, in order: no
      email (400), no user with it (404), no password to compare (the
      comparison throws, 500), a password that does not match the stored
      hash (401). Passing them yields the id of the user with that email. */
  function CheckLogin(env: Env, t: Table<User>, b: LoginBody): (r: Result<Id>)
    requires t.Unique(UserEmail)
    ensures !Given(b.email) ==> r == Err(Fail(400, CredentialsRequiredMessage))
    ensures Given(b.email) && !t.HasKey(UserEmail, b.email.value) ==> r == Err(Fail(404, NoSuchUserMessage))
    ensures (Given(b.email) && t.HasKey(UserEmail, b.email.value) && b.password.None?) ==>
              r == Err(Internal(MissingPasswordMessage, Captured))
    ensures (Given(b.email) && t.HasKey(UserEmail, b.email.value) && b.password.Some? &&
             !env.passwordMatches(b.password.value, t.docs[FindByEmail(t, b.email.value).value].record.password)) ==>
              r == Err(Fail(401, BadCredentialsMessage))
    ensures r.Ok? <==>
              && Given(b.email) && t.HasKey(UserEmail, b.email.value) && b.password.Some?
              && env.passwordMatches(b.password.value, t.docs[FindByEmail(t, b.email.value).value].record.password)
    ensures r.Ok? ==> r.value in t.docs && t.docs[r.value].record.email == b.email.value
  {
    if !Given(b.email) then Err(Fail(400, CredentialsRequiredMessage))
    else
      var found := FindByEmail(t, b.email.value);
      if found.None? then Err(Fail(404, NoSuchUserMessage))
      else if b.password.None? then Err(Internal(MissingPasswordMessage, Captured))
      else if !env.passwordMatches(b.password.value, t.docs[found.value].record.password) then
        Err(Fail(401, BadCredentialsMessage))
      else Ok(found.value)
  }

  /** `getAccessToken`: signs a token for the user's id and email and
      stores it on that user; any failure, an unknown id included, is
      reported as 401. */
  method GetAccessToken(db: Store, userId: Id) returns (r: Result<string>)
    requires db.Valid()
    modifies db`users
    ensures db.Valid()
    ensures userId !in old(db.users.docs) ==>
              r == Err(Fail(401, TokenFailedMessage)) && db.users == old(db.users)
    ensures userId in old(db.users.docs) ==>
              var u := old(db.users.docs[userId].record);
              && r == Ok(db.env.sign(userId, u.email))
              && db.users == old(db.users).Replace(userId, u.(accessToken := Some(r.value)))
  {
    if userId !in db.users.docs {
      return Err(Fail(401, TokenFailedMessage));
    }
    var u := db.users.docs[userId].record;
    var token := db.env.sign(userId, u.email);
    db.ReplaceUser(userId, u.(accessToken := Some(token)));
    return Ok(token);
  }

  /** `loginUser`: fails as `CheckLogin` says, changing nothing and setting
      no cookie; or stores a freshly signed token on the user and returns
      that same token in the body and in the `accessToken` cookie, beside
      the user without password or token. */
  method LoginUser(db: Store, body: LoginBody) returns (r: Reply<LoggedIn>, cookie: Option<string>)
    requires db.Valid()
    modifies db`users
    ensures db.Valid()
    ensures CheckLogin(db.env, old(db.users), body).Err? ==>
              && r == Thrown(CheckLogin(db.env, old(db.users), body).failure)
              && cookie.None? && db.users == old(db.users)
    ensures CheckLogin(db.env, old(db.users), body).Ok? ==>
              var id := CheckLogin(db.env, old(db.users), body).value;
              var u := old(db.users.docs[id].record);
              var token := db.env.sign(id, u.email);
              && db.users == old(db.users).Replace(id, u.(accessToken := Some(token)))
              && r == Send(200, 200, LoggedIn(ProfileOf(id, u, false), token))
              && cookie == Some(token)
  {
    var checked := CheckLogin(db.env, db.users, body);
    if checked.Err? {
      return Thrown(checked.failure), None;
    }
    var id := checked.value;
    var issued := GetAccessToken(db, id);
    var user := ProfileOf(id, db.users.docs[id].record, false);
    r := Send(200, 200, LoggedIn(user, issued.value));
    cookie := Some(issued.value);
  }

  /** The users table a successful registration leaves, with the stored
      user under `newId`. */
  function Registered(env: Env, t: Table<User>, b: RegisterBody, newId: Id): Table<User>
    requires CheckRegister(env, t, b).Ok?
  {
    t.Insert(newId, CheckRegister(env, t, b).value)
  }

  /** Registering and then logging in with the same email and password
      finds the new user, as long as bcrypt accepts a password against its
      own hash; `LoginUser` then answers 200 with the token signed for that
      user's id and email and sets it as the cookie. */
  lemma {:induction false} RegisterThenLogin(env: Env, t: Table<User>, b: RegisterBody, newId: Id)
    requires t.Unique(UserEmail) && newId !in t.docs
    requires CheckRegister(env, t, b).Ok?
    requires env.passwordMatches(b.password.value, env.hash(b.password.value))
    ensures Registered(env, t, b, newId).Unique(UserEmail)
    ensures Registered(env, t, b, newId).docs[newId].record.email == b.email.value
    ensures CheckLogin(env, Registered(env, t, b, newId), LoginBody(b.email, b.password)) == Ok(newId)
  {
    var u := CheckRegister(env, t, b).value;
    var t' := Registered(env, t, b, newId);
    t.InsertUnique(UserEmail, newId, u);
    TrimSpec(b.email.value);
    assert b.email.value != "";
    assert t'.docs[newId].record == u;
    assert t'.HasKey(UserEmail, b.email.value);
    var found := FindByEmail(t', b.email.value);
    assert found == Some(newId);
  }

  /** After the same registration, a password bcrypt does not accept
      against the stored hash is refused with 401, so `LoginUser` sets no
      cookie and changes nothing. */
  lemma {:induction false} RegisterThenWrongPassword(env: Env, t: Table<User>, b: RegisterBody, newId: Id, q: string)
    requires t.Unique(UserEmail) && newId !in t.docs
    requires CheckRegister(env, t, b).Ok?
    requires !env.passwordMatches(q, env.hash(b.password.value))
    ensures Registered(env, t, b, newId).Unique(UserEmail)
    ensures CheckLogin(env, Registered(env, t, b, newId), LoginBody(b.email, Some(q)))
              == Err(Fail(401, BadCredentialsMessage))
  {
    var u := CheckRegister(env, t, b).value;
    var t' := Registered(env, t, b, newId);
    t.InsertUnique(UserEmail, newId, u);
    TrimSpec(b.email.value);
    assert b.email.value != "";
    assert t'.docs[newId].record == u;
    assert t'.HasKey(UserEmail, b.email.value);
    var found := FindByEmail(t', b.email.value);
    assert found == Some(newId);
  }

  /** When the token service verifies what it signs, the token a login
      issues, sent back as the cookie, makes `verifyJWT` attach exactly the
      user the login returned. */
  lemma IssuedTokenAuthenticates(env: Env, users: Table<User>, id: Id)
    requires forall k :: k in users.docs ==> users.docs[k].id == k
    requires users.IdsSatisfy(env.validId) && id in users.docs
    requires env.sign(id, users.docs[id].record.email) != ""
    requires env.verify(env.sign(id, users.docs[id].record.email)) == Verified(id)
    ensures VerifyJwt(env, users, Some(env.sign(id, users.docs[id].record.email)), None)
              == Ok(ProfileOf(id, users.docs[id].record, false))
  {
  }

  /** The same token sent as "Bearer <token>" in the header, with no
      cookie, authenticates the same user. */
  lemma IssuedTokenAuthenticatesAsBearer(env: Env, users: Table<User>, id: Id)
    requires forall k :: k in users.docs ==> users.docs[k].id == k
    requires users.IdsSatisfy(env.validId) && id in users.docs
    requires var token := env.sign(id, users.docs[id].record.email); token != "" && Trimmed(token)
    requires env.verify(env.sign(id, users.docs[id].record.email)) == Verified(id)
    ensures VerifyJwt(env, users, None, Some(BearerPrefix + env.sign(id, users.docs[id].record.email)))
              == Ok(ProfileOf(id, users.docs[id].record, false))
  {
    var token := env.sign(id, users.docs[id].record.email);
    BearerHeaderRoundTrip(token, "");
    assert BearerPrefix + "" + token + "" == BearerPrefix + token;
  }
}
