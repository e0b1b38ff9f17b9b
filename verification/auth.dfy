/** The authentication handlers: `POST /register`, `POST /login`,
    `GET /profile` and `POST /logout`. The bcrypt hash and compare are
    parameters; so is an infrastructure fault of the store or the hasher,
    which the handlers can only report. */
module Auth {
  import opened Base
  import opened Tokens
  import opened Users
  import opened Http

  /** The JSON body `{ username, password }`. */
  datatype Credentials = Credentials(username: string, password: string)

  /** `bcrypt.hash(password, 10)`. */
  type Hasher = string -> string

  /** `bcrypt.compare(password, hash)`. */
  type Comparer = (string, string) -> bool

  const UsernameTakenMessage: string := "Username already exists."
  const ValidationFailedMessage: string := "Validation failed"
  const RegistrationErrorMessage: string := "An error occurred during registration."
  const InvalidCredentialsMessage: string := "Invalid username or password."
  const LoginErrorMessage: string := "An error occurred during login."
  const LoginSuccessMessage: string := "Login successful!"
  const LogoutMessage: string := "Logged out successfully"

  /** The registration handler's `catch` block: duplicate key first, then a
      schema error, and anything else is the server's fault. */
  function RegisterFailure(e: StoreError): Response
  {
    if e.code == Some(DuplicateKeyCode) then
      Response(BadRequest, ErrorJson(UsernameTakenMessage), Untouched)
    else if e.name == "ValidationError" then
      Response(BadRequest, ErrorDetailsJson(ValidationFailedMessage, e.message), Untouched)
    else
      Response(InternalError, ErrorJson(RegistrationErrorMessage), Untouched)
  }

  /** The status the `catch` block answers with depends only on the error's
      code and name: 400 for a duplicate key or a schema error, 500 otherwise,
      and a cookie is never set. */
  lemma RegisterFailureStatus(e: StoreError)
    ensures RegisterFailure(e).cookie == Untouched
    ensures RegisterFailure(e).status == BadRequest <==>
      e.code == Some(DuplicateKeyCode) || e.name == "ValidationError"
    ensures RegisterFailure(e).status == InternalError <==>
      e.code != Some(DuplicateKeyCode) && e.name != "ValidationError"
    ensures e.code == Some(DuplicateKeyCode) ==>
      RegisterFailure(e).body == ErrorJson(UsernameTakenMessage)
  {
  }

  /** `POST /register`: hash the password, create the user, sign a token for
      its id and username and answer 201 with the stored record. `fault` is
      an error the hasher or the store raises for reasons of its own, before
      anything is stored. `signFault` is `jwt.sign` throwing after the user
      was created (no secret configured, say): the catch block answers 500,
      and the new user stays stored. */
  function Register(users: UserStore, req: Credentials, hash: Hasher, schema: Schema,
                    fault: Option<StoreError>, signFault: bool): (r: (Response, UserStore))
    ensures fault.Some? ==> r == (RegisterFailure(fault.value), users)
    ensures fault.None? && schema(req.username, hash(req.password)).Some? ==>
      && r.0.status == BadRequest
      && r.0.body == ErrorDetailsJson(ValidationFailedMessage, schema(req.username, hash(req.password)).value)
      && r.1 == users
    ensures fault.None? && schema(req.username, hash(req.password)).None? && Taken(users, req.username) ==>
      r == (Response(BadRequest, ErrorJson(UsernameTakenMessage), Untouched), users)
    ensures r.1 == (if fault.None? && schema(req.username, hash(req.password)).None? && !Taken(users, req.username)
                    then users + [User(|users|, req.username, hash(req.password))]
                    else users)
    ensures r.0.status == Created <==>
      fault.None? && schema(req.username, hash(req.password)).None? && !Taken(users, req.username) && !signFault
    ensures r.1 != users && signFault ==>
      r.0 == Response(InternalError, ErrorJson(RegistrationErrorMessage), Untouched)
    ensures r.0.status == Created ==>
      var u := User(|users|, req.username, hash(req.password));
      && r.0.body == UserRecordJson(u)
      && r.0.cookie == SetToken(IssuedToken(Claims(u.id, u.username), 60 * 60),
                                60 * 60 * 1000, true, false, Strict)
    ensures r.0.status != Created ==> r.0.cookie == Untouched
  {
    if fault.Some? then
      RegisterFailureStatus(fault.value);
      (RegisterFailure(fault.value), users)
    else
      match Create(users, req.username, hash(req.password), schema)
      case Success(created) =>
        if signFault then
          (Response(InternalError, ErrorJson(RegistrationErrorMessage), Untouched), created.1)
        else
          (Response(Created, UserRecordJson(created.0), SessionCookie(created.0, Strict)), created.1)
      case Failure(e) =>
        RegisterFailureStatus(e);
        (RegisterFailure(e), users)
  }

  /** Registration keeps ids positional and usernames unique. */
  lemma RegisterPreservesWellFormed(users: UserStore, req: Credentials, hash: Hasher, schema: Schema,
                                    fault: Option<StoreError>, signFault: bool)
    requires WellFormed(users)
    ensures WellFormed(Register(users, req, hash, schema, fault, signFault).1)
  {

  }

  /** Once a name is stored, whether or not its token was signed, registering
      it again fails with "Username already exists." and leaves the first
      registration's record as it was. */
  lemma {:induction false} RegisterTwice(users: UserStore, first: Credentials, second: Credentials,
                                         hash: Hasher, schema: Schema, firstSignFault: bool, secondSignFault: bool)
    requires schema(first.username, hash(first.password)).None?
    requires !Taken(users, first.username)
    requires second.username == first.username
    requires schema(second.username, hash(second.password)).None?
    ensures var users' := Register(users, first, hash, schema, None, firstSignFault).1;
            var r := Register(users', second, hash, schema, None, secondSignFault);
            && r.0 == Response(BadRequest, ErrorJson(UsernameTakenMessage), Untouched)
            && r.1 == users'
            && r.1[|users|] == User(|users|, first.username, hash(first.password))
  {
    var users' := Register(users, first, hash, schema, None, firstSignFault).1;
    assert users'[|users|].username == second.username;
    assert Taken(users', second.username);
  }

  /** The user a login attempt authenticates as: a stored user with the
      requested name whose hash the password matches. */
  ghost predicate Authentic(users: UserStore, req: Credentials, matches: Comparer, u: User)
  {
    u in users && u.username == req.username && matches(req.password, u.passwordHash)
  }

  /** The one answer for every rejected login, unknown user or wrong password. */
  function InvalidCredentials(): Response
  {
    Response(BadRequest, ErrorJson(InvalidCredentialsMessage), Untouched)
  }

  /** `POST /login`: look the user up by name, compare the password with the
      stored hash and sign a token for the user's id and username. `fault`
      is an error the store or the comparison raises. */
  function Login(users: UserStore, req: Credentials, matches: Comparer, fault: bool): (r: Response)
    ensures fault ==> r == Response(InternalError, ErrorJson(LoginErrorMessage), Untouched)
    ensures r.status == OK ==>
      exists u :: Authentic(users, req, matches, u)
        && r.body == LoginJson(LoginSuccessMessage, u.id, u.username)
        && r.cookie == SetToken(IssuedToken(Claims(u.id, u.username), 60 * 60),
                                60 * 60 * 1000, true, false, Lax)
    ensures r.status == OK || r == InvalidCredentials() || fault
    ensures !fault && WellFormed(users) ==>
      (r.status == OK <==> exists u :: Authentic(users, req, matches, u))
  {
    LookupFindsAuthentic(users, req, matches);
    LoginAnswer(users, req, matches, fault)
  }

  function LoginAnswer(users: UserStore, req: Credentials, matches: Comparer, fault: bool): Response
  {
    if fault then Response(InternalError, ErrorJson(LoginErrorMessage), Untouched)
    else match FindByUsername(users, req.username)
      case None => InvalidCredentials()
      case Some(u) =>
        if !matches(req.password, u.passwordHash) then InvalidCredentials()
        else
          Response(OK, LoginJson(LoginSuccessMessage, u.id, u.username), SessionCookie(u, Lax))
  }

  /** In a well-formed store, the name lookup finds the authentic user
      whenever there is one. */
  lemma LookupFindsAuthentic(users: UserStore, req: Credentials, matches: Comparer)
    ensures WellFormed(users) && (exists u :: Authentic(users, req, matches, u)) ==>
      && FindByUsername(users, req.username).Some?
      && Authentic(users, req, matches, FindByUsername(users, req.username).value)
  {

  }

  /** An unknown username and a wrong password get the identical answer, so
      the response does not reveal which names are registered. */
  lemma LoginRejectionIsUniform(users: UserStore, unknown: Credentials, wrong: Credentials,
                                matches: Comparer)
    requires !Taken(users, unknown.username)
    requires Taken(users, wrong.username)
    requires forall u :: u in users && u.username == wrong.username ==> !matches(wrong.password, u.passwordHash)
    ensures Login(users, unknown, matches, false) == Login(users, wrong, matches, false) == InvalidCredentials()
  {

  }

  /** `GET /profile`: the verified token's claims; a missing or invalid
      token makes the verification callback throw, which Express's default
      error handler answers with 500. */
  function Profile(verify: Verifier, cookie: Option<Token>): (r: Outcome)
    ensures r.Reply? <==> Authenticate(verify, cookie).Some?
    ensures r.Reply? ==> r.response.status == OK && r.response.body == ClaimsJson(Authenticate(verify, cookie).value)
  {
    match Authenticate(verify, cookie)
    case None => Unhandled
    case Some(c) => Reply(Response(OK, ClaimsJson(c), Untouched))
  }

  /** `POST /logout`: always answers and clears the cookie. */
  function Logout(): (r: Response)
  {
    Response(OK, MessageJson(LogoutMessage), ClearToken(0, true, false, Strict))
  }

  /** After logout the browser holds no token, or the empty one; since the
      JWT library rejects an empty token, the profile handler throws instead
      of returning claims. */
  lemma LogoutEndsSession(verify: Verifier, cookie: Option<Token>)
    requires verify("").None?
    requires cookie.None? || cookie == Some("")
    ensures Logout().status == OK && Logout().cookie.maxAgeMillis == 0
    ensures Profile(verify, cookie).Unhandled?
  {
  }
}
