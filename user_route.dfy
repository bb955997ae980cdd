/** `/api/user` (`app/api/user/route.js`): list the users without their
    passwords, create a user after validating the input (the password is
    stored as given), and a file-local cookie check. */
module UserRoute {
  import opened Js
  import opened Hasher
  import opened Store
  import opened Http
  import opened Jwt
  import opened Validation
  import Gate
  import SignInRoute

  const DuplicateEntry: string := "Duplicate entry found"
  const Unauthorized: string := "Unauthorized"
  const InvalidToken: string := "Invalid token"

  /** A user as the responses show it: the password left out. */
  function WithoutPassword(u: User): (v: User)
    ensures v.password.None?
    ensures v.(password := u.password) == u
  {
    u.(password := None)
  }

  /** `GET()`: every stored user, passwords left out, or a 500. */
  function Get(store: CredentialStore): (r: Response)
    reads store
    ensures r.status == 200 <==> store.outage.None?
    ensures r.status != 200 ==> r == InternalServerError()
    ensures r.status == 200 ==> r.body.UsersBody? && r.cookie.None?
    ensures r.status == 200 ==> forall u :: u in r.body.users <==>
      exists e :: e in store.users && u == WithoutPassword(store.users[e])
    ensures r.status == 200 ==> forall u | u in r.body.users :: u.password.None?
  {
    match store.FindAll()
    case Err(_) => InternalServerError()
    case Ok(users) => Response(200, UsersBody(set u | u in users :: WithoutPassword(u)), None)
  }

  /** The `catch` block of `POST`: a duplicate key first, then the two
      validation messages, then a generic 500. */
  function PostError(e: Error): (r: Response)
    ensures r == ErrorResponse(DuplicateEntry, 400) <==> e.code == Some(DuplicateKeyCode)
    ensures e.code != Some(DuplicateKeyCode) && (e.message == AllFieldsRequired || e.message == InvalidEmailFormat) ==>
      r == ErrorResponse(e.message, 400)
    ensures r.status == 400 || r == InternalServerError()
    ensures r.status == 500 <==>
      e.code != Some(DuplicateKeyCode) && e.message != AllFieldsRequired && e.message != InvalidEmailFormat
  {
    if e.code == Some(DuplicateKeyCode) then ErrorResponse(DuplicateEntry, 400)
    else if e.message == AllFieldsRequired || e.message == InvalidEmailFormat then ErrorResponse(e.message, 400)
    else InternalServerError()
  }

  /** The document `POST` saves: the five fields, the password as given. */
  function Document(input: UserInput): User {
    var password := if input.password.Some? then Some(Plain(input.password.value)) else None;
    User(0, input.firstname, input.lastname, input.username, input.email, password, None)
  }

  /** `POST(request)`. */
  method Post(store: CredentialStore, request: Request) returns (r: Response)
    requires store.Valid()
    modifies store
    ensures store.Valid() && store.outage == old(store.outage)
    ensures request.Unparseable? ==> r == PostError(Error(None, request.message))
    ensures request.Json? && ValidateOrThrow(request.input).Err? ==>
      r == ErrorResponse(ValidateOrThrow(request.input).error.message, 400)
    ensures request.Json? && ValidateOrThrow(request.input).Ok? && old(store.outage).Some? ==>
      r == PostError(Error(None, old(store.outage).value))
    ensures request.Json? && ValidateOrThrow(request.input).Ok? && old(store.outage).None? && request.input.email in old(store.users) ==>
      r == ErrorResponse(DuplicateEntry, 400)
    ensures r.status == 201 <==>
      request.Json? && ValidateOrThrow(request.input).Ok? && old(store.outage).None? && request.input.email !in old(store.users)
    ensures r.status == 201 ==>
      var user := Document(request.input).(id := old(store.nextId));
      && user.password == Some(Plain(request.input.password.value))
      && store.users == old(store.users)[request.input.email := user]
      && store.nextId == old(store.nextId) + 1
      && r == Response(201, UserBody(WithoutPassword(user), None), None)
    ensures r.status != 201 ==> store.users == old(store.users) && store.nextId == old(store.nextId)
  {
    if request.Unparseable? {
      return PostError(Error(None, request.message));
    }
    var valid := ValidateOrThrow(request.input);
    if valid.Err? {
      return PostError(valid.error);
    }
    var saved := store.Create(Document(request.input));
    if saved.Err? {
      return PostError(saved.error);
    }
    r := Response(201, UserBody(WithoutPassword(saved.value), None), None);
  }

  /** The `middleware` this file exports: the `token` cookie (`None` when
      the request has none) is checked with `jsonwebtoken`'s `verify`, whose
      outcome matches `jwtVerify`'s here; the decoded payload rides on. */
  function Middleware(cookie: Option<string>, now: nat, secret: Secret, mac: Mac): (r: Gate.Outcome)
    ensures cookie.None? ==> r == Gate.Respond(ErrorResponse(Unauthorized, 401))
    ensures cookie.Some? ==> (r.Forward? <==> Verify(cookie, now, secret, mac).Returned?)
    ensures r.Forward? ==> r.identity == Some(Verify(cookie, now, secret, mac).payload)
    ensures cookie.Some? && !r.Forward? ==> r == Gate.Respond(ErrorResponse(InvalidToken, 401))
    ensures !r.Throw?
  {
    if cookie.None? then Gate.Respond(ErrorResponse(Unauthorized, 401))
    else
      match Verify(cookie, now, secret, mac)
      case Returned(payload) => Gate.Forward(Some(payload))
      case Threw(_) => Gate.Respond(ErrorResponse(InvalidToken, 401))
  }

  /** The cookie the sign-in route sets passes this check while it lasts,
      and the identity attached is the signed-in user's. */
  lemma SignInCookieAccepted(claims: Claims, iat: nat, now: nat, secret: Secret, mac: Mac)
    requires now < iat + Lifetime
    ensures Middleware(Some(Sign(claims, iat, secret, mac)), now, secret, mac) ==
      Gate.Forward(Some(Payload(claims, iat, iat + Lifetime)))
  {
    VerifySigned(claims, iat, now, secret, mac);
  }

  /** A user created here keeps its password in the clear, which bcrypt's
      compare does not match against that same password: the user cannot
      sign in with the password it was created with. */
  lemma CreatedUserCannotSignIn(store: CredentialStore, email: string, password: string, now: nat, secret: Secret, mac: Mac)
    requires store.Valid() && store.outage.None?
    requires email != "" && password != ""
    requires Some(email) in store.users && store.users[Some(email)].password == Some(Plain(password))
    ensures SignInRoute.Post(store, Json(UserInput(None, None, None, Some(email), Some(password), None)), now, secret, mac)
      == ErrorResponse(SignInRoute.InvalidCredentials, 401)
  {
    assert Compare(password, Some(Plain(password))) == Ok(false);
  }
}
