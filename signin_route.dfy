/** `POST /api/signin` (`app/api/signin/route.js`): check that email and
    password are there, find the user by email, compare the password with
    the stored hash, and answer with the user and a fresh token, which is
    also set as an HTTP-only cookie. The store is only read. */
module SignInRoute {
  import opened Js
  import opened Hasher
  import opened Store
  import opened Http
  import opened Jwt

  const CredentialsRequired: string := "Email and password are required"
  const UserNotFound: string := "User not found"
  const InvalidCredentials: string := "Invalid credentials"

  /** The user the request names could be signed in: both fields truthy,
      the store up, a user under that email, and the password matching its
      hash. */
  predicate Accepts(store: CredentialStore, request: Request)
    reads store
  {
    && request.Json?
    && !Falsy(request.input.email) && !Falsy(request.input.password)
    && store.outage.None?
    && request.input.email in store.users
    && Compare(request.input.password.value, store.users[request.input.email].password) == Ok(true)
  }

  /** `POST(request)` at time `now`. */
  function Post(store: CredentialStore, request: Request, now: nat, secret: Secret, mac: Mac): (r: Response)
    requires store.Valid()
    reads store
    ensures request.Json? && (Falsy(request.input.email) || Falsy(request.input.password)) <==>
      r == ErrorResponse(CredentialsRequired, 400)
    ensures r == ErrorResponse(UserNotFound, 404) <==>
      && request.Json? && !Falsy(request.input.email) && !Falsy(request.input.password)
      && store.outage.None? && request.input.email !in store.users
    ensures r == ErrorResponse(InvalidCredentials, 401) <==>
      && request.Json? && !Falsy(request.input.email) && !Falsy(request.input.password)
      && store.outage.None? && request.input.email in store.users
      && Compare(request.input.password.value, store.users[request.input.email].password) == Ok(false)
    ensures r.status == 200 <==> Accepts(store, request)
    ensures r.status == 200 ==>
      var user := store.users[request.input.email];
      && r.body.UserBody? && r.body.user == user && r.body.token.Some?
      && r.cookie == Some(Cookie("token", r.body.token.value, true))
      && Verify(Some(r.body.token.value), now, secret, mac) == Returned(Payload(Claims(user.id, request.input.email), now, now + Lifetime))
    ensures r.status == 500 ==> r == InternalServerError()
    ensures r.status in {200, 400, 401, 404, 500}
    ensures r.status != 200 ==> r in {ErrorResponse(CredentialsRequired, 400), ErrorResponse(UserNotFound, 404),
                                      ErrorResponse(InvalidCredentials, 401), InternalServerError()}
  {
    match request
    case Unparseable(_) => InternalServerError()
    case Json(input) =>
      if Falsy(input.email) || Falsy(input.password) then ErrorResponse(CredentialsRequired, 400)
      else
        match store.FindOne(input.email)
        case Err(_) => InternalServerError()
        case Ok(None) => ErrorResponse(UserNotFound, 404)
        case Ok(Some(user)) =>
          match Compare(input.password.value, user.password)
          case Err(_) => InternalServerError()
          case Ok(false) => ErrorResponse(InvalidCredentials, 401)
          case Ok(true) =>
            var token := Sign(Claims(user.id, user.email), now, secret, mac);
            VerifySigned(Claims(user.id, user.email), now, now, secret, mac);
            Response(200, UserBody(user, Some(token)), Some(Cookie("token", token, true)))
  }

  /** A user whose stored hash was made from `password` signs in with it,
      and the token it gets carries that user's id and email. */
  lemma HashedPasswordSignsIn(store: CredentialStore, email: string, password: string, salt: nat, now: nat, secret: Secret, mac: Mac)
    requires store.Valid() && store.outage.None?
    requires email != "" && password != ""
    requires Some(email) in store.users && store.users[Some(email)].password == Some(Bcrypt(salt, password))
    ensures var request := Json(UserInput(None, None, None, Some(email), Some(password), None));
      var r := Post(store, request, now, secret, mac);
      && r.status == 200 && r.body.user == store.users[Some(email)]
      && Verify(r.body.token, now, secret, mac).Returned?
      && Verify(r.body.token, now, secret, mac).payload.claims == Claims(store.users[Some(email)].id, Some(email))
  {
    var request := Json(UserInput(None, None, None, Some(email), Some(password), None));
    CompareHash(password, password, salt);
    assert Accepts(store, request);
  }

  /** Any other password is refused with the generic 401, which reads the
      same whatever was wrong. */
  lemma WrongPasswordRefused(store: CredentialStore, email: string, password: string, attempt: string, salt: nat, now: nat, secret: Secret, mac: Mac)
    requires store.Valid() && store.outage.None?
    requires email != "" && attempt != "" && attempt != password
    requires Some(email) in store.users && store.users[Some(email)].password == Some(Bcrypt(salt, password))
    ensures Post(store, Json(UserInput(None, None, None, Some(email), Some(attempt), None)), now, secret, mac)
      == ErrorResponse(InvalidCredentials, 401)
  {
    CompareHash(attempt, password, salt);
  }
}
