/** `POST /api/signup` (`app/api/signup/route.js`). A returning Google user
    is signed in; everyone else is created, with the password hashed. The
    result of `validateUserInput` is thrown away, so malformed input is
    stored as it comes unless the store itself objects. */
module SignUpRoute {
  import opened Js
  import opened Hasher
  import opened Store
  import opened Http
  import opened Jwt
  import Validation

  const UserExists: string := "User already exists with these credentials"

  const Google: Field := Some("google")

  /** `checkExistingUser(email, logintype)`: `User.findOne({ email,
      logintype })`, kept only if the user found signs in with Google. */
  function CheckExistingUser(store: CredentialStore, email: Field, logintype: Field): (r: Result<Option<User>>)
    requires store.Valid()
    reads store
    ensures r.Err? <==> store.outage.Some?
    ensures r.Err? ==> r.error == Error(None, store.outage.value)
    ensures r.Ok? ==> (r.value.Some? <==>
      email in store.users && store.users[email].logintype == logintype && logintype == Google)
    ensures r.Ok? && r.value.Some? ==> r.value.value == store.users[email]
  {
    match store.FindOne(email)
    case Err(e) => Err(e)
    case Ok(found) =>
      var user := if found.Some? && found.value.logintype == logintype then found else None;
      Ok(if user.Some? && user.value.logintype == Google then user else None)
  }

  /** `handleExistingUser(user)`: 200 with the user and a token over its id
      and email, the token also set as cookie `token` (not HTTP-only). */
  function HandleExistingUser(user: User, now: nat, secret: Secret, mac: Mac): (r: Response)
    ensures r.status == 200 && r.body.UserBody? && r.body.user == user && r.body.token.Some?
    ensures r.cookie == Some(Cookie("token", r.body.token.value, false))
    ensures Verify(r.body.token, now, secret, mac) == Returned(Payload(Claims(user.id, user.email), now, now + Lifetime))
  {
    var token := Sign(Claims(user.id, user.email), now, secret, mac);
    VerifySigned(Claims(user.id, user.email), now, now, secret, mac);
    Response(200, UserBody(user, Some(token)), Some(Cookie("token", token, false)))
  }

  /** `handleNewUser(user, logintype)`: 201 with the user; a Google user also
      gets a token over its id and email, set as cookie `token` as well. */
  function HandleNewUser(user: User, logintype: Field, now: nat, secret: Secret, mac: Mac): (r: Response)
    ensures r.status == 201 && r.body.UserBody? && r.body.user == user
    ensures r.body.token.Some? <==> logintype == Google
    ensures r.cookie.Some? <==> logintype == Google
    ensures r.body.token.Some? ==>
      && r.cookie == Some(Cookie("token", r.body.token.value, false))
      && Verify(r.body.token, now, secret, mac) == Returned(Payload(Claims(user.id, user.email), now, now + Lifetime))
  {
    if logintype == Google then
      var token := Sign(Claims(user.id, user.email), now, secret, mac);
      VerifySigned(Claims(user.id, user.email), now, now, secret, mac);
      Response(201, UserBody(user, Some(token)), Some(Cookie("token", token, false)))
    else
      Response(201, UserBody(user, None), None)
  }

  /** The `catch` block: a duplicate key is a 400; anything else is a 500
      carrying the error's own message, or a generic one if that is empty. */
  function SignUpError(e: Error): (r: Response)
    ensures r.status == 400 <==> e.code == Some(DuplicateKeyCode)
    ensures r.status == 400 ==> r == ErrorResponse(UserExists, 400)
    ensures r.status != 400 ==> r.status == 500 && r.body.ErrorBody? && r.cookie.None?
    ensures r.status == 500 && e.message != "" ==> r.body.error == e.message
    ensures r.status == 500 && e.message == "" ==> r == InternalServerError()
  {
    if e.code == Some(DuplicateKeyCode) then ErrorResponse(UserExists, 400)
    else ErrorResponse(if e.message != "" then e.message else "Internal Server Error", 500)
  }

  /** The document `createNewUser` hands to `User.create`: the request's
      fields, with the password replaced by its hash. */
  function NewDocument(input: UserInput, password: StoredPassword): User {
    User(0, input.firstname, input.lastname, input.username, input.email, Some(password), input.logintype)
  }

  /** `createNewUser(userData)`: hash the password, then create the user. */
  method CreateNewUser(store: CredentialStore, input: UserInput, salt: nat) returns (r: Result<User>)
    requires store.Valid()
    modifies store
    ensures store.Valid() && store.outage == old(store.outage)
    ensures input.password.None? ==> r == Err(HashPassword(None, salt).error) && store.users == old(store.users) && store.nextId == old(store.nextId)
    ensures input.password.Some? && old(store.outage).Some? ==>
      r == Err(Error(None, old(store.outage).value)) && store.users == old(store.users) && store.nextId == old(store.nextId)
    ensures input.password.Some? && old(store.outage).None? && input.email in old(store.users) ==>
      r == Err(DuplicateKey) && store.users == old(store.users) && store.nextId == old(store.nextId)
    ensures r.Ok? <==> input.password.Some? && old(store.outage).None? && input.email !in old(store.users)
    ensures r.Ok? ==>
      && r.value == NewDocument(input, Bcrypt(salt, input.password.value)).(id := old(store.nextId))
      && store.users == old(store.users)[input.email := r.value]
      && store.nextId == old(store.nextId) + 1
  {
    var hashed := HashPassword(input.password, salt);
    if hashed.Err? {
      return Err(hashed.error);
    }
    r := store.Create(NewDocument(input, hashed.value));
  }

  /** A Google sign-up whose email already belongs to a Google user. */
  ghost predicate ReturningGoogleUser(users: map<Field, User>, outage: Option<string>, request: Request) {
    && request.Json?
    && request.input.logintype == Google
    && outage.None?
    && request.input.email in users
    && users[request.input.email].logintype == Google
  }

  /** `POST(request)` at time `now`; `salt` is the salt bcrypt draws. */
  method Post(store: CredentialStore, request: Request, salt: nat, now: nat, secret: Secret, mac: Mac) returns (r: Response)
    requires store.Valid()
    modifies store
    ensures store.Valid() && store.outage == old(store.outage)
    ensures request.Unparseable? ==> r == SignUpError(Error(None, request.message))
    ensures ReturningGoogleUser(old(store.users), old(store.outage), request) ==>
      r == HandleExistingUser(old(store.users)[request.input.email], now, secret, mac)
    ensures request.Json? && old(store.outage).Some? && (request.input.logintype == Google || request.input.password.Some?) ==>
      r == SignUpError(Error(None, old(store.outage).value))
    ensures (&& request.Json? && request.input.password.None?
             && !ReturningGoogleUser(old(store.users), old(store.outage), request)
             && (old(store.outage).None? || request.input.logintype != Google)) ==>
      r == SignUpError(HashPassword(None, salt).error)
    ensures (&& request.Json? && old(store.outage).None? && request.input.password.Some?
             && request.input.email in old(store.users)
             && !ReturningGoogleUser(old(store.users), old(store.outage), request)) ==>
      r == ErrorResponse(UserExists, 400)
    ensures r.status == 201 <==>
      request.Json? && old(store.outage).None? && request.input.password.Some? && request.input.email !in old(store.users)
    ensures r.status == 201 ==>
      var user := NewDocument(request.input, Bcrypt(salt, request.input.password.value)).(id := old(store.nextId));
      && store.users == old(store.users)[request.input.email := user]
      && store.nextId == old(store.nextId) + 1
      && r == HandleNewUser(user, request.input.logintype, now, secret, mac)
    ensures r.status != 201 ==> store.users == old(store.users) && store.nextId == old(store.nextId)
  {
    if request.Unparseable? {
      return SignUpError(Error(None, request.message));
    }
    var input := request.input;
    var _ := Validation.ValidateUserInput(input);
    if input.logintype == Google {
      var existing := CheckExistingUser(store, input.email, input.logintype);
      if existing.Err? {
        return SignUpError(existing.error);
      }
      if existing.value.Some? {
        return HandleExistingUser(existing.value.value, now, secret, mac);
      }
    }
    var created := CreateNewUser(store, input, salt);
    if created.Err? {
      return SignUpError(created.error);
    }
    r := HandleNewUser(created.value, input.logintype, now, secret, mac);
  }
}
