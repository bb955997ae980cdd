/** Requests run one after another against one store, across the routes:
    how sign-up, sign-in and the gate fit together. */
module Scenarios {
  import opened Js
  import opened Hasher
  import opened Store
  import opened Http
  import opened Jwt
  import Validation
  import Gate
  import SignInRoute
  import SignUpRoute

  /** A credentials-only sign-in body. */
  function Credentials(email: string, password: string): Request {
    Json(UserInput(None, None, None, Some(email), Some(password), None))
  }

  /** The local sign-up of `a@b.com` with `secret123`. */
  function Ada(logintype: Field): UserInput {
    UserInput(Some("Ada"), Some("Byron"), Some("ada"), Some("a@b.com"), Some("secret123"), logintype)
  }

  /** Sign up `a@b.com` with `secret123` as a local user, then sign in with
      that password: the token is for the new user, whose record holds the
      hash and not the password. */
  method SignUpThenSignIn(salt: nat, now: nat, secret: Secret, mac: Mac) returns (signup: Response, signin: Response)
    ensures signup.status == 201 && signup.body.UserBody? && signup.body.token.None? && signup.cookie.None?
    ensures signup.body.user.password == Some(Bcrypt(salt, "secret123"))
    ensures signin.status == 200 && signin.body.UserBody? && signin.body.user == signup.body.user
    ensures signin.body.token.Some? && signin.cookie == Some(Cookie("token", signin.body.token.value, true))
    ensures Verify(signin.body.token, now, secret, mac) == Returned(Payload(Claims(0, Some("a@b.com")), now, now + Lifetime))
  {
    var store := new CredentialStore(None);
    signup := SignUpRoute.Post(store, Json(Ada(None)), salt, now, secret, mac);
    assert store.users == map[Some("a@b.com") := signup.body.user] && store.outage.None?;
    SignInRoute.HashedPasswordSignsIn(store, "a@b.com", "secret123", salt, now, secret, mac);
    signin := SignInRoute.Post(store, Credentials("a@b.com", "secret123"), now, secret, mac);
  }

  /** Any sign-up with a fresh email and a non-empty password succeeds, and
      signing in with the same email and password then succeeds too, with a
      token for the new user's id and that email. */
  method FreshSignUpSignsIn(store: CredentialStore, input: UserInput, salt: nat, now: nat, secret: Secret, mac: Mac)
    returns (signup: Response, signin: Response)
    requires store.Valid() && store.outage.None?
    requires input.email.Some? && input.email.value != "" && input.email !in store.users
    requires input.password.Some? && input.password.value != ""
    modifies store
    ensures signup.status == 201 && input.email in store.users
    ensures store.users[input.email].password == Some(Bcrypt(salt, input.password.value))
    ensures signin.status == 200 && signin.body.UserBody? && signin.body.user == store.users[input.email]
    ensures Verify(signin.body.token, now, secret, mac).Returned?
    ensures Verify(signin.body.token, now, secret, mac).payload.claims == Claims(old(store.nextId), input.email)
  {
    signup := SignUpRoute.Post(store, Json(input), salt, now, secret, mac);
    SignInRoute.HashedPasswordSignsIn(store, input.email.value, input.password.value, salt, now, secret, mac);
    signin := SignInRoute.Post(store, Credentials(input.email.value, input.password.value), now, secret, mac);
  }

  /** After the same sign-up, a wrong password gets the 401 and an unknown
      email the 404. */
  method SignUpThenFailedSignIns(salt: nat, now: nat, secret: Secret, mac: Mac) returns (wrong: Response, unknown: Response)
    ensures wrong == ErrorResponse(SignInRoute.InvalidCredentials, 401)
    ensures unknown == ErrorResponse(SignInRoute.UserNotFound, 404)
  {
    var store := new CredentialStore(None);
    var signup := SignUpRoute.Post(store, Json(Ada(None)), salt, now, secret, mac);
    assert store.users == map[Some("a@b.com") := signup.body.user] && store.outage.None?;
    SignInRoute.WrongPasswordRefused(store, "a@b.com", "secret123", "wrong", salt, now, secret, mac);
    wrong := SignInRoute.Post(store, Credentials("a@b.com", "wrong"), now, secret, mac);
    assert Some("x@y.com") !in store.users;
    unknown := SignInRoute.Post(store, Credentials("x@y.com", "secret123"), now, secret, mac);
  }

  /** The same local sign-up twice: the second hits the unique email and
      gets the 400, and the store keeps the first record. */
  method SignUpTwice(salt: nat, now: nat, secret: Secret, mac: Mac) returns (first: Response, again: Response, stored: nat)
    ensures first.status == 201
    ensures again == ErrorResponse(SignUpRoute.UserExists, 400)
    ensures stored == 1
  {
    var store := new CredentialStore(None);
    first := SignUpRoute.Post(store, Json(Ada(None)), salt, now, secret, mac);
    again := SignUpRoute.Post(store, Json(Ada(None)), salt, now, secret, mac);
    stored := |store.users|;
  }

  /** Sign-up ignores what validation says: a body with no names and an
      email without a domain is refused by the validator yet stored. */
  method InvalidInputStored(salt: nat, now: nat, secret: Secret, mac: Mac) returns (verdict: Option<Response>, r: Response)
    ensures verdict == Some(ErrorResponse(Validation.AllFieldsRequired, 400))
    ensures r.status == 201 && r.body.UserBody? && r.body.user.email == Some("not-an-email")
  {
    var store := new CredentialStore(None);
    var input := UserInput(None, None, None, Some("not-an-email"), Some("pw"), None);
    verdict := Validation.ValidateUserInput(input);
    r := SignUpRoute.Post(store, Json(input), salt, now, secret, mac);
  }

  /** A Google user signing up a second time is signed in instead, with a
      cookie scripts can read, and the store keeps one record. */
  method GoogleSignUpTwice(salt: nat, now: nat, secret: Secret, mac: Mac) returns (first: Response, second: Response, stored: nat)
    ensures first.status == 201 && first.body.UserBody? && first.body.token.Some?
    ensures first.cookie == Some(Cookie("token", first.body.token.value, false))
    ensures second.status == 200 && second.body.UserBody? && second.body.user == first.body.user
    ensures second.body.token.Some? && second.cookie == Some(Cookie("token", second.body.token.value, false))
    ensures stored == 1
  {
    var store := new CredentialStore(None);
    first := SignUpRoute.Post(store, Json(Ada(Some("google"))), salt, now, secret, mac);
    second := SignUpRoute.Post(store, Json(Ada(Some("google"))), salt, now, secret, mac);
    stored := |store.users|;
  }

  /** The token sign-in hands out passes the gate when sent as is, and makes
      it throw when sent the way the client library sends it. */
  method TokenThroughGate(salt: nat, now: nat, secret: Secret, mac: Mac) returns (raw: Gate.Outcome, bearer: Gate.Outcome)
    ensures raw == Gate.Forward(None)
    ensures bearer == Gate.Throw(InvalidCompactJws)
  {
    var _, signin := SignUpThenSignIn(salt, now, secret, mac);
    var token := signin.body.token.value;
    raw := Gate.Middleware("/api/user", Some(token), now, secret, mac);
    assert "/api/user" !in Gate.PublicPaths;
    BearerPrefixRejected(token, now, secret, mac);
    bearer := Gate.Middleware("/api/user", Some("Bearer " + token), now, secret, mac);
  }
}
