/** `middleware.js`: the gate Next.js runs in front of every request whose
    path matches `/api/:path*`. Three exact paths pass untouched; on any
    other the raw `authorization` header goes to `verifyJWT`, and the
    request goes on only if that yields a payload. */
module Gate {
  import opened Js
  import opened Http
  import opened Jwt

  /** The value `await verifyJWT(token)` produces in the middleware: a
      payload (an object, so truthy), a falsy value, or an exception. */
  datatype Verification = Truthy(payload: Payload) | Falsy | Raised(error: JoseError)

  /** What the middleware does with a request: pass it on (with the decoded
      identity attached, if any), answer it, or throw. */
  datatype Outcome =
    | Forward(identity: Option<Payload>)
    | Respond(response: Response)
    | Throw(error: JoseError)

  const PublicPaths: seq<string> := ["/api/signin", "/api/signup", "/api/public/"]

  const AuthenticationRequired: Response := ErrorResponse("Authentication required", 401)

  /** `await verifyJWT(token)` as a JavaScript value: `verifyJWT` returns
      jose's payload object or throws, so the value is never falsy. */
  function AwaitVerify(token: Option<string>, now: nat, secret: Secret, mac: Mac): (v: Verification)
    ensures !v.Falsy?
    ensures v.Truthy? <==> Verify(token, now, secret, mac).Returned?
    ensures v.Truthy? ==> v.payload == Verify(token, now, secret, mac).payload
    ensures v.Raised? ==> v.error == Verify(token, now, secret, mac).error
  {
    match Verify(token, now, secret, mac)
    case Returned(p) => Truthy(p)
    case Threw(e) => Raised(e)
  }

  /** The gate's reaction to the verification value: an exception goes out
      of the middleware, a falsy value gets the 401, a payload lets the
      request through with nothing attached to it. */
  function OnVerification(v: Verification): (r: Outcome)
    ensures r == Respond(AuthenticationRequired) <==> v.Falsy?
    ensures r.Throw? <==> v.Raised?
    ensures v.Truthy? <==> r == Forward(None)
  {
    match v
    case Raised(e) => Throw(e)
    case Falsy => Respond(AuthenticationRequired)
    case Truthy(_) => Forward(None)
  }

  /** `middleware(request)` for a request with this pathname and this
      `authorization` header, at time `now`. */
  function Middleware(pathname: string, authorization: Option<string>, now: nat, secret: Secret, mac: Mac): (r: Outcome)
    ensures pathname in PublicPaths ==> r == Forward(None)
    ensures pathname !in PublicPaths ==> (r.Forward? <==> Verify(authorization, now, secret, mac).Returned?)
    ensures pathname !in PublicPaths && r.Throw? ==> Verify(authorization, now, secret, mac) == Threw(r.error)
    ensures !r.Respond?
    ensures r.Forward? ==> r.identity == None
  {
    if pathname !in PublicPaths then OnVerification(AwaitVerify(authorization, now, secret, mac))
    else Forward(None)
  }

  /** What may follow `/api/` in a matched path: non-empty segments split
      by single slashes, perhaps a trailing slash, and no `?` or `#`. */
  predicate SegmentsOk(rest: string) {
    && (forall i | 0 <= i < |rest| :: rest[i] != '?' && rest[i] != '#')
    && (|rest| > 0 ==> rest[0] != '/')
    && (forall i | 0 <= i < |rest| - 1 :: !(rest[i] == '/' && rest[i + 1] == '/'))
  }

  /** `config.matcher: '/api/:path*'`: `/api` itself, or `/api/` followed by
      zero or more non-empty segments, with an optional trailing slash. */
  predicate Matches(pathname: string): (b: bool)
    ensures b ==> |pathname| >= 4 && pathname[..4] == "/api"
    ensures b && |pathname| > 4 ==> pathname[4] == '/' && '?' !in pathname && '#' !in pathname
    ensures b ==> forall i | 0 <= i < |pathname| - 1 :: !(pathname[i] == '/' && pathname[i + 1] == '/')
  {
    pathname == "/api" || (|pathname| >= 5 && pathname[..5] == "/api/" && SegmentsOk(pathname[5..]))
  }

  /** What the framework does with a request: the middleware runs only
      where the matcher says so. */
  function Handle(pathname: string, authorization: Option<string>, now: nat, secret: Secret, mac: Mac): (r: Outcome)
    ensures !Matches(pathname) ==> r == Forward(None)
    ensures Matches(pathname) ==> r == Middleware(pathname, authorization, now, secret, mac)
    ensures !(|pathname| >= 4 && pathname[..4] == "/api") ==> r == Forward(None)
  {
    if Matches(pathname) then Middleware(pathname, authorization, now, secret, mac) else Forward(None)
  }

  /** A request to a gated path carrying `Bearer <token>`, as the client
      library sends it, is never let through: even a token `jwtSign` just
      issued makes the gate throw. */
  lemma BearerHeaderThrows(pathname: string, claims: Claims, iat: nat, now: nat, secret: Secret, mac: Mac)
    requires pathname !in PublicPaths
    ensures Middleware(pathname, Some("Bearer " + Sign(claims, iat, secret, mac)), now, secret, mac) == Throw(InvalidCompactJws)
  {
    BearerPrefixRejected(Sign(claims, iat, secret, mac), now, secret, mac);
  }

  /** The same token sent raw passes the gate until it expires. */
  lemma RawTokenForwarded(pathname: string, claims: Claims, iat: nat, now: nat, secret: Secret, mac: Mac)
    requires now < iat + Lifetime
    ensures Middleware(pathname, Some(Sign(claims, iat, secret, mac)), now, secret, mac) == Forward(None)
  {
    VerifySigned(claims, iat, now, secret, mac);
  }

  /** A request to a gated path with no `authorization` header does not get
      the 401: `verifyJWT(null)` throws and the exception leaves the
      middleware. */
  lemma MissingHeaderThrows(pathname: string, now: nat, secret: Secret, mac: Mac)
    requires Matches(pathname) && pathname !in PublicPaths
    ensures Handle(pathname, None, now, secret, mac) == Throw(InvalidCompactJws)
  {
  }

  /** Only the three listed paths are public: a path below `/api/public/`
      is gated like any other. */
  lemma PublicIsExact(now: nat, secret: Secret, mac: Mac)
    ensures Handle("/api/public/x", None, now, secret, mac) == Throw(InvalidCompactJws)
    ensures Handle("/api/signup", None, now, secret, mac) == Forward(None)
    ensures Handle("/api/user", None, now, secret, mac) == Throw(InvalidCompactJws)
    ensures Handle("/login", None, now, secret, mac) == Forward(None)
  {
    assert "/api/public/x" !in PublicPaths;
    assert "/api/public/x"[..5] == "/api/";
    assert "/api/user"[..5] == "/api/";
    assert "/api/signup"[..5] == "/api/";
    assert "/login"[..5][1] == 'l';
  }
}
