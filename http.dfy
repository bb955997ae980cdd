/** Requests and responses of the route handlers, in place of Next.js's
    `Request`, `NextResponse.json` and the response's cookie jar. */
module Http {
  import opened Js
  import opened Store

  /** The fields the handlers destructure from the JSON body. */
  datatype UserInput = UserInput(
    firstname: Field,
    lastname: Field,
    username: Field,
    email: Field,
    password: Field,
    logintype: Field)

  /** `await request.json()`: a parsed body, or a body that makes the
      parser throw a `SyntaxError` with the given message. */
  datatype Request = Json(input: UserInput) | Unparseable(message: string)

  /** A cookie set on the response with `response.cookies.set`. */
  datatype Cookie = Cookie(name: string, value: string, httpOnly: bool)

  /** The JSON bodies the handlers send. A `User` in a body is the document
      as serialised; a `password` of `None` means the field is left out. */
  datatype Body =
    | ErrorBody(error: string)
    | UserBody(user: User, token: Option<string>)
    | UsersBody(users: set<User>)

  datatype Response = Response(status: nat, body: Body, cookie: Option<Cookie>)

  /** `createErrorResponse(message, status)`. */
  function ErrorResponse(message: string, status: nat): (r: Response)
    ensures r.status == status && r.body.ErrorBody? && r.body.error == message
    ensures r.cookie.None?
  {
    Response(status, ErrorBody(message), None)
  }

  /** The 500 response most handlers fall back to. */
  function InternalServerError(): Response {
    ErrorResponse("Internal Server Error", 500)
  }
}
