# Next.js todo app with JWT sign-in: a Dafny model

This project models the server and client logic of a small Next.js application:
- users sign up and sign in against a MongoDB `User` collection;
- passwords are hashed with bcrypt;
- a signed JSON Web Token (HS256, two hours) is handed out as a cookie;
- an edge middleware gates `/api/*` on that token;
- the home page keeps a client-side todo list.

The core is:
- the shared helpers (`validateUserInput`, `jwtSign`, `verifyJWT`);
- the middleware;
- the three API routes (`/api/signin`, `/api/signup`, `/api/user`);
- the todo list component.

The modules follow the program:

| module | models |
|---|---|
| `Js` | JavaScript truthiness of destructured fields, `\s` white space, `String.prototype.trim` |
| `Hasher` | `HashPassword` and `bcrypt.compare`, as an ideal hash |
| `Store` | the `User` collection as a class: a map from email (absent email = `null`) to user document, the unique email index and its E11000 error, `findOne`, `find`, `create`/`save`, and a switchable outage standing for any database failure |
| `Http` | parsed request bodies and `NextResponse.json` responses with their `token` cookie |
| `Validation` | both `validateUserInput` variants and the email regular expression |
| `Segment`, `Jwt` | compact JWS tokens: `jwtSign` and `verifyJWT` over a clock and a secret, with HMAC-SHA-256 left uninterpreted |
| `Gate` | `middleware.js` and its `config.matcher` |
| `SignInRoute`, `SignUpRoute`, `UserRoute` | the route handlers, step by step, against a `CredentialStore` |
| `Todo` | the todo list as a class with the component's five state fields |
| `Scenarios` | request sequences across routes |

Pure code is modelled as functions. The store's write, `create`, is a method of the store class. The handlers that call it are module-level methods that take the store and modify it. The todo list's handlers are methods of a class whose fields are the component's state.

The clock, the bcrypt salt and the signing secret are parameters. Parsing a body either yields the six string fields or fails with a message.

## Model

| member | source | states |
|---|---|---|
| Http.ErrorResponse | src/commons/utils.js:5-7 | `createErrorResponse(message, status)` answers with that status, a body holding only the message as `error`, and no cookie |
| Js.TrimEmptyIffBlank | src/app/page.js:15 | `s.trim() !== ''` holds exactly when `s` has a character outside JavaScript's white space |
| Hasher.HashPassword | src/app/api/signup/route.js:73 | a missing password makes hashing throw; any string is hashed under the given salt |
| Hasher.Compare | src/app/api/signin/route.js:22 | compare is true exactly against a bcrypt hash of the candidate; a value stored in the clear never matches; a missing stored password throws bcrypt's missing-hash error |
| Hasher.CompareHash | src/app/api/signin/route.js:22 | a password matches its own hash under any salt, and no other password matches that hash |
| Store.CredentialStore.FindOne | src/app/api/signin/route.js:16 | `findOne({ email })` fails exactly during an outage; otherwise it finds a user exactly when one is filed under the email, and that user carries the email |
| Store.CredentialStore.FindAll | src/app/api/user/route.js:30 | `find({})` fails exactly during an outage; otherwise it returns exactly the stored users |
| Store.CredentialStore.Create | src/app/api/signup/route.js:74-77 | create fails with the outage's message or with code 11000 on an email already stored, writing nothing; otherwise it files the document under its email with a fresh `_id`, keeping the index invariant |
| Validation.EmailAcceptedIffRegex | src/commons/utils.js:20 | `^[^\s@]+@[^\s@]+\.[^\s@]+$` matches exactly the strings with no white space, exactly one `@` with something before it, and a `.` after it that is neither first nor last in the domain part |
| Validation.ValidateUserInput | src/commons/utils.js:15-23 | returns nothing exactly for five truthy fields and an acceptable email; a missing field gives 400 'All fields are required' even when the email is also bad; otherwise a bad email gives 400 'Invalid email format' |
| Validation.ValidateOrThrow | src/app/api/user/route.js:17-25 | the throwing copy returns normally exactly when the helper returns nothing, and otherwise throws one of the two messages, the same one the helper would answer with |
| Validation.LogintypeIgnored | src/commons/utils.js:16 | changing `logintype` never changes either validation result |
| Jwt.DecodeEncodePayload | src/commons/utils.js:27-29 | the payload segment decodes back to the claims, `iat` and `exp` it was made from |
| Jwt.Sign | src/commons/utils.js:25-33 | a signed token has three base64url segments: header `{alg: HS256, typ: JWT}`, the claims with `iat` = signing time and `exp` = `iat` + 7200, and the MAC of the first two under the secret |
| Jwt.Verify | src/commons/utils.js:35-39 | a missing token, or one that does not split into three parts, throws; a payload is returned only from a three-part token whose header says HS256, whose signature is the secret's MAC of its first two segments, and whose payload segment decodes to that payload, and only before its `exp` |
| Jwt.VerifySigned | src/commons/utils.js:25-39 | verifying a signed token before `exp` returns exactly its claims with `iat` and `exp` |
| Jwt.ExpiredAfterLifetime | src/commons/utils.js:29-37 | from `iat` + 7200 seconds on, verifying the same token throws `Expired` |
| Jwt.WrongSecretRejected | src/commons/utils.js:36-37 | under a secret whose MAC differs on the signing input, the signature check throws |
| Jwt.BearerPrefixRejected | src/middleware.js:9-10 | `Bearer <anything>` is never a compact JWS: verification throws |
| Gate.AwaitVerify | src/middleware.js:10 | the awaited `verifyJWT` value is never falsy: it is the payload when verification returns, an exception otherwise |
| Gate.OnVerification | src/middleware.js:12-20 | a falsy value, and only that, gives 401 'Authentication required'; an exception, and only that, propagates; a payload, and only that, forwards with no identity attached |
| Gate.Middleware | src/middleware.js:4-21 | the three exact public paths are forwarded; any other path is forwarded exactly when the raw header verifies, and otherwise throws the verifier's error; the 401 is never produced |
| Gate.Matches | src/middleware.js:23-25 | `/api/:path*` matches only paths that begin with `/api`, continue with `/` if they continue at all, and contain no `?`, `#` or empty segment |
| Gate.Handle | src/middleware.js:23-25 | paths outside `/api/:path*` are never gated, in particular any path not beginning with `/api`; matched paths get the middleware's decision |
| Gate.BearerHeaderThrows | src/middleware.js:9-10 | a gated request carrying the client's `Bearer <token>` header throws, even for a freshly signed token |
| Gate.RawTokenForwarded | src/middleware.js:9-20 | the same token sent raw is forwarded until it expires |
| Gate.MissingHeaderThrows | src/middleware.js:9-10 | a gated request without `authorization` throws rather than getting the 401 |
| Gate.PublicIsExact | src/middleware.js:7-8 | `/api/public/x` and `/api/user` are gated, `/api/signup` is public, `/login` is never matched |
| SignInRoute.Post | src/app/api/signin/route.js:7-36 | 400 exactly for a falsy email or password; 404 exactly for an unknown email; 401 exactly for a wrong password; 200 exactly when the password matches, with the stored user, a token verifying to its id and email, and the same token in an HTTP-only `token` cookie; every other failure is the generic 500; the store is only read |
| SignInRoute.HashedPasswordSignsIn | src/app/api/signin/route.js:22-31 | a user whose stored hash was made from a password signs in with that password and receives a token over its own id and email |
| SignInRoute.WrongPasswordRefused | src/app/api/signin/route.js:22-25 | any other password gets 401 'Invalid credentials' |
| SignUpRoute.CheckExistingUser | src/app/api/signup/route.js:60-63 | finds a user exactly when one is filed under the email with the same logintype and that logintype is 'google'; fails exactly during an outage |
| SignUpRoute.HandleExistingUser | src/app/api/signup/route.js:65-70 | 200 with the user and a token verifying to its id and email, set in a `token` cookie that is not HTTP-only |
| SignUpRoute.HandleNewUser | src/app/api/signup/route.js:80-88 | 201 with the user; a token and a (non-HTTP-only) `token` cookie exactly for a 'google' sign-up |
| SignUpRoute.SignUpError | src/app/api/signup/route.js:45-51 | code 11000 gives exactly 400 'User already exists with these credentials'; anything else is a 500 carrying the error's message, or 'Internal Server Error' when that is empty |
| SignUpRoute.CreateNewUser | src/app/api/signup/route.js:72-78 | a missing password throws and writes nothing; otherwise the stored record is the input with the password replaced by its hash, unless the store fails or the email is taken |
| SignUpRoute.Post | src/app/api/signup/route.js:30-58 | a returning Google user is signed in with the store unchanged; other requests create the user (201 exactly when hashing and creating succeed, with the new store stated); duplicates give 400 and leave the store alone; validation plays no part |
| UserRoute.WithoutPassword | src/app/api/user/route.js:55 | the user shown has no password and agrees with the stored one in every other field |
| UserRoute.Get | src/app/api/user/route.js:27-36 | 200 exactly when the store answers, listing exactly the stored users with passwords excluded; otherwise 500 'Internal Server Error' |
| UserRoute.PostError | src/app/api/user/route.js:58-68 | code 11000 gives exactly 400 'Duplicate entry found' (checked first); either validation message gives 400 with that message; exactly the rest give 500 'Internal Server Error' |
| UserRoute.Post | src/app/api/user/route.js:38-69 | invalid input is answered with its validation message before the store is touched; otherwise the user is saved with the password as given and no logintype, and the 201 shows it without password; duplicates and failures write nothing |
| UserRoute.Middleware | src/app/api/user/route.js:71-86 | no `token` cookie gives 401 'Unauthorized'; a cookie that fails verification gives 401 'Invalid token'; otherwise the request is forwarded with the decoded payload attached; nothing is thrown |
| UserRoute.SignInCookieAccepted | src/app/api/user/route.js:78-81 | the cookie sign-in sets passes this check until it expires, attaching the signed claims |
| UserRoute.CreatedUserCannotSignIn | src/app/api/user/route.js:46-52 | a user created through this route, its password stored in the clear, is refused at sign-in even with that very password |
| Todo.Filtered | src/app/page.js:22 | removing position `index` leaves the items before and after it in order; an index off the list leaves the list as it is |
| Todo.Mapped | src/app/page.js:34-36 | the item at the remembered position is replaced when that position is on the list; otherwise the list is unchanged, a `null` position included |
| Todo.TodoList.constructor | src/app/page.js:8-12 | the initial state: no items, empty buffers, not editing, no position |
| Todo.TodoList.Type | src/app/page.js:67-68 | typed text goes to the edit buffer while editing, to the new-item buffer otherwise; nothing else changes |
| Todo.TodoList.AddTodo | src/app/page.js:14-19 | a non-blank entry is appended untrimmed and the buffer cleared; a blank one changes nothing; editing state is untouched |
| Todo.TodoList.RemoveTodo | src/app/page.js:21-24 | the list loses exactly the item at the index (one shorter when the index is on the list); the remembered edit position is kept |
| Todo.TodoList.EditTodo | src/app/page.js:26-30 | editing starts with that item in the buffer and its position remembered; the list is unchanged |
| Todo.TodoList.UpdateTodo | src/app/page.js:32-42 | a non-blank edit replaces the item at the remembered position and ends editing (buffer '' and position null); a blank edit changes nothing and stays in editing; the length never changes |
| Todo.TodoList.Submit | src/app/page.js:72 | the button updates while editing and adds otherwise |
| Todo.RemoveBeforeEditShiftsUpdate | src/app/page.js:21-37 | after removing an item above the one being edited, saving the edit leaves the edited item as it was and overwrites the item after it |
| Todo.EditAfterRemoval | src/app/page.js:14-42 | with items a, b, c: editing b, removing a and saving 'z' yields [b, z] |
| Scenarios.FreshSignUpSignsIn | src/app/api/signup/route.js:72-88 | for every store that is up, every fresh non-empty email and every non-empty password, sign-up answers 201 and files the bcrypt hash under the email, and signing in with that email and password then answers 200 with the new user and a token whose claims are its id and that email |
| Scenarios.SignUpThenSignIn | src/app/api/signup/route.js:72-88 | a local sign-up stores the hash, gets 201 without token, and the same password then signs in with a token for id 0 and that email |
| Scenarios.SignUpThenFailedSignIns | src/app/api/signin/route.js:16-25 | after that sign-up, a wrong password gets 401 and an unknown email gets 404 |
| Scenarios.SignUpTwice | src/app/api/signup/route.js:47-49 | signing up the same email twice gives 400 and keeps one record |
| Scenarios.InvalidInputStored | src/app/api/signup/route.js:56 | input the validator refuses is still stored with 201 |
| Scenarios.GoogleSignUpTwice | src/app/api/signup/route.js:35-39 | a second Google sign-up signs the same user in with 200, and the store keeps one record |
| Scenarios.TokenThroughGate | src/middleware.js:9-10 | the token sign-in issues passes the gate sent raw and makes it throw sent as `Bearer <token>` |

Where the code and the system's own description differ, the model follows the code:
- response bodies carry no `status: true/false` flag;
- sign-in and sign-up return the whole user document, password hash included;
- `verifyJWT` throws rather than returning a tagged result;
- sign-up discards the validation result.

## Left out

- Request bodies whose fields are not strings (numbers, objects, arrays) are not modelled: each field is a string or absent, and JavaScript truthiness is judged on that.
- Token bytes: the segments of a token are spelled in a prefix-free digit code over the base64url alphabet instead of base64url-encoded UTF-8 JSON. The model keeps what verification relies on: round trips and no `.` inside a segment. The model refuses a segment with a character outside the alphabet outright. The real decoder drops white space first, so a segment with white space may be accepted there (in the signature segment it then compares the MAC bytes as usual) where the model refuses it; in the header segment of a `Bearer `-prefixed value it still fails, because the bytes are not a JSON header.
- HMAC-SHA-256 and bcrypt are not computed. The MAC is an uninterpreted function of secret and input. A bcrypt hash is a symbolic value that records its salt and its password.
- Jwt.Verify: only HS256 headers are accepted, although `jwtVerify` would also accept HS384 and HS512 under the same secret (`jwtSign` issues only HS256). The `nbf` claim, the `typ` header and clock tolerance are not modelled.
- Hasher.HashPassword: bcrypt's cost factor is not modelled. The `hashPassword` wrapper in src/commons/hashPassword.js is not part of this model; it is assumed to pass the password to `bcrypt.hash` unchanged, so that a missing password throws bcrypt's missing-argument error.
- Hasher.Compare: a password stored in the clear never matches here. Real bcrypt does match when that stored text is itself a bcrypt hash string, for example a hash submitted as the password to `POST /api/user`. bcrypt's 72-byte truncation is not modelled either: two passwords that agree in their first 72 bytes match the same hash in bcrypt but not here, unlike what Hasher.CompareHash states.
- Jwt.BearerPrefixRejected: the model refuses `Bearer <token>` for the space, which is outside the base64url alphabet. jose drops the space and then fails to parse the header segment as JSON. Both end in the same invalid-compact-JWS error.
- `commons/hashPassword.js` and the `User` schema (`modals/users`) are not part of this model. Of the schema, only the unique email index is assumed.
- An unset `JWT_SECRET` (the secret is a parameter), `connectDB` and its `process.exit`, logging, and `async` interleaving of concurrent requests are left out. Requests run one at a time.
- Store.CredentialStore.FindOne: MongoDB's treatment of an `undefined` query value is modelled as a lookup of the `null` email. Documents stored without an email share that one key under the unique index.
- Gate.Handle: Next.js's trailing-slash normalisation of `pathname` and percent-decoding are not modelled. The matcher is read on the path as given.
- Gate.OnVerification keeps the 401 branch for a falsy verification value. No verification result reaches it (Gate.AwaitVerify).
- UserRoute.Middleware is modelled as written, but the framework never calls it: only `middleware.js` at the project root is run as middleware.
- Todo.TodoList.EditTodo requires an index on the list. The page only calls it from the Edit button of a rendered item; `todos[index]` off the list (`undefined`) is not modelled.
- Rendering, `logout` (`deleteCookie`, `router.push`), the login and sign-up pages, and the axios client (beyond its `Bearer ` prefix) are left out as user interface and I/O.
