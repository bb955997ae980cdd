/** The token service of `commons/utils.js`: `jwtSign` issues an HS256 JSON
    Web Token (RFC 7519) whose payload is the given claims plus `iat` and an
    `exp` two hours later, and `verifyJWT` hands back the payload of a token
    whose signature and expiry check out, throwing otherwise. The clock and
    the secret are parameters; HMAC-SHA-256 is the uninterpreted `mac`. */
module Jwt {
  import opened Js
  import opened Segment

  /** The signing secret, `process.env.JWT_SECRET`. */
  type Secret = string

  /** HMAC-SHA-256 under a secret, over a signing input. */
  type Mac = (Secret, string) -> string

  /** `setExpirationTime('2h')`, in seconds. */
  const Lifetime: nat := 7200

  /** The JOSE protected header. */
  datatype Header = Header(alg: string, typ: string)

  /** `setProtectedHeader({ alg: 'HS256', typ: 'JWT' })`. */
  const SignedHeader: Header := Header("HS256", "JWT")

  /** The claims every caller signs: `{ id: user._id, email: user.email }`. */
  datatype Claims = Claims(id: nat, email: Field)

  /** A token payload: the claims plus `iat` and `exp`, in seconds. */
  datatype Payload = Payload(claims: Claims, iat: nat, exp: nat)

  /** What `jwtVerify` throws: a token that is not a three-part compact JWS
      or does not decode, an algorithm other than HS256, a signature that
      does not match, an undecodable claims set, and an expired token. */
  datatype JoseError =
    | InvalidCompactJws
    | AlgorithmNotAllowed
    | SignatureVerificationFailed
    | InvalidClaims
    | Expired

  /** The outcome of `await verifyJWT(token)`: the payload, or an exception. */
  datatype Verified = Returned(payload: Payload) | Threw(error: JoseError)

  function EncodeHeader(h: Header): (s: string)
    ensures IsBase64Url(s)
  {
    EncodeText(h.alg) + EncodeText(h.typ)
  }

  function DecodeHeader(s: string): Option<Header> {
    match DecodeText(s)
    case None => None
    case Some((alg, rest)) =>
      match DecodeText(rest)
      case None => None
      case Some((typ, tail)) => if tail == [] then Some(Header(alg, typ)) else None
  }

  lemma DecodeEncodeHeader(h: Header)
    ensures DecodeHeader(EncodeHeader(h)) == Some(h)
  {
    DecodeEncodeText(h.alg, EncodeText(h.typ));
    DecodeEncodeText(h.typ, []);
    assert EncodeText(h.typ) + [] == EncodeText(h.typ);
  }

  function EncodeEmail(email: Field): (s: string)
    ensures IsBase64Url(s)
  {
    match email
    case None => EncodeNat(0)
    case Some(e) => EncodeNat(1) + EncodeText(e)
  }

  function DecodeEmail(s: string): Option<Field> {
    match DecodeNat(s)
    case None => None
    case Some((tag, rest)) =>
      if tag == 0 then (if rest == [] then Some(None) else None)
      else if tag == 1 then
        match DecodeText(rest)
        case None => None
        case Some((e, tail)) => if tail == [] then Some(Some(e)) else None
      else None
  }

  function EncodePayload(p: Payload): (s: string)
    ensures IsBase64Url(s)
  {
    EncodeNat(p.claims.id) + EncodeNat(p.iat) + EncodeNat(p.exp) + EncodeEmail(p.claims.email)
  }

  function DecodePayload(s: string): Option<Payload> {
    match DecodeNat(s)
    case None => None
    case Some((id, r1)) =>
      match DecodeNat(r1)
      case None => None
      case Some((iat, r2)) =>
        match DecodeNat(r2)
        case None => None
        case Some((exp, r3)) =>
          match DecodeEmail(r3)
          case None => None
          case Some(email) => Some(Payload(Claims(id, email), iat, exp))
  }

  lemma DecodeEncodeEmail(email: Field)
    ensures DecodeEmail(EncodeEmail(email)) == Some(email)
  {
    match email {
      case None =>
        DecodeEncodeNat(0, []);
        assert EncodeNat(0) + [] == EncodeNat(0);
      case Some(t) =>
        DecodeEncodeNat(1, EncodeText(t));
        DecodeEncodeText(t, []);
        assert EncodeText(t) + [] == EncodeText(t);
    }
  }

  lemma DecodeEncodePayload(p: Payload)
    ensures DecodePayload(EncodePayload(p)) == Some(p)
  {
    var e := EncodeEmail(p.claims.email);
    var r2 := EncodeNat(p.exp) + e;
    var r1 := EncodeNat(p.iat) + r2;
    assert EncodePayload(p) == EncodeNat(p.claims.id) + r1;
    DecodeEncodeNat(p.claims.id, r1);
    DecodeEncodeNat(p.iat, r2);
    DecodeEncodeNat(p.exp, e);
    DecodeEncodeEmail(p.claims.email);
  }

  /** The signature segment carries the MAC's output as text. */
  function DecodeSignature(s: string): Option<string> {
    match DecodeText(s)
    case None => None
    case Some((signature, tail)) => if tail == [] then Some(signature) else None
  }

  /** The header and payload segments of the token `jwtSign` issues for
      `claims` at time `iat`: the input its MAC is computed over. */
  function SigningInput(claims: Claims, iat: nat): string {
    EncodeHeader(SignedHeader) + "." + EncodePayload(Payload(claims, iat, iat + Lifetime))
  }

  /** `jwtSign(claims)` run at time `now` (whole seconds): three base64url
      segments, namely the header `{ alg: 'HS256', typ: 'JWT' }`, the claims
      with `iat` the signing time and `exp` two hours later, and the MAC of
      the first two under the secret. */
  function Sign(claims: Claims, now: nat, secret: Secret, mac: Mac): (t: string)
    ensures var parts := Split(t);
      && |parts| == 3
      && IsBase64Url(parts[0]) && IsBase64Url(parts[1]) && IsBase64Url(parts[2])
      && DecodeHeader(parts[0]) == Some(SignedHeader)
      && DecodePayload(parts[1]) == Some(Payload(claims, now, now + Lifetime))
      && parts[0] + "." + parts[1] == SigningInput(claims, now)
      && DecodeSignature(parts[2]) == Some(mac(secret, SigningInput(claims, now)))
  {
    var h, p := EncodeHeader(SignedHeader), EncodePayload(Payload(claims, now, now + Lifetime));
    var tag := mac(secret, h + "." + p);
    var sig := EncodeText(tag);
    NoDot(h);
    NoDot(p);
    NoDot(sig);
    SplitJoin(h, p, sig);
    DecodeEncodeHeader(SignedHeader);
    DecodeEncodePayload(Payload(claims, now, now + Lifetime));
    DecodeEncodeText(tag, []);
    assert sig + [] == sig;
    h + "." + p + "." + sig
  }

  /** `verifyJWT(token)` run at time `now`; `None` stands for a missing token
      (the `null` of an absent header), which `jwtVerify` refuses as it
      refuses any non-string. */
  function Verify(token: Option<string>, now: nat, secret: Secret, mac: Mac): (r: Verified)
    ensures token.None? ==> r == Threw(InvalidCompactJws)
    ensures token.Some? && |Split(token.value)| != 3 ==> r == Threw(InvalidCompactJws)
    ensures r.Returned? ==> token.Some? && var parts := Split(token.value);
      && |parts| == 3
      && DecodeHeader(parts[0]).Some? && DecodeHeader(parts[0]).value.alg == "HS256"
      && DecodeSignature(parts[2]) == Some(mac(secret, parts[0] + "." + parts[1]))
      && DecodePayload(parts[1]) == Some(r.payload)
    ensures r.Returned? ==> now < r.payload.exp
  {
    if token.None? then Threw(InvalidCompactJws)
    else
      var parts := Split(token.value);
      if |parts| != 3 || !IsBase64Url(parts[0]) || !IsBase64Url(parts[1]) || !IsBase64Url(parts[2]) then
        Threw(InvalidCompactJws)
      else
        match DecodeHeader(parts[0])
        case None => Threw(InvalidCompactJws)
        case Some(header) =>
          if header.alg != "HS256" then Threw(AlgorithmNotAllowed)
          else
            match DecodeSignature(parts[2])
            case None => Threw(InvalidCompactJws)
            case Some(signature) =>
              if signature != mac(secret, parts[0] + "." + parts[1]) then Threw(SignatureVerificationFailed)
              else
                match DecodePayload(parts[1])
                case None => Threw(InvalidClaims)
                case Some(payload) => if payload.exp <= now then Threw(Expired) else Returned(payload)
  }

  /** `verifyJWT(jwtSign(claims))` gives back the claims with their `iat`
      and `exp` at any time before `exp`, earlier than `iat` included. */
  lemma VerifySigned(claims: Claims, iat: nat, now: nat, secret: Secret, mac: Mac)
    requires now < iat + Lifetime
    ensures Verify(Some(Sign(claims, iat, secret, mac)), now, secret, mac) == Returned(Payload(claims, iat, iat + Lifetime))
  {
  }

  /** From two hours after signing on, the same token makes `verifyJWT`
      throw. */
  lemma ExpiredAfterLifetime(claims: Claims, iat: nat, now: nat, secret: Secret, mac: Mac)
    requires now >= iat + Lifetime
    ensures Verify(Some(Sign(claims, iat, secret, mac)), now, secret, mac) == Threw(Expired)
  {
  }

  /** A token signed under one secret is refused under another, whenever the
      MAC tells the two secrets apart on its signing input. */
  lemma WrongSecretRejected(claims: Claims, iat: nat, now: nat, secret: Secret, other: Secret, mac: Mac)
    requires mac(other, SigningInput(claims, iat)) != mac(secret, SigningInput(claims, iat))
    ensures Verify(Some(Sign(claims, iat, secret, mac)), now, other, mac) == Threw(SignatureVerificationFailed)
  {
  }

  /** `Bearer <token>`, which the client sends, makes `verifyJWT` throw: the
      header segment then begins with `Bearer `, which is not the encoding
      of a protected header, so the token is refused as an invalid compact
      JWS. Here the space alone already rules it out. */
  lemma BearerPrefixRejected(token: string, now: nat, secret: Secret, mac: Mac)
    ensures Verify(Some("Bearer " + token), now, secret, mac) == Threw(InvalidCompactJws)
  {
    var prefix := "Bearer ";
    assert '.' !in prefix;
    SplitAfterDotFree(prefix, token);
    var first := Split(prefix + token)[0];
    assert first == prefix + Split(token)[0];
    assert first[6] == ' ' && DigitValue(' ').None?;
    assert !IsBase64Url(first);
  }
}
