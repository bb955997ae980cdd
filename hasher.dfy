/** The password hasher as the handlers use it: `HashPassword` (bcrypt's
    `hash` with a fresh salt) and bcrypt's `compare`. The hash is an ideal
    one: a stored hash records its salt and, symbolically, the text it was
    computed from, and only `Compare` looks inside it. */
module Hasher {
  import opened Js

  /** The `password` field of a stored user: a bcrypt hash string, or the
      text exactly as a caller supplied it when no hashing took place. */
  datatype StoredPassword = Plain(text: string) | Bcrypt(salt: nat, of: string)

  /** The message bcrypt's `hash` throws when it is given no data. */
  const MissingArgument: string := "data and salt arguments required"

  /** The message bcrypt's `compare` throws when it is given no hash. */
  const MissingHash: string := "data and hash arguments required"

  /** `HashPassword(password)` with the random salt passed in: a missing
      password makes bcrypt throw; any string, the empty one included, is
      hashed. */
  function HashPassword(password: Field, salt: nat): (r: Result<StoredPassword>)
    ensures r.Ok? <==> password.Some?
    ensures r.Ok? ==> r.value == Bcrypt(salt, password.value)
    ensures r.Err? ==> r.error.code == None && r.error.message != ""
  {
    match password
    case None => Err(Error(None, MissingArgument))
    case Some(p) => Ok(Bcrypt(salt, p))
  }

  /** `bcrypt.compare(candidate, stored)`: true exactly for the text the hash
      was made from; a value stored in the clear matches nothing;
      a missing stored value makes bcrypt throw. */
  function Compare(candidate: string, stored: Option<StoredPassword>): (r: Result<bool>)
    ensures r.Err? <==> stored.None?
    ensures r.Err? ==> r.error == Error(None, MissingHash)
    ensures r == Ok(true) <==> exists salt :: stored == Some(Bcrypt(salt, candidate))
  {
    match stored
    case None => Err(Error(None, MissingHash))
    case Some(Plain(_)) => Ok(false)
    case Some(Bcrypt(_, text)) => Ok(text == candidate)
  }

  /** What bcrypt promises: comparing a password with its own hash succeeds,
      whatever the salt, and comparing any other password with it fails. */
  lemma CompareHash(candidate: string, password: string, salt: nat)
    ensures Compare(candidate, Some(HashPassword(Some(password), salt).value)) == Ok(candidate == password)
  {
  }
}
