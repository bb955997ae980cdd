/** The credential store: the MongoDB `User` collection as the route
    handlers see it. The one schema rule relied on is a unique index on
    `email`; a document without an email is indexed under `null`, so the
    map is keyed by the email field itself, absent included. */
module Store {
  import opened Js
  import opened Hasher

  /** A stored user document; `id` is the `_id` the store assigns. */
  datatype User = User(
    id: nat,
    firstname: Field,
    lastname: Field,
    username: Field,
    email: Field,
    password: Option<StoredPassword>,
    logintype: Field)

  /** The error code MongoDB reports for a unique-index violation. */
  const DuplicateKeyCode: int := 11000

  const DuplicateKey: Error := Error(Some(DuplicateKeyCode), "E11000 duplicate key error collection: users index: email_1")

  /** Every user is filed under its own email, every `_id` was handed out
      before `nextId`, and no two users share an `_id`. */
  ghost predicate Indexed(users: map<Field, User>, nextId: nat) {
    && (forall e :: e in users ==> users[e].email == e && users[e].id < nextId)
    && (forall e, f :: e in users && f in users && users[e].id == users[f].id ==> e == f)
  }

  class CredentialStore {
    var users: map<Field, User>
    var nextId: nat
    /** `Some(m)` while the database is failing: every operation then throws
        an error with message `m`. */
    var outage: Option<string>

    ghost predicate Valid()
      reads this
    {
      Indexed(users, nextId)
    }

    constructor (outage: Option<string>)
      ensures Valid()
      ensures users == map[] && nextId == 0 && this.outage == outage
    {
      users := map[];
      nextId := 0;
      this.outage := outage;
    }

    /** `User.findOne({ email })`. */
    function FindOne(email: Field): (r: Result<Option<User>>)
      requires Valid()
      reads this
      ensures r.Err? <==> outage.Some?
      ensures r.Ok? ==> (r.value.Some? <==> email in users)
      ensures r.Ok? && r.value.Some? ==> r.value.value == users[email] && r.value.value.email == email
      ensures r.Err? ==> r.error == Error(None, outage.value)
    {
      match outage
      case Some(m) => Err(Error(None, m))
      case None => if email in users then Ok(Some(users[email])) else Ok(None)
    }

    /** `User.find({})`: every stored user. */
    function FindAll(): (r: Result<set<User>>)
      reads this
      ensures r.Err? <==> outage.Some?
      ensures r.Ok? ==> forall u :: u in r.value <==> exists e :: e in users && users[e] == u
    {
      match outage
      case Some(m) => Err(Error(None, m))
      case None => Ok(set e | e in users :: users[e])
    }

    /** `User.create(doc)` / `new User(doc).save()`: the store assigns the
        `_id`; a second user with an email already present violates the
        unique index and nothing is written. */
    method Create(doc: User) returns (r: Result<User>)
      requires Valid()
      modifies this
      ensures Valid() && outage == old(outage)
      ensures old(outage).Some? ==>
        r == Err(Error(None, old(outage).value)) && users == old(users) && nextId == old(nextId)
      ensures old(outage).None? && doc.email in old(users) ==>
        r == Err(DuplicateKey) && users == old(users) && nextId == old(nextId)
      ensures old(outage).None? && doc.email !in old(users) ==>
        && r == Ok(doc.(id := old(nextId)))
        && users == old(users)[doc.email := r.value]
        && nextId == old(nextId) + 1
    {
      if outage.Some? {
        return Err(Error(None, outage.value));
      }
      if doc.email in users {
        return Err(DuplicateKey);
      }
      var user := doc.(id := nextId);
      users := users[doc.email := user];
      nextId := nextId + 1;
      r := Ok(user);
    }
  }
}
