/** The user collection. The document store is not modelled beyond what the
    handlers rely on: users in insertion order, ids assigned by the store,
    a unique index on the username, and a schema check before insertion. */
module Users {
  import opened Base
  import opened Tokens

  /** A stored user document: `_id`, `username` and the bcrypt hash. */
  datatype User = User(id: UserId, username: string, passwordHash: string)

  /** The collection in insertion order; the store assigns the next id. */
  type UserStore = seq<User>

  /** Ids are the insertion positions and no two users share a username. */
  ghost predicate WellFormed(users: UserStore)
  {
    && (forall i :: 0 <= i < |users| ==> users[i].id == i)
    && (forall i, j :: 0 <= i < j < |users| ==> users[i].username != users[j].username)
  }

  ghost predicate Taken(users: UserStore, name: string)
  {
    exists i :: 0 <= i < |users| && users[i].username == name
  }

  /** `User.findOne({ username })`: the first user with that name. */
  function FindByUsername(users: UserStore, name: string): (r: Option<User>)
    ensures r.Some? <==> Taken(users, name)
    ensures r.Some? ==> r.value in users && r.value.username == name
    decreases |users|
  {
    if |users| == 0 then None
    else if users[0].username == name then Some(users[0])
    else
      var r := FindByUsername(users[1..], name);
      assert Taken(users, name) ==> Taken(users[1..], name) by {
        if Taken(users, name) {
          var i :| 0 <= i < |users| && users[i].username == name;
          assert users[1..][i - 1] == users[i];
        }
      }
      r
  }

  /** In a well-formed store the user found by name is the only one. */
  lemma FoundByUsernameIsUnique(users: UserStore, name: string, i: nat)
    requires WellFormed(users)
    requires i < |users| && users[i].username == name
    ensures FindByUsername(users, name) == Some(users[i])
  {

  }

  /** The error a store operation raises: Mongo's numeric `code`, which
      schema errors lack, the error's `name` and its `message`. */
  datatype StoreError = StoreError(code: Option<int>, name: string, message: string)

  /** MongoDB's duplicate-key error code, raised by the unique index. */
  const DuplicateKeyCode: int := 11000

  /** The user schema's validation: a message when it rejects the fields.
      The schema itself (models/User.js) is not part of this model. */
  type Schema = (string, string) -> Option<string>

  /** `User.create({ username, password })`: the schema runs first, then the
      unique index on the username, then the document is appended. */
  function Create(users: UserStore, username: string, passwordHash: string, schema: Schema)
    : (r: Result<(User, UserStore), StoreError>)
    ensures r.Success? <==> schema(username, passwordHash).None? && !Taken(users, username)
    ensures r.Success? ==>
      && r.value.0 == User(|users|, username, passwordHash)
      && r.value.1 == users + [r.value.0]
    ensures r.Failure? && schema(username, passwordHash).Some? ==>
      r.error.name == "ValidationError" && r.error.code.None?
    ensures r.Failure? && schema(username, passwordHash).None? ==>
      r.error.code == Some(DuplicateKeyCode)
  {
    match schema(username, passwordHash)
    case Some(msg) => Failure(StoreError(None, "ValidationError", msg))
    case None =>
      if FindByUsername(users, username).Some? then
        Failure(StoreError(Some(DuplicateKeyCode), "MongoServerError", "E11000 duplicate key error"))
      else
        var u := User(|users|, username, passwordHash);
        Success((u, users + [u]))
  }

  /** A successful insertion keeps ids and usernames well-formed. */
  lemma CreatePreservesWellFormed(users: UserStore, username: string, passwordHash: string, schema: Schema)
    requires WellFormed(users)
    requires Create(users, username, passwordHash, schema).Success?
    ensures WellFormed(Create(users, username, passwordHash, schema).value.1)
  {

  }

  /** `User.findById(id)`: the user with that id, if any. */
  function FindById(users: UserStore, id: UserId): (r: Option<User>)
    ensures r.Some? ==> r.value in users && r.value.id == id
    ensures r.None? ==> forall i :: 0 <= i < |users| ==> users[i].id != id
    decreases |users|
  {
    if |users| == 0 then None
    else if users[0].id == id then Some(users[0])
    else
      var r := FindById(users[1..], id);
      assert forall i :: 1 <= i < |users| ==> users[i] == users[1..][i - 1];
      r
  }
}
