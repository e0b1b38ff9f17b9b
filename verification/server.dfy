/** The server as a whole: each request is handled on its own, from the
    request and the two collections to a reply and the new collections. */
module Server {
  import opened Base
  import opened Tokens
  import Users
  import Posts
  import opened Http
  import opened Auth
  import Listing
  import opened PostHandlers

  datatype State = State(users: Users.UserStore, posts: Posts.PostStore)

  /** The foreign collaborators: JWT verification, bcrypt, the user schema. */
  datatype Env = Env(verify: Verifier, hash: Hasher, matches: Comparer, schema: Users.Schema)

  /** One request to one route. The fault fields stand for errors the store,
      the hasher or the token signer raises on its own; `now` is the
      creation timestamp. */
  datatype Request =
    | RegisterRequest(creds: Credentials, registerFault: Option<Users.StoreError>, signFault: bool)
    | LoginRequest(login: Credentials, loginFault: bool)
    | ProfileRequest(cookie: Option<Token>)
    | LogoutRequest
    | CreatePostRequest(create: CreateRequest, now: int, createFault: bool)
    | ListPostsRequest(listFault: bool)
    | GetPostRequest(id: Posts.IdField, getFault: bool)
    | UpdatePostRequest(update: UpdateRequest, findFault: bool, saveFault: bool)

  function Step(env: Env, s: State, req: Request): (Outcome, State)
  {
    match req
    case RegisterRequest(creds, fault, signFault) =>
      var (resp, users') := Register(s.users, creds, env.hash, env.schema, fault, signFault);
      (Reply(resp), s.(users := users'))
    case LoginRequest(creds, fault) =>
      (Reply(Login(s.users, creds, env.matches, fault)), s)
    case ProfileRequest(cookie) =>
      (Profile(env.verify, cookie), s)
    case LogoutRequest =>
      (Reply(Logout()), s)
    case CreatePostRequest(create, now, fault) =>
      var (out, posts') := CreatePost(s.posts, create, env.verify, now, fault);
      (out, s.(posts := posts'))
    case ListPostsRequest(fault) =>
      (Listing.ListRecent(s.users, s.posts, fault), s)
    case GetPostRequest(id, fault) =>
      (GetPost(s.users, s.posts, id, fault), s)
    case UpdatePostRequest(update, findFault, saveFault) =>
      var (resp, posts') := UpdatePost(s.posts, update, env.verify, findFault, saveFault);
      (Reply(resp), s.(posts := posts'))
  }

  /** Handles the requests one after another. */
  function Run(env: Env, s: State, reqs: seq<Request>): State
    decreases |reqs|
  {
    if |reqs| == 0 then s else Run(env, Step(env, s, reqs[0]).1, reqs[1..])
  }

  ghost predicate WellFormed(s: State)
  {
    Users.WellFormed(s.users) && Posts.WellFormed(s.posts)
  }

  /** Every post of `s` is still in `s'` with the same id, author and
      creation time. */
  ghost predicate AuthorsKept(s: State, s': State)
  {
    && |s.posts| <= |s'.posts|
    && forall i :: 0 <= i < |s.posts| ==>
         && s'.posts[i].id == s.posts[i].id
         && s'.posts[i].author == s.posts[i].author
         && s'.posts[i].createdAt == s.posts[i].createdAt
  }

  /** One request keeps the collections well-formed and no post changes
      author. */
  lemma {:induction false} StepPreserves(env: Env, s: State, req: Request)
    requires WellFormed(s)
    ensures WellFormed(Step(env, s, req).1)
    ensures AuthorsKept(s, Step(env, s, req).1)
  {
    match req
    case RegisterRequest(creds, fault, signFault) =>
      RegisterPreservesWellFormed(s.users, creds, env.hash, env.schema, fault, signFault);
    case CreatePostRequest(create, now, fault) =>
      PostHandlers.CreatePreservesWellFormed(s.posts, create, env.verify, now, fault);
      var posts' := Step(env, s, req).1.posts;
      assert forall i :: 0 <= i < |s.posts| ==> posts'[i] == posts'[..|s.posts|][i];
    case UpdatePostRequest(update, findFault, saveFault) =>
      UpdateKeepsAuthors(s.posts, update, env.verify, findFault, saveFault);
    case _ =>
  }

  /** Only an update whose token verifies as a post's author changes that
      post; every other request leaves the stored posts as they were. */
  lemma {:induction false} OnlyAuthorChangesPost(env: Env, s: State, req: Request, i: nat)
    requires WellFormed(s)
    requires i < |s.posts|
    requires Step(env, s, req).1.posts[i] != s.posts[i]
    ensures req.UpdatePostRequest?
    ensures Authenticate(env.verify, req.update.token).Some?
    ensures Authenticate(env.verify, req.update.token).value.id == s.posts[i].author
    ensures req.update.id == Posts.Given(i)
  {
    StepPreserves(env, s, req);
    match req
    case UpdatePostRequest(update, findFault, saveFault) =>
      NonAuthorChangesNothing(s.posts, update, env.verify, findFault, saveFault);
    case _ =>
  }

  /** Over any sequence of requests the collections stay well-formed and
      every post keeps the author it was created with. */
  lemma {:induction false} RunKeepsAuthors(env: Env, s: State, reqs: seq<Request>)
    requires WellFormed(s)
    ensures WellFormed(Run(env, s, reqs))
    ensures AuthorsKept(s, Run(env, s, reqs))
    decreases |reqs|
  {
    if |reqs| > 0 {
      var s1 := Step(env, s, reqs[0]).1;
      StepPreserves(env, s, reqs[0]);
      RunKeepsAuthors(env, s1, reqs[1..]);
    }
  }
}
