/** The post collection: documents in insertion order, the store-assigned id
    being the insertion position. */
module Posts {
  import opened Base
  import opened Tokens
  import Users

  type PostId = nat

  /** A stored post. `createdAt` is the creation timestamp the store's
      `timestamps` option adds; `author` references a user id. */
  datatype Post = Post(
    id: PostId,
    title: string,
    summary: string,
    content: string,
    cover: string,
    author: UserId,
    createdAt: int)

  type PostStore = seq<Post>

  /** Every post sits at the position its id names. */
  ghost predicate WellFormed(posts: PostStore)
  {
    forall i :: 0 <= i < |posts| ==> posts[i].id == i
  }

  /** The `id` field of a request body: missing, not a valid object id
      (the store raises a cast error), or a well-formed id. */
  datatype IdField = Absent | Malformed(text: string) | Given(id: int)

  /** `Post.findById(id)` for a well-formed id: the post with that id, or null. */
  function Find(posts: PostStore, id: int): (r: Option<Post>)
    ensures r.Some? <==> exists i :: 0 <= i < |posts| && posts[i].id == id
    ensures r.Some? ==> r.value in posts && r.value.id == id
    decreases |posts|
  {
    if |posts| == 0 then None
    else if posts[0].id == id then Some(posts[0])
    else
      var r := Find(posts[1..], id);
      assert forall i :: 1 <= i < |posts| ==> posts[i] == posts[1..][i - 1];
      r
  }

  /** In a well-formed store the post with id `n` is the one at position `n`. */
  lemma FindInWellFormed(posts: PostStore, n: int)
    requires WellFormed(posts)
    ensures Find(posts, n) == if 0 <= n < |posts| then Some(posts[n]) else None
  {

  }

  /** `doc.save()` of a loaded document: the stored document with the same
      id is replaced, every other document is left as it was. */
  function Save(posts: PostStore, doc: Post): (r: PostStore)
    ensures |r| == |posts|
  {
    seq(|posts|, i requires 0 <= i < |posts| => if posts[i].id == doc.id then doc else posts[i])
  }

  /** Saving a loaded document of a well-formed store writes exactly its own
      position: the store keeps its shape and the id finds the saved text. */
  lemma SaveReplacesAt(posts: PostStore, doc: Post)
    requires WellFormed(posts) && doc.id < |posts|
    ensures Save(posts, doc) == posts[doc.id := doc]
    ensures WellFormed(Save(posts, doc))
    ensures Find(Save(posts, doc), doc.id) == Some(doc)
  {
    FindInWellFormed(Save(posts, doc), doc.id);
  }

  /** A post's author reference after `populate("author", ["username"])`:
      the author's id and username, or null when no such user exists. */
  datatype AuthorRef = AuthorRef(id: UserId, username: string)

  datatype PopulatedPost = PopulatedPost(post: Post, author: Option<AuthorRef>)

  /** The populated author is a stored user with the post's author id,
      given as id and username; it is null exactly when no user has that id. */
  ghost predicate AuthorResolved(users: Users.UserStore, pp: PopulatedPost)
  {
    && (pp.author.Some? ==>
          exists u :: u in users && u.id == pp.post.author && pp.author.value == AuthorRef(u.id, u.username))
    && (pp.author.None? <==> forall i :: 0 <= i < |users| ==> users[i].id != pp.post.author)
  }

  function Populate(users: Users.UserStore, p: Post): (r: PopulatedPost)
    ensures r.post == p
    ensures AuthorResolved(users, r)
  {
    match Users.FindById(users, p.author)
    case None => PopulatedPost(p, None)
    case Some(u) => PopulatedPost(p, Some(AuthorRef(u.id, u.username)))
  }
}
