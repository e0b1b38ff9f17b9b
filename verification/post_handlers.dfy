/** The post handlers: `POST /post`, `GET /post/:id` and `PUT /post/:id`.
    The renaming of the uploaded file on disk is not modelled, only the path
    it is renamed to. */
module PostHandlers {
  import opened Base
  import opened Tokens
  import opened Posts
  import opened Http
  import opened UploadPath
  import Users

  /** The file multer stored: the client's file name and its temporary path. */
  datatype Upload = Upload(originalName: string, tempPath: string)

  /** The text fields of a post form. */
  datatype PostFields = PostFields(title: string, summary: string, content: string)

  /** A multipart `POST /post`: the file part, the `token` cookie, the text fields. */
  datatype CreateRequest = CreateRequest(file: Option<Upload>, token: Option<Token>, fields: PostFields)

  /** A multipart `PUT /post/:id`. `urlId` is the `:id` path parameter; the
      post is looked up by `id`, the body field. */
  datatype UpdateRequest = UpdateRequest(
    urlId: string,
    file: Option<Upload>,
    token: Option<Token>,
    id: IdField,
    fields: PostFields)

  const TokenFailedMessage: string := "Token verification failed"
  const PostNotFoundMessage: string := "Post not found"
  const NotAuthorMessage: string := "You are not the author"
  const InternalErrorMessage: string := "Internal server error"

  /** The path an upload is renamed to, which becomes the cover. */
  function StoredCover(file: Upload): (r: string)
    ensures r == file.tempPath + "." + file.originalName[LastIndexOf(file.originalName, '.') + 1..]
    ensures r != ""
  {
    CoverLocator(file.tempPath, file.originalName)
  }

  /** `POST /post`: read the file part, verify the token, create the post
      with the verifier's id as author and the renamed upload as cover. A
      request without a file, or with a token that does not verify, throws
      and gets no answer, as does a store error inside the callback
      (`storeFault`); `now` is the store's creation timestamp. */
  function CreatePost(posts: PostStore, req: CreateRequest, verify: Verifier, now: int, storeFault: bool)
    : (r: (Outcome, PostStore))
    ensures r.0.Reply? <==> req.file.Some? && Authenticate(verify, req.token).Some? && !storeFault
    ensures r.0.Unhandled? ==> r.1 == posts
    ensures r.0.Reply? ==>
      && |r.1| == |posts| + 1
      && r.1[..|posts|] == posts
      && var p := r.1[|posts|];
         && r.0.response == Response(OK, PostJson(p), Untouched)
         && p.id == |posts|
         && p.author == Authenticate(verify, req.token).value.id
         && p.cover == StoredCover(req.file.value)
         && p.title == req.fields.title
         && p.summary == req.fields.summary
         && p.content == req.fields.content
         && p.createdAt == now
  {
    match req.file
    case None => (Unhandled, posts)
    case Some(file) =>
      match Authenticate(verify, req.token)
      case None => (Unhandled, posts)
      case Some(claims) =>
        if storeFault then (Unhandled, posts)
        else
          var p := Post(|posts|, req.fields.title, req.fields.summary, req.fields.content,
                        StoredCover(file), claims.id, now);
          assert (posts + [p])[..|posts|] == posts;
          (Reply(Response(OK, PostJson(p), Untouched)), posts + [p])
  }

  /** Creating a post keeps every id at its position. */
  lemma CreatePreservesWellFormed(posts: PostStore, req: CreateRequest, verify: Verifier, now: int,
                                  storeFault: bool)
    requires WellFormed(posts)
    ensures WellFormed(CreatePost(posts, req, verify, now, storeFault).1)
  {
  }

  /** `GET /post/:id`: the post with its author populated, or null; an id
      the store cannot cast, or a store failure (`storeFault`), rejects the
      handler's promise unanswered. */
  function GetPost(users: Users.UserStore, posts: PostStore, id: IdField, storeFault: bool): (r: Outcome)
    ensures r.Reply? <==> !id.Malformed? && !storeFault
    ensures r.Reply? ==> r.response.status == OK && r.response.body.MaybePostJson?
    ensures r.Reply? ==>
      (r.response.body.found.Some? <==> id.Given? && exists i :: 0 <= i < |posts| && posts[i].id == id.id)
    ensures r.Reply? && r.response.body.found.Some? ==>
      && r.response.body.found.value.post in posts && r.response.body.found.value.post.id == id.id
      && r.response.body.found.value == Populate(users, r.response.body.found.value.post)
      && AuthorResolved(users, r.response.body.found.value)
  {
    if storeFault then Unhandled
    else match id
    case Malformed(_) => Unhandled
    case Absent => Reply(Response(OK, MaybePostJson(None), Untouched))
    case Given(n) =>
      match Find(posts, n)
      case None => Reply(Response(OK, MaybePostJson(None), Untouched))
      case Some(p) => Reply(Response(OK, MaybePostJson(Some(Populate(users, p))), Untouched))
  }

  /** The text edit and, when a file arrived, the new cover, applied to the
      loaded document. `newPath ? newPath : postDoc.cover` is JavaScript
      truthiness: an absent or empty path keeps the old cover. */
  function Edit(doc: Post, fields: PostFields, newPath: Option<string>): Post
  {
    doc.(title := fields.title, summary := fields.summary, content := fields.content,
         cover := if newPath.Some? && newPath.value != "" then newPath.value else doc.cover)
  }

  /** `PUT /post/:id`: verify the token (401), load the post named by the
      body's id (a cast error 500, no post 404), check that the verified user
      is its author (403), then replace the text and, if a file arrived, the
      cover. `findFault` is `findById` rejecting for a reason of its own (a
      lost connection, say) and `saveFault` is an error `save()` raises;
      the handler's `catch` answers both with 500. */
  function UpdatePost(posts: PostStore, req: UpdateRequest, verify: Verifier, findFault: bool, saveFault: bool): (r: (Response, PostStore))
    ensures r.0.cookie == Untouched
    ensures Authenticate(verify, req.token).None? ==>
      r == (Response(Unauthorized, TextJson(TokenFailedMessage), Untouched), posts)
    ensures Authenticate(verify, req.token).Some? && (req.id.Malformed? || findFault) ==>
      r == (Response(InternalError, TextJson(InternalErrorMessage), Untouched), posts)
    ensures Authenticate(verify, req.token).Some? && !findFault
            && (req.id.Absent? || (req.id.Given? && Find(posts, req.id.id).None?)) ==>
      r == (Response(NotFound, TextJson(PostNotFoundMessage), Untouched), posts)
    ensures Authenticate(verify, req.token).Some? && !findFault && req.id.Given? && Find(posts, req.id.id).Some?
            && Find(posts, req.id.id).value.author != Authenticate(verify, req.token).value.id ==>
      r == (Response(Forbidden, TextJson(NotAuthorMessage), Untouched), posts)
    ensures Authenticate(verify, req.token).Some? && !findFault && req.id.Given? && Find(posts, req.id.id).Some?
            && Find(posts, req.id.id).value.author == Authenticate(verify, req.token).value.id && saveFault ==>
      r == (Response(InternalError, TextJson(InternalErrorMessage), Untouched), posts)
    ensures r.0.status == OK <==>
      && Authenticate(verify, req.token).Some?
      && req.id.Given?
      && Find(posts, req.id.id).Some?
      && Find(posts, req.id.id).value.author == Authenticate(verify, req.token).value.id
      && !findFault
      && !saveFault
    ensures r.0.status != OK ==> r.1 == posts
    ensures r.0.status == OK ==>
      var doc := Find(posts, req.id.id).value;
      var updated := doc.(title := req.fields.title, summary := req.fields.summary,
                          content := req.fields.content,
                          cover := if req.file.Some? then StoredCover(req.file.value) else doc.cover);
      && r.0.body == PostJson(updated)
      && |r.1| == |posts|
      && forall i :: 0 <= i < |posts| ==> r.1[i] == (if posts[i].id == doc.id then updated else posts[i])
  {
    var newPath := match req.file case None => None case Some(f) => Some(StoredCover(f));
    match Authenticate(verify, req.token)
    case None => (Response(Unauthorized, TextJson(TokenFailedMessage), Untouched), posts)
    case Some(claims) =>
      if findFault then (Response(InternalError, TextJson(InternalErrorMessage), Untouched), posts)
      else match req.id
      case Malformed(_) => (Response(InternalError, TextJson(InternalErrorMessage), Untouched), posts)
      case Absent => (Response(NotFound, TextJson(PostNotFoundMessage), Untouched), posts)
      case Given(n) =>
        match Find(posts, n)
        case None => (Response(NotFound, TextJson(PostNotFoundMessage), Untouched), posts)
        case Some(doc) =>
          if doc.author != claims.id then
            (Response(Forbidden, TextJson(NotAuthorMessage), Untouched), posts)
          else if saveFault then
            (Response(InternalError, TextJson(InternalErrorMessage), Untouched), posts)
          else
            var updated := Edit(doc, req.fields, newPath);
            (Response(OK, PostJson(updated), Untouched), Save(posts, updated))
  }

  /** Only the author's verified request writes, and it writes only the post
      it names: any change to the store means the token verified, the body
      named a stored post, and that post's author is the verified user. */
  lemma {:induction false} NonAuthorChangesNothing(posts: PostStore, req: UpdateRequest, verify: Verifier, findFault: bool, saveFault: bool)
    requires WellFormed(posts)
    ensures var after := UpdatePost(posts, req, verify, findFault, saveFault).1;
      after != posts ==>
        && Authenticate(verify, req.token).Some?
        && req.id.Given? && 0 <= req.id.id < |posts|
        && posts[req.id.id].author == Authenticate(verify, req.token).value.id
        && |after| == |posts|
        && forall i :: 0 <= i < |posts| && i != req.id.id ==> after[i] == posts[i]
  {

  }

  /** No update changes any post's id, author or creation time. */
  lemma {:induction false} UpdateKeepsAuthors(posts: PostStore, req: UpdateRequest, verify: Verifier, findFault: bool, saveFault: bool)
    requires WellFormed(posts)
    ensures var after := UpdatePost(posts, req, verify, findFault, saveFault).1;
      && |after| == |posts|
      && forall i :: 0 <= i < |posts| ==>
           after[i].id == posts[i].id && after[i].author == posts[i].author
           && after[i].createdAt == posts[i].createdAt
  {

  }

  /** An edit without a file keeps every cover as it was. */
  lemma {:induction false} TextEditKeepsCover(posts: PostStore, req: UpdateRequest, verify: Verifier, findFault: bool, saveFault: bool)
    requires WellFormed(posts)
    requires req.file.None?
    ensures var after := UpdatePost(posts, req, verify, findFault, saveFault).1;
      |after| == |posts| && forall i :: 0 <= i < |posts| ==> after[i].cover == posts[i].cover
  {

  }

  /** The author's edit of post `n` lands in post `n`: new text, the new
      upload's path as cover when a file arrived, everything else kept. */
  lemma {:induction false} AuthorEditApplies(posts: PostStore, req: UpdateRequest, verify: Verifier, findFault: bool, saveFault: bool, n: nat)
    requires WellFormed(posts)
    requires n < |posts| && req.id == Given(n)
    requires !findFault && !saveFault
    requires Authenticate(verify, req.token).Some?
    requires Authenticate(verify, req.token).value.id == posts[n].author
    ensures var r := UpdatePost(posts, req, verify, findFault, saveFault);
      && r.0.status == OK
      && r.1[n].title == req.fields.title
      && r.1[n].summary == req.fields.summary
      && r.1[n].content == req.fields.content
      && r.1[n].cover == (if req.file.Some? then StoredCover(req.file.value) else posts[n].cover)
      && r.1[n].author == posts[n].author
      && r.1[n].id == n
  {

  }

  /** The `:id` in the URL plays no part: the body's `id` picks the post. */
  lemma UrlIdIgnored(posts: PostStore, req: UpdateRequest, verify: Verifier, findFault: bool, saveFault: bool, otherUrlId: string)
    ensures UpdatePost(posts, req.(urlId := otherUrlId), verify, findFault, saveFault) == UpdatePost(posts, req, verify, findFault, saveFault)
  {
  }
}
