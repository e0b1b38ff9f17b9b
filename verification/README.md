# Blog backend: authentication, post ownership and uploads

A Dafny model of the request handlers of a small Express blog server
(`index.js`). Each route is a pure function. It takes the request and the
user and post collections, and returns a reply and the new collections.
Three foreign libraries become parameters:

- JWT verification under the server secret and clock (`Verifier`);
- bcrypt hashing and comparison (`Hasher`, `Comparer`);
- the user schema's validation (`Schema`).

The document store is modelled as sequences indexed by the store-assigned
id: the store maps each id to its record.

Modules, leaf first:

- `Base`: `Option`, `Result`, `Min`.
- `UploadPath`: JavaScript `split`, `join` and `lastIndexOf`. Also the
  cover locator: the temporary upload path, a dot, and the last
  dot-separated piece of the client's file name.
- `Tokens`: claims, the one-hour lifetime, reading the `token` cookie.
- `Users`: user records, `findOne` by username, `create` with schema
  validation and the unique username index. Also the error it raises
  (Mongo code 11000 for a duplicate key).
- `Posts`: post records, `findById`, `save`, `populate` of the author.
- `Http`: status codes, JSON bodies, cookie effects. It also defines
  `Outcome`, where `Unhandled` stands for an error that escapes the
  handler's own code. What follows then depends on the route. For the
  synchronous `GET /profile`, Express's router catches the throw and its
  default error handler answers 500. For the async handlers, a promise
  rejects and nothing catches it, so no answer is sent. That promise is
  the handler's own, or that of the `async` verification callback on
  `POST /post`. On Node 15 and later an unhandled rejection also ends the
  process by default, so later requests go unanswered too. The model's
  request sequences do not represent that shutdown.
- `Auth`: `POST /register`, `POST /login`, `GET /profile`, `POST /logout`.
- `Listing`: `GET /post`, newest first and at most 20.
- `PostHandlers`: `POST /post`, `GET /post/:id`, `PUT /post/:id`.
- `Server`: routes one request at a time, and runs a sequence of requests.

The code has some behaviours a reader might not expect. The model keeps each of them:

- `POST /register` answers with the whole stored record, password hash
  included, not just id and username.
- `POST /post` with a bad token throws inside the verification callback
  instead of answering 401. `GET /profile` also throws, and Express answers
  that with its default 500.
- `POST /register` stores the user before it signs the token. If signing
  throws, the catch block answers 500 and the user stays stored, so a
  retry gets "Username already exists.".
- `PUT /post/:id` looks the post up by the `id` field of the body. The
  `:id` in the URL is ignored.
- `GET /post/:id` with an id the store cannot cast rejects unanswered. It
  does not answer `null`.
- Registration sets its cookie with `sameSite` Strict and login with Lax.
  Both are kept.

## Model

| member | source | states |
|---|---|---|
| UploadPath.CoverLocator | index.js:136-138 | The stored path is the temporary path, a dot, and the file name's text after its last dot. A name without a dot is used whole. The result always starts with the temporary path followed by a dot. |
| UploadPath.ExtensionIsTextAfterLastDot | index.js:136-137 | The last piece of `originalname.split(".")` is exactly the suffix after the last dot, by `lastIndexOf`. |
| UploadPath.ExtensionEdgeCases | index.js:136-137 | A name without a dot is its own extension. A name ending in a dot has the empty extension. |
| UploadPath.JoinSplit | index.js:136 | Joining the pieces of `split` with the separator gives back the name. |
| UploadPath.SplitJoin | index.js:136 | Take any non-empty list of pieces with no separator in them, join them, and split the result: you get the same pieces back. |
| UploadPath.SplitPiecesAreFree | index.js:136 | No piece `split` returns contains the separator. |
| UploadPath.LastIndexOf | index.js:137 | The result is the last position holding the character, or -1 exactly when the character is absent. |
| PostHandlers.StoredCover | index.js:174-176 | The update route derives the same non-empty path from the upload as creation does. |
| Users.FindByUsername | index.js:76 | `findOne` finds a user exactly when some stored user has the name. What it finds is a stored user with that name. |
| Users.FoundByUsernameIsUnique | index.js:76 | With unique usernames, the lookup returns the one user holding the name. |
| Users.Create | index.js:35-38 | Creation succeeds exactly when the schema accepts and the name is free. It then appends a user whose id is the next position. A schema rejection is a `ValidationError` without a code. A taken name raises code 11000. |
| Users.FindById | index.js:158 | The author lookup returns a stored user with exactly that id. It returns nothing only when no stored user has that id. |
| Users.CreatePreservesWellFormed | index.js:35-38 | A successful creation keeps ids positional and usernames unique. |
| Auth.RegisterFailureStatus | index.js:57-69 | The catch block answers 400 exactly for a duplicate key (code 11000) or a `ValidationError`, and 500 otherwise. "Username already exists." takes priority. No cookie is ever set. |
| Auth.Register | index.js:30-70 | Rejected fields give 400 "Validation failed" with the message. A taken name gives 400 "Username already exists.". Faults of the hasher or store go through the catch block. The store gains exactly the new user, at the next id, when the schema accepts and the name is free, and is unchanged otherwise. If signing then throws, the answer is 500 with the user kept. Otherwise it is 201 with the user's record, hash included, and a token with that user's id and username for 3600 s (cookie: 3600000 ms, httpOnly, not secure, Strict). No failure sets a cookie. |
| Auth.RegisterPreservesWellFormed | index.js:35-38 | Registration never breaks id positions or username uniqueness. |
| Auth.RegisterTwice | index.js:35-59 | Once a registration has stored its user, even if signing its token failed, registering the name again answers 400 "Username already exists." and keeps the first user's record. |
| Auth.Login | index.js:72-114 | The only answers are 200, the one invalid-credentials 400, or the 500 on a fault. A 200 signs the claims of a stored user with that name whose hash the password matches (3600 s, Lax cookie). Without a fault, in a well-formed store, the answer is 200 exactly when such a user exists. |
| Auth.LookupFindsAuthentic | index.js:76-86 | When a matching user exists, the name lookup reaches that user. |
| Auth.LoginRejectionIsUniform | index.js:78-86 | An unknown username and a wrong password get the identical 400 "Invalid username or password." response. |
| Auth.Profile | index.js:116-122 | The handler replies exactly when the cookie's token verifies, and the reply is 200 with its claims. Otherwise the callback throws, and Express's default handler answers 500. |
| Auth.LogoutEndsSession | index.js:123-132 | Logout answers 200 and clears the cookie with max age 0. If the verifier rejects the empty token, a later profile request throws instead of returning claims. |
| Posts.Find | index.js:189 | `findById` finds a post exactly when one has the id, and returns that post. |
| Posts.FindInWellFormed | index.js:189 | In a well-formed store, the post with id n is the one at position n. |
| Posts.SaveReplacesAt | index.js:209 | In a well-formed store, saving a loaded document overwrites only the position of its id. The store stays well-formed, and the id then finds the saved document. |
| Posts.Populate | index.js:158 | The populated author is a stored user with the post's author id, given as id and username. It is null exactly when no user has that id. |
| Listing.InsertKeepsOrder | index.js:159 | Inserting into a newest-first list keeps it newest first and adds exactly that post. |
| Listing.SortNewestFirst | index.js:159 | The sort is a permutation of the posts, and creation times never increase along it. |
| Listing.RecentPosts | index.js:157-160 | The result has min(count, 20) posts, newest first, all drawn from the store. No post left out is newer than one kept. |
| Listing.PrefixOfSorted | index.js:159-160 | Any prefix of a newest-first permutation of the posts is newest first and holds only stored posts. |
| Listing.LeftOutAreOlder | index.js:159-160 | Cutting a newest-first permutation never drops a post newer than one it keeps. |
| Listing.PopulateAll | index.js:158 | Entry i carries post i, and its author is resolved against the user store: a stored user with that id, or null exactly when there is none. |
| Listing.ListRecent | index.js:156-162 | Unless the store fails, 200 with min(count, 20) posts, newest first, each a stored post. It lists each stored post at most as often as the store holds it. No stored post left out is newer than a listed one. Each entry's author is populated from the user store. An empty store gives an empty list. |
| PostHandlers.CreatePost | index.js:134-154 | An answer comes exactly when a file arrived, the token verifies and the store does not fail. The new post is appended with the next id. Its author is the verified id, its cover is the renamed upload path, its text is the request's, and its creation time is the store's clock. Every earlier post is kept. Otherwise nothing is written. |
| PostHandlers.CreatePreservesWellFormed | index.js:144-150 | Creating a post keeps every id at its position. |
| PostHandlers.GetPost | index.js:164-168 | Unless the store fails, a castable id answers 200 with the post of that id, or null when none exists. The post's author is populated from the user store. A malformed id or a store failure makes the handler's promise reject, with no answer. |
| PostHandlers.UpdatePost | index.js:170-217 | The checks run in order: token (401), castable id and a lookup that does not fail (500), post exists (404), requester is author (403), save (500). Each failure leaves the store unchanged. 200 happens exactly when every check passes. It replaces title, summary and content. The cover becomes the new upload's path only when a file arrived. |
| PostHandlers.NonAuthorChangesNothing | index.js:182-209 | Any change to the store means: the token verified, the body named a stored post, and its author is the verified user. Every other post is unchanged. |
| PostHandlers.UpdateKeepsAuthors | index.js:203-209 | No update changes any post's id, author or creation time. |
| PostHandlers.TextEditKeepsCover | index.js:171-209 | Without an uploaded file, every post's cover stays as it was. |
| PostHandlers.AuthorEditApplies | index.js:203-211 | The author's successful edit of post n gives it the new text and the correct cover. Its id and author are kept. |
| PostHandlers.UrlIdIgnored | index.js:188-189 | Changing the URL's `:id` changes nothing in the outcome. |
| Server.StepPreserves | index.js:30-217 | Any single request keeps both collections well-formed and every post's id, author and creation time. |
| Server.OnlyAuthorChangesPost | index.js:182-209 | If any request changes stored post i, it is an update naming i whose token verifies as post i's author. |
| Server.RunKeepsAuthors | index.js:144-209 | Over any sequence of requests, the collections stay well-formed and every post keeps the author it was created with. |

## Left out

- HTTP plumbing: Express routing, CORS, body and cookie parsing, static
  serving of `/uploads`, the port and `listen` (index.js:18-28, 219-221).
  No response headers are modelled beyond the `token` cookie's effect.
- JWT signing and its clock. Verification is a parameter and issuing a
  token is recorded as the claims and lifetime handed to the signer. So
  "a freshly issued token verifies to its claims" and "an expired token
  fails" are properties of the library, not of this model. The `iat` and
  `exp` fields of the profile answer are not modelled.
- bcrypt: hashing and comparison are parameters, and the 10 rounds are not
  modelled. `bcrypt.hash` salts randomly, but `Hasher` is a deterministic
  function. `Comparer` is not tied to `Hasher`, so "a password matches its
  own hash" is not stated. No proof depends on either.
- The user and post schemas (models/User.js, models/Post.js) are not part
  of this model. User validation is a parameter. Posts are assumed to carry
  the `createdAt` timestamp the listing sorts on, and `updatedAt` is not
  modelled.
- Errors the store, bcrypt or the callbacks raise for reasons of their own
  (a lost connection, say) are explicit `fault` parameters. What the
  handler does with them is modelled. When they happen is not.
- Request bodies with missing or non-string fields: every field is a
  string. What bcrypt or the store does with `undefined` is not modelled.
  Neither is an object that `express.json()` accepts where a string is
  expected. For example, `User.findOne({ username })` reads a `username`
  of `{"$gt": ""}` as a query operator and finds the first user.
- `fs.renameSync` and multer's temporary files. Only the target path is
  computed. The rename happens before the token is checked, even on a
  rejected update, and that disk side effect is not modelled.
- Some errors escape the handler: the `/profile` and `POST /post`
  verification errors, a missing file part on `POST /post`, and a cast
  error on `GET /post/:id`. They are modelled only as `Unhandled`. That
  Express answers the synchronous `/profile` throw with a 500 page is not
  modelled. Neither is the unhandled rejection of the async routes.
- The authorship check compares `JSON.stringify` of the two ids. It is
  modelled as equality of ids.
- `populate` is modelled for the listing and `GET /post/:id` as a lookup
  of the author's id and username. Mongoose's query machinery is not.
- Listing.SortNewestFirst: the order of posts with equal `createdAt` is
  not promised, because the store does not promise it either.
- `console.log` / `console.error` output.
- Concurrency between requests: the store's own atomicity is assumed, and
  requests are handled one at a time.
- The second deployment variant, which stores covers with a remote image
  host, is not part of this model.
