/** What a handler sends back: a status code, a JSON body and what it does
    to the `token` cookie. Headers, CORS and framing are not modelled. */
module Http {
  import opened Base
  import opened Tokens
  import Users
  import Posts

  /** The cookie's `sameSite` attribute. */
  datatype SameSite = Strict | Lax

  /** The effect on the `token` cookie. A set cookie records the token the
      server signs, `httpOnly`, `secure` and `sameSite`; its `maxAge` is
      `CookieMaxAgeMillis` for a new token and 0 when it is cleared. */
  datatype CookieEffect =
    | Untouched
    | SetToken(token: IssuedToken, maxAgeMillis: nat, httpOnly: bool, secure: bool, sameSite: SameSite)
    | ClearToken(maxAgeMillis: nat, httpOnly: bool, secure: bool, sameSite: SameSite)

  /** The JSON bodies the handlers produce. */
  datatype Body =
    | ErrorJson(error: string)                          // { error }
    | ErrorDetailsJson(error: string, details: string)  // { error, details }
    | TextJson(text: string)                            // a bare JSON string
    | MessageJson(message: string)                      // { message }
    | UserRecordJson(user: Users.User)                  // { user: userDoc }, hash included
    | LoginJson(message: string, id: UserId, username: string)
    | ClaimsJson(claims: Claims)
    | PostJson(post: Posts.Post)
    | PostListJson(posts: seq<Posts.PopulatedPost>)
    | MaybePostJson(found: Option<Posts.PopulatedPost>) // a post or null

  datatype Response = Response(status: int, body: Body, cookie: CookieEffect)

  /** A handler either answers, or an error escapes its own code: a throw
      inside a verification callback or a rejected promise. What follows is
      left unspecified. Express answers the synchronous `/profile` throw
      with its default 500. Elsewhere the handler's promise, or that of the
      `async` verification callback on `POST /post`, rejects and nothing
      answers; on Node 15 and later that rejection also ends the process. */
  datatype Outcome = Reply(response: Response) | Unhandled

  const OK: int := 200
  const Created: int := 201
  const BadRequest: int := 400
  const Unauthorized: int := 401
  const Forbidden: int := 403
  const NotFound: int := 404
  const InternalError: int := 500

  /** The cookie both `/register` and `/login` set for a freshly signed token. */
  function SessionCookie(u: Users.User, sameSite: SameSite): CookieEffect
  {
    SetToken(IssuedToken(Claims(u.id, u.username), TokenLifetimeSeconds),
             CookieMaxAgeMillis, true, false, sameSite)
  }
}
