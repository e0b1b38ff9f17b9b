/** Session tokens. Signing and verification belong to the JWT library and
    are not modelled: a token is an opaque string, verification is a function
    the handlers receive, and issuing a token is recorded as the claims and
    lifetime handed to the signer. */
module Tokens {
  import opened Base

  type UserId = nat

  /** The signed string carried in the `token` cookie. */
  type Token = string

  /** The identity claims a token carries: the user's store id and name. */
  datatype Claims = Claims(id: UserId, username: string)

  /** `expiresIn: "1h"`, in seconds. */
  const TokenLifetimeSeconds: nat := 60 * 60

  /** The cookie's `maxAge`, in milliseconds: the same hour. */
  const CookieMaxAgeMillis: nat := 60 * 60 * 1000

  /** The JWT library's `verify` under the server secret and the current
      time: the claims of a well-signed, unexpired token, otherwise nothing. */
  type Verifier = Token -> Option<Claims>

  /** What the server hands to `jwt.sign`: the claims and the lifetime. */
  datatype IssuedToken = IssuedToken(claims: Claims, expiresInSeconds: nat)

  /** Reads the `token` cookie: a request without one fails verification
      exactly like a bad signature does. */
  function Authenticate(verify: Verifier, cookie: Option<Token>): Option<Claims>
  {
    match cookie
    case None => None
    case Some(t) => verify(t)
  }
}
