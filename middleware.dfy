/**
 * The server's authentication middleware (`crates/server/src/auth.rs`):
 * the token is what follows "Bearer " in the Authorization header, and the
 * request goes on only when the core says that token verifies.
 */
module Middleware {
  import opened Wrappers
  import opened Text
  import opened Errors
  import Auth
  import Db

  datatype Decision = Forward | Unauthorized401

  const Scheme := "Bearer "

  /**
   * The bearer token of the header value, if it has one. `header` is the
   * Authorization value already read as text; a missing header and one that
   * is not visible ASCII are both `None`.
   */
  function BearerToken(header: Option<string>): (r: Option<string>)
    ensures r.Some? <==> header.Some? && StartsWith(header.value, Scheme)
    ensures r.Some? ==> header.value == Scheme + r.value
  {
    if header.Some? && StartsWith(header.value, Scheme) then
      assert header.value == header.value[..7] + header.value[7..];
      Some(header.value[7..])
    else None
  }

  /** The header the client sends gives back exactly its token. */
  lemma BearerRoundTrip(token: string)
    ensures BearerToken(Some(Scheme + token)) == Some(token)
  {
    assert (Scheme + token)[..7] == Scheme;
    assert (Scheme + token)[7..] == token;
  }

  /** `auth_middleware`: forward only when the token is present and `verify` answers `Ok(true)`. */
  function Decide(header: Option<string>, verify: string -> Result<bool, AppError>): (d: Decision)
    ensures d == Forward <==> BearerToken(header).Some? && verify(BearerToken(header).value) == Ok(true)
  {
    match BearerToken(header)
    case None => Unauthorized401
    case Some(token) =>
      match verify(token)
      case Ok(true) => Forward
      case _ => Unauthorized401
  }

  /** `verify_token` as the middleware sees it for a credential table. */
  function VerifyAgainst(auth: seq<Db.AuthRow>): string -> Result<bool, AppError> {
    (t: string) => Ok(Auth.Verifies(auth, t))
  }

  /**
   * End to end: a request goes through exactly when its header is
   * "Bearer " followed by the stored token.
   */
  lemma ForwardIffStoredToken(header: Option<string>, auth: seq<Db.AuthRow>)
    ensures Decide(header, VerifyAgainst(auth)) == Forward <==>
              Auth.StoredToken(auth).Some? && header == Some(Scheme + Auth.StoredToken(auth).value)
  {
    if Auth.StoredToken(auth).Some? && header == Some(Scheme + Auth.StoredToken(auth).value) {
      BearerRoundTrip(Auth.StoredToken(auth).value);
    }
  }
}
