/**
 * `verifyJWT` of `server/src/middlewares/auth.middleware.ts`: where the access
 * token is read from, and when the request is let through to the handler.
 * `jwt.verify` with the access secret is an input that yields the id claim of
 * a valid token, or `None` when verification throws.
 */
module AuthMiddleware {
  import opened Wrappers
  import opened Js
  import opened Users
  import opened Http
  import Collections

  /** The outcome of the middleware: a 401 reply, or `next()` with the sanitized user on the request. */
  datatype Verdict = Reject(reply: Reply) | Proceed(user: Document)

  /**
   * `req.cookies?.accessToken || req.header("Authorization")?.replace("Bearer ", "")`:
   * a truthy cookie wins; otherwise the header with its first "Bearer " removed.
   */
  function AccessToken(cookie: Field, header: Field): (t: Field)
    ensures Truthy(cookie) ==> t == cookie
    ensures !Truthy(cookie) && header.None? ==> t.None?
    ensures !Truthy(cookie) && header.Some? ==> t == Some(ReplaceFirst(header.value, "Bearer ", ""))
  {
    if Truthy(cookie) then cookie
    else if header.Some? then Some(ReplaceFirst(header.value, "Bearer ", ""))
    else None
  }

  /** `verifyJWT`. */
  function VerifyJwt(users: seq<User>, cookie: Field, header: Field, verify: string -> Option<UserId>): (v: Verdict)
    ensures v.Reject? ==> v.reply.status == 401
    ensures v.Reject? && v.reply.message == "Unauthorized request" <==> !Truthy(AccessToken(cookie, header))
    ensures v.Proceed? <==>
      Truthy(AccessToken(cookie, header)) && verify(AccessToken(cookie, header).value).Some?
      && verify(AccessToken(cookie, header).value).value < |users|
    ensures v.Proceed? ==> v.user == Sanitize(users[verify(AccessToken(cookie, header).value).value])
  {
    var token := AccessToken(cookie, header);
    if !Truthy(token) then Reject(Reply(401, "Unauthorized request"))
    else
      match verify(token.value)
      case None => Reject(Reply(401, "Invalid or Expired Token"))
      case Some(id) =>
        match Collections.FindById(users, id)
        case None => Reject(Reply(401, "Invalid Access Token"))
        case Some(u) => Proceed(Sanitize(u))
  }

  /** A header of exactly "Bearer " leaves an empty token, which is refused before any verification. */
  lemma BareBearerIsUnauthorized(users: seq<User>, cookie: Field, verify: string -> Option<UserId>)
    requires !Truthy(cookie)
    ensures VerifyJwt(users, cookie, Some("Bearer "), verify) == Reject(Reply(401, "Unauthorized request"))
  {
    assert OccursAt("Bearer ", "Bearer ", 0);
    ReplaceFirstAtStart("Bearer ", "");
  }

  /** A header "Bearer <t>" yields `t` when no cookie is set. */
  lemma HeaderTokenIsBearerSuffix(cookie: Field, t: string)
    requires !Truthy(cookie)
    ensures AccessToken(cookie, Some("Bearer " + t)) == Some(t)
  {
    ReplaceFirstAtStart("Bearer ", t);
  }

  /** The cookie takes precedence: whatever the header holds, a truthy cookie is the token. */
  lemma CookieWins(users: seq<User>, cookie: Field, h1: Field, h2: Field, verify: string -> Option<UserId>)
    requires Truthy(cookie)
    ensures VerifyJwt(users, cookie, h1, verify) == VerifyJwt(users, cookie, h2, verify)
  {
  }

  /** What the handler sees of the user never depends on the stored password hash or refresh token. */
  lemma ProceedHidesSecrets(users: seq<User>, cookie: Field, header: Field, verify: string -> Option<UserId>)
    ensures var v := VerifyJwt(users, cookie, header, verify);
      v.Proceed? ==> PasswordKey !in v.user && RefreshTokenKey !in v.user
  {
  }
}
