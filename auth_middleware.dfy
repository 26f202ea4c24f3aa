/** `authMiddleware`: a request passes only when it presents a token that
    verifies, names an existing user, and equals the token stored on that
    user. Every failure is a 401. The middleware only reads the user table. */
module AuthMiddleware {
  import opened Wrappers
  import opened Values
  import opened Store
  import opened AppErrors
  import opened Http
  import opened Tokens

  /** The user a presented token belongs to, or why there is none. */
  function TokenOwner(j: Jwt, token: string, secret: string, users: seq<Row>): Result<Option<Row>, Thrown> {
    var id :- ClaimedUserId(j, token, secret);
    FindUser(users, id)
  }

  /** The stored token is the presented one (`storedUser.token !== token`
      is false). */
  predicate HoldsToken(user: Row, token: string) {
    Column(user, "token") == VStr(token)
  }

  /** `authMiddleware(req, res, next)` for the header `authorization`. */
  function Authenticate(authorization: Option<string>, users: seq<Row>, j: Jwt, env: string): (o: Reply)
    ensures o.Next? || (o.Respond? && o.status == 401)
    ensures BearerToken(authorization).None? ==> o == Respond(401, Fail("login.NO_TOKEN_PROVIDED"))
    ensures BearerToken(authorization).Some? ==>
      var token := BearerToken(authorization).value;
      var owner := TokenOwner(j, token, AuthSecret(env), users);
      && (owner.Err? ==> o == Respond(401, Fail("UNAUTHORIZED")))
      && (owner == Ok(None) ==> o == Respond(401, Message("USER_NOT_FOUND")))
      && (owner.Ok? && owner.value.Some? && !HoldsToken(owner.value.value, token) ==> o == Respond(401, Fail("INVALID_TOKEN")))
    ensures o.Next? <==>
      && BearerToken(authorization).Some?
      && var owner := TokenOwner(j, BearerToken(authorization).value, AuthSecret(env), users);
         owner.Ok? && owner.value.Some? && HoldsToken(owner.value.value, BearerToken(authorization).value)
  {
    match BearerToken(authorization)
    case None => Respond(401, Fail("login.NO_TOKEN_PROVIDED"))
    case Some(token) =>
      match TokenOwner(j, token, AuthSecret(env), users)
      case Err(_) => Respond(401, Fail("UNAUTHORIZED"))
      case Ok(None) => Respond(401, Message("USER_NOT_FOUND"))
      case Ok(Some(user)) =>
        if !HoldsToken(user, token) then Respond(401, Fail("INVALID_TOKEN"))
        else Next
  }

  /** With `JWT_SECRET` unset the middleware verifies with the empty
      secret, and so turns away every request, including one carrying a
      token just issued at login (signed with a non-empty default). */
  lemma UnsetSecretRejectsAll(authorization: Option<string>, users: seq<Row>, j: Jwt)
    ensures Authenticate(authorization, users, j, "").Respond?
  {
  }
}
