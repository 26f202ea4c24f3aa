/** `LoginController`: `login` issues and stores a token, `logout` clears
    the stored one. The lemmas at the end follow a token through the
    session: accepted by `authMiddleware` right after login, rejected once a
    later login has replaced it, and rejected after logout. */
module LoginController {
  import opened Wrappers
  import opened Values
  import opened Store
  import opened AppErrors
  import opened Http
  import opened Tokens
  import opened UserResponse
  import opened AuthMiddleware
  import opened Login = LoginService

  /** `{ result: { ...handleUserResponse(user), token }, message }` */
  function LoginBody(user: Row, token: string): (b: Record)
    ensures b.Keys == {"result", "message"} && b["message"] == VStr("login.LOGGED_IN_SUCCESSFULLY")
    ensures b["result"].VObject? && b["result"].fields.Keys == (set k | k in PublicFields) + {"token"}
    ensures b["result"].fields["token"] == VStr(token) && "password" !in b["result"].fields
    ensures forall k :: k in PublicFields ==> b["result"].fields[k] == Get(AsObject(user), k)
  {
    map["result" := VObject(Project(AsObject(user))["token" := VStr(token)]),
        "message" := VStr("login.LOGGED_IN_SUCCESSFULLY")]
  }

  /** The data `deleteToken(userId)` writes: the token becomes null. */
  function LogoutData(now: Time): (d: Record)
    ensures d.Keys == {"token", "updatedAt"}
    ensures d["token"] == VNull && d["updatedAt"] == VTime(now)
  {
    map["token" := VNull, "updatedAt" := VTime(now)]
  }

  class LoginController {
    const loginService: Login.LoginService
    const jwt: Jwt
    /** `process.env.JWT_SECRET || 'your_jwt_secret'` */
    const jwtSecret: string

    constructor (loginService: Login.LoginService, jwt: Jwt, env: string)
      ensures this.loginService == loginService && this.jwt == jwt && jwtSecret == LoginSecret(env)
    {
      this.loginService := loginService;
      this.jwt := jwt;
      jwtSecret := LoginSecret(env);
    }

    /** `login(req, res, next)` for the body `{ username, password }`. A
        thrown error goes to `next`. An empty string from `sign` is falsy,
        so it is answered with 401 even though it was already stored. */
    method Login(body: Record, compare: Compare, iat: nat, now: Time) returns (o: Reply)
      requires loginService.db.Valid() && loginService.permissionService.db == loginService.db
      modifies loginService.db
      ensures loginService.db.Valid()
      ensures var v := Validated(old(loginService.db.tables[UserTable].rows), Get(body, "username"), Get(body, "password"), compare);
        && (v.Err? ==> o == NextWith(v.error) && loginService.db.tables == old(loginService.db.tables))
        && (v == Ok(None) ==> o == Respond(401, Fail("login.AUTHENTICATION_FAILED")) && loginService.db.tables == old(loginService.db.tables))
        && (v.Ok? && v.value.Some? ==>
              var u := v.value.value;
              var t := IssuedToken(loginService.jwt, old(loginService.db.tables), u, iat, loginService.secret);
              && loginService.db.tables == old(loginService.db.tables)[UserTable :=
                   Table(UpdateRows(old(loginService.db.tables[UserTable].rows), u.id, TokenData(t, now)), old(loginService.db.tables[UserTable].nextId))]
              && o == if t == "" then Respond(401, Message("login.FAILED_TO_GENERATE_TOKEN")) else Respond(200, LoginBody(u, t)))
    {
      var v := loginService.ValidateUser(Get(body, "username"), Get(body, "password"), compare);
      if v.Err? {
        return NextWith(v.error);
      }
      if v.value.None? {
        return Respond(401, Fail("login.AUTHENTICATION_FAILED"));
      }
      var user := v.value.value;
      FoundById(loginService.db.tables[UserTable].rows, user);
      var g := loginService.GenerateToken(Some(user), iat, now);
      var token := g.value.value;
      if token == "" {
        return Respond(401, Message("login.FAILED_TO_GENERATE_TOKEN"));
      }
      o := Respond(200, LoginBody(user, token));
    }

    /** `deleteToken(userId)`: sets the user's token to null. */
    method DeleteToken(userId: Value, now: Time) returns (r: Result<(), Thrown>)
      requires loginService.db.Valid()
      modifies loginService.db
      ensures loginService.db.Valid()
      ensures (!userId.VNum? || old(FindById(loginService.db.tables[UserTable].rows, userId.n)).None?) ==>
        r == Err(StoreError) && loginService.db.tables == old(loginService.db.tables)
      ensures userId.VNum? && old(FindById(loginService.db.tables[UserTable].rows, userId.n)).Some? ==>
        && r == Ok(())
        && loginService.db.tables == old(loginService.db.tables)[UserTable :=
             Table(UpdateRows(old(loginService.db.tables[UserTable].rows), userId.n, LogoutData(now)), old(loginService.db.tables[UserTable].nextId))]
    {
      r := loginService.DeleteToken(userId, LogoutData(now));
    }

    /** `logout(req, res, next)` for the header `authorization`. Any token
        that verifies clears its user's stored token, whether or not it is
        the stored one. */
    method Logout(authorization: Option<string>, now: Time) returns (o: Reply)
      requires loginService.db.Valid()
      modifies loginService.db
      ensures loginService.db.Valid()
      ensures BearerToken(authorization).None? ==>
        o == Respond(400, Message("login.NO_TOKEN_PROVIDED")) && loginService.db.tables == old(loginService.db.tables)
      ensures BearerToken(authorization).Some? ==>
        var id := ClaimedUserId(jwt, BearerToken(authorization).value, jwtSecret);
        && (id.Err? ==> o == NextWith(id.error) && loginService.db.tables == old(loginService.db.tables))
        && (id.Ok? && (!id.value.VNum? || old(FindById(loginService.db.tables[UserTable].rows, id.value.n)).None?) ==>
              o == NextWith(StoreError) && loginService.db.tables == old(loginService.db.tables))
        && (id.Ok? && id.value.VNum? && old(FindById(loginService.db.tables[UserTable].rows, id.value.n)).Some? ==>
              && o == Respond(200, Message("login.LOGGED_OUT_SUCCESSFULLY"))
              && loginService.db.tables == old(loginService.db.tables)[UserTable :=
                   Table(UpdateRows(old(loginService.db.tables[UserTable].rows), id.value.n, LogoutData(now)),
                         old(loginService.db.tables[UserTable].nextId))])
    {
      var token := BearerToken(authorization);
      if token.None? {
        return Respond(400, Message("login.NO_TOKEN_PROVIDED"));
      }
      var userId := ClaimedUserId(jwt, token.value, jwtSecret);
      if userId.Err? {
        return NextWith(userId.error);
      }
      var d := DeleteToken(userId.value, now);
      if d.Err? {
        return NextWith(d.error);
      }
      o := Respond(200, Message("login.LOGGED_OUT_SUCCESSFULLY"));
    }
  }

  // ------------------------------------------------------ the session

  /** A token just issued at login and stored on its user passes
      `authMiddleware`, provided `JWT_SECRET` is set (so that login and the
      middleware use the same secret) and the token is a single word. */
  lemma FreshTokenAccepted(j: Jwt, tables: map<TableName, Table>, user: Row, iat: nat, now: Time, env: string)
    requires Sound(j) && env != ""
    requires FindById(BaseService.RowsIn(tables, UserTable), user.id).Some?
    requires var t := IssuedToken(j, tables, user, iat, LoginSecret(env)); t != "" && ' ' !in t
    ensures var t := IssuedToken(j, tables, user, iat, LoginSecret(env));
      Authenticate(Some("Bearer " + t), UpdateRows(BaseService.RowsIn(tables, UserTable), user.id, TokenData(t, now)), j, env) == Next
  {
    var users := BaseService.RowsIn(tables, UserTable);
    var p := TokenPayload(user, ScopeOf(tables, user));
    var t := IssuedToken(j, tables, user, iat, LoginSecret(env));
    BearerTokenOf(t);
    SignedClaim(j, p, Project(AsObject(user)), iat, LoginSecret(env));
    TokenStored(users, user.id, t, now);
    assert TokenOwner(j, t, AuthSecret(env), UpdateRows(users, user.id, TokenData(t, now)))
      == Ok(FindById(UpdateRows(users, user.id, TokenData(t, now)), user.id));
  }

  /** A later login stores a different token: the earlier one, though it
      still verifies, no longer passes `authMiddleware`. */
  lemma SupersededTokenRejected(j: Jwt, users: seq<Row>, id: nat, earlier: string, later: string, now: Time, env: string)
    requires FindById(users, id).Some?
    requires earlier != later && earlier != "" && ' ' !in earlier
    requires ClaimedUserId(j, earlier, AuthSecret(env)) == Ok(VNum(id))
    ensures Authenticate(Some("Bearer " + earlier), UpdateRows(users, id, TokenData(later, now)), j, env) == Respond(401, Fail("INVALID_TOKEN"))
  {
    BearerTokenOf(earlier);
    TokenStored(users, id, later, now);
  }

  /** After logout clears the stored token, no token claiming that user
      passes `authMiddleware`. */
  lemma LoggedOutTokenRejected(j: Jwt, users: seq<Row>, id: nat, now: Time, authorization: Option<string>, env: string)
    requires FindById(users, id).Some?
    requires BearerToken(authorization).Some?
    requires ClaimedUserId(j, BearerToken(authorization).value, AuthSecret(env)) == Ok(VNum(id))
    ensures Authenticate(authorization, UpdateRows(users, id, LogoutData(now)), j, env) == Respond(401, Fail("INVALID_TOKEN"))
  {
    FindAfterUpdate(users, id, LogoutData(now));
    assert "token" in WrittenKeys(LogoutData(now));
  }
}
