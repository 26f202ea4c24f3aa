/** `LoginService`: credential checks and the per-user session token. The
    token issued at login is stored on the user row, overwriting the one
    before it; `bcrypt.compare` is the caller-supplied `compare`, and
    `new Date()` is the parameter `now`. */
module LoginService {
  import opened Wrappers
  import opened Values
  import opened Store
  import opened AppErrors
  import opened Tokens
  import opened BaseService
  import opened UserResponse
  import PermissionService

  /** `bcrypt.compare(password, hash)`: whether the password matches, or
      what it throws (for arguments that are not strings). */
  type Compare = (Value, Value) -> Result<bool, Thrown>

  /** `prisma.user.findUnique({ where: { username } })`: Prisma rejects a
      username that is not a string, and `undefined` leaves the unique
      `where` without a key. */
  function FindByUsername(users: seq<Row>, username: Value): (r: Result<Option<Row>, Thrown>)
    ensures !username.VStr? ==> r == Err(StoreError)
    ensures username.VStr? ==> r.Ok?
    ensures r.Ok? && r.value.Some? ==> r.value.value in users && Column(r.value.value, "username") == username
    ensures username.VStr? ==> (r.value.None? <==> forall i :: 0 <= i < |users| ==> Column(users[i], "username") != username)
  {
    if !username.VStr? then Err(StoreError)
    else
      var found := FindFirst(users, map["username" := Equals(username)]);
      if found.None? then Ok(None)
      else
        assert Holds(Column(found.value, "username"), Equals(username));
        Ok(found)
  }

  /** `validateUser(username, password)`: the user when the name exists and
      the password matches its stored hash, otherwise null. */
  function Validated(users: seq<Row>, username: Value, password: Value, compare: Compare): (r: Result<Option<Row>, Thrown>)
    ensures r.Ok? && r.value.Some? ==>
      && r.value.value in users && Column(r.value.value, "username") == username
      && compare(password, Column(r.value.value, "password")) == Ok(true)
    ensures FindByUsername(users, username) == Ok(None) ==> r == Ok(None)
    ensures (r.Ok? && r.value.Some?) <==>
      && FindByUsername(users, username).Ok? && FindByUsername(users, username).value.Some?
      && compare(password, Column(FindByUsername(users, username).value.value, "password")) == Ok(true)
  {
    var found :- FindByUsername(users, username);
    match found
    case None => Ok(None)
    case Some(user) =>
      var matches :- compare(password, Column(user, "password"));
      if matches then Ok(Some(user)) else Ok(None)
  }

  /** `getById(user.roleId)` over a snapshot: the role's permission rows,
      each with its permission. */
  function ScopeOf(tables: map<TableName, Table>, user: Row): seq<Record> {
    PermissionService.WithPermission(
      Select(RowsIn(tables, RolePermissionTable), PermissionService.RoleWhere(Column(user, "roleId"))),
      RowsIn(tables, PermissionTable))
  }

  /** `{ user: handleUserResponse(user), scope }` */
  function TokenPayload(user: Row, scope: seq<Record>): (p: Record)
    ensures Get(p, "user") == VObject(Project(AsObject(user)))
    ensures Get(Get(p, "user").fields, "id") == VNum(user.id)
    ensures "password" !in Get(p, "user").fields && "token" !in Get(p, "user").fields
    ensures Get(p, "scope").VArray? && |Get(p, "scope").items| == |scope|
    ensures forall i :: 0 <= i < |scope| ==> Get(p, "scope").items[i] == VObject(scope[i])
    ensures p.Keys == {"user", "scope"}
  {
    map["user" := VObject(Project(AsObject(user))),
        "scope" := VArray(seq(|scope|, i requires 0 <= i < |scope| => VObject(scope[i])))]
  }

  /** The token `generateToken(user)` signs against a snapshot. */
  function IssuedToken(j: Jwt, tables: map<TableName, Table>, user: Row, iat: nat, secret: string): string {
    j.sign(VObject(TokenPayload(user, ScopeOf(tables, user))), iat, secret)
  }

  /** The data `updatedUserWithToken` writes. */
  function TokenData(token: string, now: Time): (d: Record)
    ensures d.Keys == {"token", "updatedAt"}
    ensures d["token"] == VStr(token) && d["updatedAt"] == VTime(now)
  {
    map["token" := VStr(token), "updatedAt" := VTime(now)]
  }

  /** After the write, the row's token column is the new token, whatever it
      held before. */
  lemma TokenStored(rows: seq<Row>, id: int, token: string, now: Time)
    requires FindById(rows, id).Some?
    ensures FindById(UpdateRows(rows, id, TokenData(token, now)), id).Some?
    ensures Column(FindById(UpdateRows(rows, id, TokenData(token, now)), id).value, "token") == VStr(token)
  {
    FindAfterUpdate(rows, id, TokenData(token, now));
    assert "token" in WrittenKeys(TokenData(token, now));
  }

  class LoginService {
    const db: Database
    const permissionService: PermissionService.PermissionService
    const jwt: Jwt
    /** `process.env.JWT_SECRET || 'your_jwt_secret'` */
    const secret: string

    constructor (db: Database, permissionService: PermissionService.PermissionService, jwt: Jwt, env: string)
      ensures this.db == db && this.permissionService == permissionService && this.jwt == jwt
      ensures secret == LoginSecret(env)
    {
      this.db := db;
      this.permissionService := permissionService;
      this.jwt := jwt;
      secret := LoginSecret(env);
    }

    /** `getUserByUsername(username)` */
    method GetUserByUsername(username: Value) returns (r: Result<Option<Row>, Thrown>)
      requires db.Valid()
      ensures r == FindByUsername(db.Rows(UserTable), username)
    {
      r := FindByUsername(db.tables[UserTable].rows, username);
    }

    /** `validateUser(username, password)` */
    method ValidateUser(username: Value, password: Value, compare: Compare) returns (r: Result<Option<Row>, Thrown>)
      requires db.Valid()
      ensures r == Validated(db.Rows(UserTable), username, password, compare)
    {
      var found := GetUserByUsername(username);
      if found.Err? {
        return Err(found.error);
      }
      if found.value.None? {
        return Ok(None);
      }
      var user := found.value.value;
      var matches := compare(password, Column(user, "password"));
      if matches.Err? {
        return Err(matches.error);
      }
      r := if matches.value then Ok(Some(user)) else Ok(None);
    }

    /** `updatedUserWithToken(userId, token)`: writes the token and the
        update time; Prisma throws when no row has the id. */
    method UpdatedUserWithToken(userId: int, token: string, now: Time) returns (r: Result<(), Thrown>)
      requires db.Valid()
      modifies db
      ensures db.Valid()
      ensures old(FindById(db.tables[UserTable].rows, userId)).None? ==> r == Err(StoreError) && db.tables == old(db.tables)
      ensures old(FindById(db.tables[UserTable].rows, userId)).Some? ==>
        && r == Ok(())
        && db.tables == old(db.tables)[UserTable := Table(UpdateRows(old(db.tables[UserTable].rows), userId, TokenData(token, now)),
                                                          old(db.tables[UserTable].nextId))]
    {
      var u := db.Update(UserTable, userId, TokenData(token, now));
      if u.Err? {
        return Err(u.error);
      }
      r := Ok(());
    }

    /** `generateToken(user)`: null for no user; otherwise the signed token,
        stored on the user before it is returned. */
    method GenerateToken(user: Option<Row>, iat: nat, now: Time) returns (r: Result<Option<string>, Thrown>)
      requires db.Valid() && permissionService.db == db
      modifies db
      ensures db.Valid()
      ensures user.None? ==> r == Ok(None) && db.tables == old(db.tables)
      ensures user.Some? && old(FindById(db.tables[UserTable].rows, user.value.id)).None? ==>
        r == Err(StoreError) && db.tables == old(db.tables)
      ensures user.Some? && old(FindById(db.tables[UserTable].rows, user.value.id)).Some? ==>
        var t := IssuedToken(jwt, old(db.tables), user.value, iat, secret);
        && r == Ok(Some(t))
        && db.tables == old(db.tables)[UserTable := Table(UpdateRows(old(db.tables[UserTable].rows), user.value.id, TokenData(t, now)),
                                                          old(db.tables[UserTable].nextId))]
    {
      if user.None? {
        return Ok(None);
      }
      var u := user.value;
      var scope := permissionService.GetById(Column(u, "roleId"));
      assert scope == ScopeOf(db.tables, u);
      var token := jwt.sign(VObject(TokenPayload(u, scope)), iat, secret);
      var w := UpdatedUserWithToken(u.id, token, now);
      if w.Err? {
        return Err(w.error);
      }
      r := Ok(Some(token));
    }

    /** `deleteToken(userId, data)`: writes exactly `data` over the user;
        an id that is not a number is rejected by Prisma, and so is an id
        no row has. */
    method DeleteToken(userId: Value, data: Record) returns (r: Result<(), Thrown>)
      requires db.Valid()
      modifies db
      ensures db.Valid()
      ensures (!userId.VNum? || old(FindById(db.tables[UserTable].rows, userId.n)).None?) ==>
        r == Err(StoreError) && db.tables == old(db.tables)
      ensures userId.VNum? && old(FindById(db.tables[UserTable].rows, userId.n)).Some? ==>
        && r == Ok(())
        && db.tables == old(db.tables)[UserTable := Table(UpdateRows(old(db.tables[UserTable].rows), userId.n, data),
                                                          old(db.tables[UserTable].nextId))]
    {
      if !userId.VNum? {
        return Err(StoreError);
      }
      var u := db.Update(UserTable, userId.n, data);
      if u.Err? {
        return Err(u.error);
      }
      r := Ok(());
    }
  }
}
