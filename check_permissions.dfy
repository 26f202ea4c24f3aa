/** `checkPermissions(required)`: the middleware that admits a request when
    the token's user has, through its role, every required (permission,
    action) pair. The role and its role permissions are read without any
    soft-delete condition. */
module CheckPermissions {
  import opened Wrappers
  import opened Values
  import opened Store
  import opened AppErrors
  import opened Http
  import opened Tokens
  import opened BaseService
  import PermissionService

  datatype Action = Add | Edit | Remove | View

  /** One entry of the route's required list. */
  datatype Required = Required(permission: string, action: Action)

  /** One element of `userPermissions`: the permission's name and the four
      flags of the role-permission row. */
  datatype UserPermission = UserPermission(permission: Value, add: Value, edit: Value, remove: Value, view: Value)

  /** `userPerm.actions[action]` */
  function Flag(up: UserPermission, a: Action): Value {
    match a
    case Add => up.add
    case Edit => up.edit
    case Remove => up.remove
    case View => up.view
  }

  /** `userPermissions.find(up => up.permission === name)`, as an index. */
  function Find(ups: seq<UserPermission>, name: string): (r: Option<nat>)
    ensures r.Some? ==> r.value < |ups| && ups[r.value].permission == VStr(name)
    ensures r.Some? ==> forall k :: 0 <= k < r.value ==> ups[k].permission != VStr(name)
    ensures r.None? <==> forall k :: 0 <= k < |ups| ==> ups[k].permission != VStr(name)
  {
    if |ups| == 0 then None
    else if ups[0].permission == VStr(name) then Some(0)
    else match Find(ups[1..], name)
      case None => None
      case Some(k) => Some(k + 1)
  }

  /** One required pair passes: the first entry with that name has the
      action's flag exactly 1. */
  predicate Grants(ups: seq<UserPermission>, req: Required) {
    match Find(ups, req.permission)
    case None => false
    case Some(k) => Flag(ups[k], req.action) == VNum(1)
  }

  /** `requiredPermissions.every(...)`: all pairs pass. */
  function HasPermission(required: seq<Required>, ups: seq<UserPermission>): (b: bool)
    ensures b <==> forall i :: 0 <= i < |required| ==> Grants(ups, required[i])
  {
    if |required| == 0 then true
    else Grants(ups, required[0]) && HasPermission(required[1..], ups)
  }

  /** A name missing from the role denies any pair that needs it. */
  lemma MissingPermissionDenies(required: seq<Required>, ups: seq<UserPermission>, i: nat)
    requires i < |required|
    requires forall k :: 0 <= k < |ups| ==> ups[k].permission != VStr(required[i].permission)
    ensures !HasPermission(required, ups)
  {
  }

  /** The first entry for a name decides: a later duplicate granting the
      action does not help when the first one does not. */
  lemma FirstEntryDecides(first: UserPermission, rest: seq<UserPermission>, req: Required)
    requires first.permission == VStr(req.permission) && Flag(first, req.action) != VNum(1)
    ensures !Grants([first] + rest, req)
  {
  }

  /** The elements of `userPermissions`, built from the role's rows; a row
      whose permission is missing makes `.name` throw. */
  function UserPermissions(rows: seq<Row>, permissions: seq<Row>): (r: Result<seq<UserPermission>, Thrown>)
    ensures r.Ok? ==> |r.value| == |rows|
    ensures r.Ok? ==> forall i :: 0 <= i < |rows| ==>
      r.value[i].add == Column(rows[i], "add") && r.value[i].edit == Column(rows[i], "edit")
      && r.value[i].remove == Column(rows[i], "remove") && r.value[i].view == Column(rows[i], "view")
    ensures r.Ok? ==> forall i :: 0 <= i < |rows| ==>
      PermissionService.PermissionOf(rows[i], permissions).VObject? &&
      r.value[i].permission == Get(PermissionService.PermissionOf(rows[i], permissions).fields, "name")
    ensures r.Err? <==> exists i :: 0 <= i < |rows| && PermissionService.PermissionOf(rows[i], permissions).VNull?
  {
    if |rows| == 0 then Ok([])
    else
      var p := PermissionService.PermissionOf(rows[0], permissions);
      if p.VNull? then Err(TypeError)
      else
        var rest :- UserPermissions(rows[1..], permissions);
        var first := UserPermission(Get(p.fields, "name"), Column(rows[0], "add"), Column(rows[0], "edit"),
                                    Column(rows[0], "remove"), Column(rows[0], "view"));
        Ok([first] + rest)
  }

  /** The user's role by its `roleId`, deleted or not; a user without a role
      makes `user.role.rolePermissions` throw. */
  function RoleOf(user: Row, roles: seq<Row>): (r: Result<Row, Thrown>)
    ensures r.Ok? ==> r.value in roles && Column(user, "roleId") == VNum(r.value.id)
  {
    var roleId := Column(user, "roleId");
    if !roleId.VNum? then Err(TypeError)
    else
      match FindById(roles, roleId.n)
      case None => Err(TypeError)
      case Some(role) => Ok(role)
  }

  /** What the guards establish before the decision: the user's permission
      list, `None` when the token's user does not exist, or the error
      thrown on the way. */
  function Scope(token: string, tables: map<TableName, Table>, j: Jwt, env: string): Result<Option<seq<UserPermission>>, Thrown> {
    var id :- ClaimedUserId(j, token, PermissionSecret(env));
    var user :- FindUser(RowsIn(tables, UserTable), id);
    if user.None? then Ok(None)
    else
      var role :- RoleOf(user.value, RowsIn(tables, RoleTable));
      var rows := Select(RowsIn(tables, RolePermissionTable), map["roleId" := Equals(VNum(role.id))]);
      var ups :- UserPermissions(rows, RowsIn(tables, PermissionTable));
      Ok(Some(ups))
  }

  /** The middleware's reply. */
  function Decide(required: seq<Required>, authorization: Option<string>, tables: map<TableName, Table>, j: Jwt, env: string): (o: Reply)
    ensures BearerToken(authorization).None? ==> o == Respond(401, Message("UNAUTHORIZED"))
    ensures BearerToken(authorization).Some? ==>
      var s := Scope(BearerToken(authorization).value, tables, j, env);
      && (s.Err? ==> o == NextWith(s.error))
      && (s == Ok(None) ==> o == Respond(404, Fail("user.USER_NOT_FOUND")))
      && (s.Ok? && s.value.Some? ==>
            (o == Next <==> HasPermission(required, s.value.value))
            && (!HasPermission(required, s.value.value) ==> o == Respond(403, Fail("NOT_AUTHORIZED_ACTION"))))
  {
    match BearerToken(authorization)
    case None => Respond(401, Message("UNAUTHORIZED"))
    case Some(token) =>
      match Scope(token, tables, j, env)
      case Err(e) => NextWith(e)
      case Ok(None) => Respond(404, Fail("user.USER_NOT_FOUND"))
      case Ok(Some(ups)) =>
        if HasPermission(required, ups) then Next
        else Respond(403, Fail("NOT_AUTHORIZED_ACTION"))
  }

  /** An empty required list admits every user the guards let through. */
  lemma NothingRequired(authorization: Option<string>, tables: map<TableName, Table>, j: Jwt, env: string)
    requires BearerToken(authorization).Some?
    requires var s := Scope(BearerToken(authorization).value, tables, j, env); s.Ok? && s.value.Some?
    ensures Decide([], authorization, tables, j, env) == Next
  {
  }
}
