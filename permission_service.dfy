/** `PermissionService`: the base service over the role-permission table,
    with `create`, `getById` and `delete` replaced. A role's permissions are
    stored as one row per granted permission; `create` replaces the whole
    set, and `delete` removes it outright. `new Date()` is the parameter
    `now`. */
module PermissionService {
  import opened Wrappers
  import opened Values
  import opened Store
  import opened AppErrors
  import opened BaseService

  /** `{ roleId }` as a `where`; an undefined `roleId` is no condition. */
  function RoleWhere(roleId: Value): Where {
    map["roleId" := Equals(roleId)]
  }

  /** The keys `...permission` contributes: an object's own entries, and
      nothing for a non-object element. */
  function Spread(v: Value): Record {
    if v.VObject? then v.fields else map[]
  }

  /** The row data for one element: `roleId` first, the element's own keys
      over it, then both time stamps. */
  function PermissionData(roleId: Value, p: Value, now: Time): (d: Record)
    ensures "roleId" in d && "createdAt" in d && "updatedAt" in d
    ensures d["createdAt"] == VTime(now) && d["updatedAt"] == VTime(now)
    ensures "roleId" !in Spread(p) ==> d["roleId"] == roleId
    ensures "roleId" in Spread(p) ==> d["roleId"] == Spread(p)["roleId"]
    ensures forall k :: k in Spread(p) && k != "createdAt" && k != "updatedAt" ==> k in d && d[k] == Spread(p)[k]
    ensures forall k :: k in d ==> k in Spread(p) || k in {"roleId", "createdAt", "updatedAt"}
  {
    (map["roleId" := roleId] + Spread(p))["createdAt" := VTime(now)]["updatedAt" := VTime(now)]
  }

  function PermissionsData(roleId: Value, ps: seq<Value>, now: Time): (r: seq<Record>)
    ensures |r| == |ps|
    ensures forall i :: 0 <= i < |ps| ==> r[i] == PermissionData(roleId, ps[i], now)
  {
    seq(|ps|, i requires 0 <= i < |ps| => PermissionData(roleId, ps[i], now))
  }

  /** The table after `delete(roleId)`. */
  function Deleted(t: Table, roleId: Value): Table {
    Table(Reject(t.rows, RoleWhere(roleId)), t.nextId)
  }

  /** The table after `create({ roleId, permissions })`. */
  function Replaced(t: Table, roleId: Value, ps: seq<Value>, now: Time): Table {
    Table(Reject(t.rows, RoleWhere(roleId)) + NewRows(t.nextId, PermissionsData(roleId, ps, now)), t.nextId + |ps|)
  }

  /** No element of the list overrides `roleId` through its own keys. */
  predicate KeepsRole(ps: seq<Value>) {
    forall i :: 0 <= i < |ps| ==> "roleId" !in Spread(ps[i])
  }

  /** Every inserted row carries the role's id. */
  lemma NewRowsCarryRole(start: nat, roleId: Value, ps: seq<Value>, now: Time)
    requires roleId != VUndefined && KeepsRole(ps)
    ensures var added := NewRows(start, PermissionsData(roleId, ps, now));
      forall i :: 0 <= i < |added| ==> Column(added[i], "roleId") == roleId
  {
    var added := NewRows(start, PermissionsData(roleId, ps, now));
    forall i | 0 <= i < |added| ensures Column(added[i], "roleId") == roleId {
      var d := PermissionData(roleId, ps[i], now);
      assert "roleId" in WrittenKeys(d);
    }
  }

  /** After `create`, the role's rows are exactly the new ones, one per
      element in order: nothing of the previous set is left and nothing is
      merged with it. */
  lemma ExactlyNewSet(t: Table, roleId: Value, ps: seq<Value>, now: Time)
    requires roleId != VUndefined && KeepsRole(ps)
    ensures Select(Replaced(t, roleId, ps, now).rows, RoleWhere(roleId)) == NewRows(t.nextId, PermissionsData(roleId, ps, now))
    ensures |Select(Replaced(t, roleId, ps, now).rows, RoleWhere(roleId))| == |ps|
  {
    var w := RoleWhere(roleId);
    var kept := Reject(t.rows, w);
    var added := NewRows(t.nextId, PermissionsData(roleId, ps, now));
    SelectConcat(kept, added, w);
    forall i | 0 <= i < |kept| ensures !Matches(kept[i], w) {
      assert kept[i] in kept;
    }
    SelectNone(kept, w);
    NewRowsCarryRole(t.nextId, roleId, ps, now);
    forall i | 0 <= i < |added| ensures Matches(added[i], w) {
      assert Holds(Column(added[i], "roleId"), w["roleId"]);
    }
    SelectAll(added, w);
  }

  /** Another role's rows are the same before and after `create`. */
  lemma OtherRolesUntouched(t: Table, roleId: Value, other: Value, ps: seq<Value>, now: Time)
    requires roleId != VUndefined && other != VUndefined && other != roleId && KeepsRole(ps)
    ensures Select(Replaced(t, roleId, ps, now).rows, RoleWhere(other)) == Select(t.rows, RoleWhere(other))
    ensures Select(Deleted(t, roleId).rows, RoleWhere(other)) == Select(t.rows, RoleWhere(other))
  {
    var w := RoleWhere(roleId);
    var v := RoleWhere(other);
    var added := NewRows(t.nextId, PermissionsData(roleId, ps, now));
    forall i | 0 <= i < |t.rows| && Matches(t.rows[i], v) ensures !Matches(t.rows[i], w) {
      assert Holds(Column(t.rows[i], "roleId"), v["roleId"]);
    }
    SelectAfterReject(t.rows, w, v);
    SelectConcat(Reject(t.rows, w), added, v);
    NewRowsCarryRole(t.nextId, roleId, ps, now);
    forall i | 0 <= i < |added| ensures !Matches(added[i], v) {
      assert Column(added[i], "roleId") == roleId;
      assert !Holds(Column(added[i], "roleId"), v["roleId"]);
    }
    SelectNone(added, v);
  }

  /** With `roleId` undefined the `where` is empty, so `delete` removes
      every row of the table. */
  lemma {:induction false} UndefinedRoleDeletesAll(t: Table)
    ensures Deleted(t, VUndefined).rows == []
  {
    forall x | x in t.rows ensures Matches(x, RoleWhere(VUndefined)) {
    }
    RejectEverything(t.rows, RoleWhere(VUndefined));
  }

  lemma {:induction false} RejectEverything(rows: seq<Row>, w: Where)
    requires forall x :: x in rows ==> Matches(x, w)
    ensures Reject(rows, w) == []
  {
    if |rows| > 0 {
      assert forall x :: x in rows[1..] ==> x in rows;
      RejectEverything(rows[1..], w);
    }
  }

  /** `getById` matches the role id alone: deleted or not, every row of the
      role is listed, and no other. */
  lemma RoleRowsListed(rows: seq<Row>, roleId: Value)
    requires roleId != VUndefined
    ensures forall x :: x in Select(rows, RoleWhere(roleId)) <==> x in rows && Column(x, "roleId") == roleId
  {
    forall x | x in rows && Matches(x, RoleWhere(roleId)) ensures Column(x, "roleId") == roleId {
      assert Holds(Column(x, "roleId"), RoleWhere(roleId)["roleId"]);
    }
  }

  /** The `permission` relation of a role-permission row: the permission
      whose id is the row's `permissionId`, or null. */
  function PermissionOf(row: Row, permissions: seq<Row>): (v: Value)
    ensures v.VNull? || v.VObject?
    ensures v.VObject? ==> exists p :: p in permissions && Column(row, "permissionId") == VNum(p.id) && v.fields == AsObject(p)
  {
    var pid := Column(row, "permissionId");
    if pid.VNum? then
      match FindById(permissions, pid.n)
      case Some(p) => VObject(AsObject(p))
      case None => VNull
    else VNull
  }

  /** The rows with `include: { permission: true }`. */
  function WithPermission(rows: seq<Row>, permissions: seq<Row>): (r: seq<Record>)
    ensures |r| == |rows|
    ensures forall i :: 0 <= i < |rows| ==>
      r[i] == AsObject(rows[i])["permission" := PermissionOf(rows[i], permissions)]
  {
    seq(|rows|, i requires 0 <= i < |rows| => AsObject(rows[i])["permission" := PermissionOf(rows[i], permissions)])
  }

  class PermissionService {
    const db: Database
    /** The inherited operations (`getAll`, `update`) on the role-permission
        table; no allow-lists and no guards. */
    const base: EntityService

    constructor (db: Database)
      ensures this.db == db && base.db == db && base.model == RolePermissionTable
      ensures base.insertableFields == [] && base.updatableFields == [] && base.relatedModels == []
    {
      this.db := db;
      base := new EntityService(db, RolePermissionTable, [], [], []);
    }

    /** `delete(roleId)`: a hard `deleteMany`, with no guard. */
    method Delete(roleId: Value)
      requires db.Valid()
      modifies db
      ensures db.Valid()
      ensures db.tables == old(db.tables)[RolePermissionTable := Deleted(old(db.tables[RolePermissionTable]), roleId)]
    {
      var count := db.DeleteMany(RolePermissionTable, RoleWhere(roleId));
    }

    /** `create({ roleId, permissions })`: the delete, then one inserted row
        per element; the result is the inserted count. When `permissions`
        is not an array `map` throws, after the delete has happened. */
    method Create(data: Record, now: Time) returns (r: Result<nat, Thrown>)
      requires db.Valid()
      modifies db
      ensures db.Valid()
      ensures !Get(data, "permissions").VArray? ==>
        && r == Err(TypeError)
        && db.tables == old(db.tables)[RolePermissionTable := Deleted(old(db.tables[RolePermissionTable]), Get(data, "roleId"))]
      ensures Get(data, "permissions").VArray? ==>
        && r == Ok(|Get(data, "permissions").items|)
        && db.tables == old(db.tables)[RolePermissionTable :=
             Replaced(old(db.tables[RolePermissionTable]), Get(data, "roleId"), Get(data, "permissions").items, now)]
    {
      var roleId := Get(data, "roleId");
      var permissions := Get(data, "permissions");
      Delete(roleId);
      if !permissions.VArray? {
        return Err(TypeError);
      }
      var count := db.CreateMany(RolePermissionTable, PermissionsData(roleId, permissions.items, now));
      r := Ok(count);
    }

    /** `getById(roleId)`: the role's rows, each with its permission. */
    method GetById(roleId: Value) returns (r: seq<Record>)
      requires db.Valid()
      ensures r == WithPermission(Select(db.Rows(RolePermissionTable), RoleWhere(roleId)), db.Rows(PermissionTable))
    {
      r := WithPermission(Select(db.tables[RolePermissionTable].rows, RoleWhere(roleId)), db.tables[PermissionTable].rows);
    }
  }
}
