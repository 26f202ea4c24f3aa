/** `RoleService`: the base service over the role table, with no
    allow-lists and two related-data guards. */
module RoleService {
  import opened Wrappers
  import opened Values
  import opened Store
  import opened BaseService

  /** Users and then role permissions, both through `roleId`. */
  const RoleRelatedModels: seq<RelatedModel> :=
    [RelatedModel(UserTable, "roleId"), RelatedModel(RolePermissionTable, "roleId")]

  /** The service the constructor configures. */
  method NewRoleService(db: Database) returns (s: EntityService)
    ensures s.db == db && s.model == RoleTable
    ensures s.insertableFields == [] && s.updatableFields == []
    ensures s.relatedModels == RoleRelatedModels
  {
    s := new EntityService(db, RoleTable, [], [], RoleRelatedModels);
  }

  /** A live row of `table` whose `roleId` is the role's id. */
  predicate LiveReferrer(tables: map<TableName, Table>, table: TableName, id: int) {
    exists x :: x in RowsIn(tables, table) && Column(x, "roleId") == VNum(id) && x.deletedAt.None?
  }

  /** A role can be deleted exactly when no live user and no live role
      permission refers to it; otherwise the guard reports Conflict. */
  lemma DeleteGuard(tables: map<TableName, Table>, id: int)
    ensures RelatedCheck(tables, RoleRelatedModels, id).Err? <==>
      LiveReferrer(tables, UserTable, id) || LiveReferrer(tables, RolePermissionTable, id)
    ensures RelatedCheck(tables, RoleRelatedModels, id).Err? ==>
      RelatedCheck(tables, RoleRelatedModels, id).error == RelatedDataConflict
  {
    BlocksIff(tables, RoleRelatedModels[0], id);
    BlocksIff(tables, RoleRelatedModels[1], id);
  }

  /** A live user referring to the role blocks its deletion, and the user
      guard is the one reached first. */
  lemma LiveUserBlocks(tables: map<TableName, Table>, id: int, u: Row)
    requires u in RowsIn(tables, UserTable) && Column(u, "roleId") == VNum(id) && u.deletedAt.None?
    ensures RelatedCheck(tables, RoleRelatedModels, id) == Err(RelatedDataConflict)
    ensures FirstBlockingFrom(tables, RoleRelatedModels, id, 0) == Some(0)
  {
    BlocksIff(tables, RoleRelatedModels[0], id);
  }

  /** A live role permission referring to the role blocks its deletion. */
  lemma LiveRolePermissionBlocks(tables: map<TableName, Table>, id: int, p: Row)
    requires p in RowsIn(tables, RolePermissionTable) && Column(p, "roleId") == VNum(id) && p.deletedAt.None?
    ensures RelatedCheck(tables, RoleRelatedModels, id) == Err(RelatedDataConflict)
  {
    DeleteGuard(tables, id);
  }
}
