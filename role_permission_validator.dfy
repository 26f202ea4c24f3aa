/** `rolePermissionValidationRules`: `roleId` an integer, `permissions` a
    non-empty array, and every element's `permissionId` and four flags
    integers. The flags are not limited to 0 and 1. */
module RolePermissionValidator {
  import opened Values
  import opened Strings
  import opened Validation

  /** The fields of one `permissions` element that a wildcard path reads;
      an element that is not an object has none. */
  function ElementFields(v: Value): Record {
    if v.VObject? then v.fields else map[]
  }

  /** The wildcard chain `permissions.*.<field>`: one `isInt` per element,
      in order, over the elements of an array `permissions`. (For a plain
      object the wildcard would select its values instead; the model does
      not need them, because such a `permissions` already fails `isArray`.) */
  function EachIsInt(items: seq<Value>, field: string, key: string, from: nat): (r: seq<FieldError>)
    requires from <= |items|
    ensures r == [] <==> forall i :: from <= i < |items| ==> IsInt(Get(ElementFields(items[i]), field))
    ensures |r| <= |items| - from
    decreases |items| - from
  {
    if from == |items| then []
    else
      Rule(IsInt(Get(ElementFields(items[from]), field)), "permissions[" + NatToString(from) + "]." + field, key)
      + EachIsInt(items, field, key, from + 1)
  }

  function Elements(permissions: Value): seq<Value> {
    if permissions.VArray? then permissions.items else []
  }

  /** Every element has `field` as an integer. */
  predicate EachInt(items: seq<Value>, field: string) {
    forall i :: 0 <= i < |items| ==> IsInt(Get(ElementFields(items[i]), field))
  }

  /** The five wildcard chains, in the order of the rules. */
  function ElementErrors(items: seq<Value>): (r: seq<FieldError>)
    ensures r == [] <==>
      EachInt(items, "permissionId") && EachInt(items, "add") && EachInt(items, "edit")
      && EachInt(items, "remove") && EachInt(items, "view")
  {
    var p := EachIsInt(items, "permissionId", "permission.PERMISSION_ID_MUSTBE_NUMBER", 0);
    var a := EachIsInt(items, "add", "permission.ADD_MUSTBE_NUMBER", 0);
    var e := EachIsInt(items, "edit", "permission.EDIT_MUSTBE_NUMBER", 0);
    var d := EachIsInt(items, "remove", "permission.REMOVE_MUSTBE_NUMBER", 0);
    var v := EachIsInt(items, "view", "permission.VIEW_MUSTBE_NUMBER", 0);
    assert p == [] <==> EachInt(items, "permissionId");
    assert a == [] <==> EachInt(items, "add");
    assert e == [] <==> EachInt(items, "edit");
    assert d == [] <==> EachInt(items, "remove");
    assert v == [] <==> EachInt(items, "view");
    assert |p + a + e + d + v| == |p| + |a| + |e| + |d| + |v|;
    p + a + e + d + v
  }

  /** The errors of `rolePermissionValidationRules()` for `body`. */
  function RolePermissionErrors(body: Record): (r: seq<FieldError>)
    ensures r == [] <==>
      && IsInt(Get(body, "roleId"))
      && Get(body, "permissions").VArray? && |Get(body, "permissions").items| >= 1
      && var items := Get(body, "permissions").items;
         EachInt(items, "permissionId") && EachInt(items, "add") && EachInt(items, "edit")
         && EachInt(items, "remove") && EachInt(items, "view")
  {
    var permissions := Get(body, "permissions");
    Rule(IsInt(Get(body, "roleId")), "roleId", "permission.ROLEID_MUSTBE_NUMBER")
    + Rule(permissions.VArray? && |permissions.items| >= 1, "permissions", "permission.PERMISSION_INVALID_INPUTDATA")
    + ElementErrors(Elements(permissions))
  }

  /** A flag of 7 is as good as 1: the rules only ask for an integer. */
  lemma AnyIntegerFlag(flag: int)
    ensures var element := VObject(map["permissionId" := VNum(1), "add" := VNum(flag), "edit" := VNum(flag),
                                       "remove" := VNum(flag), "view" := VNum(flag)]);
      RolePermissionErrors(map["roleId" := VNum(1), "permissions" := VArray([element])]) == []
  {
    IntTextIsInt(flag);
    IntTextIsInt(1);
  }
}
