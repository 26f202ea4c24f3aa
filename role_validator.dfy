/** `roleValidationRules` and `roleUpdateValidationRules`: the checks on a
    role's body, over a snapshot of the role table. The uniqueness lookups
    have no soft-delete condition, so a deleted role still holds its name. */
module RoleValidator {
  import opened Wrappers
  import opened Values
  import opened Store
  import opened Strings
  import opened Validation

  /** The `custom` uniqueness check on create. */
  function NameFree(name: Value, roles: seq<Row>): seq<FieldError> {
    match Lookup(roles, "name", name)
    case Err(e) => LookupFailed("name", e)
    case Ok(None) => []
    case Ok(Some(_)) => [FieldError("name", Key("validator.ROLE_NAME_MUST_BE_UNIQUE"))]
  }

  /** The errors of `roleValidationRules()` for `body`. */
  function RoleCreateErrors(body: Record, roles: seq<Row>): (r: seq<FieldError>)
    ensures r == [] <==>
      var name := Get(body, "name");
      && name.VStr? && name.s != "" && TextLength(name.s) <= 190
      && forall i :: 0 <= i < |roles| ==> Column(roles[i], "name") != name
    ensures |r| <= 4
    ensures forall i :: 0 <= i < |r| ==> r[i].path == "name"
  {
    var name := Get(body, "name");
    LookupFinds(roles, "name", name);
    Rule(NotEmpty(name), "name", "validator.ROLE_NAME_IS_REQUIRED")
    + Rule(IsString(name), "name", "validator.ROLE_NAME_MUST_BE_A_STRING")
    + Rule(MaxLength(name, 190), "name", "validator.ROLE_NAME_MUST_BE_LESS_THAN_191_CHARACTERS")
    + NameFree(name, roles)
  }

  /** The `name` chain on update: the holder of the name must be the role
      being updated, compared as `role.id !== Number(id)`. An undefined
      name is not checked at all. */
  function UpdateNameErrors(name: Value, idParam: string, roles: seq<Row>): (r: seq<FieldError>)
    ensures r == [] <==>
      name != VUndefined ==>
        && name.VStr? && TextLength(name.s) <= 190
        && (Holder(roles, "name", name.s).None? || JsNumber(VStr(idParam)) == VNum(Holder(roles, "name", name.s).value.id))
  {
    if name == VUndefined then []
    else
      Rule(IsString(name), "name", "validator.ROLE_NAME_MUST_BE_A_STRING")
      + Rule(MaxLength(name, 190), "name", "validator.ROLE_NAME_MUST_BE_LESS_THAN_191_CHARACTERS")
      + match Lookup(roles, "name", name)
        case Err(e) => LookupFailed("name", e)
        case Ok(None) => []
        case Ok(Some(role)) =>
          if VNum(role.id) != JsNumber(VStr(idParam)) then [FieldError("name", Key("validator.ROLE_NAME_MUST_BE_UNIQUE"))] else []
  }

  /** The `status` chain: optional, then `toInt().isInt()`. */
  function StatusErrors(status: Value): (r: seq<FieldError>)
    ensures r == [] <==> (status != VUndefined ==> ParseInt(FieldText(status)).Some?)
  {
    ToIntIsInt(status);
    if status == VUndefined then []
    else Rule(IsInt(ToInt(status)), "status", "validator.STATUS_MUST_BE_A_VALID_INTEGER")
  }

  /** The errors of `roleUpdateValidationRules()` for `body` and the path
      parameter `idParam`. */
  function RoleUpdateErrors(body: Record, idParam: string, roles: seq<Row>): (r: seq<FieldError>)
    ensures Get(body, "name") == VUndefined && Get(body, "status") == VUndefined ==> r == []
    ensures r == [] <==> UpdateNameErrors(Get(body, "name"), idParam, roles) == [] && StatusErrors(Get(body, "status")) == []
  {
    UpdateNameErrors(Get(body, "name"), idParam, roles) + StatusErrors(Get(body, "status"))
  }

  /** Keeping one's own name passes: the holder is the role being updated. */
  lemma OwnNameAccepted(name: string, id: nat, roles: seq<Row>)
    requires TextLength(name) <= 190
    requires var h := Holder(roles, "name", name); h.Some? && h.value.id == id
    ensures UpdateNameErrors(VStr(name), NatToString(id), roles) == []
  {
    NumberOfNatText(id);
  }

  /** A status that `parseInt` reads only in part still passes: `"12abc"`
      is sanitised to 12 before `isInt` runs. */
  lemma PartialStatusPasses()
    ensures StatusErrors(VStr("12abc")) == []
  {
    assert !IsJsSpace('1');
    assert TrimStart("12abc") == "12abc";
    assert IsDigit("12abc"[0]);
  }
}
