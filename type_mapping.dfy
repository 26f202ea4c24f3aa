/** `mapPrismaTypeToTS`, `mapPrismaTypeToSwagger` and `generateSwagger`:
    how the generator names a stored Prisma type in TypeScript and in the
    Swagger definition, and which fields that definition lists and marks
    required. */
module TypeMapping {
  import opened Strings
  import opened SchemaLines
  import opened ModelDefinition
  import opened ValidationRules

  /** The table of `mapPrismaTypeToTS`. */
  const TsTable: map<string, string> := map[
    "String" := "string", "Int" := "number", "Float" := "number", "Boolean" := "boolean",
    "DateTime" := "Date", "Decimal" := "number", "BigInt" := "bigint", "Json" := "any", "Bytes" := "Buffer"]

  /** The table of `mapPrismaTypeToSwagger`. */
  const SwaggerTable: map<string, string> := map[
    "String" := "string", "Int" := "integer", "Float" := "number", "Boolean" := "boolean", "DateTime" := "string"]

  /** `map[baseType] || baseType`: a type the table does not list passes
      through. */
  function TsName(base: string): string {
    if base in TsTable then TsTable[base] else base
  }

  /** `map[baseType] || 'string'` */
  function SwaggerName(base: string): string {
    if base in SwaggerTable then SwaggerTable[base] else "string"
  }

  /** `mapPrismaTypeToTS(prismaType)`: the first `[]` and the first
      `| undefined` are removed to find the base type; the suffixes are put
      back after its TypeScript name. */
  function TsType(prismaType: string): string {
    var isArray := EndsWith(prismaType, "[]");
    var isOptional := Contains(prismaType, "| undefined");
    var base := ReplaceFirst(ReplaceFirst(prismaType, "[]", ""), "| undefined", "");
    TsName(base) + (if isArray then "[]" else "") + (if isOptional then " | undefined" else "")
  }

  /** `mapPrismaTypeToSwagger(prismaType)` */
  function SwaggerType(prismaType: string): string {
    var base := ReplaceFirst(prismaType, "[]", "");
    if EndsWith(prismaType, "[]") then "array[" + SwaggerName(base) + "]" else SwaggerName(base)
  }

  /** In `base + "[]"` with no `[` in `base`, the first `[]` is the
      suffix. */
  lemma SuffixFound(base: string)
    requires '[' !in base
    ensures IndexOf(base + "[]", "[]") == |base|
  {
    var s := base + "[]";
    assert s[|base|..|base| + 2] == "[]";
    assert OccursAt(s, "[]", |base|);
    forall j | 0 <= j < |base| ensures !OccursAt(s, "[]", j) {
      assert s[j] == base[j];
    }
    var r := IndexOf(s, "[]");
    assert r != -1;
    assert r <= |base|;
  }

  lemma ReplaceSuffix(base: string)
    requires '[' !in base
    ensures ReplaceFirst(base + "[]", "[]", "") == base
  {
    SuffixFound(base);
    var s := base + "[]";
    assert s[..|base|] == base && s[|base| + 2..] == "";
  }

  lemma ReplaceAbsent(s: string, sub: string, rep: string)
    requires sub != "" && sub[0] !in s
    ensures ReplaceFirst(s, sub, rep) == s
  {
    AbsentAt(s, sub, 0);
  }

  /** A type as the generator stores it maps to the table's name for its
      base, unknown bases passing through, with the list suffix kept. */
  lemma TsOfStoredType(base: string, list: bool)
    requires '[' !in base && ']' !in base && '|' !in base
    ensures TsType(base + (if list then "[]" else "")) == TsName(base) + (if list then "[]" else "")
  {
    var t := base + (if list then "[]" else "");
    assert '|' !in t;
    AbsentAt(t, "| undefined", 0);
    ReplaceAbsent(if list then base else t, "| undefined", "");
    if list {
      ReplaceSuffix(base);
      assert EndsWith(t, "[]");
    } else {
      assert t == base;
      ReplaceAbsent(t, "[]", "");
    }
  }

  /** A stored list type is an `array[...]` of its base's Swagger name, and
      any other type is its base's name, `string` for a base the table does
      not list. */
  lemma SwaggerOfStoredType(base: string, list: bool)
    requires '[' !in base && ']' !in base
    ensures SwaggerType(base + (if list then "[]" else ""))
      == if list then "array[" + SwaggerName(base) + "]" else SwaggerName(base)
  {
    var t := base + (if list then "[]" else "");
    if list {
      ReplaceSuffix(base);
      assert EndsWith(t, "[]");
    } else {
      assert t == base;
      ReplaceAbsent(t, "[]", "");
    }
  }

  // -------------------------------------------------------- generateSwagger

  /** `{ [modelName]: { type: 'object', required, properties } }`, with
      each property given by its `type`. */
  datatype SwaggerDef = SwaggerDef(name: string, required: seq<string>, properties: map<string, string>)

  /** `!types[idx].includes('null') && !types[idx].includes('undefined')` */
  predicate IsRequiredType(t: string) {
    !Contains(t, "null") && !Contains(t, "undefined")
  }

  /** The required list after the given fields. */
  function RequiredOf(fields: seq<string>, types: seq<string>): (r: seq<string>)
    requires |fields| == |types|
    ensures |r| <= |fields|
  {
    if |fields| == 0 then []
    else
      var n := |fields| - 1;
      RequiredOf(fields[..n], types[..n])
      + (if fields[n] !in SystemFields && IsRequiredType(types[n]) then [fields[n]] else [])
  }

  /** The Swagger type of each field type. */
  function SwaggerTypes(types: seq<string>): (r: seq<string>)
    ensures |r| == |types| && forall i :: 0 <= i < |types| ==> r[i] == SwaggerType(types[i])
  {
    seq(|types|, i requires 0 <= i < |types| => SwaggerType(types[i]))
  }

  /** The properties after the given fields, each with its value; a later
      field of the same name overwrites an earlier one. */
  function PropertiesWith(fields: seq<string>, vals: seq<string>): map<string, string>
    requires |fields| == |vals|
  {
    if |fields| == 0 then map[]
    else
      var n := |fields| - 1;
      var p := PropertiesWith(fields[..n], vals[..n]);
      if fields[n] in SystemFields then p else p[fields[n] := vals[n]]
  }

  /** The properties after the given fields. */
  function PropertiesOf(fields: seq<string>, types: seq<string>): map<string, string>
    requires |fields| == |types|
  {
    PropertiesWith(fields, SwaggerTypes(types))
  }

  /** The definition `generateSwagger` builds from a model definition. */
  function SwaggerOf(modelName: string, d: ModelDef): SwaggerDef
    requires |d.fields| == |d.types|
  {
    SwaggerDef(modelName, RequiredOf(d.fields, d.types), PropertiesOf(d.fields, d.types))
  }

  /** One more field, for the prefixes a loop over the fields goes
      through. */
  lemma SwaggerStepAt(fields: seq<string>, types: seq<string>, i: nat)
    requires |fields| == |types| && i < |fields|
    ensures RequiredOf(fields[..i + 1], types[..i + 1]) == RequiredOf(fields[..i], types[..i])
      + (if fields[i] !in SystemFields && IsRequiredType(types[i]) then [fields[i]] else [])
    ensures PropertiesOf(fields[..i + 1], types[..i + 1]) ==
      if fields[i] in SystemFields then PropertiesOf(fields[..i], types[..i])
      else PropertiesOf(fields[..i], types[..i])[fields[i] := SwaggerType(types[i])]
  {
    assert fields[..i + 1][..i] == fields[..i];
    assert types[..i + 1][..i] == types[..i];
    var v := SwaggerTypes(types[..i + 1]);
    assert v[..i] == SwaggerTypes(types[..i]);
  }

  /** The body of the source's `forEach`: a system field is passed over,
      any other field gets its property and, when its type is required,
      its place in the required list. */
  method AddField(field: string, fieldType: string, required: seq<string>, properties: map<string, string>)
    returns (required': seq<string>, properties': map<string, string>)
    ensures required' == required + (if field !in SystemFields && IsRequiredType(fieldType) then [field] else [])
    ensures properties' == if field in SystemFields then properties else properties[field := SwaggerType(fieldType)]
  {
    required', properties' := required, properties;
    if field == "id" || field == "createdAt" || field == "updatedAt" || field == "deletedAt" {
      return;
    }
    var isRequired := !Contains(fieldType, "null") && !Contains(fieldType, "undefined");
    properties' := properties'[field := SwaggerType(fieldType)];
    if isRequired {
      required' := required' + [field];
    }
  }

  /** The source's `forEach` over the fields. */
  method AddFields(fields: seq<string>, types: seq<string>) returns (required: seq<string>, properties: map<string, string>)
    requires |fields| == |types|
    ensures required == RequiredOf(fields, types) && properties == PropertiesOf(fields, types)
  {
    required, properties := [], map[];
    for idx := 0 to |fields|
      invariant required == RequiredOf(fields[..idx], types[..idx])
      invariant properties == PropertiesOf(fields[..idx], types[..idx])
    {
      SwaggerStepAt(fields, types, idx);
      required, properties := AddField(fields[idx], types[idx], required, properties);
    }
    assert fields[..|fields|] == fields && types[..|types|] == types;
  }

  /** `generateSwagger(modelName)` */
  method GenerateSwagger(modelName: string, block: string) returns (s: SwaggerDef)
    ensures var d := Definition(block); |d.fields| == |d.types| && s == SwaggerOf(modelName, d)
  {
    var fields, types, optionalFields := ExtractModelDefinition(block);
    ghost var d := Definition(block);
    assert fields == d.fields && types == d.types && |fields| == |types|;
    var required, properties := AddFields(fields, types);
    s := SwaggerDef(modelName, required, properties);
  }

  /** The names of the fields that are not system fields. */
  function Listed(fields: seq<string>): set<string> {
    set i | 0 <= i < |fields| && fields[i] !in SystemFields :: fields[i]
  }

  lemma ListedStep(fields: seq<string>)
    requires |fields| > 0
    ensures var n := |fields| - 1;
      Listed(fields) == Listed(fields[..n]) + (if fields[n] in SystemFields then {} else {fields[n]})
  {
    var n := |fields| - 1;
    assert forall i :: 0 <= i < n ==> fields[..n][i] == fields[i];
    forall f | f in Listed(fields) ensures f in Listed(fields[..n]) + (if fields[n] in SystemFields then {} else {fields[n]}) {
      var i :| 0 <= i < |fields| && fields[i] !in SystemFields && fields[i] == f;
      if i < n {
        assert fields[..n][i] == f;
      }
    }
  }

  lemma {:induction false} KeysWith(fields: seq<string>, vals: seq<string>)
    requires |fields| == |vals|
    ensures PropertiesWith(fields, vals).Keys == Listed(fields)
    decreases |fields|
  {
    if |fields| > 0 {
      var n := |fields| - 1;
      KeysWith(fields[..n], vals[..n]);
      ListedStep(fields);
    }
  }

  /** The properties are exactly the fields that are not system fields. */
  lemma PropertyKeys(fields: seq<string>, types: seq<string>)
    requires |fields| == |types|
    ensures PropertiesOf(fields, types).Keys == Listed(fields)
  {
    KeysWith(fields, SwaggerTypes(types));
  }

  lemma {:induction false} LastWith(fields: seq<string>, vals: seq<string>, i: nat)
    requires |fields| == |vals| && i < |fields| && fields[i] !in SystemFields
    requires forall j :: i < j < |fields| ==> fields[j] != fields[i]
    ensures fields[i] in PropertiesWith(fields, vals)
    ensures PropertiesWith(fields, vals)[fields[i]] == vals[i]
    decreases |fields|
  {
    var n := |fields| - 1;
    if i < n {
      LastWith(fields[..n], vals[..n], i);
    }
  }

  /** A property's type comes from the last field of that name. */
  lemma PropertyOfLast(fields: seq<string>, types: seq<string>, i: nat)
    requires |fields| == |types| && i < |fields| && fields[i] !in SystemFields
    requires forall j :: i < j < |fields| ==> fields[j] != fields[i]
    ensures fields[i] in PropertiesOf(fields, types)
    ensures PropertiesOf(fields, types)[fields[i]] == SwaggerType(types[i])
  {
    LastWith(fields, SwaggerTypes(types), i);
  }

  /** When no type mentions `null` or `undefined`, every field that is not
      a system field is required, in order. */
  lemma {:induction false} AllRequired(fields: seq<string>, types: seq<string>)
    requires |fields| == |types|
    requires forall i :: 0 <= i < |types| ==> IsRequiredType(types[i])
    ensures RequiredOf(fields, types) == NonSystem(fields)
    decreases |fields|
  {
    if |fields| > 0 {
      var n := |fields| - 1;
      AllRequired(fields[..n], types[..n]);
    }
  }

  /** A type without a `u` mentions neither `null` nor `undefined`; no
      Prisma scalar type name has one. */
  lemma NoUIsRequired(t: string)
    requires 'u' !in t
    ensures IsRequiredType(t)
  {
    AbsentAt(t, "undefined", 0);
    AbsentAt(t, "null", 1);
  }
}
