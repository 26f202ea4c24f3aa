/** `extractModelDefinition(modelName)`: the fields of a Prisma model, their
    types as the generator stores them, and the set of optional fields.
    The model block is given as its text; finding it in `schema.prisma`
    is not modelled. */
module ModelDefinition {
  import opened Wrappers
  import opened Strings
  import opened SchemaLines

  datatype ModelDef = ModelDef(fields: seq<string>, types: seq<string>, optionalFields: set<string>)

  /** `type.endsWith('?') || field === 'id' || field === 'deletedAt'` */
  predicate IsOptional(d: FieldDecl) {
    EndsWith(d.fieldType, "?") || d.field == "id" || d.field == "deletedAt"
  }

  /** A stored type without its `[]` list suffix. */
  function ListBase(t: string): string {
    if EndsWith(t, "[]") then t[..|t| - 2] else t
  }

  /** The characters `type.replace(/[?\[\]]/g, '')` removes. */
  const Decorations: set<char> := {'?', '[', ']'}

  /** The type as stored: `?`, `[` and `]` removed, and `[]` put back when
      the declared type ends in `[]`. */
  function StoredType(fieldType: string): string {
    RemoveChars(fieldType, Decorations) + (if EndsWith(fieldType, "[]") then "[]" else "")
  }

  /** A stored type is its declared type's base without decorations, with
      the list suffix kept exactly when the declared type has one. */
  lemma StoredTypeShape(fieldType: string)
    ensures var r := StoredType(fieldType);
      && ListBase(r) == RemoveChars(fieldType, Decorations)
      && '?' !in r && '[' !in ListBase(r) && ']' !in ListBase(r)
      && (EndsWith(r, "[]") <==> EndsWith(fieldType, "[]"))
  {
    var base := RemoveChars(fieldType, Decorations);
    RemoveCharsMeaning(fieldType, Decorations);
    var r := StoredType(fieldType);
    if EndsWith(fieldType, "[]") {
      assert r[..|r| - 2] == base;
    } else {
      assert ']' !in base;
    }
  }

  /** The fields of the reached declarations, in order. */
  function FieldsOf(decls: seq<FieldDecl>): (r: seq<string>)
    ensures |r| == |decls| && forall i :: 0 <= i < |decls| ==> r[i] == decls[i].field
  {
    seq(|decls|, i requires 0 <= i < |decls| => decls[i].field)
  }

  /** The stored types of the reached declarations, in order. */
  function TypesOf(decls: seq<FieldDecl>): (r: seq<string>)
    ensures |r| == |decls| && forall i :: 0 <= i < |decls| ==> r[i] == StoredType(decls[i].fieldType)
  {
    seq(|decls|, i requires 0 <= i < |decls| => StoredType(decls[i].fieldType))
  }

  /** The optional set after the given declarations. */
  function OptionalOf(decls: seq<FieldDecl>): set<string> {
    if |decls| == 0 then {}
    else
      var last := decls[|decls| - 1];
      OptionalOf(decls[..|decls| - 1]) + (if IsOptional(last) then {last.field} else {})
  }

  /** The definition built from the reached declarations, one after the
      other: each adds its field and stored type, and its field to the
      optional set when it is optional. */
  function DefinitionOf(decls: seq<FieldDecl>): (d: ModelDef)
    ensures |d.fields| == |decls| && |d.types| == |decls|
    ensures forall i :: 0 <= i < |decls| ==> d.fields[i] == decls[i].field && d.types[i] == StoredType(decls[i].fieldType)
  {
    ModelDef(FieldsOf(decls), TypesOf(decls), OptionalOf(decls))
  }

  /** One more declaration, in terms of the definition before it. */
  lemma DefinitionStep(decls: seq<FieldDecl>, last: FieldDecl)
    ensures var d := DefinitionOf(decls);
      DefinitionOf(decls + [last]) ==
        ModelDef(d.fields + [last.field], d.types + [StoredType(last.fieldType)],
                 if IsOptional(last) then d.optionalFields + {last.field} else d.optionalFields)
  {
    var e := decls + [last];
    assert forall i :: 0 <= i < |decls| ==> e[i] == decls[i];
    assert FieldsOf(e) == FieldsOf(decls) + [last.field];
    assert TypesOf(e) == TypesOf(decls) + [StoredType(last.fieldType)];
    assert e[..|decls|] == decls;
  }

  /** A field is in the optional set exactly when some declaration of it
      is optional. */
  lemma {:induction false} OptionalFields(decls: seq<FieldDecl>, f: string)
    ensures f in DefinitionOf(decls).optionalFields <==>
      exists i :: 0 <= i < |decls| && decls[i].field == f && IsOptional(decls[i])
    decreases |decls|
  {
    if |decls| > 0 {
      var n := |decls| - 1;
      var before := decls[..n];
      OptionalFields(before, f);
      if f in OptionalOf(before) {
        var i :| 0 <= i < |before| && before[i].field == f && IsOptional(before[i]);
        assert decls[i] == before[i];
      }
      forall i | 0 <= i < n && decls[i].field == f && IsOptional(decls[i]) ensures f in OptionalOf(before) {
        assert before[i] == decls[i];
      }
    }
  }

  /** The definition of a model block. */
  function Definition(block: string): ModelDef {
    DefinitionOf(Declarations(BlockLines(block)))
  }

  /** `extractModelDefinition`, as the source's loop over the lines. */
  method ExtractModelDefinition(block: string) returns (fields: seq<string>, types: seq<string>, optionalFields: set<string>)
    ensures ModelDef(fields, types, optionalFields) == Definition(block)
  {
    var fieldLines := BlockLines(block);
    fields, types, optionalFields := [], [], {};
    var skipRest := false;
    for i := 0 to |fieldLines|
      invariant skipRest == SkipAfter(fieldLines[..i])
      invariant fields == DefinitionOf(Declarations(fieldLines[..i])).fields
      invariant types == DefinitionOf(Declarations(fieldLines[..i])).types
      invariant optionalFields == DefinitionOf(Declarations(fieldLines[..i])).optionalFields
    {
      StepAt(fieldLines, i);
      var decl;
      skipRest, decl := ScanLine(fieldLines[i], skipRest);
      if decl.Some? {
        var field, fieldType := decl.value.field, decl.value.fieldType;
        var isOptional := EndsWith(fieldType, "?") || field == "id" || field == "deletedAt";
        var isArray := EndsWith(fieldType, "[]");
        var baseType := RemoveChars(fieldType, Decorations);
        DefinitionStep(Declarations(fieldLines[..i]), decl.value);
        fields := fields + [field];
        assert baseType + (if isArray then "[]" else "") == StoredType(fieldType);
        types := types + [baseType + (if isArray then "[]" else "")];
        if isOptional {
          optionalFields := optionalFields + {field};
        }
      }
    }
    assert fieldLines[..|fieldLines|] == fieldLines;
  }

  /** Every stored type is a base type without `?`, `[` or `]`, possibly
      followed by `[]`; every optional field is a field. */
  lemma DefinitionShape(block: string)
    ensures var d := Definition(block);
      && |d.fields| == |d.types|
      && (forall i :: 0 <= i < |d.types| ==>
            '?' !in d.types[i] && '[' !in ListBase(d.types[i]) && ']' !in ListBase(d.types[i]))
      && (forall f :: f in d.optionalFields ==> f in d.fields)
  {
    var decls := Declarations(BlockLines(block));
    var d := DefinitionOf(decls);
    forall i | 0 <= i < |d.types|
      ensures '?' !in d.types[i] && '[' !in ListBase(d.types[i]) && ']' !in ListBase(d.types[i])
    {
      StoredTypeShape(decls[i].fieldType);
    }
    forall f | f in d.optionalFields ensures f in d.fields {
      OptionalFields(decls, f);
      var i :| 0 <= i < |decls| && decls[i].field == f && IsOptional(decls[i]);
      assert d.fields[i] == f;
    }
  }
}
