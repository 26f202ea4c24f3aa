/** `getTypeValidation` and `extractValidationRules(modelName)`: the
    express-validator chains the generator writes for a model, one create
    rule and one update rule per field that is not a system field. A rule
    is a list of chain pieces with the empty ones dropped
    (`filter(Boolean)`), joined with line breaks. */
module ValidationRules {
  import opened Wrappers
  import opened Strings
  import opened SchemaLines
  import opened ModelDefinition

  /** The fields no rule is written for. */
  const SystemFields: seq<string> := ["id", "createdAt", "updatedAt", "deletedAt"]

  /** The longest string a `String` field accepts. */
  const MaxLength: nat := 190

  const StringCheck: string := ".isString().withMessage(i18n.__('validator.MUST_BE_A_STRING'))"
  const IntCheck: string := ".toInt().isInt().withMessage(i18n.__('validator.MUST_BE_A_VALID_INTEGER'))"
  const FloatCheck: string := ".isFloat().withMessage(i18n.__('validator.MUST_BE_A_VALID_FLOAT'))"
  const BooleanCheck: string := ".isBoolean().withMessage(i18n.__('validator.MUST_BE_A_BOOLEAN'))"

  /** `getTypeValidation(type)`: the type check for the four scalar types,
      whatever `?` marks the type carries, and nothing for any other type. */
  function TypeValidation(fieldType: string): (r: string)
    ensures r != "" <==> RemoveChars(fieldType, {'?'}) in ["String", "Int", "Float", "Boolean"]
  {
    var t := RemoveChars(fieldType, {'?'});
    if t == "String" then StringCheck
    else if t == "Int" then IntCheck
    else if t == "Float" then FloatCheck
    else if t == "Boolean" then BooleanCheck
    else ""
  }

  lemma {:induction false} RemoveCharsAppend(a: string, b: string, drop: set<char>)
    ensures RemoveChars(a + b, drop) == RemoveChars(a, drop) + RemoveChars(b, drop)
    decreases |a|
  {
    if |a| > 0 {
      assert (a + b)[1..] == a[1..] + b;
      RemoveCharsAppend(a[1..], b, drop);
    } else {
      assert a + b == b;
    }
  }

  /** Question marks anywhere in the type do not change its check. */
  lemma QuestionMarkIgnored(a: string, b: string)
    ensures TypeValidation(a + "?" + b) == TypeValidation(a + b)
  {
    var x := RemoveChars(a, {'?'});
    var y := RemoveChars(b, {'?'});
    RemoveCharsAppend(a + "?", b, {'?'});
    RemoveCharsAppend(a, "?", {'?'});
    RemoveCharsAppend(a, b, {'?'});
    assert RemoveChars("?", {'?'}) == "";
    assert x + "" == x;
    assert RemoveChars(a + "?" + b, {'?'}) == RemoveChars(a + b, {'?'});
  }

  // ------------------------------------------------------------ chain pieces

  /** `validator.<MODEL>_<FIELD>_<suffix>`, upper-cased as the source does. */
  function Key(modelName: string, field: string, suffix: string): string {
    "validator." + ToUpper(modelName) + "_" + ToUpper(field) + "_" + suffix
  }

  function Translated(key: string): string {
    ".withMessage(i18n.__('" + key + "'))"
  }

  function BodyPart(field: string): string {
    "body('" + field + "')"
  }

  function RequiredPart(modelName: string, field: string): string {
    ".notEmpty()" + Translated(Key(modelName, field, "IS_REQUIRED"))
  }

  const OptionalPart: string := ".optional()"

  function LengthPart(modelName: string, field: string): string {
    ".isLength({ max: " + NatToString(MaxLength) + " })"
    + Translated(Key(modelName, field, "MUST_BE_LESS_THAN_" + NatToString(MaxLength + 1) + "_CHARACTERS"))
  }

  function Spaces(n: nat): string {
    seq(n, _ => ' ')
  }

  /** The line of the uniqueness check that throws. */
  function UniqueThrow(modelName: string, field: string): string {
    Spaces(22) + "throw new Error(i18n.__('" + Key(modelName, field, "MUST_BE_UNIQUE") + "'));\n"
  }

  /** The lookup shared by both uniqueness checks. */
  function UniqueLookup(modelName: string, field: string): string {
    var m := ToLower(modelName);
    Spaces(18) + "const " + m + " = await prisma." + m + ".findUnique({\n"
    + Spaces(22) + "where: { " + field + " },\n"
    + Spaces(18) + "});\n"
  }

  function UniqueEnd(): string {
    Spaces(18) + "}\n" + Spaces(18) + "return true;\n" + Spaces(14) + "})"
  }

  /** The create rule's uniqueness check: any row with the value fails. */
  function UniqueCreatePart(modelName: string, field: string): string {
    var m := ToLower(modelName);
    ".custom(async (" + field + ") => {\n"
    + UniqueLookup(modelName, field)
    + Spaces(18) + "if (" + m + ") {\n"
    + UniqueThrow(modelName, field)
    + UniqueEnd()
  }

  /** The update rule's uniqueness check: a row with the value fails unless
      it is the row being updated. */
  function UniqueUpdatePart(modelName: string, field: string): string {
    var m := ToLower(modelName);
    ".custom(async (" + field + " ,{ req }) => {\n"
    + Spaces(18) + "const { id  } : any = req.params;\n"
    + UniqueLookup(modelName, field)
    + Spaces(18) + "if (" + m + " && " + m + ".id !== Number(id)) {\n"
    + UniqueThrow(modelName, field)
    + UniqueEnd()
  }

  /** `rest.includes('@unique')` */
  predicate IsUnique(d: FieldDecl) {
    "@unique" in d.rest
  }

  /** `!rest.includes('?')`: only a `?` that stands as a word of its own
      makes the field optional; one attached to the type does not. */
  predicate IsRequired(d: FieldDecl) {
    "?" !in d.rest
  }

  /** A piece that `filter(Boolean)` keeps, as a list of zero or one. */
  function Kept(piece: string): seq<string> {
    if piece == "" then [] else [piece]
  }

  lemma NonEmptyCons(x: string, rest: seq<string>)
    ensures NonEmpty([x] + rest) == Kept(x) + NonEmpty(rest)
  {
    assert ([x] + rest)[1..] == rest;
  }

  lemma ThreeKept(c: string, d: string, e: string)
    ensures NonEmpty([c, d, e]) == Kept(c) + Kept(d) + Kept(e)
  {
    NonEmptyCons(e, []);
    assert [e] == [e] + [];
    NonEmptyCons(d, [e]);
    assert [d, e] == [d] + [e];
    NonEmptyCons(c, [d, e]);
    assert [c, d, e] == [c] + [d, e];
  }

  /** `filter(Boolean)` over the five pieces of a rule. */
  lemma FiveKept(a: string, b: string, c: string, d: string, e: string)
    requires a != "" && b != ""
    ensures NonEmpty([a, b, c, d, e]) == [a, b] + Kept(c) + Kept(d) + Kept(e)
  {
    var t := [c, d, e];
    ThreeKept(c, d, e);
    NonEmptyCons(b, t);
    NonEmptyCons(a, [b] + t);
    assert [a] + ([b] + t) == [a, b, c, d, e];
    assert Kept(a) + (Kept(b) + NonEmpty(t)) == [a, b] + Kept(c) + Kept(d) + Kept(e);
  }

  /** The pieces of the create rule: the field, then `notEmpty` unless the
      field is marked optional, then the type check if there is one, the
      length limit for a plain `String`, and the uniqueness check for a
      `@unique` field. */
  function CreateParts(modelName: string, d: FieldDecl): (r: seq<string>)
    ensures r == [BodyPart(d.field), if IsRequired(d) then RequiredPart(modelName, d.field) else OptionalPart]
      + Kept(TypeValidation(d.fieldType))
      + (if d.fieldType == "String" then [LengthPart(modelName, d.field)] else [])
      + (if IsUnique(d) then [UniqueCreatePart(modelName, d.field)] else [])
  {
    var presence := if IsRequired(d) then RequiredPart(modelName, d.field) else OptionalPart;
    var length := if d.fieldType == "String" then LengthPart(modelName, d.field) else "";
    var unique := if IsUnique(d) then UniqueCreatePart(modelName, d.field) else "";
    assert BodyPart(d.field)[0] == 'b' && presence[0] == '.';
    assert length != "" ==> length[0] == '.';
    assert unique != "" ==> unique[0] == '.';
    FiveKept(BodyPart(d.field), presence, TypeValidation(d.fieldType), length, unique);
    NonEmpty([BodyPart(d.field), presence, TypeValidation(d.fieldType), length, unique])
  }

  /** The pieces of the update rule: as the create rule, but always
      optional. */
  function UpdateParts(modelName: string, d: FieldDecl): (r: seq<string>)
    ensures r == [BodyPart(d.field), OptionalPart]
      + Kept(TypeValidation(d.fieldType))
      + (if d.fieldType == "String" then [LengthPart(modelName, d.field)] else [])
      + (if IsUnique(d) then [UniqueUpdatePart(modelName, d.field)] else [])
  {
    var length := if d.fieldType == "String" then LengthPart(modelName, d.field) else "";
    var unique := if IsUnique(d) then UniqueUpdatePart(modelName, d.field) else "";
    assert BodyPart(d.field)[0] == 'b';
    assert length != "" ==> length[0] == '.';
    assert unique != "" ==> unique[0] == '.';
    FiveKept(BodyPart(d.field), OptionalPart, TypeValidation(d.fieldType), length, unique);
    NonEmpty([BodyPart(d.field), OptionalPart, TypeValidation(d.fieldType), length, unique])
  }

  function CreateRule(modelName: string, d: FieldDecl): string {
    Join(CreateParts(modelName, d), "\n")
  }

  function UpdateRule(modelName: string, d: FieldDecl): string {
    Join(UpdateParts(modelName, d), "\n")
  }

  // ---------------------------------------------------------------- the scan

  /** The reached declarations that get rules: all but the system fields. */
  function RuleDecls(decls: seq<FieldDecl>): (r: seq<FieldDecl>)
    ensures |r| <= |decls|
    ensures forall i :: 0 <= i < |r| ==> r[i] in decls && r[i].field !in SystemFields
    ensures forall d :: d in decls && d.field !in SystemFields ==> d in r
  {
    if |decls| == 0 then []
    else
      var before := decls[..|decls| - 1];
      var last := decls[|decls| - 1];
      assert forall d :: d in decls ==> d in before || d == last;
      RuleDecls(before) + (if last.field in SystemFields then [] else [last])
  }

  /** The rules written for a model block, in the order of its fields. */
  function Rules(modelName: string, decls: seq<FieldDecl>, create: bool): (r: seq<string>)
    ensures |r| == |RuleDecls(decls)|
  {
    var ds := RuleDecls(decls);
    seq(|ds|, i requires 0 <= i < |ds| => if create then CreateRule(modelName, ds[i]) else UpdateRule(modelName, ds[i]))
  }

  lemma RulesStep(modelName: string, decls: seq<FieldDecl>, last: FieldDecl, create: bool)
    ensures Rules(modelName, decls + [last], create) ==
      Rules(modelName, decls, create)
      + (if last.field in SystemFields then []
         else [if create then CreateRule(modelName, last) else UpdateRule(modelName, last)])
  {
    assert (decls + [last])[..|decls|] == decls;
  }

  /** `extractValidationRules`, as the source's loop over the lines. */
  method ExtractValidationRules(modelName: string, block: string) returns (validationRules: seq<string>, updateRules: seq<string>)
    ensures var decls := Declarations(BlockLines(block));
      validationRules == Rules(modelName, decls, true) && updateRules == Rules(modelName, decls, false)
  {
    var fieldLines := BlockLines(block);
    validationRules, updateRules := [], [];
    var skipRest := false;
    for i := 0 to |fieldLines|
      invariant skipRest == SkipAfter(fieldLines[..i])
      invariant validationRules == Rules(modelName, Declarations(fieldLines[..i]), true)
      invariant updateRules == Rules(modelName, Declarations(fieldLines[..i]), false)
    {
      StepAt(fieldLines, i);
      var decl;
      skipRest, decl := ScanLine(fieldLines[i], skipRest);
      if decl.Some? {
        RulesStep(modelName, Declarations(fieldLines[..i]), decl.value, true);
        RulesStep(modelName, Declarations(fieldLines[..i]), decl.value, false);
        if decl.value.field !in SystemFields {
          validationRules := validationRules + [Join(CreateParts(modelName, decl.value), "\n")];
          updateRules := updateRules + [Join(UpdateParts(modelName, decl.value), "\n")];
        }
      }
    }
    assert fieldLines[..|fieldLines|] == fieldLines;
  }

  // -------------------------------------------------------------- properties

  /** `fields` without the system fields, in order. */
  function NonSystem(fields: seq<string>): (r: seq<string>)
    ensures |r| <= |fields|
  {
    if |fields| == 0 then []
    else
      var last := fields[|fields| - 1];
      NonSystem(fields[..|fields| - 1]) + (if last in SystemFields then [] else [last])
  }

  lemma FieldsAppend(x: seq<FieldDecl>, y: FieldDecl)
    ensures FieldsOf(x + [y]) == FieldsOf(x) + [y.field]
  {
    assert forall i :: 0 <= i < |x| ==> (x + [y])[i] == x[i];
  }

  /** The rules are written for exactly the model definition's fields that
      are not system fields, in the same order. */
  lemma {:induction false} RulesFollowDefinition(decls: seq<FieldDecl>)
    ensures FieldsOf(RuleDecls(decls)) == NonSystem(DefinitionOf(decls).fields)
    decreases |decls|
  {
    if |decls| > 0 {
      var n := |decls| - 1;
      var before := decls[..n];
      var last := decls[n];
      RulesFollowDefinition(before);
      var f := FieldsOf(decls);
      assert f[..n] == FieldsOf(before);
      assert f[n] == last.field;
      if last.field !in SystemFields {
        FieldsAppend(RuleDecls(before), last);
      }
    }
  }

  lemma {:induction false} NoQuestionMark(s: string)
    requires '?' !in s
    ensures RemoveChars(s, {'?'}) == s
    decreases |s|
  {
    if |s| > 0 {
      NoQuestionMark(s[1..]);
    }
  }

  lemma OnlyMarkRemoved(s: string)
    requires '?' !in s
    ensures RemoveChars(s + "?", {'?'}) == s
  {
    RemoveCharsAppend(s, "?", {'?'});
    NoQuestionMark(s);
    assert RemoveChars("?", {'?'}) == "";
  }

  /** An optional `String?` type gets the string check. */
  lemma OptionalStringCheck(s: string)
    requires s == "String"
    ensures TypeValidation(s + "?") == StringCheck
  {
    OnlyMarkRemoved(s);
  }

  /** A `String?` field without a separate `?` word still gets `notEmpty`,
      and no length limit, because the limit is written only when the type
      is exactly `String`. */
  lemma OptionalStringStillRequired(modelName: string, field: string, rest: seq<string>)
    requires "?" !in rest && "@unique" !in rest
    ensures CreateParts(modelName, FieldDecl(field, "String?", rest))
      == [BodyPart(field), RequiredPart(modelName, field), StringCheck]
  {
    OptionalStringCheck("String");
    assert "String" + "?" == "String?";
    assert |"String?"| != |"String"|;
  }

  /** The length limit allows 190 characters and its message names 191. */
  lemma LengthLimitText(modelName: string, field: string)
    ensures LengthPart(modelName, field) == ".isLength({ max: " + "190" + " })"
      + Translated(Key(modelName, field, "MUST_BE_LESS_THAN_" + "191" + "_CHARACTERS"))
  {
    assert NatToString(19) == "19";
    assert NatToString(190) == "190";
    assert NatToString(191) == "191";
  }
}
