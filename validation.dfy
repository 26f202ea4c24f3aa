/** The parts of express-validator the rule chains use. A chain runs every
    check on its field, without stopping at the first failure, and each
    failing check adds one error carrying the message set by the
    `withMessage` after it. Messages are i18n keys. */
module Validation {
  import opened Wrappers
  import opened Values
  import opened Strings
  import opened Store
  import opened AppErrors

  /** An error's message: a fixed key, or the message of the error a
      `custom` check threw. */
  datatype Msg = Key(key: string) | ThrownMessage(err: Thrown)

  datatype FieldError = FieldError(path: string, msg: Msg)

  /** The string the validator.js checks see: express-validator's
      `toString`, which takes an array field by its first element. */
  function FieldText(v: Value): string {
    if v.VArray? && |v.items| > 0 then ValueText(v.items[0]) else ValueText(v)
  }

  /** U+FE0E and U+FE0F, which validator.js's `isLength` does not count. */
  predicate IsVariationSelector(c: char) {
    c == '\U{FE0E}' || c == '\U{FE0F}'
  }

  /** validator.js's length: code points, less the variation selectors. */
  function TextLength(s: string): (n: nat)
    ensures n <= |s|
    ensures (forall i :: 0 <= i < |s| ==> !IsVariationSelector(s[i])) ==> n == |s|
  {
    if |s| == 0 then 0 else (if IsVariationSelector(s[0]) then 0 else 1) + TextLength(s[1..])
  }

  /** `isString()`: the raw value is a string; no conversion. */
  predicate IsString(v: Value) {
    v.VStr?
  }

  /** `notEmpty()` */
  predicate NotEmpty(v: Value) {
    FieldText(v) != ""
  }

  /** `isLength({ max })` */
  predicate MaxLength(v: Value, max: nat) {
    TextLength(FieldText(v)) <= max
  }

  /** `isLength({ min })` */
  predicate MinLength(v: Value, min: nat) {
    TextLength(FieldText(v)) >= min
  }

  /** `isInt()`: an optional sign and decimal digits, leading zeros
      allowed. */
  predicate IsInt(v: Value) {
    IsIntLiteral(FieldText(v))
  }

  /** `toInt()`: `parseInt` of the field's text. */
  function ToInt(v: Value): (r: Value)
    ensures r.VNum? || r.VNaN?
  {
    match ParseInt(FieldText(v))
    case None => VNaN
    case Some(n) => VNum(n)
  }

  /** The text of any integer is an integer literal. */
  lemma IntTextIsInt(n: int)
    ensures IsInt(VNum(n))
  {
    if n < 0 {
      var s := IntToString(n);
      assert s[1..] == NatToString(-n);
    }
  }

  /** `toInt().isInt()` passes exactly when `parseInt` finds digits. */
  lemma ToIntIsInt(v: Value)
    ensures IsInt(ToInt(v)) <==> ParseInt(FieldText(v)).Some?
  {
    var p := ParseInt(FieldText(v));
    assert ToInt(v) == if p.Some? then VNum(p.value) else VNaN;
    ParsedIsInt(p);
  }

  /** What `toInt` gives for a parse: a number passes `isInt`, NaN not. */
  lemma ParsedIsInt(p: Option<int>)
    ensures IsInt(if p.Some? then VNum(p.value) else VNaN) <==> p.Some?
  {
    if p.Some? {
      IntTextIsInt(p.value);
    } else {
      assert FieldText(VNaN) == "";
    }
  }

  /** One check: no error when it passes, one when it fails. */
  function Rule(ok: bool, path: string, key: string): (r: seq<FieldError>)
    ensures ok <==> r == []
    ensures !ok ==> r == [FieldError(path, Key(key))]
  {
    if ok then [] else [FieldError(path, Key(key))]
  }

  /** `prisma.<model>.findUnique({ where: { [column]: v } })` inside a
      `custom` check: a value that is not a string is rejected by Prisma. */
  function Lookup(rows: seq<Row>, column: string, v: Value): (r: Result<Option<Row>, Thrown>)
    ensures !v.VStr? ==> r == Err(StoreError)
    ensures v.VStr? ==> r == Ok(FindFirst(rows, map[column := Equals(v)]))
  {
    if v.VStr? then Ok(FindFirst(rows, map[column := Equals(v)])) else Err(StoreError)
  }

  /** The row a successful lookup of the string `s` finds. */
  function Holder(rows: seq<Row>, column: string, s: string): Option<Row> {
    FindFirst(rows, map[column := Equals(VStr(s))])
  }

  /** For a string, the first row holding it in `column` is found, and
      none is found exactly when no row holds it. */
  lemma LookupFinds(rows: seq<Row>, column: string, v: Value)
    ensures v.VStr? ==> Lookup(rows, column, v).Ok?
    ensures v.VStr? ==> (Lookup(rows, column, v).value.None? <==> forall i :: 0 <= i < |rows| ==> Column(rows[i], column) != v)
    ensures v.VStr? && Lookup(rows, column, v).value.Some? ==> Column(Lookup(rows, column, v).value.value, column) == v
  {
    var w := map[column := Equals(v)];
    if v.VStr? {
      forall i | 0 <= i < |rows| ensures Matches(rows[i], w) <==> Column(rows[i], column) == v {
        assert column in w;
      }
      var f := FindFirst(rows, w);
      if f.Some? {
        assert Holds(Column(f.value, column), w[column]);
      }
    }
  }

  /** The error a failed lookup adds. */
  function LookupFailed(path: string, e: Thrown): seq<FieldError> {
    [FieldError(path, ThrownMessage(e))]
  }
}
