/** JavaScript values as the modelled code sees them: request bodies, query
    strings and database rows are records of these. Numbers are integers
    (see README, "Left out"); `NaN` is kept because `Number(...)` and
    `parseInt(...)` produce it and the code tests for it. */
module Values {
  import opened Wrappers
  import opened Strings

  /** Milliseconds since the epoch: a JavaScript `Date`. */
  type Time = nat

  datatype Value =
    | VUndefined
    | VNull
    | VBool(b: bool)
    | VNum(n: int)
    | VNaN
    | VStr(s: string)
    | VTime(t: Time)
    | VArray(items: seq<Value>)
    | VObject(fields: map<string, Value>)

  /** A JavaScript object with string keys. A key that is present with the
      value `undefined` is still present (`key in obj` holds). */
  type Record = map<string, Value>

  /** Property access `obj[key]`: a missing key reads as `undefined`. */
  function Get(r: Record, key: string): Value {
    if key in r then r[key] else VUndefined
  }

  /** JavaScript truthiness. */
  predicate Truthy(v: Value) {
    match v
    case VUndefined => false
    case VNull => false
    case VBool(b) => b
    case VNum(n) => n != 0
    case VNaN => false
    case VStr(s) => s != ""
    case _ => true
  }

  predicate IsDigit(c: char) {
    '0' <= c <= '9'
  }

  predicate AllDigits(s: string) {
    forall i :: 0 <= i < |s| ==> IsDigit(s[i])
  }

  function DigitsValue(s: string): (r: nat)
    requires AllDigits(s)
  {
    if |s| == 0 then 0 else DigitsValue(s[..|s| - 1]) * 10 + (s[|s| - 1] as int - '0' as int)
  }

  /** An optional sign followed by at least one decimal digit: the integer
      literals that `Number`, `parseInt` and validator.js `isInt` agree on. */
  predicate IsIntLiteral(s: string) {
    if |s| > 0 && (s[0] == '+' || s[0] == '-') then |s| > 1 && AllDigits(s[1..])
    else |s| > 0 && AllDigits(s)
  }

  function IntLiteralValue(s: string): int
    requires IsIntLiteral(s)
  {
    if s[0] == '-' then -(DigitsValue(s[1..]) as int)
    else if s[0] == '+' then DigitsValue(s[1..])
    else DigitsValue(s)
  }

  /** `Number(s)` for a string: surrounding white space is ignored, an
      empty or blank string is 0, an integer literal is its value, and
      anything else is NaN. */
  function StringToNumber(s: string): (r: Value)
    ensures r.VNum? || r.VNaN?
    ensures Trim(s) == "" ==> r == VNum(0)
  {
    var t := Trim(s);
    if t == "" then VNum(0)
    else if IsIntLiteral(t) then VNum(IntLiteralValue(t))
    else VNaN
  }

  /** JavaScript `Number(v)`. An array is first made a string with its
      elements joined by commas, so `Number([])` is 0 and `Number(["3"])`
      is 3; a plain object is NaN. */
  function JsNumber(v: Value): (r: Value)
    ensures r.VNum? || r.VNaN?
    ensures v.VArray? ==> r == StringToNumber(ArrayText(v.items, 0))
  {
    match v
    case VUndefined => VNaN
    case VNull => VNum(0)
    case VBool(b) => VNum(if b then 1 else 0)
    case VNum(n) => VNum(n)
    case VNaN => VNaN
    case VStr(s) => StringToNumber(s)
    case VTime(t) => VNum(t)
    case VArray(xs) => StringToNumber(ArrayText(xs, 0))
    case VObject(_) => VNaN
  }

  /** A repeated query key arrives as an array: the empty array reads as
      0, and an array of one string reads as that string. */
  lemma NumberOfArray(s: string)
    ensures JsNumber(VArray([])) == VNum(0)
    ensures JsNumber(VArray([VStr(s)])) == JsNumber(VStr(s))
  {
    assert ElementText(VStr(s)) == ValueText(VStr(s)) == s;
    assert ArrayText([VStr(s)], 0) == s;
  }

  /** `Number(String(n))` is `n`. */
  lemma NumberOfNatText(n: nat)
    ensures JsNumber(VStr(NatToString(n))) == VNum(n)
  {
    var s := NatToString(n);
    NoSpaceInDigits(s);
    DigitsOfNat(n);
    assert s[0] != '+' && s[0] != '-';
    assert IsIntLiteral(s) && IntLiteralValue(s) == n;
    assert StringToNumber(s) == VNum(n);
  }

  lemma NoSpaceInDigits(s: string)
    requires forall i :: 0 <= i < |s| ==> '0' <= s[i] <= '9'
    ensures Trim(s) == s
  {
    if |s| > 0 {
      assert !IsJsSpace(s[0]);
      assert !IsJsSpace(s[|s| - 1]);
    }
    assert TrimStart(s) == s;
    assert TrimEnd(s) == s;
  }

  lemma {:induction false} DigitsOfNat(n: nat)
    ensures AllDigits(NatToString(n)) && DigitsValue(NatToString(n)) == n
  {
    var s := NatToString(n);
    if n >= 10 {
      DigitsOfNat(n / 10);
      assert s[..|s| - 1] == NatToString(n / 10);
    }
  }

  /** `parseInt(String(n))` is `n`. */
  lemma ParseIntOfNatText(n: nat)
    ensures ParseInt(NatToString(n)) == Some(n)
  {
    var s := NatToString(n);
    DigitsOfNat(n);
    assert '0' <= s[0] <= '9';
    assert !IsJsSpace(s[0]);
    assert TrimStart(s) == s;
    assert s[0] != '-' && s[0] != '+';
    DigitPrefixAll(s);
    assert s[..|s|] == s;
  }

  /** Length of the longest prefix of `s` made of decimal digits. */
  function DigitPrefix(s: string): (n: nat)
    ensures n <= |s| && AllDigits(s[..n])
    ensures n < |s| ==> !IsDigit(s[n])
  {
    if |s| > 0 && IsDigit(s[0]) then
      var n := 1 + DigitPrefix(s[1..]);
      assert s[..n] == [s[0]] + s[1..][..n - 1];
      n
    else 0
  }

  lemma {:induction false} DigitPrefixAll(s: string)
    requires AllDigits(s)
    ensures DigitPrefix(s) == |s|
  {
    if |s| > 0 {
      DigitPrefixAll(s[1..]);
    }
  }

  /** JavaScript `parseInt(s, 10)`: leading white space and one sign are
      skipped, then the longest run of decimal digits is read; no digit is
      NaN. The controllers call `parseInt` without a radix, which reads a
      `0x` prefix as hexadecimal; this reads it as 0 (see README). */
  function ParseInt(s: string): (r: Option<int>)
  {
    var t := TrimStart(s);
    var neg := |t| > 0 && t[0] == '-';
    var body := if |t| > 0 && (t[0] == '-' || t[0] == '+') then t[1..] else t;
    var n := DigitPrefix(body);
    if n == 0 then None
    else Some(if neg then -(DigitsValue(body[..n]) as int) else DigitsValue(body[..n]))
  }

  /** `String(x)` of one element inside `Array.prototype.join`: null and
      undefined become empty. */
  function ElementText(v: Value): string
    decreases v, 3, 0
  {
    match v
    case VUndefined => ""
    case VNull => ""
    case VNaN => "NaN"
    case VArray(xs) => ArrayText(xs, 0)
    case _ => ValueText(v)
  }

  /** `array.toString()`, the elements joined with commas. */
  function ArrayText(xs: seq<Value>, from: nat): string
    decreases VArray(xs), 1, |xs| - from
  {
    if from >= |xs| then ""
    else if from == |xs| - 1 then ElementText(xs[from])
    else ElementText(xs[from]) + "," + ArrayText(xs, from + 1)
  }

  /** express-validator's `toString` of a value that is not the top-level
      array of a field: null, undefined and NaN become the empty string, an
      array is its elements joined with commas. Dates never occur in a JSON
      request body; they render as their time value. */
  function ValueText(v: Value): string
    decreases v, 2, 0
  {
    match v
    case VUndefined => ""
    case VNull => ""
    case VNaN => ""
    case VBool(b) => if b then "true" else "false"
    case VNum(n) => IntToString(n)
    case VStr(s) => s
    case VTime(t) => NatToString(t)
    case VArray(xs) => ArrayText(xs, 0)
    case VObject(_) => "[object Object]"
  }
}
