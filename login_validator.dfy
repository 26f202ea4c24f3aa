/** `loginValidationRules`: a string username and a string password of at
    least six characters. No other field is read and no stored state is
    consulted. */
module LoginValidator {
  import opened Values
  import opened Validation

  /** The errors of `loginValidationRules()` for `body`. */
  function LoginErrors(body: Record): (r: seq<FieldError>)
    ensures r == [] <==>
      Get(body, "username").VStr? && Get(body, "password").VStr? && TextLength(Get(body, "password").s) >= 6
    ensures |r| <= 3
  {
    var password := Get(body, "password");
    Rule(IsString(Get(body, "username")), "username", "validator.USERNAME_MUST_BE_A_STRING")
    + Rule(IsString(password), "password", "validator.PASSWORD_MUST_BE_A_STRING")
    + Rule(MinLength(password, 6), "password", "validator.PASSWORD_MUST_BE_AT_LEAST_6_CHARACTERS_LONG")
  }

  /** Only the two fields matter. */
  lemma OtherFieldsIgnored(body: Record, k: string, v: Value)
    requires k != "username" && k != "password"
    ensures LoginErrors(body[k := v]) == LoginErrors(body)
  {
    assert Get(body[k := v], "username") == Get(body, "username");
    assert Get(body[k := v], "password") == Get(body, "password");
  }

  /** A five-character password fails only its length check. */
  lemma ShortPassword(username: string, password: string)
    requires |password| == 5
    ensures LoginErrors(map["username" := VStr(username), "password" := VStr(password)])
      == [FieldError("password", Key("validator.PASSWORD_MUST_BE_AT_LEAST_6_CHARACTERS_LONG"))]
  {
    var body := map["username" := VStr(username), "password" := VStr(password)];
    assert FieldText(VStr(password)) == password;
  }
}
