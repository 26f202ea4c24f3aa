/** `userValidationRules` and `userUpdateValidationRules`: the checks on a
    user's body, over a snapshot of the user table. None of the update
    fields is optional, and the update rules have no password check. */
module UserValidator {
  import opened Wrappers
  import opened Values
  import opened Strings
  import opened Store
  import opened AppErrors
  import opened Validation

  /** The `custom` check on create: no user may hold the username. */
  function UsernameFree(username: Value, users: seq<Row>): seq<FieldError> {
    match Lookup(users, "username", username)
    case Err(e) => LookupFailed("username", e)
    case Ok(None) => []
    case Ok(Some(_)) => [FieldError("username", Key("user.USERNAME_ALREADY_TAKEN"))]
  }

  /** A string of at most 190 characters, with the chain's two keys. */
  function BoundedString(v: Value, path: string, notString: string, tooLong: string): (r: seq<FieldError>)
    ensures r == [] <==> v.VStr? && TextLength(v.s) <= 190
  {
    Rule(IsString(v), path, notString) + Rule(MaxLength(v, 190), path, tooLong)
  }

  /** The username chain on create: a string that no user holds yet. */
  function UsernameErrors(username: Value, users: seq<Row>): (r: seq<FieldError>)
    ensures r == [] <==>
      username.VStr? && forall i :: 0 <= i < |users| ==> Column(users[i], "username") != username
  {
    LookupFinds(users, "username", username);
    Rule(IsString(username), "username", "validator.USERNAME_MUST_BE_VALID") + UsernameFree(username, users)
  }

  /** The phone chain: a non-empty string. */
  function PhoneErrors(phone: Value): (r: seq<FieldError>)
    ensures r == [] <==> phone.VStr? && phone.s != ""
  {
    Rule(IsString(phone), "phone", "validator.PHONE_NUMBER_MUST_BE_A_STRING")
    + Rule(NotEmpty(phone), "phone", "validator.PHONE_NUMBER_IS_REQUIRED")
  }

  /** The password chain on create: a string of at least six characters. */
  function PasswordErrors(password: Value): (r: seq<FieldError>)
    ensures r == [] <==> password.VStr? && TextLength(password.s) >= 6
  {
    Rule(IsString(password), "password", "validator.PASSWORD_MUST_BE_A_STRING")
    + Rule(MinLength(password, 6), "password", "validator.PASSWORD_MUST_BE_AT_LEAST_6_CHARACTERS_LONG")
  }

  /** The errors of `userValidationRules()` for `body`. */
  function UserCreateErrors(body: Record, users: seq<Row>): (r: seq<FieldError>)
    ensures r == [] <==>
      && Get(body, "firstName").VStr? && TextLength(Get(body, "firstName").s) <= 190
      && Get(body, "lastName").VStr? && TextLength(Get(body, "lastName").s) <= 190
      && Get(body, "username").VStr?
      && (forall i :: 0 <= i < |users| ==> Column(users[i], "username") != Get(body, "username"))
      && Get(body, "phone").VStr? && Get(body, "phone").s != ""
      && Get(body, "password").VStr? && TextLength(Get(body, "password").s) >= 6
  {
    BoundedString(Get(body, "firstName"), "firstName", "validator.FIRST_NAME_MUST_BE_A_STRING",
                  "validator.FIRST_NAME_MUST_BE_LESS_THAN_191_CHARACTERS")
    + BoundedString(Get(body, "lastName"), "lastName", "validator.LAST_NAME_MUST_BE_A_STRING",
                    "validator.LAST_NAME_MUST_BE_LESS_THAN_191_CHARACTERS")
    + UsernameErrors(Get(body, "username"), users)
    + PhoneErrors(Get(body, "phone"))
    + PasswordErrors(Get(body, "password"))
  }

  /** The `custom` check on update: without an `id` parameter it fails
      outright; otherwise the holder of the username must have the id
      `parseInt(id)` (an unparsable id matches nobody). */
  function UsernameFreeFor(username: Value, idParam: Value, users: seq<Row>): (r: seq<FieldError>)
    ensures !Truthy(idParam) ==> r == [FieldError("username", Key("validator.USER_ID_IS_REQUIRED"))]
    ensures Truthy(idParam) && !username.VStr? ==> r == LookupFailed("username", StoreError)
    ensures Truthy(idParam) && username.VStr? ==>
      (r == [] <==> Holder(users, "username", username.s).None?
                    || ParseInt(FieldText(idParam)) == Some(Holder(users, "username", username.s).value.id))
  {
    if !Truthy(idParam) then [FieldError("username", Key("validator.USER_ID_IS_REQUIRED"))]
    else
      var userId := ParseInt(FieldText(idParam));
      match Lookup(users, "username", username)
      case Err(e) => LookupFailed("username", e)
      case Ok(None) => []
      case Ok(Some(user)) =>
        if userId != Some(user.id) then [FieldError("username", Key("user.USERNAME_ALREADY_TAKEN"))] else []
  }

  /** The errors of `userUpdateValidationRules()` for `body` and the path
      parameter `idParam` (`undefined` when absent). */
  function UserUpdateErrors(body: Record, idParam: Value, users: seq<Row>): (r: seq<FieldError>)
    ensures r == [] ==>
      && IsInt(idParam) && Truthy(idParam)
      && Get(body, "firstName").VStr? && Get(body, "lastName").VStr?
      && Get(body, "username").VStr? && Get(body, "phone").VStr?
  {
    var username := Get(body, "username");
    Rule(IsInt(idParam), "id", "validator.USER_ID_MUST_BE_A_VALID_NUMBER")
    + Rule(IsString(Get(body, "firstName")), "firstName", "validator.USERNAME_MUST_BE_A_STRING")
    + Rule(IsString(Get(body, "lastName")), "lastName", "validator.LAST_NAME_MUST_BE_A_STRING")
    + Rule(IsString(username), "username", "validator.USERNAME_MUST_BE_A_VALID_EMAIL")
    + UsernameFreeFor(username, idParam, users)
    + Rule(IsString(Get(body, "phone")), "phone", "validator.PHONE_NUMBER_MUST_BE_A_STRING")
  }

  /** The update rules never look at the password. */
  lemma PasswordIgnoredOnUpdate(body: Record, idParam: Value, users: seq<Row>, password: Value)
    ensures UserUpdateErrors(body["password" := password], idParam, users) == UserUpdateErrors(body, idParam, users)
  {
    var b := body["password" := password];
    assert Get(b, "firstName") == Get(body, "firstName");
    assert Get(b, "lastName") == Get(body, "lastName");
    assert Get(b, "username") == Get(body, "username");
    assert Get(b, "phone") == Get(body, "phone");
  }

  /** Keeping one's own username passes the uniqueness check. */
  lemma OwnUsernameAccepted(username: string, id: nat, users: seq<Row>)
    requires var h := Holder(users, "username", username); h.Some? && h.value.id == id
    ensures UsernameFreeFor(VStr(username), VStr(NatToString(id)), users) == []
  {
    ParseIntOfNatText(id);
  }
}
