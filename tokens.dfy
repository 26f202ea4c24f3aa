/** Bearer tokens. Signing and verification are not modelled: the caller
    supplies them as a `Jwt` of two functions, and `Sound` states the one
    law the proofs rely on. The three places that read `JWT_SECRET` fall
    back to three different defaults; `env` is the variable's value, with
    the empty string standing for "unset". */
module Tokens {
  import opened Wrappers
  import opened Values
  import opened Strings
  import opened Store
  import opened AppErrors

  /** `sign(payload, iat, secret)` and `verify(token, secret)`; `iat` is
      the issue time in seconds that the library stamps on the payload. A
      failed verification is the error it throws. */
  datatype Jwt = Jwt(sign: (Value, nat, string) -> string, verify: (string, string) -> Result<Value, Thrown>)

  /** Verifying a freshly signed object payload gives it back with `iat`. */
  ghost predicate Sound(j: Jwt) {
    forall p: Record, iat: nat, k: string ::
      k != "" ==> j.verify(j.sign(VObject(p), iat, k), k) == Ok(VObject(p["iat" := VNum(iat)]))
  }

  /** What `jwt.verify` throws for an empty secret. */
  const NoSecretError: Thrown := OtherError("JsonWebTokenError", "secret or public key must be provided")

  /** `jwt.verify(token, secret)`: with no secret it throws. */
  function Verify(j: Jwt, token: string, secret: string): (r: Result<Value, Thrown>)
    ensures secret == "" ==> r == Err(NoSecretError)
  {
    if secret == "" then Err(NoSecretError) else j.verify(token, secret)
  }

  /** The secret of `loginService` and `loginController`. */
  function LoginSecret(env: string): (s: string)
    ensures s != ""
    ensures env != "" ==> s == env
  {
    if env == "" then "your_jwt_secret" else env
  }

  /** The secret of `authMiddleware`: empty when the variable is unset. */
  function AuthSecret(env: string): string {
    env
  }

  /** The secret of `checkPermissions`. */
  function PermissionSecret(env: string): (s: string)
    ensures s != ""
    ensures env != "" ==> s == env
  {
    if env == "" then "jwt_secret" else env
  }

  /** `authorization?.split(' ')[1]`, where an empty string is as good as
      none. The scheme word before the space is not checked. */
  function BearerToken(authorization: Option<string>): (r: Option<string>)
    ensures r.Some? ==> r.value != "" && ' ' !in r.value
  {
    match authorization
    case None => None
    case Some(h) =>
      var parts := Split(h, ' ');
      if |parts| >= 2 && parts[1] != "" then Some(parts[1]) else None
  }

  /** `"Bearer <t>"` yields `t`. */
  lemma BearerTokenOf(t: string)
    requires t != "" && ' ' !in t
    ensures BearerToken(Some("Bearer " + t)) == Some(t)
  {
    SplitPair("Bearer", ' ', t);
    assert "Bearer " + t == "Bearer" + [' '] + t;
  }

  /** A header without a space carries no token. */
  lemma NoSpaceNoToken(h: string)
    requires ' ' !in h
    ensures BearerToken(Some(h)) == None
  {
    SplitByNoSep(h, x => x == ' ');
  }

  /** `decoded.user.id`; property access on `undefined` or `null` throws. */
  function DecodedUserId(decoded: Value): Result<Value, Thrown> {
    if decoded.VUndefined? || decoded.VNull? then Err(TypeError)
    else
      var user := if decoded.VObject? then Get(decoded.fields, "user") else VUndefined;
      if user.VUndefined? || user.VNull? then Err(TypeError)
      else Ok(if user.VObject? then Get(user.fields, "id") else VUndefined)
  }

  /** The user id a presented token claims, once it verifies. */
  function ClaimedUserId(j: Jwt, token: string, secret: string): Result<Value, Thrown> {
    var decoded :- Verify(j, token, secret);
    DecodedUserId(decoded)
  }

  /** `prisma.user.findUnique({ where: { id } })`: an id that is not an
      integer is rejected by the client. */
  function FindUser(users: seq<Row>, id: Value): (r: Result<Option<Row>, Thrown>)
    ensures !id.VNum? ==> r == Err(StoreError)
    ensures id.VNum? ==> r == Ok(FindById(users, id.n))
  {
    if id.VNum? then Ok(FindById(users, id.n)) else Err(StoreError)
  }

  /** A token signed over `{ user: { id, ... }, ... }` claims that id, under
      the secret it was signed with. */
  lemma SignedClaim(j: Jwt, p: Record, user: Record, iat: nat, k: string)
    requires Sound(j) && k != ""
    requires Get(p, "user") == VObject(user)
    ensures ClaimedUserId(j, j.sign(VObject(p), iat, k), k) == Ok(Get(user, "id"))
  {
    var decoded := VObject(p["iat" := VNum(iat)]);
    assert j.verify(j.sign(VObject(p), iat, k), k) == Ok(decoded);
    assert Get(decoded.fields, "user") == VObject(user);
  }
}
