/** `handleUserResponse`: the public view of a user, or of a list of users. */
module UserResponse {
  import opened Values

  /** The columns a client may see, in the order the projection lists them. */
  const PublicFields: seq<string> :=
    ["id", "firstName", "lastName", "username", "phone", "roleId", "status", "createdAt", "updatedAt", "role"]

  /** The argument and the result: one user or an array of users. */
  datatype Users = One(user: Record) | Many(users: seq<Record>)

  /** One user's projection: exactly the public columns, each copied (a
      column the input lacks reads as `undefined`). */
  function Project(u: Record): (r: Record)
    ensures r.Keys == set k | k in PublicFields
    ensures forall k :: k in r ==> r[k] == Get(u, k)
    ensures "password" !in r && "token" !in r
  {
    map k | k in PublicFields :: Get(u, k)
  }

  /** `handleUserResponse(user)`: an array maps element-wise in order, a
      single user gives a single record. */
  function HandleUserResponse(input: Users): (r: Users)
    ensures input.One? <==> r.One?
    ensures input.One? ==> r.user == Project(input.user)
    ensures input.Many? ==> |r.users| == |input.users|
    ensures input.Many? ==> forall i :: 0 <= i < |input.users| ==> r.users[i] == Project(input.users[i])
  {
    match input
    case One(u) => One(Project(u))
    case Many(us) => Many(seq(|us|, i requires 0 <= i < |us| => Project(us[i])))
  }

  /** Projecting a projection changes nothing. */
  lemma ProjectIdempotent(u: Record)
    ensures Project(Project(u)) == Project(u)
  {
    var p := Project(u);
    forall k | k in PublicFields ensures Get(p, k) == Get(u, k) {
    }
  }
}
