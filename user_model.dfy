/**
 * The `User` schema of models/User.js and the two queries the routes run on the
 * user collection (`findById`, `findOne({ email })`).
 *
 * The collection is the sequence of its documents in insertion order; a user's
 * `_id` is its position in that sequence.
 */
module UserModel {
  import opened Form

  /** The schema's `role` enum. */
  datatype Role = RoleUser | RoleAdmin | RoleModerator

  /** The enum's values, in the schema's order. */
  const RoleNames: seq<string> := ["user", "admin", "moderator"]

  function RoleName(r: Role): (s: string)
    ensures s in RoleNames
  {
    match r
    case RoleUser => "user"
    case RoleAdmin => "admin"
    case RoleModerator => "moderator"
  }

  /** The enum check: a string is a role exactly when it is one of the enum's values. */
  function ParseRole(s: string): (r: Option<Role>)
    ensures r.Some? <==> s in RoleNames
    ensures r.Some? ==> RoleName(r.value) == s
  {
    if s == "user" then Some(RoleUser)
    else if s == "admin" then Some(RoleAdmin)
    else if s == "moderator" then Some(RoleModerator)
    else None
  }

  lemma RoleNameRoundTrip(r: Role)
    ensures ParseRole(RoleName(r)) == Some(r)
  {
  }

  type UserId = nat

  /** A stored user document. `verificationCode` is an optional string. */
  datatype User = User(
    id: UserId,
    name: string,
    email: string,
    password: string,
    role: Role,
    isVerified: bool,
    verificationCode: Option<string>)

  /**
   * `new User({ name, email, password, role })` validated as `save()` does:
   * an absent role takes the default "user", a role outside the enum is a
   * validation error (None), isVerified defaults to false and no
   * verificationCode is set.
   */
  function NewUser(id: UserId, name: string, email: string, password: string, role: Option<string>): (r: Option<User>)
    ensures role.None? ==> r.Some? && r.value.role == RoleUser
    ensures role.Some? ==> (r.Some? <==> role.value in RoleNames)
    ensures role.Some? && r.Some? ==> RoleName(r.value.role) == role.value
    ensures r.Some? ==> r.value.id == id && r.value.name == name && r.value.email == email
                        && r.value.password == password
    ensures r.Some? ==> !r.value.isVerified && r.value.verificationCode == None
  {
    var parsed := if role.None? then Some(RoleUser) else ParseRole(role.value);
    if parsed.None? then None
    else Some(User(id, name, email, password, parsed.value, false, None))
  }

  /** The unique index on `email`: no two stored users share an email. */
  ghost predicate UniqueEmails(users: seq<User>)
  {
    forall i, j :: 0 <= i < j < |users| ==> users[i].email != users[j].email
  }

  /** Every stored user's `_id` is its position. */
  ghost predicate IdsArePositions(users: seq<User>)
  {
    forall i :: 0 <= i < |users| ==> users[i].id == i
  }

  /** `User.findById(id)`: the user with that id, or null. */
  function FindById(users: seq<User>, id: UserId): (r: Option<User>)
    requires IdsArePositions(users)
    ensures r.Some? <==> exists i :: 0 <= i < |users| && users[i].id == id
    ensures r.Some? ==> r.value in users && r.value.id == id
  {
    if id < |users| then Some(users[id]) else None
  }

  /** `User.findOne({ email })`: the first user in collection order with that email, or null. */
  function FindByEmail(users: seq<User>, email: string): (r: Option<nat>)
    ensures r.Some? ==> r.value < |users| && users[r.value].email == email
    ensures r.Some? ==> forall j :: 0 <= j < r.value ==> users[j].email != email
    ensures r.None? <==> forall j :: 0 <= j < |users| ==> users[j].email != email
  {
    if users == [] then None
    else if users[0].email == email then Some(0)
    else
      var rest := FindByEmail(users[1..], email);
      if rest.None? then None else Some(rest.value + 1)
  }

  /** With the unique index in place, the user `findOne` returns is the only one with that email. */
  lemma FindByEmailUnique(users: seq<User>, email: string, k: nat)
    requires UniqueEmails(users)
    requires k < |users| && users[k].email == email
    ensures FindByEmail(users, email) == Some(k)
  {
  }
}
