/**
 * The static role hierarchy and the role queries of the roles service.
 * `getRole` and `update` go through the user store.
 */
module Roles {
  import opened Outcomes
  import UserStore

  datatype UserRole = Admin | User {
    /** The enum's string value. */
    function Value(): string
    {
      match this
      case Admin => "admin"
      case User => "user"
    }
  }

  /** `Object.values(UserRole)`, in declaration order. */
  const RoleValues: seq<string> := [Admin.Value(), User.Value()]

  /** The closure table: the roles each known role satisfies; unknown roles have no row. */
  function Hierarchy(role: string): (r: Option<seq<string>>)
    ensures r.Some? <==> role in RoleValues
    ensures r.Some? ==> role in r.value
    ensures r.Some? ==> forall x :: x in r.value ==> x in RoleValues
  {
    if role == Admin.Value() then Some([Admin.Value(), User.Value()])
    else if role == User.Value() then Some([User.Value()])
    else None
  }

  /** `roleHierarchy[held]?.includes(required)`, an absent row granting nothing. */
  predicate Satisfies(held: string, required: string)
  {
    var row := Hierarchy(held);
    row.Some? && required in row.value
  }

  /** `userRoles.some(u => Satisfies(u, required))`. */
  function AnyHeldSatisfies(userRoles: seq<string>, required: string): (r: bool)
    ensures r <==> exists j :: 0 <= j < |userRoles| && Satisfies(userRoles[j], required)
  {
    if userRoles == [] then false
    else Satisfies(userRoles[0], required) || AnyHeldSatisfies(userRoles[1..], required)
  }

  /** hasPermission: some required role is satisfied by some held role. */
  function HasPermission(userRoles: seq<string>, requiredRoles: seq<string>): (r: bool)
    ensures r <==> exists i, j :: 0 <= i < |requiredRoles| && 0 <= j < |userRoles|
                                 && Satisfies(userRoles[j], requiredRoles[i])
  {
    if requiredRoles == [] then false
    else AnyHeldSatisfies(userRoles, requiredRoles[0]) || HasPermission(userRoles, requiredRoles[1..])
  }

  /** getAllowedRoles: the role's row of the table, or no roles. */
  function GetAllowedRoles(role: string): (r: seq<string>)
    ensures Hierarchy(role).Some? ==> r == Hierarchy(role).value
    ensures Hierarchy(role).None? ==> r == []
    ensures forall x :: x in r <==> Satisfies(role, x)
  {
    var row := Hierarchy(role);
    if row.Some? then row.value else []
  }

  /** isValidRole: membership in the enum's values, case-sensitive. */
  function IsValidRole(role: string): (r: bool)
    ensures r <==> role == "admin" || role == "user"
    ensures r <==> Hierarchy(role).Some?
  {
    role in RoleValues
  }

  /** getRole: the stored role of the user with id `userId`; Unauthorized when there is none. */
  method GetRole(db: UserStore.DbService, userId: string) returns (r: Result<string>)
    requires db.Valid()
    ensures r.Ok? <==> userId != "" && userId in db.users
    ensures r.Ok? ==> r.value == db.users[userId].role
    ensures r.Err? ==> r.error == Unauthorized("Unauthorized")
  {
    var user := db.FindOne(Some(userId), None);
    if user.None? {
      return Err(Unauthorized("Unauthorized"));
    }
    return Ok(user.value.role);
  }

  /** update: set the role of user `uuid` through the store. */
  method Update(db: UserStore.DbService, uuid: string, role: string) returns (r: Result<UserStore.User>)
    requires db.Valid()
    modifies db
    ensures db.Valid()
    ensures r.Ok? <==> uuid in old(db.users)
    ensures r.Ok? ==> db.users == old(db.users)[uuid := old(db.users)[uuid].(role := role)] && r.value == db.users[uuid]
    ensures r.Err? ==> r.error == Unauthorized("Unauthorized") && db.users == old(db.users)
  {
    r := db.UpdateRole(uuid, role);
  }

  // ----- properties of the table -----

  /** Every known role satisfies itself. */
  lemma HierarchyReflexive(r: UserRole)
    ensures Satisfies(r.Value(), r.Value())
    ensures HasPermission([r.Value()], [r.Value()])
  {
    assert Satisfies([r.Value()][0], [r.Value()][0]);
  }

  /** The table is closed: what a satisfied role satisfies, the holder satisfies too. */
  lemma HierarchyTransitive(a: string, b: string, c: string)
    requires Satisfies(a, b) && Satisfies(b, c)
    ensures Satisfies(a, c)
  {
  }

  /** Roles outside the table grant nothing, and an empty requirement is never met. */
  lemma UnknownRolesGrantNothing(userRoles: seq<string>, requiredRoles: seq<string>)
    requires forall j :: 0 <= j < |userRoles| ==> !IsValidRole(userRoles[j])
    ensures !HasPermission(userRoles, requiredRoles)
    ensures !HasPermission(userRoles + ["admin"], [])
  {
  }

  /** An empty list of required roles is met by no list of held roles. */
  lemma EmptyRequirementNeverMet()
    ensures forall held :: !HasPermission(held, [])
  {
  }

  /** Adding held roles never takes a permission away. */
  lemma {:induction false} HasPermissionMonotone(held: seq<string>, more: seq<string>, required: seq<string>)
    requires HasPermission(held, required)
    ensures HasPermission(held + more, required)
  {
    var i, j :| 0 <= i < |required| && 0 <= j < |held| && Satisfies(held[j], required[i]);
    assert (held + more)[j] == held[j];
  }

  /** The three documented examples of hasPermission. */
  lemma HasPermissionExamples()
    ensures HasPermission(["admin"], ["user"])
    ensures !HasPermission(["user"], ["admin"])
    ensures HasPermission(["user"], ["admin", "user"])
  {
    assert Satisfies(["admin"][0], ["user"][0]);
    assert Satisfies(["user"][0], ["admin", "user"][1]);
  }

  /** The documented examples of getAllowedRoles and isValidRole. */
  lemma AllowedRolesExamples()
    ensures GetAllowedRoles("admin") == ["admin", "user"]
    ensures GetAllowedRoles("user") == ["user"]
    ensures GetAllowedRoles("ghost") == []
    ensures IsValidRole("admin") && IsValidRole("user") && !IsValidRole("root") && !IsValidRole("Admin")
  {
  }

  // ----- the table as written: a plain object literal -----

  /** Members every object literal inherits from Object.prototype. */
  const InheritedMembers: set<string> := {
    "constructor", "hasOwnProperty", "isPrototypeOf", "propertyIsEnumerable",
    "toLocaleString", "toString", "valueOf", "__proto__",
    "__defineGetter__", "__defineSetter__", "__lookupGetter__", "__lookupSetter__"
  }

  /** What `roleHierarchy[key]` yields for the object literal as written. */
  datatype Lookup = Row(roles: seq<string>) | Inherited | Undefined

  function HierarchyAsWritten(key: string): (r: Lookup)
    ensures Hierarchy(key).Some? ==> r == Row(Hierarchy(key).value)
    ensures r.Undefined? <==> Hierarchy(key).None? && key !in InheritedMembers
    ensures Hierarchy(key).None? && key in InheritedMembers ==> r == Inherited
  {
    var row := Hierarchy(key);
    if row.Some? then Row(row.value)
    else if key in InheritedMembers then Inherited
    else Undefined
  }

  /**
   * `userRoles.some(u => roleHierarchy[u]?.includes(required))` as written:
   * an inherited member is not nullish, has no `includes`, and the call throws a TypeError.
   */
  function AnyHeldAsWritten(userRoles: seq<string>, required: string): (r: Result<bool>)
    ensures r.Err? ==> exists j :: 0 <= j < |userRoles| && userRoles[j] in InheritedMembers
    ensures r.Ok? ==> r.value == AnyHeldSatisfies(userRoles, required)
  {
    if userRoles == [] then Ok(false)
    else match HierarchyAsWritten(userRoles[0])
      case Row(row) => if required in row then Ok(true) else AnyHeldAsWritten(userRoles[1..], required)
      case Undefined => AnyHeldAsWritten(userRoles[1..], required)
      case Inherited => Err(InternalError("roleHierarchy[userRole]?.includes is not a function"))
  }

  /** hasPermission as written, with the exception it can throw. */
  function HasPermissionAsWritten(userRoles: seq<string>, requiredRoles: seq<string>): (r: Result<bool>)
    ensures r.Err? ==> exists j :: 0 <= j < |userRoles| && userRoles[j] in InheritedMembers
    ensures r.Ok? ==> r.value == HasPermission(userRoles, requiredRoles)
  {
    if requiredRoles == [] then Ok(false)
    else match AnyHeldAsWritten(userRoles, requiredRoles[0])
      case Ok(found) => if found then Ok(true) else HasPermissionAsWritten(userRoles, requiredRoles[1..])
      case Err(e) => Err(e)
  }

  /** getAllowedRoles as written: an inherited member is truthy and is returned instead of `[]`. */
  function GetAllowedRolesAsWritten(role: string): (r: Lookup)
    ensures r.Inherited? <==> role in InheritedMembers
    ensures r.Row? ==> r.roles == GetAllowedRoles(role)
  {
    match HierarchyAsWritten(role)
    case Row(row) => Row(row)
    case Inherited => Inherited
    case Undefined => Row([])
  }

  /** Away from the inherited names, the code as written agrees with the corrected functions. */
  lemma {:induction false} AsWrittenAgreesOffPrototype(userRoles: seq<string>, requiredRoles: seq<string>)
    requires forall j :: 0 <= j < |userRoles| ==> userRoles[j] !in InheritedMembers
    ensures HasPermissionAsWritten(userRoles, requiredRoles) == Ok(HasPermission(userRoles, requiredRoles))
    decreases |requiredRoles|
  {
    if requiredRoles != [] {
      AnyHeldAgreesOffPrototype(userRoles, requiredRoles[0]);
      AsWrittenAgreesOffPrototype(userRoles, requiredRoles[1..]);
    }
  }

  lemma {:induction false} AnyHeldAgreesOffPrototype(userRoles: seq<string>, required: string)
    requires forall j :: 0 <= j < |userRoles| ==> userRoles[j] !in InheritedMembers
    ensures AnyHeldAsWritten(userRoles, required) == Ok(AnyHeldSatisfies(userRoles, required))
    decreases |userRoles|
  {
    if userRoles != [] {
      AnyHeldAgreesOffPrototype(userRoles[1..], required);
    }
  }

  /** A held role named after an inherited member makes hasPermission throw, and getAllowedRoles return a non-array. */
  lemma PrototypeNamesMisbehave()
    ensures HasPermissionAsWritten(["constructor"], ["user"]).Err?
    ensures HasPermission(["constructor"], ["user"]) == false
    ensures GetAllowedRolesAsWritten("toString") == Inherited
    ensures GetAllowedRoles("toString") == []
  {
  }
}
