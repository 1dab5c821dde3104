/**
 * The role guard: the roles declared on a handler against the `roles` list of
 * the identity attached to the request. Roles are compared verbatim; the
 * hierarchy of the roles service is not consulted.
 */
module RolesGuard {
  import opened Outcomes
  import Roles

  /** What `user.roles` holds on the attached identity. */
  datatype RolesField = Missing | NotArray | Array(roles: seq<string>)

  /** The part of `request.user` the guard reads. */
  datatype RequestUser = RequestUser(roles: RolesField)

  /** `requiredRoles.some(role => held.includes(role))`. */
  predicate SomeRequiredHeld(required: seq<string>, held: seq<string>)
  {
    exists i :: 0 <= i < |required| && required[i] in held
  }

  /**
   * canActivate: `requiredRoles` is the handler's metadata (None when none is
   * declared), `user` the attached identity (None when nothing is attached).
   */
  function CanActivate(requiredRoles: Option<seq<string>>, user: Option<RequestUser>): (r: Result<bool>)
    ensures r.Ok? ==> r.value
    ensures r.Err? ==> r.error.Forbidden?
    ensures requiredRoles.None? ==> r == Ok(true)
    ensures requiredRoles.Some? && user.None? ==> r == Err(Forbidden("User not authenticated"))
    ensures requiredRoles.Some? && user.Some? && !user.value.roles.Array? ==> r == Err(Forbidden("User roles not found"))
    ensures r.Ok? <==> (requiredRoles.None? ||
      (user.Some? && user.value.roles.Array? &&
       exists i, j :: 0 <= i < |requiredRoles.value| && 0 <= j < |user.value.roles.roles|
                      && requiredRoles.value[i] == user.value.roles.roles[j]))
  {
    if requiredRoles.None? then Ok(true)
    else if user.None? then Err(Forbidden("User not authenticated"))
    else if !user.value.roles.Array? then Err(Forbidden("User roles not found"))
    else if SomeRequiredHeld(requiredRoles.value, user.value.roles.roles) then Ok(true)
    else Err(Forbidden("Insufficient permissions"))
  }

  /** A declared but empty list of required roles denies every identity. */
  lemma EmptyRequirementDenies(user: Option<RequestUser>)
    ensures CanActivate(Some([]), user).Err?
  {
  }

  /** Without metadata the identity is not looked at. */
  lemma NoMetadataIgnoresUser(user1: Option<RequestUser>, user2: Option<RequestUser>)
    ensures CanActivate(None, user1) == CanActivate(None, user2) == Ok(true)
  {
  }

  /** An admin does not pass a handler that requires the user role: there is no hierarchy expansion. */
  lemma NoHierarchyExpansion()
    ensures CanActivate(Some(["user"]), Some(RequestUser(Array(["admin"])))) == Err(Forbidden("Insufficient permissions"))
    ensures Roles.HasPermission(["admin"], ["user"])
  {
    Roles.HasPermissionExamples();
  }

  /**
   * Whenever the guard lets an identity with only known roles through, the
   * roles service would have granted the permission too.
   */
  lemma {:induction false} GuardImpliesPermission(required: seq<string>, held: seq<string>)
    requires forall j :: 0 <= j < |held| ==> Roles.IsValidRole(held[j])
    requires CanActivate(Some(required), Some(RequestUser(Array(held)))).Ok?
    ensures Roles.HasPermission(held, required)
  {
    var i, j :| 0 <= i < |required| && 0 <= j < |held| && required[i] == held[j];
    assert Roles.IsValidRole(held[j]);
    assert Roles.Satisfies(held[j], required[i]);
  }

  /** The examples of the guard's documented behaviour. */
  lemma GuardExamples()
    ensures CanActivate(None, Some(RequestUser(Array(["user"])))) == Ok(true)
    ensures CanActivate(Some(["admin"]), Some(RequestUser(Array(["admin"])))) == Ok(true)
    ensures CanActivate(Some(["admin"]), Some(RequestUser(Array(["user"])))).Err?
    ensures CanActivate(Some(["user"]), None).Err?
    ensures CanActivate(Some(["user"]), Some(RequestUser(NotArray))).Err?
  {
    assert ["admin"][0] in ["admin"];
  }
}
