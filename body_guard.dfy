/**
 * The body guard in front of the login, register and refresh routes: the body
 * must be a non-empty plain object, and on a route whose path mentions "login"
 * or "register" it must carry non-empty `username` and `password` strings.
 */
module BodyGuard {
  import opened Outcomes
  import opened JsonValue

  const BodyRequired: string := "Request body is required"
  const CredentialsRequired: string := "username and password are required"

  /** isNonEmptyPlainObject: an object, not null, not an array, with at least one key. */
  function IsNonEmptyPlainObject(v: Json): (r: bool)
    ensures r <==> v.JObj? && v.fields != map[]
  {
    TypeofObject(v) && v != JNull && !v.JArr? && |v.fields| > 0
  }

  /** getRoutePath: `req.route.path` when `route` is a non-null object whose `path` is a string. */
  function GetRoutePath(route: Json): (r: Option<string>)
    ensures r.Some? <==> route.JObj? && "path" in route.fields && route.fields["path"].JStr?
    ensures r.Some? ==> JStr(r.value) == route.fields["path"]
  {
    if TypeofObject(route) && route != JNull && HasKey(route, "path") && StringField(route, "path")
    then Some(route.fields["path"].s)
    else None
  }

  /** `sub` occurs in `s` starting at index `i`. */
  predicate OccursAt(s: string, sub: string, i: int)
  {
    0 <= i && i + |sub| <= |s| && s[i..i + |sub|] == sub
  }

  /** `s.includes(sub)`. */
  predicate Includes(s: string, sub: string)
  {
    exists i :: 0 <= i <= |s| && OccursAt(s, sub, i)
  }

  /** isLoginDto / isCreateUserDto: `username` and `password` present as strings. */
  function IsCredentialsDto(v: Json): (r: bool)
    ensures r <==> v.JObj? && "username" in v.fields && v.fields["username"].JStr?
                   && "password" in v.fields && v.fields["password"].JStr?
    ensures r ==> IsNonEmptyPlainObject(v)
  {
    TypeofObject(v) && v != JNull && HasKey(v, "username") && StringField(v, "username")
      && HasKey(v, "password") && StringField(v, "password")
  }

  /** The check of the login and register branches. */
  function CheckCredentials(body: Json): Result<bool>
  {
    if !IsCredentialsDto(body) then Err(BadRequest(CredentialsRequired))
    else if body.fields["username"].s == "" || body.fields["password"].s == "" then Err(BadRequest(CredentialsRequired))
    else Ok(true)
  }

  /** A body that carries both credentials as non-empty strings. */
  predicate HasCredentials(body: Json)
  {
    && body.JObj?
    && "username" in body.fields && body.fields["username"].JStr? && body.fields["username"].s != ""
    && "password" in body.fields && body.fields["password"].JStr? && body.fields["password"].s != ""
  }

  /** canActivate over the request's body and its `route` value (JUndef when absent). */
  function CanActivate(body: Json, route: Json): (r: Result<bool>)
    ensures r.Ok? ==> r.value
    ensures !IsNonEmptyPlainObject(body) ==> r == Err(BadRequest(BodyRequired))
    ensures r.Err? ==> r.error.BadRequest?
    ensures r.Ok? <==>
      body.JObj? && |body.fields| > 0 &&
      (var path := GetRoutePath(route);
       path.Some? && (Includes(path.value, "login") || Includes(path.value, "register")) ==> HasCredentials(body))
  {
    if !IsNonEmptyPlainObject(body) then Err(BadRequest(BodyRequired))
    else
      var routePath := GetRoutePath(route);
      if routePath.Some? && Includes(routePath.value, "login") then CheckCredentials(body)
      else if routePath.Some? && Includes(routePath.value, "register") then CheckCredentials(body)
      else Ok(true)
  }

  /** Off the login and register routes, or without a string path, any non-empty plain object passes. */
  lemma OtherRoutesNeedOnlyABody(body: Json, route: Json)
    requires IsNonEmptyPlainObject(body)
    requires var path := GetRoutePath(route);
      path.None? || (!Includes(path.value, "login") && !Includes(path.value, "register"))
    ensures CanActivate(body, route) == Ok(true)
  {
  }

  /** The route is matched by substring: "/x/loginfoo" gets the login check. */
  lemma SubstringRouteMatch()
    ensures CanActivate(JObj(map["any" := JStr("value")]), JObj(map["path" := JStr("/x/loginfoo")])) == Err(BadRequest(CredentialsRequired))
  {
    assert OccursAt("/x/loginfoo", "login", 3);
  }

  /** The bodies that never pass, on any route. */
  lemma RejectedBodies(route: Json)
    ensures CanActivate(JNull, route) == Err(BadRequest(BodyRequired))
    ensures CanActivate(JUndef, route) == Err(BadRequest(BodyRequired))
    ensures CanActivate(JObj(map[]), route) == Err(BadRequest(BodyRequired))
    ensures CanActivate(JArr([]), route) == Err(BadRequest(BodyRequired))
    ensures CanActivate(JStr("hello"), route) == Err(BadRequest(BodyRequired))
  {
  }

  /** An `email` in place of `username` does not pass the login check. */
  lemma EmailIsNotUsername()
    ensures CanActivate(JObj(map["email" := JStr("a@b.com"), "password" := JStr("Secret123!")]),
                        JObj(map["path" := JStr("/auth/login")])).Err?
  {
    assert OccursAt("/auth/login", "login", 6);
  }

  /** A register body with `username` and `password` but no `email` passes. */
  lemma RegisterBodyWithoutEmailPasses()
    ensures CanActivate(JObj(map["password" := JStr("XyZ123!pass"), "username" := JStr("user1")]),
                        JObj(map["path" := JStr("/auth/register")])) == Ok(true)
  {
    assert OccursAt("/auth/register", "register", 6);
  }

  /** Empty strings count as missing credentials. */
  lemma EmptyCredentialsRejected(route: Json)
    requires GetRoutePath(route).Some? && Includes(GetRoutePath(route).value, "register")
    ensures CanActivate(JObj(map["username" := JStr(""), "password" := JStr("x")]), route) == Err(BadRequest(CredentialsRequired))
  {
  }
}
