/**
 * The user table behind the store service: records keyed by id, with the
 * not-found rules of each operation. The uuid the repository generates on
 * insertion is a parameter of `Create`.
 */
module UserStore {
  import opened Outcomes

  datatype User = User(id: string, username: string, password: string, role: string, refreshTokenHash: string)

  /** The fields a user may update about themselves; an absent field is not copied. */
  datatype UpdateUserDto = UpdateUserDto(password: Option<string>)

  type Table = map<string, User>

  /** Every record sits under its own id and no two records share a username. */
  ghost predicate WellKeyed(m: Table)
  {
    && (forall k :: k in m ==> m[k].id == k)
    && (forall a, b :: a in m && b in m && m[a].username == m[b].username ==> a == b)
  }

  /** Some record carries username `name`. */
  ghost predicate UsernameTaken(m: Table, name: string)
  {
    exists k :: k in m && m[k].username == name
  }

  /** The record carrying username `name`, if any. */
  ghost function ByUsername(m: Table, name: string): (r: Option<User>)
    requires WellKeyed(m)
    ensures r.Some? <==> UsernameTaken(m, name)
    ensures r.Some? ==> r.value.id in m && m[r.value.id] == r.value && r.value.username == name
  {
    if UsernameTaken(m, name) then
      var k :| k in m && m[k].username == name;
      Some(m[k])
    else None
  }

  class DbService {
    var users: Table

    ghost predicate Valid()
      reads this
    {
      WellKeyed(users)
    }

    constructor ()
      ensures Valid() && users == map[]
    {
      users := map[];
    }

    /**
     * findOne: by id when `uuid` is truthy, otherwise by username when
     * `username` is truthy, otherwise nothing.
     */
    method FindOne(uuid: Option<string>, username: Option<string>) returns (r: Option<User>)
      requires Valid()
      ensures Truthy(uuid) ==> (r.Some? <==> uuid.value in users) && (r.Some? ==> r.value == users[uuid.value])
      ensures !Truthy(uuid) && Truthy(username) ==> r == ByUsername(users, username.value)
      ensures !Truthy(uuid) && !Truthy(username) ==> r == None
    {
      if Truthy(uuid) {
        if uuid.value in users {
          return Some(users[uuid.value]);
        }
        return None;
      }
      if Truthy(username) {
        if k :| k in users && users[k].username == username.value {
          UsernameDeterminesRecord(users, k, ByUsername(users, username.value).value.id);
          return Some(users[k]);
        }
        return None;
      }
      return None;
    }

    /**
     * create: Conflict when the username is already taken; otherwise the record
     * is saved under the generated id `newId`. A falsy username skips the check,
     * and the column's unique constraint then rejects a duplicate.
     */
    method Create(user: User, newId: string) returns (r: Result<User>)
      requires Valid() && newId !in users
      modifies this
      ensures Valid()
      ensures old(UsernameTaken(users, user.username)) <==> r.Err?
      ensures r.Err? ==> users == old(users)
      ensures r.Err? && user.username != "" ==> r.error == Conflict("User already exists")
      ensures r.Ok? ==> r.value == user.(id := newId) && users == old(users)[newId := r.value]
    {
      var existing := FindOne(None, Some(user.username));
      if existing.Some? {
        return Err(Conflict("User already exists"));
      }
      if k :| k in users && users[k].username == user.username {
        return Err(InternalError("duplicate key value violates unique constraint"));
      }
      var saved := user.(id := newId);
      users := users[newId := saved];
      return Ok(saved);
    }

    /** remove: an unknown id changes nothing; otherwise the record is deleted and returned. */
    method Remove(uuid: string) returns (r: Option<User>)
      requires Valid()
      modifies this
      ensures Valid()
      ensures r.Some? <==> uuid in old(users)
      ensures r.Some? ==> r.value == old(users)[uuid]
      ensures users == old(users) - {uuid}
    {
      if uuid !in users {
        return None;
      }
      var user := users[uuid];
      users := users - {uuid};
      return Some(user);
    }

    /** update: an unknown id gives nothing; otherwise the fields present in the dto are copied. */
    method Update(uuid: string, dto: UpdateUserDto) returns (r: Option<User>)
      requires Valid()
      modifies this
      ensures Valid()
      ensures r.Some? <==> uuid in old(users)
      ensures r.None? ==> users == old(users)
      ensures r.Some? ==> r.value == Assign(old(users)[uuid], dto) && users == old(users)[uuid := r.value]
    {
      if uuid !in users {
        return None;
      }
      var user := Assign(users[uuid], dto);
      users := users[uuid := user];
      return Some(user);
    }

    /** updateRole: Unauthorized for an unknown id; otherwise only the role changes. */
    method UpdateRole(uuid: string, role: string) returns (r: Result<User>)
      requires Valid()
      modifies this
      ensures Valid()
      ensures r.Ok? <==> uuid in old(users)
      ensures r.Err? ==> r.error == Unauthorized("Unauthorized") && users == old(users)
      ensures r.Ok? ==> r.value == old(users)[uuid].(role := role) && users == old(users)[uuid := r.value]
    {
      if uuid !in users {
        return Err(Unauthorized("Unauthorized"));
      }
      var user := users[uuid].(role := role);
      users := users[uuid := user];
      return Ok(user);
    }

    /**
     * SaveRefreshToken: Unauthorized unless a user has the truthy id `userId`;
     * otherwise only that user's refresh hash changes.
     */
    method SaveRefreshToken(userId: string, refreshTokenHash: string) returns (r: Result<()>)
      requires Valid()
      modifies this
      ensures Valid()
      ensures r.Ok? <==> userId != "" && userId in old(users)
      ensures r.Err? ==> r.error == Unauthorized("Unauthorized") && users == old(users)
      ensures r.Ok? ==> users == old(users)[userId := old(users)[userId].(refreshTokenHash := refreshTokenHash)]
    {
      var user := FindOne(Some(userId), None);
      if user.None? {
        return Err(Unauthorized("Unauthorized"));
      }
      users := users[userId := user.value.(refreshTokenHash := refreshTokenHash)];
      return Ok(());
    }
  }

  /** `Object.assign(user, dto)` for the fields the dto carries. */
  function Assign(user: User, dto: UpdateUserDto): (r: User)
    ensures r.id == user.id && r.username == user.username && r.role == user.role
    ensures r.refreshTokenHash == user.refreshTokenHash
    ensures r.password == if dto.password.Some? then dto.password.value else user.password
  {
    match dto.password
    case Some(p) => user.(password := p)
    case None => user
  }

  // ----- properties of the table -----

  /** Replacing a record by one with the same id and username keeps the table well keyed. */
  lemma ReplaceKeepsWellKeyed(m: Table, k: string, u: User)
    requires WellKeyed(m) && k in m && u.id == k && u.username == m[k].username
    ensures WellKeyed(m[k := u])
  {
  }

  /** Inserting a record with a fresh id and an unused username keeps the table well keyed. */
  lemma InsertKeepsWellKeyed(m: Table, u: User)
    requires WellKeyed(m) && u.id !in m && !UsernameTaken(m, u.username)
    ensures WellKeyed(m[u.id := u])
  {
  }

  /** In a well-keyed table a username names at most one record. */
  lemma UsernameDeterminesRecord(m: Table, a: string, b: string)
    requires WellKeyed(m) && a in m && b in m && m[a].username == m[b].username
    ensures m[a] == m[b]
  {
  }
}
