/**
 * The credential service: login, registration, token refresh and the
 * logged-in check, orchestrated over the user store and the token primitives.
 * A ghost trace records the store and crypto calls each operation makes, so
 * that the order and the absence of early returns can be stated.
 */
module AuthService {
  import opened Outcomes
  import opened Tokens
  import UserStore

  /** The bcrypt hash compared against when the username is unknown. */
  const PlaceholderHash: string := "$2b$10$C6UzMDM.H6dfI/f/IKcEeO1jJXclB/6L6iRHIx6e.C5F9jq5Hn4e."
  /** The user id tokens are minted for when the username is unknown. */
  const PlaceholderId: string := "ycuvybuuyvyderyfutg7iyunhbgjftru"
  /** The role tokens are minted for when the username is unknown. */
  const PlaceholderRole: string := "USER"
  /** The role of a registration that names none. */
  const DefaultRole: string := "user"

  const InvalidCredentials: string := "Invalid credentials"
  const InvalidRefreshToken: string := "Invalid refresh token"
  const RefreshNotSet: string := "User not found or refresh token not set"

  /** The externally visible steps of an operation, in the order they run. */
  datatype Call =
    | FindByUsername(username: string)
    | FindById(id: string)
    | ComparePassword(password: string, hash: string)
    | HashPassword(password: string)
    | CreateUser(username: string)
    | DecodeToken(token: string)
    | CompareToken(token: string, hash: string)
    | Rotate(userId: string, role: string)
    | SaveRefresh(userId: string, hash: string)

  datatype CreateUserDto = CreateUserDto(username: string, password: string, role: Option<string>)

  datatype LoginResult = LoginResult(message: string, userId: string, accessToken: string, refreshToken: string)
  datatype RefreshResult = RefreshResult(message: string, accessToken: string, newRefreshToken: string)

  /** The record login works with: the one named `username`, when that is truthy and taken. */
  ghost function LoginUser(m: UserStore.Table, username: string): Option<UserStore.User>
    requires UserStore.WellKeyed(m)
  {
    if username == "" then None else UserStore.ByUsername(m, username)
  }

  /** The hash, id and role login uses: the found user's, or the placeholders. */
  function LoginSubject(user: Option<UserStore.User>): (r: (string, string, string))
    ensures user.None? ==> r == (PlaceholderHash, PlaceholderId, PlaceholderRole)
    ensures user.Some? ==> r == (user.value.password, user.value.id, user.value.role)
  {
    match user
    case Some(u) => (u.password, u.id, u.role)
    case None => (PlaceholderHash, PlaceholderId, PlaceholderRole)
  }

  /** Login accepts exactly a found user whose stored hash matches the password. */
  predicate LoginAccepts(p: Primitives, user: Option<UserStore.User>, password: string)
  {
    user.Some? && p.compare(password, user.value.password)
  }

  /** getLoggedIn: the verifier's verdict, and false when it throws. */
  function GetLoggedIn(p: Primitives, accessToken: string): (loggedIn: bool)
    ensures loggedIn <==> p.verify(accessToken) == Returned(true)
    ensures p.verify(accessToken).Threw? ==> !loggedIn
  {
    match p.verify(accessToken)
    case Returned(valid) => valid
    case Threw => false
  }

  /** Whatever the store holds, a missing user is never accepted, even when the placeholder hash matches. */
  lemma MissingUserNeverAccepted(p: Primitives, password: string)
    ensures !LoginAccepts(p, None, password)
    ensures LoginSubject(None).0 == PlaceholderHash
  {
  }

  class AuthService {
    const db: UserStore.DbService
    const tokens: Primitives
    ghost var trace: seq<Call>

    ghost predicate Valid()
      reads this, db
    {
      db.Valid()
    }

    constructor (db: UserStore.DbService, tokens: Primitives)
      ensures this.db == db && this.tokens == tokens && trace == []
    {
      this.db := db;
      this.tokens := tokens;
      trace := [];
    }

    /**
     * login: the password comparison and the token rotation always run, on the
     * placeholders when the username is unknown; rejection comes only afterwards.
     */
    method Login(username: string, password: string) returns (r: Result<LoginResult>)
      requires Valid()
      modifies this`trace, db
      ensures Valid()
      ensures var user := LoginUser(old(db.users), username);
        var (hash, id, role) := LoginSubject(user);
        var pair := RotateTokens(tokens, id, role);
        var ok := LoginAccepts(tokens, user, password);
        && trace == old(trace) + [FindByUsername(username), ComparePassword(password, hash), Rotate(id, role)]
                              + (if ok then [SaveRefresh(id, pair.refreshTokenHash)] else [])
        && (!ok ==> r == Err(Unauthorized(InvalidCredentials)) && db.users == old(db.users))
        && (ok && id == "" ==> r == Err(Unauthorized("Unauthorized")) && db.users == old(db.users))
        && (ok && id != "" ==>
              r == Ok(LoginResult("User logged in successfully", id, pair.accessToken, pair.refreshToken))
              && db.users == old(db.users)[id := user.value.(refreshTokenHash := pair.refreshTokenHash)])
    {
      var user := db.FindOne(None, Some(username));
      trace := trace + [FindByUsername(username)];
      var isValid := user.Some?;
      var passwordHash := if user.Some? then user.value.password else PlaceholderHash;
      trace := trace + [ComparePassword(password, passwordHash)];
      if !tokens.compare(password, passwordHash) {
        isValid := false;
      }
      var userId := if user.Some? then user.value.id else PlaceholderId;
      var userRole := if user.Some? then user.value.role else PlaceholderRole;
      var pair := RotateTokens(tokens, userId, userRole);
      trace := trace + [Rotate(userId, userRole)];
      if !isValid {
        return Err(Unauthorized(InvalidCredentials));
      }
      trace := trace + [SaveRefresh(userId, pair.refreshTokenHash)];
      var saved := db.SaveRefreshToken(userId, pair.refreshTokenHash);
      if saved.Err? {
        return Err(saved.error);
      }
      return Ok(LoginResult("User logged in successfully", userId, pair.accessToken, pair.refreshToken));
    }

    /**
     * register: BadRequest for a taken username before anything is hashed or
     * written; otherwise store the hashed password with the default role and an
     * empty refresh hash, then mint tokens for the created id and save their hash.
     * `newId` is the uuid the store generates.
     */
    method Register(dto: CreateUserDto, newId: string) returns (r: Result<LoginResult>)
      requires Valid() && newId !in db.users
      modifies this`trace, db
      ensures Valid()
      ensures dto.username != "" && old(UserStore.UsernameTaken(db.users, dto.username)) ==>
        r == Err(BadRequest("User already exists")) && db.users == old(db.users)
        && trace == old(trace) + [FindByUsername(dto.username)]
      ensures tokens.hashPassword(dto.password).None? ==> r.Err? && db.users == old(db.users)
      ensures r.Ok? ==>
        var hashed := tokens.hashPassword(dto.password).value;
        var role := if Truthy(dto.role) then dto.role.value else DefaultRole;
        var pair := RotateTokens(tokens, newId, role);
        && newId != ""
        && r.value == LoginResult("User registered successfully", newId, pair.accessToken, pair.refreshToken)
        && db.users == old(db.users)[newId := UserStore.User(newId, dto.username, hashed, role, pair.refreshTokenHash)]
        && trace == old(trace) + [FindByUsername(dto.username), HashPassword(dto.password), CreateUser(dto.username),
                                  Rotate(newId, role), SaveRefresh(newId, pair.refreshTokenHash)]
      ensures !old(UserStore.UsernameTaken(db.users, dto.username)) && tokens.hashPassword(dto.password).Some? && newId != "" ==> r.Ok?
    {
      var existing := db.FindOne(None, Some(dto.username));
      trace := trace + [FindByUsername(dto.username)];
      if existing.Some? {
        return Err(BadRequest("User already exists"));
      }
      var hashed := tokens.hashPassword(dto.password);
      trace := trace + [HashPassword(dto.password)];
      if hashed.None? {
        return Err(InternalError("Error hashing password"));
      }
      var role := if Truthy(dto.role) then dto.role.value else DefaultRole;
      var draft := UserStore.User("", dto.username, hashed.value, role, "");
      var created := db.Create(draft, newId);
      trace := trace + [CreateUser(dto.username)];
      if created.Err? {
        return Err(created.error);
      }
      var user := created.value;
      if user.id == "" {
        return Err(InternalError("Error creating user"));
      }
      var pair := RotateTokens(tokens, user.id, user.role);
      trace := trace + [Rotate(user.id, user.role)];
      var saved := db.SaveRefreshToken(user.id, pair.refreshTokenHash);
      trace := trace + [SaveRefresh(user.id, pair.refreshTokenHash)];
      // the record was just created under a truthy id, so saving cannot fail
      assert saved.Ok?;
      return Ok(LoginResult("User registered successfully", user.id, pair.accessToken, pair.refreshToken));
    }

    /**
     * refresh: the token's subject must name a user with a stored refresh hash
     * that the token matches; then a new pair is minted and its hash replaces
     * the stored one. Every failure leaves the store as it was.
     */
    method Refresh(refreshToken: string) returns (r: Result<RefreshResult>)
      requires Valid()
      modifies this`trace, db
      ensures Valid()
      ensures var payload := tokens.decode(refreshToken);
        && (payload.None? || payload.value.sub == "" ==>
              r == Err(Unauthorized(InvalidRefreshToken)) && trace == old(trace) + [DecodeToken(refreshToken)])
        && (payload.Some? && payload.value.sub != "" ==>
              var id := payload.value.sub;
              && (id !in old(db.users) || old(db.users)[id].refreshTokenHash == "" ==> r == Err(Unauthorized(RefreshNotSet)))
              && (id in old(db.users) && old(db.users)[id].refreshTokenHash != "" ==>
                    var user := old(db.users)[id];
                    var pair := RotateTokens(tokens, id, user.role);
                    && (!tokens.compare(refreshToken, user.refreshTokenHash) ==> r == Err(Unauthorized(InvalidRefreshToken)))
                    && (tokens.compare(refreshToken, user.refreshTokenHash) ==>
                          && r == Ok(RefreshResult("Token refreshed successfully", pair.accessToken, pair.refreshToken))
                          && db.users == old(db.users)[id := user.(refreshTokenHash := pair.refreshTokenHash)]
                          && trace == old(trace) + [DecodeToken(refreshToken), FindById(id),
                                                    CompareToken(refreshToken, user.refreshTokenHash),
                                                    Rotate(id, user.role), SaveRefresh(id, pair.refreshTokenHash)])))
      ensures r.Err? ==> r.error.Unauthorized? && db.users == old(db.users)
      ensures r.Ok? ==> exists id :: id in db.users && db.users[id].refreshTokenHash == tokens.hashToken(r.value.newRefreshToken)
    {
      var payload := tokens.decode(refreshToken);
      trace := trace + [DecodeToken(refreshToken)];
      if payload.None? || payload.value.sub == "" {
        return Err(Unauthorized(InvalidRefreshToken));
      }
      var userId := payload.value.sub;
      var user := db.FindOne(Some(userId), None);
      trace := trace + [FindById(userId)];
      if user.None? || user.value.id == "" || user.value.refreshTokenHash == "" {
        return Err(Unauthorized(RefreshNotSet));
      }
      var isValid := tokens.compare(refreshToken, user.value.refreshTokenHash);
      trace := trace + [CompareToken(refreshToken, user.value.refreshTokenHash)];
      if !isValid {
        return Err(Unauthorized(InvalidRefreshToken));
      }
      var pair := RotateTokens(tokens, user.value.id, user.value.role);
      trace := trace + [Rotate(user.value.id, user.value.role)];
      var saved := db.SaveRefreshToken(user.value.id, pair.refreshTokenHash);
      trace := trace + [SaveRefresh(user.value.id, pair.refreshTokenHash)];
      // the record was just found under a truthy id, so saving cannot fail
      assert saved.Ok?;
      assert db.users[userId].refreshTokenHash == tokens.hashToken(pair.refreshToken);
      return Ok(RefreshResult("Token refreshed successfully", pair.accessToken, pair.refreshToken));
    }
  }

  /** A hash function whose hashes only match the token they were made from. */
  ghost predicate HashBinds(p: Primitives)
  {
    forall t, u :: p.compare(t, p.hashToken(u)) ==> t == u
  }

  /** What bcrypt reads of its input: the first 72 characters, or the whole of a shorter string. */
  function BcryptPrefix(s: string): (r: string)
    ensures |s| <= 72 ==> r == s
    ensures |s| > 72 ==> |r| == 72 && r == s[..72]
  {
    if |s| <= 72 then s else s[..72]
  }

  /** `hashToken`/`compareToken` as bcrypt computes them: a token matches the hash of any token with the same first 72 characters. */
  ghost predicate BcryptTruncates(p: Primitives)
  {
    && (forall t, u :: BcryptPrefix(t) == BcryptPrefix(u) ==> p.compare(t, p.hashToken(u)))
    && (forall u :: p.hashToken(u) != "")
  }

  /** Two tokens that differ only after the 72nd character match each other's hash, so bcrypt on whole tokens does not bind. */
  lemma TruncationBreaksBinding(p: Primitives)
    requires BcryptTruncates(p)
    ensures !HashBinds(p)
  {
    var head := seq(72, _ => 'a');
    var t, u := head + "b", head + "c";
    assert t[..72] == head == u[..72];
    assert BcryptPrefix(t) == BcryptPrefix(u);
    assert p.compare(t, p.hashToken(u));
    assert t[72] != u[72];
  }

  /**
   * As written: with bcrypt's 72-character truncation, a refresh token whose
   * first 72 characters equal those of the tokens minted for its subject (a JWT
   * header and the start of `{"sub":"<id>"`) is accepted again after it has
   * been rotated away.
   */
  method ReplayedRefreshTokenAccepted(auth: AuthService, token: string) returns (first: Result<RefreshResult>, second: Result<RefreshResult>)
    requires auth.Valid() && BcryptTruncates(auth.tokens)
    requires auth.tokens.decode(token).Some?
    requires var id := auth.tokens.decode(token).value.sub;
      id in auth.db.users && BcryptPrefix(token) == BcryptPrefix(auth.tokens.signRefresh(Payload(id, auth.db.users[id].role)))
    modifies auth`trace, auth.db
    ensures first.Ok? ==> second.Ok? && second.value == first.value
  {
    ghost var id := auth.tokens.decode(token).value.sub;
    ghost var role := auth.db.users[id].role;
    first := auth.Refresh(token);
    ghost var afterFirst := auth.db.users;
    second := auth.Refresh(token);
    if first.Ok? {
      var minted := auth.tokens.signRefresh(Payload(id, role));
      assert afterFirst[id].role == role;
      assert afterFirst[id].refreshTokenHash == auth.tokens.hashToken(minted);
      assert auth.tokens.compare(token, afterFirst[id].refreshTokenHash);
    }
  }

  /**
   * The usual remedy for the 72-character limit: hash and compare a fixed-size
   * digest of the token instead of the token itself.
   */
  function DigestFirst(p: Primitives, digest: string -> string): (q: Primitives)
    ensures forall t {:trigger q.hashToken(t)} :: q.hashToken(t) == p.hashToken(digest(t))
    ensures forall t, h {:trigger q.compare(t, h)} :: q.compare(t, h) == p.compare(digest(t), h)
    ensures q.signAccess == p.signAccess && q.signRefresh == p.signRefresh && q.verify == p.verify && q.decode == p.decode
  {
    p.(hashToken := t => p.hashToken(digest(t)), compare := (t, h) => p.compare(digest(t), h))
  }

  /**
   * With a collision-free digest, and bcrypt binding on the digests (a
   * 64-character hex SHA-256 digest is read whole), the digesting primitives bind.
   */
  lemma DigestFirstBinds(p: Primitives, digest: string -> string)
    requires forall t, u :: digest(t) == digest(u) ==> t == u
    requires forall a, b :: p.compare(digest(a), p.hashToken(digest(b))) ==> digest(a) == digest(b)
    ensures HashBinds(DigestFirst(p, digest))
  {
    var q := DigestFirst(p, digest);
    forall t, u | q.compare(t, q.hashToken(u)) ensures t == u {
      assert p.compare(digest(t), p.hashToken(digest(u)));
    }
  }

  /**
   * Single-use rotation: once a refresh has succeeded, presenting the same
   * refresh token again fails, provided the hash binds and the new refresh
   * token differs from the one presented.
   */
  method ReplayedRefreshTokenFails(auth: AuthService, token: string) returns (first: Result<RefreshResult>, second: Result<RefreshResult>)
    requires auth.Valid() && HashBinds(auth.tokens)
    modifies auth`trace, auth.db
    ensures first.Ok? && first.value.newRefreshToken != token ==> second.Err? && second.error.Unauthorized?
    ensures first.Ok? && first.value.newRefreshToken != token && auth.tokens.hashToken(first.value.newRefreshToken) != "" ==>
      second == Err(Unauthorized(InvalidRefreshToken))
  {
    first := auth.Refresh(token);
    ghost var afterFirst := auth.db.users;
    second := auth.Refresh(token);
    if first.Ok? && first.value.newRefreshToken != token {
      var id := auth.tokens.decode(token).value.sub;
      assert afterFirst[id].refreshTokenHash == auth.tokens.hashToken(first.value.newRefreshToken);
      assert !auth.tokens.compare(token, afterFirst[id].refreshTokenHash);
    }
  }
}
