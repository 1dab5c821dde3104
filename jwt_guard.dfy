/**
 * The bearer-token guard: parse `Authorization: Bearer <token>`, then verify,
 * decode and look up the token's subject, in that order, stopping at the first
 * failure; on success attach the stored user's identity to the request.
 * Token verification, decoding and the user lookup are parameters.
 */
module JwtGuard {
  import opened Outcomes
  import UserStore
  import opened Tokens

  /** What the user lookup by id yields: a record, nothing, or a thrown store error. */
  datatype Lookup = Found(user: UserStore.User) | NotFound | StoreFailure

  /** The identity attached to the request. */
  datatype Identity = Identity(id: string, username: string, role: string, roles: seq<string>)

  const HeaderMissing: string := "Authorization header is missing"
  const BadFormat: string := "Invalid authorization format"
  const ValidationFailed: string := "Token validation failed"

  // ----- `header.split(" ")` -----

  /** `s.split(" ")`: the pieces between single spaces, empty pieces included. */
  function Split(s: string): (r: seq<string>)
    ensures |r| >= 1
  {
    if s == [] then [""]
    else
      var rest := Split(s[1..]);
      if s[0] == ' ' then [""] + rest
      else [[s[0]] + rest[0]] + rest[1..]
  }

  /** `pieces.join(" ")`. */
  function Join(pieces: seq<string>): string
  {
    if pieces == [] then ""
    else if |pieces| == 1 then pieces[0]
    else pieces[0] + " " + Join(pieces[1..])
  }

  /** Splitting loses nothing: joining the pieces with single spaces gives the header back. */
  lemma {:induction false} JoinSplit(s: string)
    ensures Join(Split(s)) == s
    ensures forall i :: 0 <= i < |Split(s)| ==> ' ' !in Split(s)[i]
  {
    if s != [] {
      JoinSplit(s[1..]);
      var rest := Split(s[1..]);
      if s[0] == ' ' {
        assert Split(s) == [""] + rest;
        assert Split(s)[1..] == rest;
        assert s == [' '] + s[1..];
      } else {
        var r := Split(s);
        assert r[0] == [s[0]] + rest[0];
        assert r[1..] == rest[1..];
        if |rest| == 1 {
          assert Join(r) == r[0];
        } else {
          assert Join(rest) == rest[0] + " " + Join(rest[1..]);
          assert Join(r) == r[0] + " " + Join(r[1..]);
        }
        assert s == [s[0]] + s[1..];
        forall i | 0 <= i < |r| ensures ' ' !in r[i] {
          if i > 0 {
            assert r[i] == rest[i];
          }
        }
      }
    }
  }

  /** The pieces of a header made of words without spaces are those words. */
  lemma {:induction false} SplitJoin(pieces: seq<string>)
    requires |pieces| >= 1
    requires forall i :: 0 <= i < |pieces| ==> ' ' !in pieces[i]
    ensures Split(Join(pieces)) == pieces
    decreases |pieces|, |pieces[0]|
  {
    if |pieces| == 1 {
      SplitWord(pieces[0]);
    } else if pieces[0] == "" {
      SplitJoin(pieces[1..]);
      assert Join(pieces) == " " + Join(pieces[1..]);
      assert Join(pieces)[1..] == Join(pieces[1..]);
    } else {
      var w := pieces[0];
      var shorter := [w[1..]] + pieces[1..];
      forall i | 0 <= i < |shorter| ensures ' ' !in shorter[i] {
        if i > 0 {
          assert shorter[i] == pieces[i];
        } else {
          assert forall c :: c in w[1..] ==> c in w;
        }
      }
      SplitJoin(shorter);
      assert shorter[1..] == pieces[1..];
      assert Join(pieces) == [w[0]] + Join(shorter);
      assert Join(pieces)[1..] == Join(shorter);
      assert w[0] in w;
      assert [w[0]] + w[1..] == w;
    }
  }

  lemma {:induction false} SplitWord(w: string)
    requires ' ' !in w
    ensures Split(w) == [w]
    decreases |w|
  {
    if w != [] {
      assert w[0] in w;
      assert forall c :: c in w[1..] ==> c in w;
      SplitWord(w[1..]);
      assert [w[0]] + w[1..] == w;
    }
  }

  // ----- the check sequence -----

  /** The token of a well-formed header: the second piece, after a first piece of exactly "Bearer". */
  function ParseBearer(header: Option<string>): (r: Result<string>)
    ensures !Truthy(header) ==> r == Err(Unauthorized(HeaderMissing))
    ensures r.Err? ==> r.error.Unauthorized?
    ensures r.Ok? <==> Truthy(header) && Split(header.value)[0] == "Bearer" && |Split(header.value)| >= 2 && Split(header.value)[1] != ""
    ensures r.Ok? ==> r.value == Split(header.value)[1] && r.value != "" && ' ' !in r.value
  {
    if !Truthy(header) then Err(Unauthorized(HeaderMissing))
    else
      var pieces := Split(header.value);
      var bearer := pieces[0];
      var token := if |pieces| >= 2 then Some(pieces[1]) else None;
      if bearer != "Bearer" || !Truthy(token) then Err(Unauthorized(BadFormat))
      else
        JoinSplit(header.value);
        Ok(token.value)
  }

  /** The identity built from a stored record. */
  function IdentityOf(user: UserStore.User): (r: Identity)
    ensures r.id == user.id && r.username == user.username && r.role == user.role && r.roles == [user.role]
  {
    Identity(user.id, user.username, user.role, [user.role])
  }

  /**
   * The outcome of canActivate: the identity to attach, or the exception.
   * Every failure after the header check is the same Unauthorized.
   */
  function Authenticate(header: Option<string>, verify: string -> Verified, decode: string -> Option<Payload>,
                        lookup: string -> Lookup): (r: Result<Identity>)
    ensures r.Err? ==> r.error.Unauthorized?
    ensures ParseBearer(header).Err? ==> r == Err(ParseBearer(header).error)
    ensures ParseBearer(header).Ok? && r.Err? ==> r.error == Unauthorized(ValidationFailed)
    ensures r.Ok? <==>
      (var token := ParseBearer(header);
       token.Ok? && verify(token.value) == Returned(true) && decode(token.value).Some? && decode(token.value).value.sub != ""
       && lookup(decode(token.value).value.sub).Found?)
    ensures r.Ok? ==> r.value == IdentityOf(lookup(decode(ParseBearer(header).value).value.sub).user)
  {
    match ParseBearer(header)
    case Err(e) => Err(e)
    case Ok(token) =>
      if verify(token) != Returned(true) then Err(Unauthorized(ValidationFailed))
      else
        var payload := decode(token);
        if payload.None? || payload.value.sub == "" then Err(Unauthorized(ValidationFailed))
        else match lookup(payload.value.sub)
          case Found(user) => Ok(IdentityOf(user))
          case NotFound => Err(Unauthorized(ValidationFailed))
          case StoreFailure => Err(Unauthorized(ValidationFailed))
  }

  /** A bad header is rejected before any token function is consulted. */
  lemma HeaderCheckedFirst(header: Option<string>,
                           verify1: string -> Verified, decode1: string -> Option<Payload>, lookup1: string -> Lookup,
                           verify2: string -> Verified, decode2: string -> Option<Payload>, lookup2: string -> Lookup)
    requires ParseBearer(header).Err?
    ensures Authenticate(header, verify1, decode1, lookup1) == Authenticate(header, verify2, decode2, lookup2)
  {
  }

  /** A token that fails verification, or whose verification throws, is rejected without decoding it or looking anyone up. */
  lemma VerifyBeforeDecode(header: Option<string>, verify: string -> Verified,
                           decode1: string -> Option<Payload>, lookup1: string -> Lookup,
                           decode2: string -> Option<Payload>, lookup2: string -> Lookup)
    requires ParseBearer(header).Ok? && verify(ParseBearer(header).value) != Returned(true)
    ensures Authenticate(header, verify, decode1, lookup1) == Authenticate(header, verify, decode2, lookup2)
    ensures Authenticate(header, verify, decode1, lookup1) == Err(Unauthorized(ValidationFailed))
  {
  }

  /** A payload without a subject is rejected without a lookup. */
  lemma DecodeBeforeLookup(header: Option<string>, verify: string -> Verified, decode: string -> Option<Payload>,
                           lookup1: string -> Lookup, lookup2: string -> Lookup)
    requires ParseBearer(header).Ok?
    requires var p := decode(ParseBearer(header).value); p.None? || p.value.sub == ""
    ensures Authenticate(header, verify, decode, lookup1) == Authenticate(header, verify, decode, lookup2)
  {
  }

  /** Pieces after the token are ignored. */
  lemma ExtraPiecesIgnored(token: string, extra: string)
    requires token != "" && ' ' !in token
    ensures ParseBearer(Some("Bearer " + token + " " + extra)) == Ok(token)
  {
    JoinSplit(extra);
    var pieces := ["Bearer", token] + Split(extra);
    forall i | 0 <= i < |pieces| ensures ' ' !in pieces[i] {
      if i >= 2 {
        assert pieces[i] == Split(extra)[i - 2];
      }
    }
    SplitJoin(pieces);
    assert pieces[1..] == [token] + Split(extra);
    assert pieces[2..] == Split(extra);
    assert Join(pieces[1..]) == token + " " + Join(Split(extra));
    assert Join(pieces) == "Bearer" + " " + (token + " " + extra);
    var header := "Bearer " + token + " " + extra;
    assert header == Join(pieces);
    assert Split(header) == pieces;
  }

  /** A missing or empty header is reported as missing. */
  lemma MissingHeaderExamples()
    ensures ParseBearer(None) == Err(Unauthorized(HeaderMissing))
    ensures ParseBearer(Some("")) == Err(Unauthorized(HeaderMissing))
  {
  }

  /** A scheme other than "Bearer", or no token, is a format error. */
  lemma MalformedHeaderExamples()
    ensures ParseBearer(Some("Bad token")) == Err(Unauthorized(BadFormat))
    ensures ParseBearer(Some("Bearer")) == Err(Unauthorized(BadFormat))
  {
    assert Join(["Bad", "token"]) == "Bad token";
    SplitJoin(["Bad", "token"]);
    SplitWord("Bearer");
  }

  /** The token of a well-formed header. */
  lemma WellFormedHeaderExample()
    ensures ParseBearer(Some("Bearer abc")) == Ok("abc")
  {
    assert Join(["Bearer", "abc"]) == "Bearer abc";
    SplitJoin(["Bearer", "abc"]);
  }

  // ----- the request object -----

  /** The part of the request the guard reads and writes. */
  class Request {
    var authorization: Option<string>
    var user: Option<Identity>

    constructor (authorization: Option<string>)
      ensures this.authorization == authorization && user == None
    {
      this.authorization := authorization;
      user := None;
    }
  }

  class JwtAuthGuard {
    const verify: string -> Verified
    const decode: string -> Option<Payload>
    const lookup: string -> Lookup

    constructor (verify: string -> Verified, decode: string -> Option<Payload>, lookup: string -> Lookup)
      ensures this.verify == verify && this.decode == decode && this.lookup == lookup
    {
      this.verify := verify;
      this.decode := decode;
      this.lookup := lookup;
    }

    /** canActivate: returns true or throws; `request.user` is written on success only. */
    method CanActivate(request: Request) returns (r: Result<bool>)
      modifies request`user
      ensures var outcome := Authenticate(request.authorization, verify, decode, lookup);
        && (r.Ok? <==> outcome.Ok?)
        && (r.Ok? ==> r.value && request.user == Some(outcome.value))
        && (r.Err? ==> r.error == outcome.error && request.user == old(request.user))
    {
      var token := ParseBearer(request.authorization);
      if token.Err? {
        return Err(token.error);
      }
      if verify(token.value) != Returned(true) {
        return Err(Unauthorized(ValidationFailed));
      }
      var payload := decode(token.value);
      if payload.None? || payload.value.sub == "" {
        return Err(Unauthorized(ValidationFailed));
      }
      var found := lookup(payload.value.sub);
      if !found.Found? {
        return Err(Unauthorized(ValidationFailed));
      }
      request.user := Some(IdentityOf(found.user));
      return Ok(true);
    }
  }
}
