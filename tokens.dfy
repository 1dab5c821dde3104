/**
 * The token and password primitives the services call, left uninterpreted:
 * JWT signing, verification and decoding, and bcrypt hashing and comparison.
 * Only the shape of a token rotation is fixed here.
 */
module Tokens {
  import opened Outcomes

  /** The signed claims: subject (user id) and role. An empty `sub` stands for a missing one. */
  datatype Payload = Payload(sub: string, role: string)

  /** What token verification did: returned a verdict, or threw. */
  datatype Verified = Returned(valid: bool) | Threw

  datatype Primitives = Primitives(
    signAccess: Payload -> string,        // generateAccessToken
    signRefresh: Payload -> string,       // generateRefreshToken
    hashToken: string -> string,          // hashToken (bcrypt with a fresh salt)
    compare: (string, string) -> bool,    // bcrypt.compare / compareToken
    hashPassword: string -> Option<string>, // bcrypt.hash(password, 12); None when it throws
    verify: string -> Verified,           // verifyToken
    decode: string -> Option<Payload>)    // decodeToken; None for an undecodable token

  datatype TokenPair = TokenPair(accessToken: string, refreshToken: string, refreshTokenHash: string)

  /** rotateTokens: both tokens signed from `{sub: userId, role}`; the hash is that of the refresh token. */
  function RotateTokens(p: Primitives, userId: string, role: string): (r: TokenPair)
    ensures r.accessToken == p.signAccess(Payload(userId, role))
    ensures r.refreshToken == p.signRefresh(Payload(userId, role))
    ensures r.refreshTokenHash == p.hashToken(r.refreshToken)
  {
    var payload := Payload(userId, role);
    var refreshToken := p.signRefresh(payload);
    TokenPair(p.signAccess(payload), refreshToken, p.hashToken(refreshToken))
  }
}
