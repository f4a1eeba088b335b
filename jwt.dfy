/** The authentication gate and the token issuers of the API
    (todopalm-server/src/api/v1/middleware/jwt.ts). A token is a JSON Web Token
    (RFC 7519); the model keeps the claims the server reads and writes and the
    secret it was signed with, and treats serialisation and signing as a codec. */
module JwtMiddleware {
  import opened Common

  datatype TokenKind = Access | Refresh

  /** A signed token: its `sub` and `type` claims, the secret that signed it and
      its `exp` claim (seconds since the epoch). */
  datatype Token = Token(sub: Id, kind: TokenKind, secret: string, exp: int)

  /** ACCESS_TOKEN_SECRET and REFRESH_TOKEN_SECRET. */
  datatype Secrets = Secrets(access: string, refresh: string)

  /** The compact serialisation of tokens and its parser; `decode` answers None
      for a string that is not a well-formed, signed token. */
  datatype Codec = Codec(encode: Token -> string, decode: string -> Option<Token>)

  /** Parsing undoes serialisation, and a serialised token is never the empty string. */
  ghost predicate WellFormed(c: Codec)
  {
    forall t :: c.decode(c.encode(t)) == Some(t) && c.encode(t) != ""
  }

  /** `expiresIn: "60m"` */
  const ACCESS_LIFETIME: int := 60 * 60
  /** `expiresIn: "30d"` */
  const REFRESH_LIFETIME: int := 30 * 24 * 60 * 60

  /** `Math.floor(ms / 1000)`: for a positive divisor Dafny's division already rounds down. */
  function EpochSeconds(nowMs: int): int
  {
    nowMs / 1000
  }

  /** `jwt.verify(raw, secret)` at time `nowSec`: the subject of a token signed
      with `secret` whose expiry has not been reached; None when verification throws. */
  function Verify(codec: Codec, raw: string, secret: string, nowSec: int): (sub: Option<Id>)
    ensures sub.Some? <==>
      codec.decode(raw).Some? && codec.decode(raw).value.secret == secret && nowSec < codec.decode(raw).value.exp
    ensures sub.Some? ==> sub.value == codec.decode(raw).value.sub
  {
    match codec.decode(raw)
    case None => None
    case Some(t) => if t.secret == secret && nowSec < t.exp then Some(t.sub) else None
  }

  datatype AccessGrant = AccessGrant(token: Token, expiresAt: int)

  /** generateAccessToken: a token for `userId` of type access, signed with the
      access secret, valid for one hour from `nowMs`; `expiresAt` is its expiry. */
  function GenerateAccessToken(secrets: Secrets, userId: Id, nowMs: int): (g: AccessGrant)
    ensures g.token.sub == userId && g.token.kind == Access && g.token.secret == secrets.access
    ensures g.expiresAt == g.token.exp && g.expiresAt - EpochSeconds(nowMs) == ACCESS_LIFETIME
  {
    var exp := EpochSeconds(nowMs) + ACCESS_LIFETIME;
    AccessGrant(Token(userId, Access, secrets.access, exp), exp)
  }

  /** generateRefreshToken: a token for `userId` of type refresh, signed with the
      refresh secret, valid for thirty days from `nowMs`. */
  function GenerateRefreshToken(secrets: Secrets, userId: Id, nowMs: int): (t: Token)
    ensures t.sub == userId && t.kind == Refresh && t.secret == secrets.refresh
    ensures t.exp - EpochSeconds(nowMs) == REFRESH_LIFETIME
  {
    Token(userId, Refresh, secrets.refresh, EpochSeconds(nowMs) + REFRESH_LIFETIME)
  }

  /** An issued access token verifies under the access secret, as its subject,
      exactly until its expiry second. */
  lemma AccessTokenRoundTrip(codec: Codec, secrets: Secrets, userId: Id, nowMs: int, laterSec: int)
    requires WellFormed(codec)
    ensures var g := GenerateAccessToken(secrets, userId, nowMs);
      Verify(codec, codec.encode(g.token), secrets.access, laterSec) ==
        (if laterSec < g.expiresAt then Some(userId) else None)
  {
    var g := GenerateAccessToken(secrets, userId, nowMs);
    assert codec.decode(codec.encode(g.token)) == Some(g.token);
  }

  /** The three request paths the gate lets through unexamined. */
  const EXCLUDED_PATHS: seq<string> := [
    "/api/v1/users/auth/login",
    "/api/v1/users/auth/refresh-token",
    "/api/v1/users/auth/google"
  ]

  /** `authHeader && authHeader.startsWith("Bearer ")` */
  predicate HasBearer(authorization: Option<string>)
  {
    authorization.Some? && |authorization.value| >= 7 && authorization.value[..7] == "Bearer "
  }

  /** The identity the gate attaches to the request: `req.user = { id: decoded.sub }`. */
  datatype Principal = Principal(id: Id)

  /** Exactly one of: `next()` is called (with `req.user` set when a token was
      verified), or a 401 answer with the given message. */
  datatype GateOutcome = Next(user: Option<Principal>) | Unauthorized(message: string)

  /** authenticateJwtRequestToken for one request at time `nowSec`. */
  function Authenticate(codec: Codec, secrets: Secrets, path: string, authorization: Option<string>, nowSec: int)
    : (r: GateOutcome)
    ensures path in EXCLUDED_PATHS ==> r == Next(None)
    ensures path !in EXCLUDED_PATHS && !HasBearer(authorization) ==> r == Unauthorized("No token provided")
    ensures path !in EXCLUDED_PATHS && HasBearer(authorization) ==>
      var sub := Verify(codec, authorization.value[7..], secrets.access, nowSec);
      r == if sub.Some? then Next(Some(Principal(sub.value))) else Unauthorized("Invalid token")
  {
    if path in EXCLUDED_PATHS then Next(None)
    else if HasBearer(authorization) then
      match Verify(codec, authorization.value[7..], secrets.access, nowSec)
      case Some(sub) => Next(Some(Principal(sub)))
      case None => Unauthorized("Invalid token")
    else Unauthorized("No token provided")
  }

  /** An allow-listed path passes whatever the header holds. */
  lemma ExcludedPathsIgnoreHeader(codec: Codec, secrets: Secrets, path: string, h1: Option<string>, h2: Option<string>, nowSec: int)
    requires path in EXCLUDED_PATHS
    ensures Authenticate(codec, secrets, path, h1, nowSec) == Authenticate(codec, secrets, path, h2, nowSec) == Next(None)
  {
  }

  /** The gate never reads the `type` claim: two tokens that differ only in their
      type get the same answer. */
  lemma GateIgnoresTokenKind(codec: Codec, secrets: Secrets, path: string, t: Token, nowSec: int)
    requires WellFormed(codec)
    ensures
      var a := t.(kind := Access);
      var b := t.(kind := Refresh);
      Authenticate(codec, secrets, path, Some("Bearer " + codec.encode(a)), nowSec) ==
      Authenticate(codec, secrets, path, Some("Bearer " + codec.encode(b)), nowSec)
  {
    var a := t.(kind := Access);
    var b := t.(kind := Refresh);
    assert ("Bearer " + codec.encode(a))[7..] == codec.encode(a);
    assert ("Bearer " + codec.encode(b))[7..] == codec.encode(b);
    assert codec.decode(codec.encode(a)) == Some(a);
    assert codec.decode(codec.encode(b)) == Some(b);
  }

  /** A fresh access token sent as a bearer header on a protected path is accepted
      and identifies its user; a refresh token is rejected as long as the two
      secrets differ, and accepted when they are equal. */
  lemma GateOnIssuedTokens(codec: Codec, secrets: Secrets, path: string, userId: Id, nowMs: int)
    requires WellFormed(codec)
    requires path !in EXCLUDED_PATHS
    ensures
      var access := GenerateAccessToken(secrets, userId, nowMs).token;
      Authenticate(codec, secrets, path, Some("Bearer " + codec.encode(access)), EpochSeconds(nowMs)) ==
        Next(Some(Principal(userId)))
    ensures
      var refresh := GenerateRefreshToken(secrets, userId, nowMs);
      Authenticate(codec, secrets, path, Some("Bearer " + codec.encode(refresh)), EpochSeconds(nowMs)) ==
        if secrets.access != secrets.refresh then Unauthorized("Invalid token") else Next(Some(Principal(userId)))
  {
    var access := GenerateAccessToken(secrets, userId, nowMs).token;
    var refresh := GenerateRefreshToken(secrets, userId, nowMs);
    assert ("Bearer " + codec.encode(access))[..7] == "Bearer ";
    assert ("Bearer " + codec.encode(access))[7..] == codec.encode(access);
    assert ("Bearer " + codec.encode(refresh))[..7] == "Bearer ";
    assert ("Bearer " + codec.encode(refresh))[7..] == codec.encode(refresh);
    assert codec.decode(codec.encode(access)) == Some(access);
    assert codec.decode(codec.encode(refresh)) == Some(refresh);
  }
}
