/**
 * middlewares/auth_middleware.go: the handler in front of every protected route. It reads the
 * Authorization header, validates the Bearer token, and either answers 401 and aborts or puts
 * the caller's identity into the request context and lets the chain continue.
 */
module AuthMiddleware {
  import opened Wrappers
  import opened Os
  import Codec
  import opened Jwt
  import opened Token
  import opened Http

  const ErrHeaderRequired := "Authorization header required"
  const ErrBearerRequired := "Bearer token required"
  const ErrInvalidToken := "Invalid or expired token"

  /** Context keys written on success. */
  const UserIdKey := "user_id"
  const UsernameKey := "username"

  /** What the middleware decides for one request. */
  datatype Decision = Reject(response: Response) | Authorize(userId: int, username: string)

  /**
   * The decision chain: empty header, then the Bearer form, then token validation. Every
   * rejection is a 401; acceptance carries exactly the identity of a genuine, current token.
   */
  function Authenticate(env: Environment, hmac: HmacFunction, authHeader: string, now: int): (d: Decision)
    ensures authHeader == "" ==> d == Reject(Response(StatusUnauthorized, ErrorBody(ErrHeaderRequired, None)))
    ensures authHeader != "" && ExtractTokenFromHeader(authHeader) == "" ==>
              d == Reject(Response(StatusUnauthorized, ErrorBody(ErrBearerRequired, None)))
    ensures d.Reject? ==> d.response.status == StatusUnauthorized
    ensures d.Authorize? ==>
              exists token, c :: authHeader == BearerPrefix + token && Authentic(hmac, GetJwtSecret(env), token, c)
                                 && Current(c.std, now) && d == Authorize(c.userId, c.username)
    ensures forall token, c :: token != "" && authHeader == BearerPrefix + token
                               && Authentic(hmac, GetJwtSecret(env), token, c) && Current(c.std, now)
                               ==> d == Authorize(c.userId, c.username)
  {
    if authHeader == "" then Reject(Response(StatusUnauthorized, ErrorBody(ErrHeaderRequired, None)))
    else
      var token := ExtractTokenFromHeader(authHeader);
      if token == "" then Reject(Response(StatusUnauthorized, ErrorBody(ErrBearerRequired, None)))
      else
        match ValidateToken(env, hmac, token, now)
        case Err(e) => Reject(Response(StatusUnauthorized, ErrorBody(ErrInvalidToken, Some(e))))
        case Ok(c) => Authorize(c.userId, c.username)
  }

  /** The rejection for a Bearer token that does not validate, with the validation error as details. */
  lemma InvalidTokenResponse(env: Environment, hmac: HmacFunction, token: string, now: int)
    requires token != ""
    requires ValidateToken(env, hmac, token, now).Err?
    ensures Authenticate(env, hmac, BearerPrefix + token, now)
            == Reject(Response(StatusUnauthorized, ErrorBody(ErrInvalidToken, Some(ValidateToken(env, hmac, token, now).error))))
  {
    ExtractBearerRoundTrip(token);
  }

  /** "Bearer " with nothing after it fails the Bearer check, before any validation. */
  lemma BareBearerPrefix(env: Environment, hmac: HmacFunction, now: int)
    ensures Authenticate(env, hmac, BearerPrefix, now) == Reject(Response(StatusUnauthorized, ErrorBody(ErrBearerRequired, None)))
  {
    ExtractRejectsOtherHeaders();
  }

  /** A token is never the empty string: it has three segments separated by dots. */
  lemma GeneratedTokenNonEmpty(env: Environment, hmac: HmacFunction, userId: int, username: string, issuedAt: int)
    requires GenerateToken(env, hmac, userId, username, issuedAt).Ok?
    ensures GenerateToken(env, hmac, userId, username, issuedAt).value != ""
  {
    var c := NewClaims(userId, username, issuedAt);
    GeneratedTokenSegments(env, hmac, userId, username, issuedAt);
    var parts := [EncodeHeader(HS256), EncodeClaims(c), GeneratedSignature(env, hmac, c).value];
    assert Codec.Join(parts, Codec.Dot) == parts[0] + [Codec.Dot] + Codec.Join(parts[1..], Codec.Dot);
  }

  /** "Bearer " + a token the service generated authorizes its user during the token's lifetime. */
  lemma GeneratedTokenAuthorizes(env: Environment, hmac: HmacFunction, userId: int, username: string, issuedAt: int, now: int)
    requires GenerateToken(env, hmac, userId, username, issuedAt).Ok?
    requires issuedAt <= now <= issuedAt + TokenLifetime
    ensures Authenticate(env, hmac, BearerPrefix + GenerateToken(env, hmac, userId, username, issuedAt).value, now)
            == Authorize(userId, username)
  {
    var token := GenerateToken(env, hmac, userId, username, issuedAt).value;
    GeneratedTokenNonEmpty(env, hmac, userId, username, issuedAt);
    ExtractBearerRoundTrip(token);
    GeneratedTokenValidates(env, hmac, userId, username, issuedAt, now);
  }

  /** The same header is refused once the token has expired. */
  lemma ExpiredTokenRejected(env: Environment, hmac: HmacFunction, userId: int, username: string, issuedAt: int, now: int)
    requires GenerateToken(env, hmac, userId, username, issuedAt).Ok?
    requires issuedAt + TokenLifetime != 0 && now > issuedAt + TokenLifetime
    ensures Authenticate(env, hmac, BearerPrefix + GenerateToken(env, hmac, userId, username, issuedAt).value, now).Reject?
  {
    GeneratedTokenNonEmpty(env, hmac, userId, username, issuedAt);
    ExtractBearerRoundTrip(GenerateToken(env, hmac, userId, username, issuedAt).value);
    GeneratedTokenExpires(env, hmac, userId, username, issuedAt, now);
  }

  // ---------------------------------------------------------------------------------------------
  // The request context

  /** A value stored in the context by `c.Set`. */
  datatype ContextValue = IntValue(i: int) | StringValue(s: string)

  /** The parts of gin.Context the middleware touches. */
  class Context {
    /** The request headers (canonical names). */
    const headers: map<string, string>
    /** The per-request key/value store written by `c.Set`. */
    var keys: map<string, ContextValue>
    /** Set by `c.Abort`: no later handler runs. */
    var aborted: bool
    /** Set by `c.Next`: the remaining handlers ran. */
    var continued: bool
    /** The response written by `c.JSON`, if any. */
    var response: Option<Response>

    /** A fresh context for a request with these headers. */
    constructor (headers: map<string, string>)
      ensures this.headers == headers
      ensures keys == map[] && !aborted && !continued && response == None
    {
      this.headers := headers;
      keys := map[];
      aborted := false;
      continued := false;
      response := None;
    }

    /** `c.GetHeader`: the header's value, "" when absent. */
    function GetHeader(name: string): (value: string)
      ensures name in headers ==> value == headers[name]
      ensures name !in headers ==> value == ""
    {
      if name in headers then headers[name] else ""
    }
  }

  /**
   * The middleware run on a context no handler has finished with: exactly one of "respond 401
   * and abort" or "set user_id and username and continue" happens, as Authenticate decides.
   */
  method Run(c: Context, env: Environment, hmac: HmacFunction, now: int)
    requires !c.aborted && !c.continued && c.response == None
    modifies c
    ensures c.aborted != c.continued
    ensures match Authenticate(env, hmac, c.GetHeader("Authorization"), now)
            case Reject(resp) => c.aborted && c.response == Some(resp) && c.keys == old(c.keys)
            case Authorize(userId, username) =>
              c.continued && c.response == None
              && c.keys == old(c.keys)[UserIdKey := IntValue(userId)][UsernameKey := StringValue(username)]
  {
    var authHeader := c.GetHeader("Authorization");
    if authHeader == "" {
      c.response := Some(Response(StatusUnauthorized, ErrorBody(ErrHeaderRequired, None)));
      c.aborted := true;
      return;
    }
    var token := ExtractTokenFromHeader(authHeader);
    if token == "" {
      c.response := Some(Response(StatusUnauthorized, ErrorBody(ErrBearerRequired, None)));
      c.aborted := true;
      return;
    }
    var claims := ValidateToken(env, hmac, token, now);
    if claims.Err? {
      c.response := Some(Response(StatusUnauthorized, ErrorBody(ErrInvalidToken, Some(claims.error))));
      c.aborted := true;
      return;
    }
    c.keys := c.keys[UserIdKey := IntValue(claims.value.userId)];
    c.keys := c.keys[UsernameKey := StringValue(claims.value.username)];
    c.continued := true;
  }
}
