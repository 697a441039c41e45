/**
 * utils/token.go: the signing secret, the claims of an access token, token generation and
 * validation, and extraction of the token from an Authorization header.
 *
 * The environment, the clock and the keyed hash are parameters: `env` is the process
 * environment, `now` a Unix time in seconds, `hmac` the HMAC primitive.
 */
module Token {
  import opened Wrappers
  import opened Codec
  import opened Os
  import opened Jwt

  const JwtSecretVariable := "JWT_SECRET"
  const DefaultJwtSecret := "your-secret-key-change-this-in-production"
  const TokenIssuer := "simple-restful-api"
  /** 24 hours, in seconds. */
  const TokenLifetime := 24 * 60 * 60
  const BearerPrefix := "Bearer "
  const InvalidTokenError := "invalid token"

  // ---------------------------------------------------------------------------------------------
  // Secret

  /** getJWTSecret: JWT_SECRET when it is set and non-empty, the built-in default otherwise. */
  function GetJwtSecret(env: Environment): (secret: string)
    ensures secret != []
    ensures Getenv(env, JwtSecretVariable) != [] ==> secret == Getenv(env, JwtSecretVariable)
    ensures Getenv(env, JwtSecretVariable) == [] ==> secret == DefaultJwtSecret
  {
    var secret := Getenv(env, JwtSecretVariable);
    if secret == "" then DefaultJwtSecret else secret
  }

  // ---------------------------------------------------------------------------------------------
  // Claims and their encoding

  /** The Claims struct: the user's identity and the standard claims. */
  datatype Claims = Claims(userId: int, username: string, std: StandardClaims)

  /** The claims GenerateToken builds for a user at time `now`. */
  function NewClaims(userId: int, username: string, now: int): (c: Claims)
    ensures c.userId == userId && c.username == username
    ensures c.std.issuer == TokenIssuer && c.std.issuedAt == now && c.std.notBefore == 0
    ensures c.std.expiresAt - c.std.issuedAt == TokenLifetime
  {
    Claims(userId, username, StandardClaims(now + TokenLifetime, now, 0, TokenIssuer))
  }

  function ClaimFields(c: Claims): seq<string>
  {
    [IntToText(c.userId), EncodeSegment(c.username), IntToText(c.std.expiresAt),
     IntToText(c.std.issuedAt), IntToText(c.std.notBefore), EncodeSegment(c.std.issuer)]
  }

  /** The claims segment: the six claim fields, each encoded, joined by ','. */
  function EncodeClaims(c: Claims): (payload: string)
    ensures Dot !in payload
  {
    JoinAvoids(ClaimFields(c), Comma, Dot);
    Join(ClaimFields(c), Comma)
  }

  /** Reads a claims segment; anything but six well-formed fields gives None. */
  function DecodeClaims(payload: string): Option<Claims>
  {
    var f := Split(payload, Comma);
    if |f| != 6 then None
    else
      match (TextToInt(f[0]), DecodeSegment(f[1]), TextToInt(f[2]), TextToInt(f[3]), TextToInt(f[4]), DecodeSegment(f[5]))
      case (Some(uid), Some(name), Some(exp), Some(iat), Some(nbf), Some(iss)) =>
        Some(Claims(uid, name, StandardClaims(exp, iat, nbf, iss)))
      case _ => None
  }

  lemma DecodeEncodeClaims(c: Claims)
    ensures DecodeClaims(EncodeClaims(c)) == Some(c)
  {
    var fields := ClaimFields(c);
    SplitJoin(fields, Comma);
    TextToIntOfIntToText(c.userId);
    TextToIntOfIntToText(c.std.expiresAt);
    TextToIntOfIntToText(c.std.issuedAt);
    TextToIntOfIntToText(c.std.notBefore);
    DecodeEncodeSegment(c.username);
    DecodeEncodeSegment(c.std.issuer);
  }

  // ---------------------------------------------------------------------------------------------
  // Generation

  /** The header segment of a token signed with `m`. */
  function EncodeHeader(m: Method): (header: string)
    ensures Dot !in header
    ensures DecodeSegment(header) == Some(AlgName(m))
  {
    DecodeEncodeSegment(AlgName(m));
    EncodeSegment(AlgName(m))
  }

  /** Token.SignedString: header, claims and signature segments joined by '.'. */
  function SignedString(hmac: HmacFunction, m: Method, c: Claims, key: string): (r: Result<string>)
  {
    var header := EncodeHeader(m);
    var payload := EncodeClaims(c);
    match Sign(hmac, m, SigningString(header, payload), key)
    case Err(e) => Err(e)
    case Ok(signature) => Ok(Join([header, payload, signature], Dot))
  }

  /** GenerateToken: signs the claims for the user with HS256 under the configured secret. */
  function GenerateToken(env: Environment, hmac: HmacFunction, userId: int, username: string, now: int): (r: Result<string>)
    ensures var header, payload := EncodeHeader(HS256), EncodeClaims(NewClaims(userId, username, now));
            var mac := hmac(256, GetJwtSecret(env), SigningString(header, payload));
            && (r.Ok? <==> mac.Some?)
            && (r.Ok? ==> r.value == Join([header, payload, EncodeSegment(mac.value)], Dot))
            && (r.Err? ==> r.error == "error signing token: " + ErrHashUnavailable)
  {
    var key := GetJwtSecret(env);
    match SignedString(hmac, HS256, NewClaims(userId, username, now), key)
    case Err(e) => Err("error signing token: " + e)
    case Ok(t) => Ok(t)
  }

  /** The signature segment GenerateToken computes for these claims. */
  function GeneratedSignature(env: Environment, hmac: HmacFunction, c: Claims): Result<string>
  {
    Sign(hmac, HS256, SigningString(EncodeHeader(HS256), EncodeClaims(c)), GetJwtSecret(env))
  }

  /** GenerateToken fails only when the HMAC cannot be computed; its token is header.claims.signature. */
  lemma GeneratedTokenSegments(env: Environment, hmac: HmacFunction, userId: int, username: string, now: int)
    ensures var c := NewClaims(userId, username, now);
            GenerateToken(env, hmac, userId, username, now).Ok? <==> GeneratedSignature(env, hmac, c).Ok?
    ensures var c := NewClaims(userId, username, now);
            GenerateToken(env, hmac, userId, username, now).Ok? ==>
              GenerateToken(env, hmac, userId, username, now).value
                == Join([EncodeHeader(HS256), EncodeClaims(c), GeneratedSignature(env, hmac, c).value], Dot)
  {
  }

  // ---------------------------------------------------------------------------------------------
  // Validation

  /** The key function passed to ParseWithClaims: the secret for HMAC methods, an error otherwise. */
  function KeyFunc(env: Environment, m: Method, alg: string): (r: Result<string>)
    ensures r.Ok? <==> IsHmac(m)
    ensures r.Ok? ==> r.value == GetJwtSecret(env)
  {
    if IsHmac(m) then Ok(GetJwtSecret(env)) else Err("unexpected signing method: " + alg)
  }

  /** The parsed token and its Valid flag. */
  datatype ParsedToken = ParsedToken(claims: Claims, valid: bool)

  /**
   * jwt.ParseWithClaims with the key function above: split into three segments, then parse them.
   */
  function ParseWithClaims(env: Environment, hmac: HmacFunction, t: string, now: int): (r: Result<ParsedToken>)
    ensures r.Ok? ==> r.value.valid
  {
    var parts := Split(t, Dot);
    if |parts| != 3 then Err(ErrSegmentCount)
    else ParseSegments(env, hmac, parts[0], parts[1], parts[2], now)
  }

  /**
   * The rest of ParseWithClaims: decode header and claims, look up the method, obtain the key,
   * check the time claims and the signature. A signature error replaces a claims error in the
   * message, as in jwt-go.
   */
  function ParseSegments(env: Environment, hmac: HmacFunction, header: string, payload: string, signature: string, now: int): (r: Result<ParsedToken>)
    ensures r.Ok? ==> r.value.valid
  {
    match DecodeSegment(header)
    case None => Err(ErrMalformedSegment)
    case Some(alg) =>
      match DecodeClaims(payload)
      case None => Err(ErrMalformedSegment)
      case Some(claims) =>
        match GetSigningMethod(alg)
        case None => Err(ErrAlgUnavailable)
        case Some(m) =>
          match KeyFunc(env, m, alg)
          case Err(e) => Err(e)
          case Ok(key) =>
            var claimsError := ValidateStandardClaims(claims.std, now);
            var signatureError := Verify(hmac, m, SigningString(header, payload), signature, key);
            if signatureError.Some? then Err(signatureError.value)
            else if claimsError.Some? then Err(claimsError.value)
            else Ok(ParsedToken(claims, true))
  }

  /** The "alg" a token's header names, when the token has three segments and a readable header. */
  function TokenAlg(t: string): Option<string>
  {
    var parts := Split(t, Dot);
    if |parts| == 3 then DecodeSegment(parts[0]) else None
  }

  predicate IsHmacAlg(alg: string)
  {
    GetSigningMethod(alg).Some? && IsHmac(GetSigningMethod(alg).value)
  }

  /**
   * Reference definition of a genuine token: an HMAC "alg" in the header, claims `c`, and a
   * signature equal to the HMAC of the first two segments under `key`.
   */
  predicate AuthenticSegments(hmac: HmacFunction, key: string, header: string, payload: string, signature: string, c: Claims)
  {
    && DecodeSegment(header).Some? && IsHmacAlg(DecodeSegment(header).value)
    && DecodeClaims(payload) == Some(c)
    && DecodeSegment(signature).Some?
    && hmac(HashBits(GetSigningMethod(DecodeSegment(header).value).value), key, SigningString(header, payload))
         == DecodeSegment(signature)
  }

  predicate Authentic(hmac: HmacFunction, key: string, t: string, c: Claims)
  {
    var parts := Split(t, Dot);
    |parts| == 3 && AuthenticSegments(hmac, key, parts[0], parts[1], parts[2], c)
  }

  /** ValidateToken: the claims of a genuine, current token; an error for every other string. */
  function ValidateToken(env: Environment, hmac: HmacFunction, t: string, now: int): (r: Result<Claims>)
    ensures r.Ok? ==> Authentic(hmac, GetJwtSecret(env), t, r.value) && Current(r.value.std, now)
    ensures forall c :: Authentic(hmac, GetJwtSecret(env), t, c) && Current(c.std, now) ==> r == Ok(c)
    ensures TokenAlg(t).Some? && !IsHmacAlg(TokenAlg(t).value) ==> r.Err?
  {
    match ParseWithClaims(env, hmac, t, now)
    case Err(e) => Err("error parsing token: " + e)
    case Ok(token) => if token.valid then Ok(token.claims) else Err(InvalidTokenError)
  }

  /** Exactly the three HMAC algorithms pass the signing-method check. */
  lemma HmacAlgorithms(alg: string)
    ensures IsHmacAlg(alg) <==> alg in {"HS256", "HS384", "HS512"}
  {
  }

  // ---------------------------------------------------------------------------------------------
  // Properties of generation and validation

  /** A freshly generated token validates, within its lifetime, to the claims it was made from. */
  lemma GeneratedTokenValidates(env: Environment, hmac: HmacFunction, userId: int, username: string, issuedAt: int, now: int)
    requires GenerateToken(env, hmac, userId, username, issuedAt).Ok?
    requires issuedAt <= now <= issuedAt + TokenLifetime
    ensures ValidateToken(env, hmac, GenerateToken(env, hmac, userId, username, issuedAt).value, now)
            == Ok(NewClaims(userId, username, issuedAt))
  {
    var c := NewClaims(userId, username, issuedAt);
    var header, payload := EncodeHeader(HS256), EncodeClaims(c);
    var signature := GeneratedSignature(env, hmac, c).value;
    GeneratedTokenSegments(env, hmac, userId, username, issuedAt);
    SplitThree(header, payload, signature, Dot);
    DecodeEncodeClaims(c);
    GetSigningMethodOfAlgName(HS256);
    var t := GenerateToken(env, hmac, userId, username, issuedAt).value;
    assert Split(t, Dot) == [header, payload, signature];
    assert IsHmacAlg(DecodeSegment(header).value);
    assert AuthenticSegments(hmac, GetJwtSecret(env), header, payload, signature, c);
    assert Authentic(hmac, GetJwtSecret(env), t, c);
    assert Current(c.std, now);
  }

  /** A generated token is refused once its lifetime is over. */
  lemma GeneratedTokenExpires(env: Environment, hmac: HmacFunction, userId: int, username: string, issuedAt: int, now: int)
    requires GenerateToken(env, hmac, userId, username, issuedAt).Ok?
    requires issuedAt + TokenLifetime != 0 && now > issuedAt + TokenLifetime
    ensures ValidateToken(env, hmac, GenerateToken(env, hmac, userId, username, issuedAt).value, now).Err?
  {
    var c := NewClaims(userId, username, issuedAt);
    GeneratedTokenSegments(env, hmac, userId, username, issuedAt);
    SplitThree(EncodeHeader(HS256), EncodeClaims(c), GeneratedSignature(env, hmac, c).value, Dot);
    DecodeEncodeClaims(c);
  }

  /** Replacing the signature of a generated token by any other bytes makes it invalid. */
  lemma ForgedSignatureRejected(env: Environment, hmac: HmacFunction, userId: int, username: string, issuedAt: int, now: int, forged: string)
    requires var c := NewClaims(userId, username, issuedAt);
             Some(forged) != hmac(256, GetJwtSecret(env), SigningString(EncodeHeader(HS256), EncodeClaims(c)))
    ensures var c := NewClaims(userId, username, issuedAt);
            ValidateToken(env, hmac, Join([EncodeHeader(HS256), EncodeClaims(c), EncodeSegment(forged)], Dot), now).Err?
  {
    var c := NewClaims(userId, username, issuedAt);
    SplitThree(EncodeHeader(HS256), EncodeClaims(c), EncodeSegment(forged), Dot);
    DecodeEncodeSegment(forged);
    GetSigningMethodOfAlgName(HS256);
  }

  /** The HMAC primitive has no collisions under `key` (the security assumption on HMAC). */
  ghost predicate CollisionFree(hmac: HmacFunction, bits: nat, key: string)
  {
    forall m1, m2 :: hmac(bits, key, m1).Some? && hmac(bits, key, m1) == hmac(bits, key, m2) ==> m1 == m2
  }

  /** Two claims segments signed under one header have different signing strings. */
  lemma SigningStringsDiffer(header: string, c1: Claims, c2: Claims)
    requires Dot !in header
    requires c1 != c2
    ensures SigningString(header, EncodeClaims(c1)) != SigningString(header, EncodeClaims(c2))
  {
    if SigningString(header, EncodeClaims(c1)) == SigningString(header, EncodeClaims(c2)) {
      SplitJoin([header, EncodeClaims(c1)], Dot);
      SplitJoin([header, EncodeClaims(c2)], Dot);
      DecodeEncodeClaims(c1);
      DecodeEncodeClaims(c2);
    }
  }

  /**
   * Keeping the genuine signature but changing the claims makes the token invalid, for an HMAC
   * without collisions.
   */
  lemma AlteredClaimsRejected(env: Environment, hmac: HmacFunction, userId: int, username: string, issuedAt: int, altered: Claims, now: int)
    requires GeneratedSignature(env, hmac, NewClaims(userId, username, issuedAt)).Ok?
    requires CollisionFree(hmac, 256, GetJwtSecret(env))
    requires altered != NewClaims(userId, username, issuedAt)
    ensures var signature := GeneratedSignature(env, hmac, NewClaims(userId, username, issuedAt)).value;
            ValidateToken(env, hmac, Join([EncodeHeader(HS256), EncodeClaims(altered), signature], Dot), now).Err?
  {
    var c := NewClaims(userId, username, issuedAt);
    var signature := GeneratedSignature(env, hmac, c).value;
    SplitThree(EncodeHeader(HS256), EncodeClaims(altered), signature, Dot);
    SigningStringsDiffer(EncodeHeader(HS256), altered, c);
    GetSigningMethodOfAlgName(HS256);
  }

  // ---------------------------------------------------------------------------------------------
  // Authorization header

  /** ExtractTokenFromHeader: the text after "Bearer ", or "" when the header is not of that form. */
  function ExtractTokenFromHeader(authHeader: string): (token: string)
    ensures token != [] <==> |authHeader| > |BearerPrefix| && authHeader[..|BearerPrefix|] == BearerPrefix
    ensures token != [] ==> authHeader == BearerPrefix + token
  {
    if |authHeader| > 7 && authHeader[..7] == BearerPrefix then authHeader[7..] else ""
  }

  /** Prefixing a non-empty token with "Bearer " and extracting it again gives the token back. */
  lemma ExtractBearerRoundTrip(token: string)
    requires token != []
    ensures ExtractTokenFromHeader(BearerPrefix + token) == token
  {
    assert (BearerPrefix + token)[..7] == BearerPrefix;
  }

  /** Other schemes, a different case, a bare token, the empty header and "Bearer " alone give "". */
  lemma ExtractRejectsOtherHeaders()
    ensures ExtractTokenFromHeader("bearer abc123") == ""
    ensures ExtractTokenFromHeader("abc123") == ""
    ensures ExtractTokenFromHeader("") == ""
    ensures ExtractTokenFromHeader("Bearer ") == ""
    ensures ExtractTokenFromHeader("Bearer abc123") == "abc123"
  {
    assert "Bearer abc123"[..7] == BearerPrefix;
    assert "bearer abc123"[..7] != BearerPrefix by { assert "bearer abc123"[0] != BearerPrefix[0]; }
  }
}
