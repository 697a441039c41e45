/**
 * The parts of github.com/dgrijalva/jwt-go (v3) that utils/token.go uses: the registry of
 * signing methods, the HMAC signing method, and the time checks of StandardClaims.
 *
 * The keyed hash itself (HMAC-SHA-256/384/512) is a parameter of type HmacFunction; it returns
 * None when the hash function is not available, the one way HMAC signing can fail when the key
 * is a byte string.
 */
module Jwt {
  import opened Wrappers
  import opened Codec

  /** HMAC over the SHA-2 hash of the given size: (hash bits, key, message) to MAC bytes. */
  type HmacFunction = (nat, string, string) -> Option<string>

  /** The signing methods jwt-go registers, by their "alg" names. */
  datatype Method =
    | HS256 | HS384 | HS512
    | RS256 | RS384 | RS512
    | PS256 | PS384 | PS512
    | ES256 | ES384 | ES512
    | Unsecured

  /** The methods of type *jwt.SigningMethodHMAC. */
  predicate IsHmac(m: Method)
  {
    m == HS256 || m == HS384 || m == HS512
  }

  /** The size of the SHA-2 hash an HMAC method uses. */
  function HashBits(m: Method): nat
    requires IsHmac(m)
  {
    if m == HS256 then 256 else if m == HS384 then 384 else 512
  }

  /** The "alg" header value of a method. */
  function AlgName(m: Method): string
  {
    match m
    case HS256 => "HS256"
    case HS384 => "HS384"
    case HS512 => "HS512"
    case RS256 => "RS256"
    case RS384 => "RS384"
    case RS512 => "RS512"
    case PS256 => "PS256"
    case PS384 => "PS384"
    case PS512 => "PS512"
    case ES256 => "ES256"
    case ES384 => "ES384"
    case ES512 => "ES512"
    case Unsecured => "none"
  }

  /** jwt.GetSigningMethod: looks an "alg" header value up in the registry. */
  function GetSigningMethod(alg: string): (m: Option<Method>)
    ensures m.Some? ==> AlgName(m.value) == alg
  {
    if alg == "HS256" then Some(HS256)
    else if alg == "HS384" then Some(HS384)
    else if alg == "HS512" then Some(HS512)
    else if alg == "RS256" then Some(RS256)
    else if alg == "RS384" then Some(RS384)
    else if alg == "RS512" then Some(RS512)
    else if alg == "PS256" then Some(PS256)
    else if alg == "PS384" then Some(PS384)
    else if alg == "PS512" then Some(PS512)
    else if alg == "ES256" then Some(ES256)
    else if alg == "ES384" then Some(ES384)
    else if alg == "ES512" then Some(ES512)
    else if alg == "none" then Some(Unsecured)
    else None
  }

  /** Every registered method is found again under its own name. */
  lemma GetSigningMethodOfAlgName(m: Method)
    ensures GetSigningMethod(AlgName(m)) == Some(m)
  {
  }

  // Texts of the errors jwt-go reports (ValidationError.Error() and the method errors).
  const ErrSegmentCount := "token contains an invalid number of segments"
  const ErrMalformedSegment := "token segment is malformed"
  const ErrAlgUnavailable := "signing method (alg) is unavailable."
  const ErrSignatureInvalid := "signature is invalid"
  const ErrHashUnavailable := "the requested hash function is unavailable"
  const ErrInvalidKeyType := "key is of invalid type"
  const ErrExpired := "token is expired"
  const ErrUsedBeforeIssued := "Token used before issued"
  const ErrNotValidYet := "token is not valid yet"

  /** The registered claims that StandardClaims.Valid checks, plus the issuer. */
  datatype StandardClaims = StandardClaims(expiresAt: int, issuedAt: int, notBefore: int, issuer: string)

  // A zero time claim is absent and is not checked; the expiry instant itself is still valid.
  predicate VerifyExpiresAt(c: StandardClaims, now: int) { c.expiresAt == 0 || now <= c.expiresAt }
  predicate VerifyIssuedAt(c: StandardClaims, now: int) { c.issuedAt == 0 || now >= c.issuedAt }
  predicate VerifyNotBefore(c: StandardClaims, now: int) { c.notBefore == 0 || now >= c.notBefore }

  /** The claims are usable at `now`. */
  predicate Current(c: StandardClaims, now: int)
  {
    VerifyExpiresAt(c, now) && VerifyIssuedAt(c, now) && VerifyNotBefore(c, now)
  }

  /** StandardClaims.Valid: the last failing check decides the message. */
  function ValidateStandardClaims(c: StandardClaims, now: int): (err: Option<string>)
    ensures err.None? <==> Current(c, now)
    ensures !VerifyNotBefore(c, now) ==> err == Some(ErrNotValidYet)
  {
    var afterExp := if VerifyExpiresAt(c, now) then None else Some(ErrExpired);
    var afterIat := if VerifyIssuedAt(c, now) then afterExp else Some(ErrUsedBeforeIssued);
    if VerifyNotBefore(c, now) then afterIat else Some(ErrNotValidYet)
  }

  /** The signed part of a token: header and claims segments joined by '.'. */
  function SigningString(header: string, payload: string): string
  {
    header + [Dot] + payload
  }

  /** SigningMethod.Sign with a byte-string key; only the HMAC methods accept one. */
  function Sign(hmac: HmacFunction, m: Method, signingString: string, key: string): (r: Result<string>)
    ensures r.Ok? <==> IsHmac(m) && hmac(HashBits(m), key, signingString).Some?
    ensures r.Ok? ==> DecodeSegment(r.value) == hmac(HashBits(m), key, signingString)
    ensures r.Ok? ==> Dot !in r.value && r.value == EncodeSegment(hmac(HashBits(m), key, signingString).value)
    ensures r.Err? ==> r.error == if IsHmac(m) then ErrHashUnavailable else ErrInvalidKeyType
  {
    if !IsHmac(m) then Err(ErrInvalidKeyType)
    else
      match hmac(HashBits(m), key, signingString)
      case None => Err(ErrHashUnavailable)
      case Some(mac) =>
        DecodeEncodeSegment(mac);
        Ok(EncodeSegment(mac))
  }

  /** SigningMethod.Verify with a byte-string key; None means the signature is accepted. */
  function Verify(hmac: HmacFunction, m: Method, signingString: string, signature: string, key: string): (err: Option<string>)
    ensures err.None? <==> IsHmac(m) && DecodeSegment(signature).Some?
                           && hmac(HashBits(m), key, signingString) == DecodeSegment(signature)
  {
    if !IsHmac(m) then Some(ErrInvalidKeyType)
    else
      match DecodeSegment(signature)
      case None => Some(ErrMalformedSegment)
      case Some(sig) =>
        match hmac(HashBits(m), key, signingString)
        case None => Some(ErrHashUnavailable)
        case Some(mac) => if mac == sig then None else Some(ErrSignatureInvalid)
  }
}
