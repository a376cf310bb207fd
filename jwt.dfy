/** The part of github.com/dgrijalva/jwt-go (v3) that the token handler relies on,
    together with the Claims and Config records. HS256 signing (section 3.2 of
    RFC 7518) is kept abstract: a `Codec` signs claims into a token string and
    decodes a token string back into claims plus a signature verdict. */
module Jwt {

  /** The user id plus the registered claims exp, iat and iss of section 4.1 of
      RFC 7519. Times are Unix seconds; 0 means the claim is absent. */
  datatype Claims = Claims(userId: nat, issuedAt: int, expiresAt: int, issuer: string)

  /** The Config fields the lifecycle uses: token lifetime and grace window in
      seconds, sweep interval in minutes, and the issuer written into every token. */
  datatype Config = Config(expires: int, gracePeriod: int, blacklistCleanDuration: int, issuer: string)

  // jwt-go ValidationError flags (one bit each, in jwt-go's order)
  const ERROR_MALFORMED: bv32 := 1
  const ERROR_SIGNATURE_INVALID: bv32 := 4
  const ERROR_EXPIRED: bv32 := 16
  const ERROR_ISSUED_AT: bv32 := 32

  /** A Go `error`: either a jwt-go ValidationError with its bitmask, or a plain message. */
  datatype Error = ValidationError(errors: bv32) | Message(text: string)

  datatype Result<T> = Ok(value: T) | Err(error: Error)

  /** What a token string decodes to before any check: nothing readable, or its
      claims with whether its signature matches the configured signing key. */
  datatype Decoded = Unreadable | Readable(claims: Claims, signatureOk: bool)

  /** HS256 under the configured signing key. */
  datatype Codec = Codec(sign: Claims -> string, decode: string -> Decoded)

  /** Signing is sound: a token this codec signed is not empty (it has three
      dot-separated parts) and decodes to exactly the claims it was signed with,
      and its signature matches. */
  ghost predicate Sound(codec: Codec) {
    forall c: Claims :: codec.sign(c) != "" && codec.decode(codec.sign(c)) == Readable(c, true)
  }

  /** StandardClaims.Valid with no claim required: exp and iat are checked only when non-zero. */
  predicate TimeValid(c: Claims, now: int) {
    (c.expiresAt == 0 || now <= c.expiresAt) && (c.issuedAt == 0 || c.issuedAt <= now)
  }

  /** The bits StandardClaims.Valid sets. */
  function ClaimsErrors(c: Claims, now: int): bv32 {
    (if c.expiresAt != 0 && now > c.expiresAt then ERROR_EXPIRED else 0)
    | (if c.issuedAt != 0 && now < c.issuedAt then ERROR_ISSUED_AT else 0)
  }

  /** jwt.ParseWithClaims with the configured key: an unreadable token is
      malformed; otherwise the claims are validated first and the signature is
      checked afterwards, and every failure found is OR'ed into one bitmask. */
  function ParseWithClaims(codec: Codec, token: string, now: int): (r: Result<Claims>)
    ensures r.Ok? <==> codec.decode(token).Readable? && codec.decode(token).signatureOk
                       && TimeValid(codec.decode(token).claims, now)
    ensures r.Ok? ==> r.value == codec.decode(token).claims
    ensures r.Err? ==> r.error.ValidationError? && r.error.errors != 0
  {
    match codec.decode(token)
    case Unreadable => Err(ValidationError(ERROR_MALFORMED))
    case Readable(c, signatureOk) =>
      var errors := ClaimsErrors(c, now) | (if signatureOk then 0 else ERROR_SIGNATURE_INVALID);
      if errors == 0 then Ok(c) else Err(ValidationError(errors))
  }

  /** isExpiredError: a ValidationError whose Expired bit is set, whatever else is
      set; any other error fails the type assertion and is not an expiry. */
  function IsExpiredError(err: Error): (r: bool)
    ensures r ==> err.ValidationError? && err.errors != 0
    ensures err.Message? ==> !r
  {
    err.ValidationError? && err.errors & ERROR_EXPIRED != 0
  }

  /** The Expired bit decides alone: an expiry together with a bad signature is
      still an expiry error, and a bad signature or a malformed token alone is not. */
  lemma ExpiredBitDecides()
    ensures IsExpiredError(ValidationError(ERROR_EXPIRED))
    ensures IsExpiredError(ValidationError(ERROR_EXPIRED | ERROR_SIGNATURE_INVALID))
    ensures IsExpiredError(ValidationError(ERROR_EXPIRED | ERROR_ISSUED_AT))
    ensures !IsExpiredError(ValidationError(ERROR_SIGNATURE_INVALID))
    ensures !IsExpiredError(ValidationError(ERROR_MALFORMED))
    ensures !IsExpiredError(ValidationError(ERROR_ISSUED_AT | ERROR_SIGNATURE_INVALID))
  {
  }

  /** The failure a token produces is an expiry error exactly when it is readable
      and its exp lies in the past; the signature plays no part. */
  lemma ExpiredErrorIffPastExpiry(codec: Codec, token: string, now: int)
    ensures var r := ParseWithClaims(codec, token, now);
            (r.Err? && IsExpiredError(r.error))
            <==> (codec.decode(token).Readable? && codec.decode(token).claims.expiresAt != 0
                  && now > codec.decode(token).claims.expiresAt)
  {
  }

  /** A token this codec signed verifies exactly when its claims are time-valid,
      and then yields the claims it was signed with. */
  lemma SignedTokenVerifies(codec: Codec, c: Claims, now: int)
    requires Sound(codec)
    ensures ParseWithClaims(codec, codec.sign(c), now) == if TimeValid(c, now) then Ok(c) else
              Err(ValidationError(ClaimsErrors(c, now)))
  {
  }
}
