/** GinMiddleware (authMiddleware.go): the request decision chain, the grace-period
    handling of an expired token with its deferred one-shot reclaim, and the two
    queries it uses. As in Core, each step is a function on a `HandlerState`, and
    the methods that mutate a JwtHandler are proved to match it. */
module Middleware {
  import opened Jwt
  import opened Core

  /** The authorization scheme prefix of section 2.1 of RFC 6750. */
  const BEARER := "Bearer "

  const STATUS_UNAUTHORIZED: nat := 401
  const STATUS_INTERNAL_ERROR: nat := 500

  const MSG_HEADER_REQUIRED := "Authorization header required"
  const MSG_BAD_FORMAT := "Invalid authorization format"
  const MSG_TOKEN_REVOKED := "Token revoked"
  const MSG_INVALID_TOKEN := "Invalid token"
  const MSG_INVALID_EXPIRED := "Invalid expired token"
  const MSG_TOKEN_EXPIRED := "Token expired"
  const MSG_MINT_FAILED := "Failed to generate new token"

  /** What the middleware does with a request: let it through as a user (with the
      Authorization response header carrying a replacement token, on renewal), or
      abort it with a status and an error message. */
  datatype Outcome =
    | Admit(userId: nat)
    | AdmitRenewed(userId: nat, authorization: string)
    | Reject(status: nat, message: string)

  /** What the Authorization header yields. */
  datatype Credential = Missing | Malformed | Bearer(token: string)

  /** strings.TrimPrefix */
  function TrimPrefix(s: string, prefix: string): string {
    if |prefix| <= |s| && s[..|prefix|] == prefix then s[|prefix|..] else s
  }

  predicate HasBearerPrefix(header: string) {
    |BEARER| <= |header| && header[..|BEARER|] == BEARER
  }

  /** The header checks: an empty header is missing; one that TrimPrefix leaves
      unchanged is malformed; otherwise the token is the header minus the prefix. */
  function ExtractToken(header: string): (r: Credential)
    ensures r == Missing <==> header == ""
    ensures r.Bearer? <==> HasBearerPrefix(header)
    ensures r.Bearer? ==> header == BEARER + r.token
  {
    if header == "" then Missing
    else
      var token := TrimPrefix(header, BEARER);
      if token == header then Malformed else Bearer(token)
  }

  /** parseExpiredToken as written: claims come back whenever the error has the
      Expired bit, even when other bits (a bad signature) are set as well. */
  function ParseExpiredToken(codec: Codec, token: string, now: int): (r: Result<Claims>)
    ensures r.Ok? <==> ParseWithClaims(codec, token, now).Ok? || IsExpiredError(ParseWithClaims(codec, token, now).error)
    ensures r.Ok? ==> codec.decode(token).Readable? && r.value == codec.decode(token).claims
  {
    var parsed := ParseWithClaims(codec, token, now);
    match codec.decode(token)
    case Unreadable => parsed
    case Readable(c, _) => if parsed.Err? && IsExpiredError(parsed.error) then Ok(c) else parsed
  }

  /** The error is an expiry and nothing else. */
  predicate IsOnlyExpiredError(err: Error) {
    err.ValidationError? && err.errors == ERROR_EXPIRED
  }

  /** parseExpiredToken as intended: ignore the expiry error only. */
  function ParseExpiredTokenStrict(codec: Codec, token: string, now: int): (r: Result<Claims>)
    ensures r.Ok? ==> codec.decode(token) == Readable(r.value, true)
    ensures r.Ok? <==> codec.decode(token).Readable? && codec.decode(token).signatureOk
                       && (codec.decode(token).claims.issuedAt == 0 || codec.decode(token).claims.issuedAt <= now)
  {
    var parsed := ParseWithClaims(codec, token, now);
    match codec.decode(token)
    case Unreadable => parsed
    case Readable(c, _) => if parsed.Err? && IsOnlyExpiredError(parsed.error) then Ok(c) else parsed
  }

  /** isTokenRevoked: the blacklist answers and holds a live entry; a store error reads as "not revoked". */
  function IsTokenRevoked(st: HandlerState, token: string, env: Env): (r: bool)
    ensures r ==> token in st.blacklist && env.now < st.blacklist[token]
    ensures !env.blacklistUp ==> !r
    ensures env.blacklistUp && token in st.blacklist && env.now < st.blacklist[token] ==> r
  {
    env.blacklistUp && Blacklisted(st.blacklist, token, env.now)
  }

  /** Which parseExpiredToken the chain runs: the code as written, or the
      corrected one that ignores an expiry error only when it is the sole fault. */
  datatype Variant = AsWritten | Corrected

  function ExpiredClaims(variant: Variant, codec: Codec, token: string, now: int): (r: Result<Claims>)
    ensures r.Ok? ==> codec.decode(token).Readable? && r.value == codec.decode(token).claims
    ensures variant.Corrected? && r.Ok? ==> codec.decode(token).signatureOk
  {
    match variant
    case AsWritten => ParseExpiredToken(codec, token, now)
    case Corrected => ParseExpiredTokenStrict(codec, token, now)
  }

  /** The grace-period record the first expired use of a token creates. */
  function NewGraceRecord(setup: Setup, newToken: string, env: Env): GraceRecord {
    GraceRecord(env.now + setup.config.gracePeriod, newToken)
  }

  /** handleExpiredToken, one critical section: recover the user; with a record,
      reject and revoke past its deadline, admit before it; without one, mint a
      replacement, record it and admit with the replacement in the response. */
  function HandleExpired(setup: Setup, st: HandlerState, token: string, env: Env, variant: Variant): (r: Step<Outcome>)
    ensures r.state.tokenCache == st.tokenCache || (token !in st.graceTokens && r.out.AdmitRenewed?)
    ensures r.out.AdmitRenewed? ==> token !in st.graceTokens && token in r.state.graceTokens
    ensures r.state.graceTokens.Keys <= st.graceTokens.Keys + {token}
    ensures token in st.graceTokens && env.now <= st.graceTokens[token].deadline ==> r.state == st
  {
    match ExpiredClaims(variant, setup.codec, token, env.now)
    case Err(_) => Step(st, Reject(STATUS_UNAUTHORIZED, MSG_INVALID_EXPIRED))
    case Ok(claims) =>
      if token in st.graceTokens then
        if env.now > st.graceTokens[token].deadline then
          var revoked := Revoke(setup, st.(graceTokens := st.graceTokens - {token}), token, env);
          Step(revoked.state, Reject(STATUS_UNAUTHORIZED, MSG_TOKEN_EXPIRED))
        else
          Step(st, Admit(claims.userId))
      else
        var released := Release(setup, st, claims.userId, env);
        match released.out
        case Err(_) => Step(released.state, Reject(STATUS_INTERNAL_ERROR, MSG_MINT_FAILED))
        case Ok(newToken) =>
          var graceTokens := released.state.graceTokens[token := NewGraceRecord(setup, newToken, env)];
          Step(released.state.(graceTokens := graceTokens), AdmitRenewed(claims.userId, BEARER + newToken))
  }

  /** The deferred one-shot reclaim: remove and revoke only a record that is still
      there and whose deadline has passed. */
  function Reclaim(setup: Setup, st: HandlerState, token: string, env: Env): (r: HandlerState)
    ensures r.tokenCache == st.tokenCache
    ensures r.graceTokens == st.graceTokens || (token in st.graceTokens && r.graceTokens == st.graceTokens - {token})
  {
    if token in st.graceTokens && env.now > st.graceTokens[token].deadline then
      Revoke(setup, st.(graceTokens := st.graceTokens - {token}), token, env).state
    else st
  }

  /** The GinMiddleware chain: header checks, the revocation check, ParseToken,
      then admit, grace handling on an expiry error, or rejection. */
  function Request(setup: Setup, st: HandlerState, header: string, env: Env, variant: Variant): (r: Step<Outcome>)
    ensures header == "" ==> r == Step(st, Reject(STATUS_UNAUTHORIZED, MSG_HEADER_REQUIRED))
    ensures header != "" && !HasBearerPrefix(header) ==> r == Step(st, Reject(STATUS_UNAUTHORIZED, MSG_BAD_FORMAT))
    ensures !r.out.Reject? ==> HasBearerPrefix(header) && !IsTokenRevoked(st, header[|BEARER|..], env)
    ensures r.state.tokenCache == st.tokenCache || r.out.AdmitRenewed?
    ensures r.out.AdmitRenewed? ==> HasBearerPrefix(header) && header[|BEARER|..] !in st.graceTokens
                                    && header[|BEARER|..] in r.state.graceTokens
    ensures r.state == st || (HasBearerPrefix(header) && r.state.graceTokens.Keys <= st.graceTokens.Keys + {header[|BEARER|..]})
  {
    match ExtractToken(header)
    case Missing => Step(st, Reject(STATUS_UNAUTHORIZED, MSG_HEADER_REQUIRED))
    case Malformed => Step(st, Reject(STATUS_UNAUTHORIZED, MSG_BAD_FORMAT))
    case Bearer(token) =>
      if IsTokenRevoked(st, token, env) then Step(st, Reject(STATUS_UNAUTHORIZED, MSG_TOKEN_REVOKED))
      else match Parse(setup, st, token, env)
        case Ok(claims) => Step(st, Admit(claims.userId))
        case Err(e) =>
          if IsExpiredError(e) then HandleExpired(setup, st, token, env, variant)
          else Step(st, Reject(STATUS_UNAUTHORIZED, MSG_INVALID_TOKEN))
  }

  /** The middleware on a handler, as written (with the as-written parseExpiredToken). isTokenRevoked calls the blacklist without a
      nil check, so the handler must have one. */
  method GinMiddleware(h: JwtHandler, header: string, env: Env) returns (outcome: Outcome)
    requires h.Valid() && h.setup.hasBlacklist
    modifies h
    ensures h.Valid()
    ensures var step := Request(h.setup, old(h.State()), header, env, AsWritten);
            h.State() == step.state && outcome == step.out
  {
    var credential := ExtractToken(header);
    if credential.Missing? {
      return Reject(STATUS_UNAUTHORIZED, MSG_HEADER_REQUIRED);
    }
    if credential.Malformed? {
      return Reject(STATUS_UNAUTHORIZED, MSG_BAD_FORMAT);
    }
    var token := credential.token;
    if IsTokenRevoked(h.State(), token, env) {
      return Reject(STATUS_UNAUTHORIZED, MSG_TOKEN_REVOKED);
    }
    var parsed := Parse(h.setup, h.State(), token, env);
    if parsed.Ok? {
      return Admit(parsed.value.userId);
    }
    if IsExpiredError(parsed.error) {
      outcome := HandleExpiredToken(h, token, env);
      return;
    }
    outcome := Reject(STATUS_UNAUTHORIZED, MSG_INVALID_TOKEN);
  }

  method HandleExpiredToken(h: JwtHandler, token: string, env: Env) returns (outcome: Outcome)
    requires h.Valid()
    modifies h
    ensures h.Valid()
    ensures var step := HandleExpired(h.setup, old(h.State()), token, env, AsWritten);
            h.State() == step.state && outcome == step.out
  {
    var claims := ParseExpiredToken(h.setup.codec, token, env.now);
    if claims.Err? {
      return Reject(STATUS_UNAUTHORIZED, MSG_INVALID_EXPIRED);
    }
    if token in h.graceTokens {
      var record := h.graceTokens[token];
      if env.now > record.deadline {
        h.graceTokens := h.graceTokens - {token};
        var ignored := h.RevokeToken(token, env);
        return Reject(STATUS_UNAUTHORIZED, MSG_TOKEN_EXPIRED);
      }
      return Admit(claims.value.userId);
    }
    var newToken := h.ReleaseToken(claims.value.userId, env);
    if newToken.Err? {
      return Reject(STATUS_INTERNAL_ERROR, MSG_MINT_FAILED);
    }
    var deadline := env.now + h.setup.config.gracePeriod;
    h.graceTokens := h.graceTokens[token := GraceRecord(deadline, newToken.value)];
    outcome := AdmitRenewed(claims.value.userId, BEARER + newToken.value);
  }

  /** The closure handleExpiredToken schedules to run one second after the deadline. */
  method ReclaimGraceToken(h: JwtHandler, token: string, env: Env)
    requires h.Valid()
    modifies h
    ensures h.Valid()
    ensures h.State() == Reclaim(h.setup, old(h.State()), token, env)
  {
    if token in h.graceTokens {
      var record := h.graceTokens[token];
      if env.now > record.deadline {
        h.graceTokens := h.graceTokens - {token};
        var ignored := h.RevokeToken(token, env);
      }
    }
  }
}
