/** What the GinMiddleware chain and the grace-period state machine of
    authMiddleware.go promise, proved about the functions that specify them. */
module MiddlewareProperties {
  import opened Jwt
  import opened Core
  import opened Middleware
  import CoreProperties

  /** A sequence of requests carrying the same header, one after another. */
  function Replay(setup: Setup, st: HandlerState, header: string, envs: seq<Env>, variant: Variant): (r: Step<seq<Outcome>>)
    ensures |r.out| == |envs|
    decreases |envs|
  {
    if envs == [] then Step(st, [])
    else
      var first := Request(setup, st, header, envs[0], variant);
      var rest := Replay(setup, first.state, header, envs[1..], variant);
      Step(rest.state, [first.out] + rest.out)
  }

  /** The token is well signed and its only fault at `now` is that it has expired. */
  predicate ExpiredOnly(setup: Setup, token: string, c: Claims, now: int) {
    setup.codec.decode(token) == Readable(c, true)
    && c.expiresAt != 0 && now > c.expiresAt
    && (c.issuedAt == 0 || c.issuedAt <= now)
  }

  /** The replacement token handleExpiredToken mints for `userId` at `now`. */
  function Replacement(setup: Setup, userId: nat, now: int): string {
    setup.codec.sign(IssuedClaims(setup.config, userId, now))
  }

  lemma BearerRoundTrip(token: string)
    ensures ExtractToken(BEARER + token) == Bearer(token)
  {
    assert (BEARER + token)[..|BEARER|] == BEARER;
    assert (BEARER + token)[|BEARER|..] == token;
  }

  /** A revoked token is rejected before it is parsed, and nothing changes. */
  lemma RevokedTokenRejected(setup: Setup, st: HandlerState, token: string, env: Env, variant: Variant)
    requires IsTokenRevoked(st, token, env)
    ensures Request(setup, st, BEARER + token, env, variant) == Step(st, Reject(STATUS_UNAUTHORIZED, MSG_TOKEN_REVOKED))
  {
    BearerRoundTrip(token);
  }

  /** After the header and revocation checks: a valid parse admits its user, an
      expiry goes to grace handling, and any other error rejects. */
  lemma RequestDispatch(setup: Setup, st: HandlerState, token: string, env: Env, variant: Variant)
    requires !IsTokenRevoked(st, token, env)
    ensures var r := Request(setup, st, BEARER + token, env, variant);
            var parsed := Parse(setup, st, token, env);
            && (parsed.Ok? ==> r == Step(st, Admit(parsed.value.userId)))
            && (parsed.Err? && IsExpiredError(parsed.error) ==> r == HandleExpired(setup, st, token, env, variant))
            && (parsed.Err? && !IsExpiredError(parsed.error)
                ==> r == Step(st, Reject(STATUS_UNAUTHORIZED, MSG_INVALID_TOKEN)))
  {
    BearerRoundTrip(token);
  }

  /** A well-signed token whose only fault is expiry reaches the grace handling,
      and either parseExpiredToken recovers its claims. */
  lemma ExpiredOnlyReachesGrace(setup: Setup, st: HandlerState, token: string, c: Claims, env: Env, variant: Variant)
    requires Coherent(setup, st)
    requires ExpiredOnly(setup, token, c, env.now) && !Blacklisted(st.blacklist, token, env.now)
    ensures Request(setup, st, BEARER + token, env, variant) == HandleExpired(setup, st, token, env, variant)
    ensures ExpiredClaims(variant, setup.codec, token, env.now) == Ok(c)
  {
    if token in st.tokenCache {
      assert CacheAgrees(setup, token, st.tokenCache[token]);
    }
    ExpiredErrorIffPastExpiry(setup.codec, token, env.now);
    RequestDispatch(setup, st, token, env, variant);
  }

  /** First expired use, no record: mint a replacement for the same user, record
      exactly one entry with deadline now + GracePeriod, and admit with
      "Bearer " + replacement in the response; if minting fails, reject and record nothing. */
  lemma FirstExpiredUse(setup: Setup, st: HandlerState, token: string, c: Claims, env: Env, variant: Variant)
    requires Coherent(setup, st)
    requires ExpiredOnly(setup, token, c, env.now) && !Blacklisted(st.blacklist, token, env.now)
    requires token !in st.graceTokens
    ensures var r := Request(setup, st, BEARER + token, env, variant);
            var newToken := Replacement(setup, c.userId, env.now);
            && (env.cacheUp ==> r == Step(
                  HandlerState(st.tokenCache[newToken := CacheEntry(c.userId, env.now + setup.config.expires)],
                               st.blacklist,
                               st.graceTokens[token := GraceRecord(env.now + setup.config.gracePeriod, newToken)]),
                  AdmitRenewed(c.userId, BEARER + newToken)))
            && (!env.cacheUp ==> r == Step(st, Reject(STATUS_INTERNAL_ERROR, MSG_MINT_FAILED)))
  {
    ExpiredOnlyReachesGrace(setup, st, token, c, env, variant);
  }

  /** A repeat use while now <= deadline admits the original user and changes nothing. */
  lemma RepeatUseWithinDeadline(setup: Setup, st: HandlerState, token: string, c: Claims, env: Env, variant: Variant)
    requires Coherent(setup, st)
    requires ExpiredOnly(setup, token, c, env.now) && !Blacklisted(st.blacklist, token, env.now)
    requires token in st.graceTokens && env.now <= st.graceTokens[token].deadline
    ensures Request(setup, st, BEARER + token, env, variant) == Step(st, Admit(c.userId))
  {
    ExpiredOnlyReachesGrace(setup, st, token, c, env, variant);
  }

  /** A use with now > deadline deletes the record, blacklists the token (when
      the blacklist exists and answers) and rejects with "Token expired". */
  lemma UseAfterDeadline(setup: Setup, st: HandlerState, token: string, c: Claims, env: Env, variant: Variant)
    requires Coherent(setup, st)
    requires ExpiredOnly(setup, token, c, env.now) && !Blacklisted(st.blacklist, token, env.now)
    requires token in st.graceTokens && env.now > st.graceTokens[token].deadline
    ensures var r := Request(setup, st, BEARER + token, env, variant);
            && r.out == Reject(STATUS_UNAUTHORIZED, MSG_TOKEN_EXPIRED)
            && r.state.tokenCache == st.tokenCache
            && r.state.graceTokens == st.graceTokens - {token}
            && (token != "" && setup.hasBlacklist && env.blacklistUp
                ==> r.state.blacklist == st.blacklist[token := env.now + BLACKLIST_TTL])
  {
    ExpiredOnlyReachesGrace(setup, st, token, c, env, variant);
    CoreProperties.WellSignedTokensAreRevocable(setup, token, env);
  }

  /** The request chain, as written or corrected, keeps the handler's invariant. */
  lemma RequestKeepsCoherent(setup: Setup, st: HandlerState, header: string, env: Env, variant: Variant)
    requires Sound(setup.codec) && Coherent(setup, st)
    ensures Coherent(setup, Request(setup, st, header, env, variant).state)
  {
    var credential := ExtractToken(header);
    if credential.Bearer? {
      var token := credential.token;
      var claims := ExpiredClaims(variant, setup.codec, token, env.now);
      if claims.Ok? && token !in st.graceTokens && env.cacheUp {
        var newToken := Replacement(setup, claims.value.userId, env.now);
        assert setup.codec.decode(newToken) == Readable(IssuedClaims(setup.config, claims.value.userId, env.now), true);
      }
    }
  }

  /** Once a request has renewed a token, no later request with that header
      renews it again: the second sees the record (admit or reject), or is
      rejected or admitted before ever reaching the minting step. */
  lemma SecondUseNeverRenews(setup: Setup, st: HandlerState, header: string, env1: Env, env2: Env, variant: Variant)
    requires Request(setup, st, header, env1, variant).out.AdmitRenewed?
    ensures !Request(setup, Request(setup, st, header, env1, variant).state, header, env2, variant).out.AdmitRenewed?
  {
  }

  /** Only the presented token's record can disappear, and only once its deadline has passed. */
  lemma RequestRemovesOnlyPastDeadline(setup: Setup, st: HandlerState, header: string, env: Env, t: string, variant: Variant)
    requires t in st.graceTokens && t !in Request(setup, st, header, env, variant).state.graceTokens
    ensures header == BEARER + t && env.now > st.graceTokens[t].deadline
  {
  }

  /** While a token's record is pending, a request with it changes nothing and renews nothing. */
  lemma PendingRequestChangesNothing(setup: Setup, st: HandlerState, token: string, env: Env, variant: Variant)
    requires token in st.graceTokens && env.now <= st.graceTokens[token].deadline
    ensures Request(setup, st, BEARER + token, env, variant).state == st
    ensures !Request(setup, st, BEARER + token, env, variant).out.AdmitRenewed?
  {
    BearerRoundTrip(token);
  }

  /** Any number of requests made no later than the deadline leave the state as
      it was and never mint a second replacement. */
  lemma {:induction false} NoRenewalWhilePending(setup: Setup, st: HandlerState, token: string, envs: seq<Env>, variant: Variant)
    requires token in st.graceTokens
    requires forall i :: 0 <= i < |envs| ==> envs[i].now <= st.graceTokens[token].deadline
    ensures Replay(setup, st, BEARER + token, envs, variant).state == st
    ensures forall i :: 0 <= i < |envs| ==> !Replay(setup, st, BEARER + token, envs, variant).out[i].AdmitRenewed?
    decreases |envs|
  {
    if envs != [] {
      PendingRequestChangesNothing(setup, st, token, envs[0], variant);
      NoRenewalWhilePending(setup, st, token, envs[1..], variant);
      var rest := Replay(setup, st, BEARER + token, envs[1..], variant);
      forall i | 0 <= i < |envs|
        ensures !Replay(setup, st, BEARER + token, envs, variant).out[i].AdmitRenewed?
      {
        if i > 0 {
          assert Replay(setup, st, BEARER + token, envs, variant).out[i] == rest.out[i - 1];
        }
      }
    }
  }

  /** Requests between the first expired use and the deadline are all admitted
      as the original user, and change nothing. */
  lemma {:induction false} AdmittedWhilePending(setup: Setup, st: HandlerState, token: string, c: Claims, from: int, envs: seq<Env>, variant: Variant)
    requires Coherent(setup, st)
    requires token in st.graceTokens && token !in st.blacklist
    requires ExpiredOnly(setup, token, c, from)
    requires forall i :: 0 <= i < |envs| ==> from <= envs[i].now <= st.graceTokens[token].deadline
    ensures Replay(setup, st, BEARER + token, envs, variant).state == st
    ensures forall i :: 0 <= i < |envs| ==> Replay(setup, st, BEARER + token, envs, variant).out[i] == Admit(c.userId)
    decreases |envs|
  {
    if envs != [] {
      RepeatUseWithinDeadline(setup, st, token, c, envs[0], variant);
      AdmittedWhilePending(setup, st, token, c, from, envs[1..], variant);
      var rest := Replay(setup, st, BEARER + token, envs[1..], variant);
      forall i | 0 <= i < |envs|
        ensures Replay(setup, st, BEARER + token, envs, variant).out[i] == Admit(c.userId)
      {
        if i > 0 {
          assert Replay(setup, st, BEARER + token, envs, variant).out[i] == rest.out[i - 1];
        }
      }
    }
  }

  /** Renewal happens exactly once: the first expired use within the grace window
      is renewed, and every later use up to the deadline is admitted as the same
      user without a new token and without changing the state. */
  lemma RenewalExactlyOnce(setup: Setup, st: HandlerState, token: string, c: Claims, env: Env, later: seq<Env>, variant: Variant)
    requires Sound(setup.codec) && Coherent(setup, st)
    requires ExpiredOnly(setup, token, c, env.now) && env.cacheUp
    requires token !in st.graceTokens && token !in st.blacklist
    requires forall i :: 0 <= i < |later| ==> env.now <= later[i].now <= env.now + setup.config.gracePeriod
    ensures var first := Request(setup, st, BEARER + token, env, variant);
            var rest := Replay(setup, first.state, BEARER + token, later, variant);
            && first.out == AdmitRenewed(c.userId, BEARER + Replacement(setup, c.userId, env.now))
            && rest.state == first.state
            && forall i :: 0 <= i < |later| ==> rest.out[i] == Admit(c.userId)
  {
    FirstExpiredUse(setup, st, token, c, env, variant);
    var first := Request(setup, st, BEARER + token, env, variant);
    RequestKeepsCoherent(setup, st, BEARER + token, env, variant);
    AdmittedWhilePending(setup, first.state, token, c, env.now, later, variant);
  }

  /** The replacement token in the response header is the token that was minted,
      and presenting it admits the same user straight away (when the lifetime is
      positive and it is not itself blacklisted). */
  lemma RenewedTokenAccepted(setup: Setup, st: HandlerState, token: string, c: Claims, env: Env, variant: Variant)
    requires Sound(setup.codec) && Coherent(setup, st)
    requires ExpiredOnly(setup, token, c, env.now) && !Blacklisted(st.blacklist, token, env.now)
    requires token !in st.graceTokens && env.cacheUp && setup.config.expires > 0
    requires !Blacklisted(st.blacklist, Replacement(setup, c.userId, env.now), env.now)
    ensures var first := Request(setup, st, BEARER + token, env, variant);
            && first.out.AdmitRenewed?
            && ExtractToken(first.out.authorization) == Bearer(Replacement(setup, c.userId, env.now))
            && Request(setup, first.state, first.out.authorization, env, variant) == Step(first.state, Admit(c.userId))
  {
    FirstExpiredUse(setup, st, token, c, env, variant);
    var newToken := Replacement(setup, c.userId, env.now);
    BearerRoundTrip(newToken);
  }

  /** The grace window does not bound reuse: after a rejection past the deadline
      the token is blacklisted for only BLACKLIST_TTL seconds, and its next use
      after that is a first expired use again and is renewed. */
  lemma RenewedAgainAfterBlacklistLapse(setup: Setup, st: HandlerState, token: string, c: Claims, env: Env, later: Env, variant: Variant)
    requires Sound(setup.codec) && Coherent(setup, st)
    requires ExpiredOnly(setup, token, c, env.now) && !Blacklisted(st.blacklist, token, env.now)
    requires token in st.graceTokens && env.now > st.graceTokens[token].deadline
    requires token != "" && setup.hasBlacklist && env.blacklistUp
    requires ExpiredOnly(setup, token, c, later.now) && later.now >= env.now + BLACKLIST_TTL && later.cacheUp
    ensures var rejected := Request(setup, st, BEARER + token, env, variant);
            && rejected.out == Reject(STATUS_UNAUTHORIZED, MSG_TOKEN_EXPIRED)
            && Request(setup, rejected.state, BEARER + token, later, variant).out.AdmitRenewed?
  {
    UseAfterDeadline(setup, st, token, c, env, variant);
    var rejected := Request(setup, st, BEARER + token, env, variant);
    RequestKeepsCoherent(setup, st, BEARER + token, env, variant);
    FirstExpiredUse(setup, rejected.state, token, c, later, variant);
  }

  /** The token is readable and its exp lies in the past. */
  predicate ExpiredRead(setup: Setup, token: string, now: int) {
    var d := setup.codec.decode(token);
    d.Readable? && d.claims.expiresAt != 0 && now > d.claims.expiresAt
  }

  /** A token that is unreadable or wrongly signed is rejected and changes
      nothing: always in the corrected chain, and in the chain as written unless
      it is also expired (see ForgedExpiredTokenRenewed). */
  lemma ForgedTokenRejected(setup: Setup, st: HandlerState, token: string, env: Env, variant: Variant)
    requires Coherent(setup, st)
    requires !setup.codec.decode(token).Readable? || !setup.codec.decode(token).signatureOk
    requires variant == Corrected || !ExpiredRead(setup, token, env.now)
    ensures var r := Request(setup, st, BEARER + token, env, variant);
            r.state == st && r.out.Reject?
  {
    BearerRoundTrip(token);
    assert token !in st.tokenCache;
    ExpiredErrorIffPastExpiry(setup.codec, token, env.now);
  }

  /** Every grace record's key is a well-signed token. */
  predicate GraceKeysSigned(setup: Setup, st: HandlerState) {
    forall t :: t in st.graceTokens ==> setup.codec.decode(t).Readable? && setup.codec.decode(t).signatureOk
  }

  /** The corrected chain only ever records well-signed tokens. */
  lemma CorrectedChainRecordsOnlySigned(setup: Setup, st: HandlerState, header: string, env: Env)
    requires GraceKeysSigned(setup, st)
    ensures GraceKeysSigned(setup, Request(setup, st, header, env, Corrected).state)
  {
  }

  /** An expired token whose signature does not match, presented for the first
      time: the chain as written recovers its claims, mints a genuine replacement
      for the user id it names, records it and admits the request; the corrected
      chain rejects it with "Invalid expired token" and changes nothing. */
  lemma ForgedExpiredTokenRenewed(setup: Setup, st: HandlerState, token: string, c: Claims, env: Env)
    requires Coherent(setup, st)
    requires setup.codec.decode(token) == Readable(c, false) && c.expiresAt != 0 && env.now > c.expiresAt
    requires !IsTokenRevoked(st, token, env) && !(setup.hasBlacklist && env.blacklistUp && Blacklisted(st.blacklist, token, env.now))
    requires token !in st.graceTokens && env.cacheUp
    ensures var newToken := Replacement(setup, c.userId, env.now);
            Request(setup, st, BEARER + token, env, AsWritten) == Step(
              HandlerState(st.tokenCache[newToken := CacheEntry(c.userId, env.now + setup.config.expires)],
                           st.blacklist,
                           st.graceTokens[token := GraceRecord(env.now + setup.config.gracePeriod, newToken)]),
              AdmitRenewed(c.userId, BEARER + newToken))
    ensures !GraceKeysSigned(setup, Request(setup, st, BEARER + token, env, AsWritten).state)
    ensures Request(setup, st, BEARER + token, env, Corrected) == Step(st, Reject(STATUS_UNAUTHORIZED, MSG_INVALID_EXPIRED))
  {
    BearerRoundTrip(token);
    assert token !in st.tokenCache;
    ForgedExpiredTokenYieldsClaims(setup.codec, token, c, env.now);
  }

  /** parseExpiredToken as written returns the claims of an expired token whose
      signature does not match: jwt-go reports both the Expired and the
      SignatureInvalid bit, and isExpiredError looks at the first only. The
      strict version refuses it. */
  lemma ForgedExpiredTokenYieldsClaims(codec: Codec, token: string, c: Claims, now: int)
    requires codec.decode(token) == Readable(c, false)
    requires c.expiresAt != 0 && now > c.expiresAt
    ensures var parsed := ParseWithClaims(codec, token, now);
            && parsed.Err? && IsExpiredError(parsed.error)
            && parsed.error.errors & ERROR_SIGNATURE_INVALID != 0
    ensures ParseExpiredToken(codec, token, now) == Ok(c)
    ensures ParseExpiredTokenStrict(codec, token, now).Err?
  {
    ExpiredErrorIffPastExpiry(codec, token, now);
  }

  /** The deferred reclaim is a no-op once the record is gone (a request or the
      sweep removed it) or while its deadline has not passed. */
  lemma ReclaimNoOp(setup: Setup, st: HandlerState, token: string, env: Env)
    requires token !in st.graceTokens || env.now <= st.graceTokens[token].deadline
    ensures Reclaim(setup, st, token, env) == st
  {
  }

  /** Past the deadline the reclaim removes that record alone and revokes the token. */
  lemma ReclaimPastDeadline(setup: Setup, st: HandlerState, token: string, env: Env)
    requires token in st.graceTokens && env.now > st.graceTokens[token].deadline
    requires RevokeAccepts(setup, token, env)
    ensures Reclaim(setup, st, token, env)
            == HandlerState(st.tokenCache, st.blacklist[token := env.now + BLACKLIST_TTL], st.graceTokens - {token})
  {
  }

  /** The periodic sweep followed by a late reclaim of a record it removed changes nothing more. */
  lemma ReclaimAfterSweep(setup: Setup, st: HandlerState, token: string, env: Env, fire: Env)
    requires token in st.graceTokens && Overdue(setup.config, st.graceTokens[token], env.now)
    ensures Reclaim(setup, Sweep(setup, st, env), token, fire) == Sweep(setup, st, env)
  {
  }

  /** With GracePeriod = 0 the first expired use is still renewed and admitted,
      with deadline = now; a use one second later is rejected as expired and the
      token is then revoked. */
  lemma ZeroGraceAdmitsOnce(setup: Setup, st: HandlerState, token: string, c: Claims, env1: Env, env2: Env, variant: Variant)
    requires Sound(setup.codec) && Coherent(setup, st)
    requires setup.config.gracePeriod == 0 && setup.hasBlacklist && token != ""
    requires ExpiredOnly(setup, token, c, env1.now) && env1.cacheUp
    requires token !in st.graceTokens && token !in st.blacklist
    requires env1.now < env2.now && env2.blacklistUp
    ensures var first := Request(setup, st, BEARER + token, env1, variant);
            var second := Request(setup, first.state, BEARER + token, env2, variant);
            && first.out.AdmitRenewed?
            && first.state.graceTokens[token].deadline == env1.now
            && second.out == Reject(STATUS_UNAUTHORIZED, MSG_TOKEN_EXPIRED)
            && token !in second.state.graceTokens
            && IsTokenRevoked(second.state, token, env2)
  {
    FirstExpiredUse(setup, st, token, c, env1, variant);
    var first := Request(setup, st, BEARER + token, env1, variant);
    RequestKeepsCoherent(setup, st, BEARER + token, env1, variant);
    UseAfterDeadline(setup, first.state, token, c, env2, variant);
  }

  /** A fresh handler with Expires = -1 and GracePeriod = 0: the token is
      expired from issuance; its first use is still renewed, a strictly later use
      is rejected as expired and revokes it, and every use in the
      BLACKLIST_TTL seconds after that is rejected as revoked. */
  lemma FullyExpiredScenario(setup: Setup, userId: nat, t0: int, t1: int, t2: int, t3: int, variant: Variant)
    requires Sound(setup.codec) && setup.hasBlacklist
    requires setup.config.expires == -1 && setup.config.gracePeriod == 0
    requires 1 < t0 <= t1 < t2 <= t3 < t2 + BLACKLIST_TTL
    ensures var issued := Release(setup, HandlerState(map[], map[], map[]), userId, Env(t0, true, true));
            issued.out.Ok?
            && var header := BEARER + issued.out.value;
               var first := Request(setup, issued.state, header, Env(t1, true, true), variant);
               var second := Request(setup, first.state, header, Env(t2, true, true), variant);
               && first.out.AdmitRenewed? && first.out.userId == userId
               && second.out == Reject(STATUS_UNAUTHORIZED, MSG_TOKEN_EXPIRED)
               && Request(setup, second.state, header, Env(t3, true, true), variant).out
                  == Reject(STATUS_UNAUTHORIZED, MSG_TOKEN_REVOKED)
  {
    var issued := Release(setup, HandlerState(map[], map[], map[]), userId, Env(t0, true, true));
    var token := issued.out.value;
    var c := IssuedClaims(setup.config, userId, t0);
    assert token == setup.codec.sign(c);
    assert Coherent(setup, issued.state) by {
      assert issued.state.tokenCache == map[token := CacheEntry(userId, t0 - 1)];
    }
    ZeroGraceAdmitsOnce(setup, issued.state, token, c, Env(t1, true, true), Env(t2, true, true), variant);
    var first := Request(setup, issued.state, BEARER + token, Env(t1, true, true), variant);
    var second := Request(setup, first.state, BEARER + token, Env(t2, true, true), variant);
    RevokedTokenRejected(setup, second.state, token, Env(t3, true, true), variant);
  }

  /** A fresh handler with Expires = 1 and GracePeriod = 5: a use two seconds
      after issuance is renewed with a different token, which is itself accepted;
      further uses up to the deadline are admitted without renewal; the deferred
      reclaim then removes the record and revokes the token, so a later use is
      rejected as revoked. */
  lemma GracePeriodScenario(setup: Setup, userId: nat, t0: int, t1: int, t2: int, fire: int, t3: int, variant: Variant)
    requires Sound(setup.codec) && setup.hasBlacklist
    requires setup.config.expires == 1 && setup.config.gracePeriod == 5
    requires 0 < t0 && t0 + 1 < t1 <= t2 <= t1 + 5 < fire <= t3 < fire + BLACKLIST_TTL
    ensures var issued := Release(setup, HandlerState(map[], map[], map[]), userId, Env(t0, true, true));
            issued.out.Ok?
            && var header := BEARER + issued.out.value;
               var first := Request(setup, issued.state, header, Env(t1, true, true), variant);
               && first.out.AdmitRenewed? && first.out.userId == userId
               && first.out.authorization != header
               && Request(setup, first.state, first.out.authorization, Env(t1, true, true), variant)
                  == Step(first.state, Admit(userId))
               && Request(setup, first.state, header, Env(t2, true, true), variant) == Step(first.state, Admit(userId))
               && var reclaimed := Reclaim(setup, first.state, issued.out.value, Env(fire, true, true));
                  && issued.out.value !in reclaimed.graceTokens
                  && Request(setup, reclaimed, header, Env(t3, true, true), variant).out
                     == Reject(STATUS_UNAUTHORIZED, MSG_TOKEN_REVOKED)
  {
    var issued := Release(setup, HandlerState(map[], map[], map[]), userId, Env(t0, true, true));
    var token := issued.out.value;
    var c := IssuedClaims(setup.config, userId, t0);
    assert token == setup.codec.sign(c);
    assert Coherent(setup, issued.state) by {
      assert issued.state.tokenCache == map[token := CacheEntry(userId, t0 + 1)];
    }
    var env1 := Env(t1, true, true);
    FirstExpiredUse(setup, issued.state, token, c, env1, variant);
    RenewedTokenAccepted(setup, issued.state, token, c, env1, variant);
    var first := Request(setup, issued.state, BEARER + token, env1, variant);
    var newToken := Replacement(setup, userId, t1);
    assert newToken != token by {
      assert setup.codec.decode(newToken).claims.issuedAt == t1;
    }
    assert first.out.authorization != BEARER + token by {
      BearerRoundTrip(newToken);
      BearerRoundTrip(token);
    }
    RequestKeepsCoherent(setup, issued.state, BEARER + token, env1, variant);
    RepeatUseWithinDeadline(setup, first.state, token, c, Env(t2, true, true), variant);
    CoreProperties.WellSignedTokensAreRevocable(setup, token, Env(fire, true, true));
    var reclaimed := Reclaim(setup, first.state, token, Env(fire, true, true));
    RevokedTokenRejected(setup, reclaimed, token, Env(t3, true, true), variant);
  }
}
