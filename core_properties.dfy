/** What issuance, parsing, revocation and the sweep of core.go promise, proved
    about the functions that specify JwtHandler's methods. */
module CoreProperties {
  import opened Jwt
  import opened Core

  /** ReleaseToken signs exactly {userId, iat = now, exp = now + Expires, iss = Issuer}. */
  lemma IssuedTokenCarriesClaims(setup: Setup, st: HandlerState, userId: nat, env: Env)
    requires Sound(setup.codec)
    requires env.cacheUp
    ensures var r := Release(setup, st, userId, env);
            r.out.Ok?
            && setup.codec.decode(r.out.value)
               == Readable(Claims(userId, env.now, env.now + setup.config.expires, setup.config.issuer), true)
            && r.state.tokenCache[r.out.value] == CacheEntry(userId, env.now + setup.config.expires)
  {
  }

  /** A token parsed after issuance and no later than its expiry, and not revoked, is
      valid and names the same user and the configured issuer, whether the cache
      answers or not. */
  lemma IssueThenParse(setup: Setup, st: HandlerState, userId: nat, env: Env, later: Env)
    requires Sound(setup.codec)
    requires env.cacheUp
    requires env.now <= later.now <= env.now + setup.config.expires
    requires var r := Release(setup, st, userId, env);
             !(setup.hasBlacklist && later.blacklistUp && Blacklisted(r.state.blacklist, r.out.value, later.now))
    ensures var r := Release(setup, st, userId, env);
            var parsed := Parse(setup, r.state, r.out.value, later);
            parsed.Ok? && parsed.value.userId == userId && parsed.value.issuer == setup.config.issuer
  {
    var r := Release(setup, st, userId, env);
    var claims := IssuedClaims(setup.config, userId, env.now);
    assert r.out.value == setup.codec.sign(claims);
    if !FreshInCache(r.state, r.out.value, later) {
      SignedTokenVerifies(setup.codec, claims, later.now);
    }
  }

  /** A token issued with an exp already behind the parse time (a negative
      Expires, say) fails with an expiry error: its cache entry is stale, so the
      fast path is not taken. */
  lemma ExpiredIssueYieldsExpiredError(setup: Setup, st: HandlerState, userId: nat, env: Env, later: Env)
    requires Sound(setup.codec)
    requires env.cacheUp
    requires env.now <= later.now && env.now + setup.config.expires < later.now
    requires env.now + setup.config.expires != 0
    requires var r := Release(setup, st, userId, env);
             !(setup.hasBlacklist && later.blacklistUp && Blacklisted(r.state.blacklist, r.out.value, later.now))
    ensures var r := Release(setup, st, userId, env);
            var parsed := Parse(setup, r.state, r.out.value, later);
            parsed.Err? && IsExpiredError(parsed.error)
  {
    var r := Release(setup, st, userId, env);
    var claims := IssuedClaims(setup.config, userId, env.now);
    assert r.out.value == setup.codec.sign(claims);
    assert !FreshInCache(r.state, r.out.value, later);
    ExpiredErrorIffPastExpiry(setup.codec, r.out.value, later.now);
  }

  /** A cache entry at or past its expiresAt behaves exactly like no entry. */
  lemma StaleEntryIsAMiss(setup: Setup, st: HandlerState, token: string, env: Env)
    requires token in st.tokenCache && st.tokenCache[token].expiresAt <= env.now
    ensures Parse(setup, st, token, env) == Parse(setup, st.(tokenCache := st.tokenCache - {token}), token, env)
  {
  }

  /** A blacklist that cannot be read is treated as empty (fail-open). */
  lemma BlacklistOutageFailsOpen(setup: Setup, st: HandlerState, token: string, env: Env)
    requires !env.blacklistUp
    ensures Parse(setup, st, token, env) == Parse(setup, st.(blacklist := map[]), token, env)
  {
  }

  /** With a coherent cache, whatever ParseToken accepts is a well-signed token
      for the same user and expiry, not past that expiry. The fast path never
      names a user the signature would not. */
  lemma ParseAcceptsOnlySignedClaims(setup: Setup, st: HandlerState, token: string, env: Env)
    requires Coherent(setup, st)
    requires Parse(setup, st, token, env).Ok?
    ensures var c := Parse(setup, st, token, env).value;
            var d := setup.codec.decode(token);
            d.Readable? && d.signatureOk && d.claims.userId == c.userId && d.claims.expiresAt == c.expiresAt
            && (c.expiresAt == 0 || env.now <= c.expiresAt)
  {
    if FreshInCache(st, token, env) {
      assert CacheAgrees(setup, token, st.tokenCache[token]);
    }
  }

  /** RevokeToken's outcomes: the error cases leave the blacklist alone; success
      stores the token with a TTL of exactly BLACKLIST_TTL, whatever its remaining validity. */
  lemma RevokeOutcomes(setup: Setup, st: HandlerState, token: string, env: Env)
    ensures var r := Revoke(setup, st, token, env);
            && (token == "" ==> r == Step(st, Failed(Message(MSG_EMPTY_TOKEN))))
            && (token != "" && !setup.hasBlacklist ==> r == Step(st, Failed(Message(MSG_NO_BLACKLIST))))
            && (var parsed := ParseWithClaims(setup.codec, token, env.now);
                token != "" && setup.hasBlacklist && parsed.Err? && !IsExpiredError(parsed.error)
                ==> r == Step(st, Failed(parsed.error)))
            && (r.out.Done? ==> r.state.blacklist[token] == env.now + BLACKLIST_TTL)
  {
  }

  /** A valid or expired-but-readable token with a well-formed signature is revocable. */
  lemma WellSignedTokensAreRevocable(setup: Setup, token: string, env: Env)
    requires setup.codec.decode(token).Readable? && setup.codec.decode(token).signatureOk
    requires var c := setup.codec.decode(token).claims; c.issuedAt == 0 || c.issuedAt <= env.now
    ensures Revocable(setup, token, env)
  {
    ExpiredErrorIffPastExpiry(setup.codec, token, env.now);
  }

  /** After a successful revocation ParseToken reports the token revoked for the
      next BLACKLIST_TTL seconds, before looking at the cache or the signature. */
  lemma RevokeThenParse(setup: Setup, st: HandlerState, token: string, env: Env, later: Env)
    requires Revoke(setup, st, token, env).out.Done?
    requires later.blacklistUp && env.now <= later.now < env.now + BLACKLIST_TTL
    ensures Parse(setup, Revoke(setup, st, token, env).state, token, later) == Err(Message(MSG_REVOKED))
  {
  }

  /** Revoking twice succeeds both times and leaves the token blacklisted. */
  lemma RevokeTwice(setup: Setup, st: HandlerState, token: string, env: Env)
    requires Revoke(setup, st, token, env).out.Done?
    ensures var once := Revoke(setup, st, token, env);
            var twice := Revoke(setup, once.state, token, env);
            twice.out.Done? && Blacklisted(twice.state.blacklist, token, env.now)
  {
  }

  /** The revocation lapses after BLACKLIST_TTL seconds: from then on ParseToken
      answers exactly as if the token had never been revoked. */
  lemma RevocationLapses(setup: Setup, st: HandlerState, token: string, env: Env, later: Env)
    requires Revoke(setup, st, token, env).out.Done?
    requires later.now >= env.now + BLACKLIST_TTL
    ensures Parse(setup, Revoke(setup, st, token, env).state, token, later)
            == Parse(setup, st.(blacklist := st.blacklist - {token}), token, later)
  {
  }

  /** With a non-negative grace window the sweep removes only records whose
      deadline has passed, and only GracePeriod seconds after it. */
  lemma SweepRemovesOnlyPastDeadline(setup: Setup, st: HandlerState, env: Env, token: string)
    requires setup.config.gracePeriod >= 0
    requires token in st.graceTokens && token !in Sweep(setup, st, env).graceTokens
    ensures env.now > st.graceTokens[token].deadline + setup.config.gracePeriod >= st.graceTokens[token].deadline
  {
  }

  /** With a negative GracePeriod the sweep's threshold already holds at the
      deadline itself, so a record is removed (and its token revoked) before its
      deadline has passed. */
  lemma NegativeGraceSweepsAtDeadline(setup: Setup, st: HandlerState, env: Env, token: string)
    requires setup.config.gracePeriod < 0
    requires token in st.graceTokens && env.now == st.graceTokens[token].deadline
    ensures token !in Sweep(setup, st, env).graceTokens
  {
  }

  /** Each sweep of the cleaner only removes records, never adds or changes one. */
  lemma {:induction false} SweepAllOnlyRemoves(setup: Setup, st: HandlerState, ticks: seq<Env>)
    ensures var r := SweepAll(setup, st, ticks);
            r.tokenCache == st.tokenCache
            && (forall t :: t in r.graceTokens ==> t in st.graceTokens && r.graceTokens[t] == st.graceTokens[t])
    decreases |ticks|
  {
    if ticks != [] {
      SweepAllOnlyRemoves(setup, st, ticks[..|ticks| - 1]);
    }
  }

  /** Once some tick of the cleaner finds a record overdue, the record is gone
      for good at the end of the run. */
  lemma {:induction false} SweepAllRemovesOverdue(setup: Setup, st: HandlerState, ticks: seq<Env>, i: nat, token: string)
    requires i < |ticks|
    requires var before := SweepAll(setup, st, ticks[..i]);
             token in before.graceTokens && Overdue(setup.config, before.graceTokens[token], ticks[i].now)
    ensures token !in SweepAll(setup, st, ticks).graceTokens
    decreases |ticks|
  {
    if i == |ticks| - 1 {
      assert ticks[..|ticks| - 1] == ticks[..i];
    } else {
      var prefix := ticks[..|ticks| - 1];
      assert prefix[..i] == ticks[..i];
      SweepAllRemovesOverdue(setup, st, prefix, i, token);
    }
  }

  /** A disabled cleaner changes nothing, however many ticks pass. */
  lemma CleanerDisabled(setup: Setup, st: HandlerState, ticks: seq<Env>)
    requires setup.config.blacklistCleanDuration <= 0
    ensures Cleaner(setup, st, ticks) == st
  {
  }
}
