# gos-jwt token lifecycle, modelled in Dafny

gos-jwt is a Go library. It issues HS256 JSON Web Tokens (RFC 7519) for a user
id and caches each issued token with its user and expiry. It checks a token
against a revocation blacklist, then the cache, then the signature and time
claims. Its Gin middleware also gives an expired but genuine token one
grace-period renewal: on the first expired use it mints a replacement, returns
it in the `Authorization` response header, and remembers the old token until an
absolute deadline. Repeat uses before the deadline are admitted. After the
deadline the token is rejected and blacklisted.

The model has five modules:

- `Jwt` (`jwt.dfy`) covers the part of jwt-go v3 the handler relies on:
  - `Claims` and `Config`;
  - the `ValidationError` bitmask;
  - `ParseWithClaims`, which validates the claims first, then checks the signature, and ORs every failure into one bitmask;
  - `isExpiredError`.

  HS256 itself is an abstract `Codec` with `sign` and `decode` functions. The
  predicate `Sound` says that a signed token is non-empty and decodes back to
  exactly its claims with a matching signature.
- `Core` (`core.dfy`) covers `JwtHandler` from `core.go`.
  - Each operation is a function on a `HandlerState` value: `Release`, `Parse`, `Revoke`, `Sweep` and `Cleaner`.
  - The class `Core.JwtHandler` holds the token cache, the blacklist and the grace registry as map fields. Its methods change those fields step by step, and each is proved to leave exactly the state its function describes.
  - The class invariant `Valid` says that the codec is sound, that every cache entry agrees with what its token is signed with, and that every grace record belongs to a readable token and holds a replacement this handler signed for the user that token names.
- `Middleware` (`middleware.dfy`) covers `authMiddleware.go`:
  - the header checks;
  - the revocation check;
  - `parseExpiredToken`, both as written and corrected;
  - `handleExpiredToken` and its deferred one-shot reclaim;
  - the whole request chain as the function `Request`, together with the methods on a `JwtHandler`.

  `HandleExpired` and `Request` take a `Variant`. `AsWritten` runs the code's
  own `parseExpiredToken`; it is what the methods on a `JwtHandler` do. `Corrected`
  runs the fix described under "## Findings". The lemmas hold for both variants
  unless they name one.
- `CoreProperties` and `MiddlewareProperties` hold the lemmas. Among them:
  - issue-then-parse;
  - revoke-then-parse and lapse of the revocation;
  - the sweep removes only overdue records;
  - renewal happens exactly once while a record is pending;
  - the outcomes of the test scenarios with Expires = -1, GracePeriod = 0 and with Expires = 1, GracePeriod = 5.

Time is an integer count of Unix seconds, passed in as `Env.now`. Each call's
`Env` also says whether the blacklist store and the token-cache store answer. A
store that does not answer models a Go `error` from the cache library: reads fail
open and writes fail.

Where the documented design and the code disagree, the model follows the code:

- With GracePeriod = 0 the first expired use is still renewed and admitted, because the deadline is `now`. Only a strictly later use is rejected (`MiddlewareProperties.ZeroGraceAdmitsOnce`).
- The sweep drops a record only once `now - deadline > GracePeriod`, that is, GracePeriod seconds after its deadline (core.go:223).
- A blacklist entry always lives 100 seconds (core.go:200). The remaining validity RevokeToken computes just before that is never used.
- An expired token whose signature does not match is renewed: `parseExpiredToken` returns its claims (authMiddleware.go:59, 131-132). The live test at middleware_test.go:273-298 depends on this. `MiddlewareProperties.ForgedExpiredTokenRenewed` proves it of the chain as written; the corrected chain is kept beside it.
- A negative GracePeriod is not rejected. The sweep then removes records before their deadline (`CoreProperties.NegativeGraceSweepsAtDeadline`).

## Model

| member | source | states |
|---|---|---|
| Jwt.ParseWithClaims | core.go:147-157 | succeeds iff the token is readable, its signature matches and exp/iat (when non-zero) admit `now`; the success value is the token's claims; a failure is a ValidationError with at least one bit set |
| Jwt.IsExpiredError | core.go:235-240 | only a ValidationError with some bit set can be an expiry error; a plain error never is |
| Jwt.ExpiredBitDecides | core.go:235-240 | the Expired bit decides alone: Expired alone, with SignatureInvalid or with IssuedAt is an expiry error; SignatureInvalid alone, Malformed alone, or IssuedAt with SignatureInvalid is not |
| Jwt.ExpiredErrorIffPastExpiry | core.go:235-240 | a parse failure is an expiry error exactly when the token is readable and its non-zero exp is in the past, whatever its signature |
| Jwt.SignedTokenVerifies | core.go:101-102 | a token the handler signed parses to its own claims when they are time-valid, and otherwise fails with just the time-claim bits |
| Core.Release | core.go:90-118 | issuance succeeds iff the cache write succeeds; the token is the signature of {userId, iat = now, exp = now + Expires, iss}; exactly that token's {userId, expiresAt} entry is added; on failure nothing changes |
| Core.Parse | core.go:121-172 | a live blacklist entry yields "token已被撤销" first; otherwise a fresh cache entry yields exactly {its userId, its expiresAt, the configured issuer} with no iat; otherwise the answer is exactly full verification |
| Core.Revoke | core.go:175-201 | succeeds iff the token is non-empty, the blacklist exists and answers, and parsing succeeds or its error has the Expired bit (whatever else is set); success sets exactly that token's entry to now + 100 s; failure changes nothing |
| Core.RemainingValidity | core.go:192-198 | 24 h when exp is absent; otherwise the time to exp, raised to at least one minute |
| Core.Sweep | core.go:217-228 | removes exactly the records more than GracePeriod past their deadline, keeps the others unchanged, blacklists exactly the removed tokens RevokeToken accepts, and leaves the cache alone |
| Core.JwtHandler.constructor | core.go:33-58 | a new handler has empty cache, blacklist and grace registry and satisfies the invariant |
| Core.JwtHandler.ReleaseToken | core.go:90-118 | the handler's new state and result are those of `Release`; the invariant is kept |
| Core.JwtHandler.RevokeToken | core.go:175-201 | the handler's new state and result are those of `Revoke`; the invariant is kept |
| Core.JwtHandler.CleanExpiredGraceTokens | core.go:217-228 | the loop over the grace registry leaves exactly the state of `Sweep`; the invariant is kept |
| Core.JwtHandler.SweepVisit | core.go:221-226 | one visit drops the record only when it is more than GracePeriod seconds past its deadline, and then blacklists the token exactly when RevokeToken accepts it; the error is ignored; the invariant is kept |
| Core.JwtHandler.StartGracePeriodCleaner | core.go:204-214 | after the given ticks the state is the composition of one sweep per tick, and unchanged when the interval is not positive |
| CoreProperties.IssuedTokenCarriesClaims | core.go:93-112 | an issued token decodes, correctly signed, to {userId, now, now + Expires, Issuer}, and its cache entry holds that user and expiry |
| CoreProperties.IssueThenParse | token_test.go:28-40 | a token parsed after issuance and no later than its expiry, and not revoked, is valid and names the same user and issuer |
| CoreProperties.ExpiredIssueYieldsExpiredError | token_test.go:43-68 | with exp already past (Expires = -1), parsing fails with an expiry error because the stale cache entry is skipped |
| CoreProperties.StaleEntryIsAMiss | core.go:130-132 | a cache entry at or past its expiresAt parses exactly as if it were absent |
| CoreProperties.BlacklistOutageFailsOpen | core.go:123-127 | when the blacklist store errors, parsing behaves as if the blacklist were empty |
| CoreProperties.ParseAcceptsOnlySignedClaims | core.go:129-143 | with a coherent cache, anything parsing accepts is a well-signed token for the same user and expiry, not past that expiry |
| CoreProperties.RevokeOutcomes | core.go:176-200 | the empty-token, missing-blacklist and non-expiry-parse-error cases each return their own error and leave the state; success uses a 100 s TTL |
| CoreProperties.WellSignedTokensAreRevocable | core.go:187-190 | a well-signed token with acceptable iat is revocable even when expired |
| CoreProperties.RevokeThenParse | token_test.go:70-85 | after revocation, parsing answers "token已被撤销" for the next 100 seconds |
| CoreProperties.RevokeTwice | core.go:200 | revoking again succeeds and the token stays blacklisted |
| CoreProperties.RevocationLapses | core.go:200 | from 100 seconds after revocation on, parsing answers as if the token had never been revoked |
| CoreProperties.SweepRemovesOnlyPastDeadline | core.go:222-226 | with a non-negative grace period, a record the sweep removes is past its deadline by more than GracePeriod |
| CoreProperties.NegativeGraceSweepsAtDeadline | core.go:223-225 | with a negative GracePeriod, a record is already removed when `now` equals its deadline |
| CoreProperties.SweepAllOnlyRemoves | core.go:211-213 | any run of the cleaner only deletes grace records, never adds or alters one, and never touches the cache |
| CoreProperties.SweepAllRemovesOverdue | core.go:211-226 | once some tick finds a record overdue, it is absent at the end of the run |
| CoreProperties.CleanerDisabled | core.go:205-207 | a non-positive BlacklistCleanDuration leaves the state unchanged over any ticks |
| Middleware.ExtractToken | authMiddleware.go:23-33 | missing iff the header is empty; a token iff the header starts with "Bearer ", and then the header is "Bearer " + token |
| Middleware.ParseExpiredToken | authMiddleware.go:125-137 | as written: claims are returned iff parsing succeeds or its error has the Expired bit, and they are the decoded claims |
| Middleware.ParseExpiredTokenStrict | authMiddleware.go:125-137 | claims are returned iff the token is readable, correctly signed and its iat is acceptable; they are then exactly the signed claims |
| Middleware.IsTokenRevoked | authMiddleware.go:139-143 | true iff the blacklist store answers and holds an entry for the token that is still live; a store error reads as not revoked |
| Middleware.HandleExpired | authMiddleware.go:57-122 | in either variant: a renewal happens only for a token without a record and adds its record; only the token's own record can appear; the cache changes only on renewal; within the deadline nothing changes |
| Middleware.Reclaim | authMiddleware.go:105-117 | the deferred reclaim either changes nothing in the registry or removes exactly the token's record, and never the cache |
| Middleware.Request | authMiddleware.go:21-54 | an empty header gets 401 "Authorization header required" and one without the "Bearer " prefix 401 "Invalid authorization format", with no change; an admitted request carries the prefix and a token the blacklist does not report; the cache changes only on renewal; a renewal is for a token with no record and adds one; only the presented token's record can appear |
| Middleware.GinMiddleware | authMiddleware.go:21-54 | the handler's new state and the outcome are those of `Request` as written; the invariant is kept |
| Middleware.HandleExpiredToken | authMiddleware.go:57-122 | with the as-written parseExpiredToken, the handler's new state and outcome are those of `HandleExpired` as written; the invariant is kept |
| Middleware.ReclaimGraceToken | authMiddleware.go:105-117 | the handler's new state is that of `Reclaim`; the invariant is kept |
| MiddlewareProperties.BearerRoundTrip | authMiddleware.go:29-33 | the header "Bearer " + t yields exactly the token t |
| MiddlewareProperties.RevokedTokenRejected | authMiddleware.go:35-38 | a token the blacklist reports live is rejected with 401 "Token revoked" and nothing changes |
| MiddlewareProperties.RequestDispatch | authMiddleware.go:40-52 | after the revocation check: a valid parse admits its user; an expiry goes to grace handling; any other error yields 401 "Invalid token" |
| MiddlewareProperties.ExpiredOnlyReachesGrace | authMiddleware.go:40-59 | a well-signed token whose only fault is expiry reaches grace handling, and parseExpiredToken recovers its claims, as written and corrected alike |
| MiddlewareProperties.FirstExpiredUse | authMiddleware.go:85-121 | first expired use: the replacement for the same user is cached, one record with deadline now + GracePeriod is added, and the request is admitted with "Bearer " + replacement; if minting fails, 500 and nothing recorded |
| MiddlewareProperties.RepeatUseWithinDeadline | authMiddleware.go:70-82 | a repeat use while now <= deadline admits the original user and changes nothing |
| MiddlewareProperties.UseAfterDeadline | authMiddleware.go:70-77 | a use after the deadline gets 401 "Token expired", deletes exactly that record and blacklists the token for 100 s |
| MiddlewareProperties.RequestKeepsCoherent | authMiddleware.go:21-122 | every request, as written or corrected, keeps each cache entry consistent with its signed token and each grace record holding a replacement signed for its token's user |
| MiddlewareProperties.SecondUseNeverRenews | authMiddleware.go:70-83 | after a request renewed a token, the next request with the same header never renews again |
| MiddlewareProperties.RequestRemovesOnlyPastDeadline | authMiddleware.go:70-74 | a request deletes a grace record only for its own token and only after that record's deadline |
| MiddlewareProperties.PendingRequestChangesNothing | authMiddleware.go:70-82 | while a record is pending, a request with its token changes nothing and renews nothing |
| MiddlewareProperties.NoRenewalWhilePending | authMiddleware.go:70-83 | any run of requests up to the deadline leaves the state unchanged and never renews |
| MiddlewareProperties.AdmittedWhilePending | authMiddleware.go:78-82 | any run of requests between the first expired use and the deadline admits the original user every time |
| MiddlewareProperties.RenewalExactlyOnce | middleware_test.go:150-183 | the first expired use is renewed; every later use within the grace window is admitted as the same user without a new token and without a state change |
| MiddlewareProperties.RenewedTokenAccepted | middleware_test.go:160-170 | the response header carries "Bearer " + the minted token, and that header is admitted for the same user at once |
| MiddlewareProperties.RenewedAgainAfterBlacklistLapse | authMiddleware.go:70-99 | after the post-deadline rejection, a use 100 s or more later is a first expired use again and is renewed |
| MiddlewareProperties.ForgedTokenRejected | authMiddleware.go:40-61 | an unreadable or wrongly signed token is rejected and changes nothing: in the corrected chain always, in the chain as written whenever it is not also expired |
| MiddlewareProperties.ForgedExpiredTokenRenewed | middleware_test.go:273-298 | an expired token with a non-matching signature, presented for the first time, is renewed by the chain as written: a genuine replacement for its user id is cached, a record whose key is not well signed is added, and the request is admitted; the corrected chain answers 401 "Invalid expired token" with no change |
| MiddlewareProperties.CorrectedChainRecordsOnlySigned | authMiddleware.go:59-99 | in the corrected chain, if every grace record's key is well signed before a request, it still is after it |
| MiddlewareProperties.ForgedExpiredTokenYieldsClaims | authMiddleware.go:125-137 | for an expired token with a bad signature, jwt-go reports both the Expired and the SignatureInvalid bits; parseExpiredToken as written returns its claims, and the strict version refuses it |
| MiddlewareProperties.ReclaimNoOp | authMiddleware.go:111-116 | the reclaim changes nothing when the record is already gone or its deadline has not passed |
| MiddlewareProperties.ReclaimPastDeadline | authMiddleware.go:111-116 | past the deadline the reclaim removes that record and blacklists the token for 100 s |
| MiddlewareProperties.ReclaimAfterSweep | core.go:222-226 | a reclaim firing after the sweep removed its record changes nothing further |
| MiddlewareProperties.ZeroGraceAdmitsOnce | authMiddleware.go:85-99 | with GracePeriod = 0, the first expired use is renewed with deadline = now; a strictly later use is rejected as expired and the token is then revoked |
| MiddlewareProperties.FullyExpiredScenario | middleware_test.go:206-270 | Expires = -1, GracePeriod = 0 on a fresh handler: the first use is renewed, the second gets "Token expired", and reuse within 100 s gets "Token revoked" |
| MiddlewareProperties.GracePeriodScenario | middleware_test.go:118-202 | Expires = 1, GracePeriod = 5: a use after 2 s is renewed with a different token that is itself accepted; uses up to the deadline are admitted; after the reclaim fires the token gets "Token revoked" |

## Left out

- Cryptography: HMAC-SHA256 and the base64url/JSON encoding are the abstract `Codec`. `Sound` is the only property assumed of it.
- ReleaseToken's signing-error branch (core.go:103-105) is left out: HS256 with a byte-slice key does not fail.
- `createCache`, the Redis/memory fallback, the cache TTLs, `Close` and the `NewJwtHandler` error paths (core.go:33-87, 230-232) are left out: they belong to the cache library. The stores are maps. A blacklist entry is live until `now + 100` by assumption.
- The fast path's type assertions on cached values (core.go:131-132) are assumed to succeed. If they fail, as they can for values read back from Redis, the parse falls through to full verification. The model takes the memory-cache behaviour.
- ParseToken's `!token.Valid` branch (core.go:155-157) is left out: jwt-go never returns an invalid token without an error.
- Gin itself is left out: the context, JSON bodies and the downstream handler. An admitted request is `Admit(userId)`, with the new `Authorization` header on renewal. A rejection is its status and error message.
- Goroutines, the mutex, `time.Sleep` and the ticker are left out:
  - each request, sweep or reclaim is one atomic step, since each holds `graceMutex` in the source;
  - the reclaim goroutine's firing time and the ticker's ticks are parameters;
  - the race between the unlocked `isTokenRevoked`/`ParseToken` reads and concurrent writers is not modelled.
- Sub-second time is left out: the clock counts whole seconds. Two requests in the same second share one instant, whereas in Go the later one is strictly after the deadline. The scenario lemmas therefore place successive requests at strictly increasing seconds.
- Core.Release: treats `Expires` seconds as an unbounded integer. Go turns it into a `time.Duration`, a 64-bit count of nanoseconds, and the multiplication at core.go:91 wraps around silently. For `|Expires| >= 9_223_372_037` (about 9.2e9 s) Go issues a wrapped, possibly already past, `exp`, whereas the contract promises `exp = now + Expires`. Such configurations are outside the model.
- Middleware.HandleExpired and Core.Sweep: treat `GracePeriod` as unbounded in the same way. The same 64-bit nanosecond product at authMiddleware.go:93 and core.go:223 wraps for `|GracePeriod| >= 9_223_372_037`, so the deadline and the staleness test differ from the model's there.
- Core.JwtHandler.StartGracePeriodCleaner: treats `BlacklistCleanDuration` minutes as unbounded. The product at core.go:208 wraps for `|BlacklistCleanDuration| >= 153_722_868` (about 1.5e8 min). A positive value that wraps to a non-positive interval passes the `<= 0` guard at core.go:205, and `time.NewTicker` then panics, whereas the model runs one sweep per tick. Such configurations are outside the model.
- Core.JwtHandler.RevokeToken: computes `RemainingValidity` but, like the source, does not use it. The blacklist TTL is the fixed 100 s.
- ForgedTokenRejected: in the chain as written it covers only tokens that are not expired, because the code renews an expired wrongly signed token (ForgedExpiredTokenRenewed).
- Middleware.GinMiddleware requires a non-nil blacklist: `isTokenRevoked` calls it without a nil check (authMiddleware.go:141), so the source would panic without one.
- `Config.SigningKey`, `Cache` and the Redis settings (config.go) are left out; they are only inputs to the codec and the stores.

## Findings

| source | as written | input that shows it | evidently intended | confidence | as-written member | corrected member |
|---|---|---|---|---|---|---|
| authMiddleware.go:125-137 | `parseExpiredToken` ignores any error with the Expired bit, even when the signature check also failed | an expired token whose payload was altered or re-signed with another key: jwt-go v3 sets Expired and SignatureInvalid together, `isExpiredError` is true, and the forged claims are returned, so `handleExpiredToken` mints a genuine replacement for the forged user id | ignore the error only when expiry is its sole fault (errors == ValidationErrorExpired) | not executed; depends on jwt-go v3 validating claims before the signature and OR-ing the bits | Middleware.ParseExpiredToken (with MiddlewareProperties.ForgedExpiredTokenYieldsClaims and MiddlewareProperties.ForgedExpiredTokenRenewed) | Middleware.ParseExpiredTokenStrict (run by Middleware.Request with Corrected; MiddlewareProperties.ForgedTokenRejected, MiddlewareProperties.CorrectedChainRecordsOnlySigned) |
