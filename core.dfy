/** JwtHandler (core.go): the token cache, the blacklist and the grace-period
    registry, with issuance, parsing, revocation and the periodic sweep.
    Each operation is first given as a function on a `HandlerState` value; the
    class methods change the handler's maps step by step and are proved to
    leave exactly the state those functions describe. */
module Core {
  import opened Jwt

  /** Blacklist entries always live this many seconds (core.go:200). */
  const BLACKLIST_TTL: int := 100
  /** Remaining validity computed by RevokeToken: 24 hours by default, floored at one minute. */
  const DEFAULT_REMAINING: int := 86400
  const MIN_REMAINING: int := 60

  const MSG_REVOKED := "token已被撤销"
  const MSG_EMPTY_TOKEN := "token不能为空"
  const MSG_NO_BLACKLIST := "黑名单缓存未初始化"
  const MSG_CACHE_FAILED := "缓存Token失败"
  /** Stands for the error the blacklist store itself returns from Set; its text is not part of this model. */
  const MSG_BLACKLIST_FAILED := "blacklist store unavailable"

  /** The hash ReleaseToken stores under a token. */
  datatype CacheEntry = CacheEntry(userId: nat, expiresAt: int)

  /** gracePeriodToken: absolute deadline and the replacement token minted on first expired use. */
  datatype GraceRecord = GraceRecord(deadline: int, newToken: string)

  /** The handler's mutable state. The blacklist maps a token to the instant its entry lapses. */
  datatype HandlerState = HandlerState(
    tokenCache: map<string, CacheEntry>,
    blacklist: map<string, int>,
    graceTokens: map<string, GraceRecord>)

  /** What is fixed for a handler's lifetime; hasBlacklist is `j.blacklist != nil`. */
  datatype Setup = Setup(config: Config, codec: Codec, hasBlacklist: bool)

  /** The world one call runs in: the clock reading, and whether each cache store answers. */
  datatype Env = Env(now: int, blacklistUp: bool, cacheUp: bool)

  /** A Go `error` result: nil or an error. */
  datatype Status = Done | Failed(error: Error)

  /** The state after an operation, with what it returned. */
  datatype Step<T> = Step(state: HandlerState, out: T)

  /** The blacklist holds a live entry for the token at `now`. */
  predicate Blacklisted(blacklist: map<string, int>, token: string, now: int) {
    token in blacklist && now < blacklist[token]
  }

  /** The claims ReleaseToken signs for a user at `now`. */
  function IssuedClaims(config: Config, userId: nat, now: int): Claims {
    Claims(userId, now, now + config.expires, config.issuer)
  }

  /** ReleaseToken: sign fresh claims and store {userId, expiresAt} under the
      token; when the cache write fails, return an error and store nothing. */
  function Release(setup: Setup, st: HandlerState, userId: nat, env: Env): (r: Step<Result<string>>)
    ensures r.state.blacklist == st.blacklist && r.state.graceTokens == st.graceTokens
    ensures r.out.Ok? <==> env.cacheUp
    ensures r.out.Ok? ==> r.out.value == setup.codec.sign(IssuedClaims(setup.config, userId, env.now))
    ensures r.out.Ok? ==> r.state.tokenCache
                          == st.tokenCache[r.out.value := CacheEntry(userId, env.now + setup.config.expires)]
    ensures r.out.Err? ==> r.state == st
  {
    var claims := IssuedClaims(setup.config, userId, env.now);
    var token := setup.codec.sign(claims);
    if env.cacheUp then
      Step(st.(tokenCache := st.tokenCache[token := CacheEntry(userId, claims.expiresAt)]), Ok(token))
    else
      Step(st, Err(Message(MSG_CACHE_FAILED)))
  }

  /** The cache fast path applies: the store answers and holds an entry not yet past its expiresAt. */
  predicate FreshInCache(st: HandlerState, token: string, env: Env) {
    env.cacheUp && token in st.tokenCache && st.tokenCache[token].expiresAt > env.now
  }

  /** ParseToken: the blacklist first (a store error counts as "not revoked"),
      then the cache fast path, then full verification. */
  function Parse(setup: Setup, st: HandlerState, token: string, env: Env): (r: Result<Claims>)
    ensures setup.hasBlacklist && env.blacklistUp && Blacklisted(st.blacklist, token, env.now)
            ==> r == Err(Message(MSG_REVOKED))
    ensures r.Ok? ==> !(setup.hasBlacklist && env.blacklistUp && Blacklisted(st.blacklist, token, env.now))
    ensures !(setup.hasBlacklist && env.blacklistUp && Blacklisted(st.blacklist, token, env.now))
            && FreshInCache(st, token, env)
            ==> r == Ok(Claims(st.tokenCache[token].userId, 0, st.tokenCache[token].expiresAt, setup.config.issuer))
    ensures !(setup.hasBlacklist && env.blacklistUp && Blacklisted(st.blacklist, token, env.now))
            && !FreshInCache(st, token, env)
            ==> r == ParseWithClaims(setup.codec, token, env.now)
  {
    if setup.hasBlacklist && env.blacklistUp && Blacklisted(st.blacklist, token, env.now) then
      Err(Message(MSG_REVOKED))
    else if FreshInCache(st, token, env) then
      var entry := st.tokenCache[token];
      Ok(Claims(entry.userId, 0, entry.expiresAt, setup.config.issuer))
    else
      ParseWithClaims(setup.codec, token, env.now)
  }

  /** RevokeToken accepts a token when parsing it succeeds or its error has the
      Expired bit, whatever other bits (a bad signature) are set as well. */
  predicate Revocable(setup: Setup, token: string, env: Env) {
    var parsed := ParseWithClaims(setup.codec, token, env.now);
    parsed.Ok? || IsExpiredError(parsed.error)
  }

  /** RevokeToken succeeds: a non-empty token, a blacklist that exists and answers, and a revocable token. */
  predicate RevokeAccepts(setup: Setup, token: string, env: Env) {
    token != "" && setup.hasBlacklist && env.blacklistUp && Revocable(setup, token, env)
  }

  /** RevokeToken: refuse an empty token, a missing blacklist and a token that
      fails to parse for a reason other than expiry; otherwise blacklist it for
      exactly BLACKLIST_TTL seconds. */
  function Revoke(setup: Setup, st: HandlerState, token: string, env: Env): (r: Step<Status>)
    ensures r.state.tokenCache == st.tokenCache && r.state.graceTokens == st.graceTokens
    ensures r.out.Done? <==> RevokeAccepts(setup, token, env)
    ensures r.out.Done? ==> r.state.blacklist == st.blacklist[token := env.now + BLACKLIST_TTL]
    ensures r.out.Failed? ==> r.state == st
  {
    if token == "" then Step(st, Failed(Message(MSG_EMPTY_TOKEN)))
    else if !setup.hasBlacklist then Step(st, Failed(Message(MSG_NO_BLACKLIST)))
    else
      var parsed := ParseWithClaims(setup.codec, token, env.now);
      if parsed.Err? && !IsExpiredError(parsed.error) then Step(st, Failed(parsed.error))
      else if env.blacklistUp then
        Step(st.(blacklist := st.blacklist[token := env.now + BLACKLIST_TTL]), Done)
      else Step(st, Failed(Message(MSG_BLACKLIST_FAILED)))
  }

  /** The validity RevokeToken computes for a token (and then does not use). */
  function RemainingValidity(expiresAt: int, now: int): (r: int)
    ensures r >= MIN_REMAINING
    ensures expiresAt <= 0 ==> r == DEFAULT_REMAINING
    ensures expiresAt > 0 ==> r >= expiresAt - now && (r == MIN_REMAINING || r == expiresAt - now)
  {
    if expiresAt <= 0 then DEFAULT_REMAINING
    else if expiresAt - now < MIN_REMAINING then MIN_REMAINING
    else expiresAt - now
  }

  /** The sweep's staleness test: more than gracePeriod seconds past the deadline. */
  predicate Overdue(config: Config, record: GraceRecord, now: int) {
    now - record.deadline > config.gracePeriod
  }

  /** The tokens the sweep removes and successfully blacklists. */
  function SweptAndRevoked(setup: Setup, st: HandlerState, env: Env): set<string> {
    set t | t in st.graceTokens && Overdue(setup.config, st.graceTokens[t], env.now)
                                && RevokeAccepts(setup, t, env)
  }

  /** cleanExpiredGraceTokens: drop every overdue record and revoke its token; the
      revocation's own error is ignored. Every other record is left as it was. */
  function Sweep(setup: Setup, st: HandlerState, env: Env): (r: HandlerState)
    ensures r.tokenCache == st.tokenCache
    ensures forall t :: t in r.graceTokens <==>
                        t in st.graceTokens && !Overdue(setup.config, st.graceTokens[t], env.now)
    ensures forall t :: t in r.graceTokens ==> r.graceTokens[t] == st.graceTokens[t]
    ensures forall t :: t in r.blacklist <==> t in st.blacklist || t in SweptAndRevoked(setup, st, env)
    ensures forall t :: t in r.blacklist ==>
                        r.blacklist[t] == if t in SweptAndRevoked(setup, st, env) then env.now + BLACKLIST_TTL
                                          else st.blacklist[t]
  {
    var revoked := SweptAndRevoked(setup, st, env);
    HandlerState(
      st.tokenCache,
      st.blacklist + map t | t in revoked :: env.now + BLACKLIST_TTL,
      map t | t in st.graceTokens && !Overdue(setup.config, st.graceTokens[t], env.now) :: st.graceTokens[t])
  }

  /** startGracePeriodCleaner's guard: a non-positive interval disables the sweep. */
  predicate CleanerEnabled(config: Config) {
    config.blacklistCleanDuration > 0
  }

  /** The sweeps of a sequence of ticks, in order. */
  function SweepAll(setup: Setup, st: HandlerState, ticks: seq<Env>): HandlerState
    decreases |ticks|
  {
    if ticks == [] then st
    else Sweep(setup, SweepAll(setup, st, ticks[..|ticks| - 1]), ticks[|ticks| - 1])
  }

  /** The cleaner over the ticks it would see: nothing at all when disabled. */
  function Cleaner(setup: Setup, st: HandlerState, ticks: seq<Env>): HandlerState {
    if CleanerEnabled(setup.config) then SweepAll(setup, st, ticks) else st
  }

  /** A cached entry agrees with what its token is signed with. */
  predicate CacheAgrees(setup: Setup, token: string, entry: CacheEntry) {
    var d := setup.codec.decode(token);
    d.Readable? && d.signatureOk && d.claims.userId == entry.userId
    && d.claims.expiresAt == entry.expiresAt && d.claims.issuer == setup.config.issuer
  }

  /** A grace record belongs to a readable token, and its replacement is a token
      signed by this handler for the user that token names. The key's own
      signature is not required: parseExpiredToken lets a wrongly signed expired
      token through. */
  predicate GraceAgrees(setup: Setup, token: string, record: GraceRecord) {
    var d := setup.codec.decode(token);
    var n := setup.codec.decode(record.newToken);
    d.Readable? && n.Readable? && n.signatureOk
    && n.claims.userId == d.claims.userId && n.claims.issuer == setup.config.issuer
  }

  /** The handler's invariant over its cache and grace registry. */
  predicate Coherent(setup: Setup, st: HandlerState) {
    && (forall t :: t in st.tokenCache ==> CacheAgrees(setup, t, st.tokenCache[t]))
    && (forall t :: t in st.graceTokens ==> GraceAgrees(setup, t, st.graceTokens[t]))
  }

  /** The records still present while the sweep has `pending` keys left to visit. */
  function Unswept(setup: Setup, st: HandlerState, env: Env, pending: set<string>): map<string, GraceRecord> {
    map t | t in st.graceTokens && (t in pending || !Overdue(setup.config, st.graceTokens[t], env.now))
          :: st.graceTokens[t]
  }

  /** The blacklist entries the sweep has written once only `pending` keys are left to visit. */
  function RevokedSoFar(setup: Setup, st: HandlerState, env: Env, pending: set<string>): map<string, int> {
    map t | t in SweptAndRevoked(setup, st, env) && t !in pending :: env.now + BLACKLIST_TTL
  }

  /** Visiting one key of the sweep changes the two partial results by that key alone:
      an overdue record goes, and its token is blacklisted when RevokeToken accepts it. */
  lemma SweepStep(setup: Setup, st: HandlerState, env: Env, pending: set<string>, token: string)
    requires token in pending && pending <= st.graceTokens.Keys
    ensures var overdue := Overdue(setup.config, st.graceTokens[token], env.now);
            && Unswept(setup, st, env, pending - {token})
               == (if overdue then Unswept(setup, st, env, pending) - {token} else Unswept(setup, st, env, pending))
            && st.blacklist + RevokedSoFar(setup, st, env, pending - {token})
               == (if overdue && RevokeAccepts(setup, token, env)
                   then (st.blacklist + RevokedSoFar(setup, st, env, pending))[token := env.now + BLACKLIST_TTL]
                   else st.blacklist + RevokedSoFar(setup, st, env, pending))
  {
    if Overdue(setup.config, st.graceTokens[token], env.now) && RevokeAccepts(setup, token, env) {
      assert token in SweptAndRevoked(setup, st, env);
      assert RevokedSoFar(setup, st, env, pending - {token})
             == RevokedSoFar(setup, st, env, pending)[token := env.now + BLACKLIST_TTL];
      UpdateUnion(st.blacklist, RevokedSoFar(setup, st, env, pending), token, env.now + BLACKLIST_TTL);
    } else {
      assert token !in SweptAndRevoked(setup, st, env);
      assert RevokedSoFar(setup, st, env, pending - {token}) == RevokedSoFar(setup, st, env, pending);
    }
  }

  /** Before the sweep visits any key nothing has changed; after it has visited all, the result is Sweep's. */
  lemma SweepBounds(setup: Setup, st: HandlerState, env: Env)
    ensures Unswept(setup, st, env, st.graceTokens.Keys) == st.graceTokens
    ensures st.blacklist + RevokedSoFar(setup, st, env, st.graceTokens.Keys) == st.blacklist
    ensures HandlerState(st.tokenCache, st.blacklist + RevokedSoFar(setup, st, env, {}), Unswept(setup, st, env, {}))
            == Sweep(setup, st, env)
  {
    assert RevokedSoFar(setup, st, env, st.graceTokens.Keys) == map[];
  }

  /** Dropping a grace record keeps the invariant. */
  lemma RemoveRecordKeepsCoherent(setup: Setup, st: HandlerState, token: string)
    requires Coherent(setup, st)
    ensures Coherent(setup, st.(graceTokens := st.graceTokens - {token}))
  {
  }

  lemma UpdateUnion(a: map<string, int>, b: map<string, int>, k: string, v: int)
    ensures (a + b)[k := v] == a + b[k := v]
  {
  }

  class JwtHandler {
    const setup: Setup
    var tokenCache: map<string, CacheEntry>
    var blacklist: map<string, int>
    var graceTokens: map<string, GraceRecord>

    function State(): HandlerState
      reads this
    {
      HandlerState(tokenCache, blacklist, graceTokens)
    }

    ghost predicate Valid()
      reads this
    {
      Sound(setup.codec) && Coherent(setup, State())
    }

    /** NewJwtHandler once both stores exist: every map starts empty. */
    constructor (config: Config, codec: Codec, hasBlacklist: bool)
      requires Sound(codec)
      ensures Valid()
      ensures setup.config == config && setup.codec == codec && setup.hasBlacklist == hasBlacklist
      ensures tokenCache == map[] && blacklist == map[] && graceTokens == map[]
    {
      setup := Setup(config, codec, hasBlacklist);
      tokenCache := map[];
      blacklist := map[];
      graceTokens := map[];
    }

    method ReleaseToken(userId: nat, env: Env) returns (r: Result<string>)
      requires Valid()
      modifies this
      ensures Valid()
      ensures var step := Release(setup, old(State()), userId, env);
              State() == step.state && r == step.out
    {
      var claims := IssuedClaims(setup.config, userId, env.now);
      var token := setup.codec.sign(claims);
      if !env.cacheUp {
        return Err(Message(MSG_CACHE_FAILED));
      }
      tokenCache := tokenCache[token := CacheEntry(userId, claims.expiresAt)];
      r := Ok(token);
    }

    method RevokeToken(token: string, env: Env) returns (status: Status)
      requires Valid()
      modifies this
      ensures Valid()
      ensures var step := Revoke(setup, old(State()), token, env);
              State() == step.state && status == step.out
    {
      if token == "" {
        return Failed(Message(MSG_EMPTY_TOKEN));
      }
      if !setup.hasBlacklist {
        return Failed(Message(MSG_NO_BLACKLIST));
      }
      var parsed := ParseWithClaims(setup.codec, token, env.now);
      if parsed.Err? && !IsExpiredError(parsed.error) {
        return Failed(parsed.error);
      }
      var decoded := setup.codec.decode(token);
      var remaining := RemainingValidity(if decoded.Readable? then decoded.claims.expiresAt else 0, env.now);
      if !env.blacklistUp {
        return Failed(Message(MSG_BLACKLIST_FAILED));
      }
      blacklist := blacklist[token := env.now + BLACKLIST_TTL];
      status := Done;
    }

    method CleanExpiredGraceTokens(env: Env)
      requires Valid()
      modifies this
      ensures Valid()
      ensures State() == Sweep(setup, old(State()), env)
    {
      ghost var st := State();
      var pending := graceTokens.Keys;
      SweepBounds(setup, st, env);
      while pending != {}
        invariant Valid()
        invariant pending <= st.graceTokens.Keys
        invariant tokenCache == st.tokenCache
        invariant graceTokens == Unswept(setup, st, env, pending)
        invariant blacklist == st.blacklist + RevokedSoFar(setup, st, env, pending)
        decreases pending
      {
        var token :| token in pending;
        SweepStep(setup, st, env, pending, token);
        assert token in graceTokens && graceTokens[token] == st.graceTokens[token];
        SweepVisit(token, env);
        pending := pending - {token};
      }
    }

    /** One iteration of the sweep: drop `token`'s record if it is overdue and revoke
        the token, ignoring RevokeToken's error. */
    method SweepVisit(token: string, env: Env)
      requires Valid()
      requires token in graceTokens
      modifies this
      ensures Valid()
      ensures tokenCache == old(tokenCache)
      ensures var overdue := Overdue(setup.config, old(graceTokens)[token], env.now);
              && graceTokens == (if overdue then old(graceTokens) - {token} else old(graceTokens))
              && blacklist == (if overdue && RevokeAccepts(setup, token, env)
                               then old(blacklist)[token := env.now + BLACKLIST_TTL]
                               else old(blacklist))
    {
      var record := graceTokens[token];
      if env.now - record.deadline > setup.config.gracePeriod {
        RemoveRecordKeepsCoherent(setup, State(), token);
        graceTokens := graceTokens - {token};
        var status := RevokeToken(token, env);
      }
    }

    method StartGracePeriodCleaner(ticks: seq<Env>)
      requires Valid()
      modifies this
      ensures Valid()
      ensures State() == Cleaner(setup, old(State()), ticks)
    {
      if setup.config.blacklistCleanDuration <= 0 {
        return;
      }
      for i := 0 to |ticks|
        invariant Valid()
        invariant State() == SweepAll(setup, old(State()), ticks[..i])
      {
        assert ticks[..i + 1][..i] == ticks[..i];
        CleanExpiredGraceTokens(ticks[i]);
      }
      assert ticks[..|ticks|] == ticks;
    }
  }
}
