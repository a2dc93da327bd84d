/** What the validation cache decides about one slot: when a stored answer may be
    served, and what an answer leaves behind. Shared by the step system, by the heap
    model and by the gate. */
module ValidationPolicy {
  import opened CacheKeys

  datatype Option<+T> = None | Some(value: T)

  /** Nanoseconds since the zero instant of Go's time.Time. */
  type Time = int

  const ZERO_TIME: Time := 0
  const SECOND: int := 1_000_000_000

  // ---- values ----

  datatype Actor = Actor(
    valid: bool,
    userID: string,
    orgID: string,
    email: string,
    permissions: seq<string>,
    audience: seq<string>,
    expiresAt: string,
    error: string,
    isDelegation: bool,
    actingAs: string,
    delegationScope: seq<string>,
    delegationChain: seq<string>)

  datatype ApiError = ApiError(status: int, endpoint: string, code: string, message: string, body: string)

  /** A Go error as the cache sees it: an *APIError itself, an error wrapping one, or
      anything else (network failure, cancelled context). */
  datatype Failure = Direct(api: ApiError) | Wrapping(context: string, api: ApiError) | Plain(reason: string)

  function StatusCode(e: Failure): int {
    match e
    case Direct(a) => a.status
    case Wrapping(_, a) => a.status
    case Plain(_) => 0
  }

  predicate IsUnauthorized(e: Failure) { StatusCode(e) == 401 }

  predicate IsForbidden(e: Failure) { StatusCode(e) == 403 }

  /** What a fetch, or a cached call, hands back. */
  datatype Answer = Said(actor: Actor) | Failed(err: Failure) | Nothing

  predicate SaysValid(a: Answer) { a.Said? && a.actor.valid }

  // ---- configuration ----

  datatype CacheClass = TokenClass | APIKeyClass | DecisionClass

  datatype TTL = TTL(pos: int, neg: int)

  datatype Config = Config(
    h: Hash,
    token: TTL,
    apiKey: TTL,
    decision: TTL,
    maxEntries: nat,
    jwtExpiry: string -> Time,           // unverifiedJWTExpiry
    parseExpiry: string -> Option<Time>) // parseActorExpiry
  {
    function Policy(kind: CacheClass): TTL {
      match kind
      case TokenClass => token
      case APIKeyClass => apiKey
      case DecisionClass => decision
    }

    ghost predicate Valid() {
      && HexDigest(h)
      && maxEntries >= 1
      && forall k :: 0 <= Policy(k).neg && 0 < Policy(k).pos
    }
  }

  const DEFAULT_MAX_ENTRIES: nat := 4096
  const DEFAULT_NEGATIVE_TTL: int := 5 * SECOND

  /** newDefaultValidationCache. */
  function DefaultConfig(h: Hash, jwtExpiry: string -> Time, parseExpiry: string -> Option<Time>): Config {
    Config(h, TTL(15 * SECOND, 5 * SECOND), TTL(60 * SECOND, 10 * SECOND), TTL(15 * SECOND, 5 * SECOND),
           DEFAULT_MAX_ENTRIES, jwtExpiry, parseExpiry)
  }

  /** WithValidationCacheOptions: None means the cache is off. */
  function ExplicitConfig(ttl: int, negativeTTL: int, maxEntries: int,
                          h: Hash, jwtExpiry: string -> Time, parseExpiry: string -> Option<Time>): Option<Config>
  {
    if ttl <= 0 then None
    else
      var neg := if negativeTTL == 0 then DEFAULT_NEGATIVE_TTL else if negativeTTL < 0 then 0 else negativeTTL;
      var neg := if neg > ttl then ttl else neg;
      var max := if maxEntries <= 0 then DEFAULT_MAX_ENTRIES else maxEntries;
      Some(Config(h, TTL(ttl, neg), TTL(ttl, neg), TTL(ttl, neg), max, jwtExpiry, parseExpiry))
  }

  /** Every way of switching the cache on gives a usable policy, and a "no" is never
      remembered longer than a "yes". */
  lemma ConfigurationsAreValid(ttl: int, negativeTTL: int, maxEntries: int,
                               h: Hash, jwtExpiry: string -> Time, parseExpiry: string -> Option<Time>)
    requires HexDigest(h)
    ensures DefaultConfig(h, jwtExpiry, parseExpiry).Valid()
    ensures
      var e := ExplicitConfig(ttl, negativeTTL, maxEntries, h, jwtExpiry, parseExpiry);
      && (e.None? <==> ttl <= 0)
      && (e.Some? ==> e.value.Valid() && forall k :: e.value.Policy(k).neg <= e.value.Policy(k).pos)
      && (e.Some? ==> e.value.maxEntries == if maxEntries <= 0 then 4096 else maxEntries)
    ensures DefaultConfig(h, jwtExpiry, parseExpiry).maxEntries == 4096
    ensures forall k :: var p := DefaultConfig(h, jwtExpiry, parseExpiry).Policy(k); p.neg <= p.pos
  {
    forall k: CacheClass
      ensures var p := DefaultConfig(h, jwtExpiry, parseExpiry).Policy(k); 0 < p.neg <= p.pos
    {
      match k case TokenClass => case APIKeyClass => case DecisionClass =>
    }
  }

  // ---- which policy a question uses ----

  /** The class the SDK's callers pass for each question. */
  function ClassOf(q: Question): CacheClass {
    if q.kind.AuthorizeResource? || q.perms != [] then DecisionClass
    else if q.kind.ValidateAPIKey? then APIKeyClass
    else TokenClass
  }

  /** The extra cap on a positive entry: the JWT's own exp, none for an API key. */
  function NotAfter(c: Config, q: Question): Time {
    if q.kind.ValidateAPIKey? then ZERO_TIME else c.jwtExpiry(q.cred)
  }

  /** Only validate-token passes a classifier for definite negatives. */
  predicate DefiniteNegative(q: Question, e: Failure) {
    q.kind.ValidateToken? && IsUnauthorized(e)
  }

  // ---- one slot ----

  datatype Slot = Slot(actor: Option<Actor>, err: Option<Failure>, expires: Time)

  const EMPTY_SLOT := Slot(None, None, ZERO_TIME)

  predicate Holds(s: Slot) { s.actor.Some? || s.err.Some? }

  predicate Expired(s: Slot, now: Time) { !Holds(s) || now >= s.expires }

  /** The read half of getWith: what may be served without asking. */
  function Serve(s: Slot, bypass: bool, now: Time): Option<Answer> {
    if bypass || now >= s.expires then None
    else if s.actor.Some? then Some(Said(s.actor.value))
    else if s.err.Some? then Some(Failed(s.err.value))
    else None
  }

  /** Eviction calls an entry expired exactly when it would serve nobody. */
  lemma ExpiredIffNotServed(s: Slot, now: Time)
    ensures Expired(s, now) <==> Serve(s, false, now).None?
  {
  }

  function Earlier(a: Time, b: Time): Time { if a < b then a else b }

  /** How long an actor may be kept, given the clock reading taken before the fetch. */
  function ExpiryFor(c: Config, q: Question, now: Time, a: Actor): Time {
    if !a.valid then now + c.Policy(ClassOf(q)).neg
    else
      var limit := now + c.Policy(ClassOf(q)).pos;
      var limit := match c.parseExpiry(a.expiresAt) case Some(t) => Earlier(t, limit) case None => limit;
      if NotAfter(c, q) != ZERO_TIME then Earlier(NotAfter(c, q), limit) else limit
  }

  /** The write half of getWith: the slot after `ans` came back. */
  function Store(c: Config, q: Question, now: Time, ans: Answer, prior: Slot): Slot {
    var p := c.Policy(ClassOf(q));
    match ans
    case Nothing => prior
    case Failed(e) =>
      if !DefiniteNegative(q, e) then prior
      else if p.neg > 0 then Slot(None, Some(e), now + p.neg)
      else EMPTY_SLOT
    case Said(a) =>
      if (if a.valid then p.pos else p.neg) <= 0 then EMPTY_SLOT
      else if ExpiryFor(c, q, now, a) <= now then EMPTY_SLOT
      else Slot(Some(a), None, ExpiryFor(c, q, now, a))
  }

  /** The TTLs of a question, as documented: what asks about permissions or a resource is a
      decision, else the kind of credential counts. */
  function TTLOf(c: Config, q: Question): TTL {
    match q.kind
    case AuthorizeResource => c.decision
    case ValidateAPIKey => if q.perms == [] then c.apiKey else c.decision
    case ValidateToken => if q.perms == [] then c.token else c.decision
  }

  lemma ClassIsDocumented(c: Config, q: Question)
    ensures TTLOf(c, q) == c.Policy(ClassOf(q))
  {
  }

  /** Longest life of an answer, counted from any clock reading taken before it. */
  function Life(c: Config, q: Question, ans: Answer): int {
    if SaysValid(ans) then TTLOf(c, q).pos else TTLOf(c, q).neg
  }

  /** The service's own 401 to validate-token, however the error is wrapped. */
  predicate IsDefinite401(q: Question, ans: Answer) {
    && q.kind == ValidateToken
    && match ans
       case Failed(Direct(api)) => api.status == 401
       case Failed(Wrapping(_, api)) => api.status == 401
       case _ => false
  }

  /** The credential is one that has an end of its own, and it comes after `time`. API keys
      have none, nor have tokens whose exp cannot be read. */
  predicate Outlives(c: Config, q: Question, time: Time) {
    q.kind != ValidateAPIKey && c.jwtExpiry(q.cred) != ZERO_TIME ==> time < c.jwtExpiry(q.cred)
  }

  /** `limit` respects everything that bounds how long `ans`, given at `at`, is trusted. */
  predicate WithinLife(c: Config, q: Question, at: Time, ans: Answer, limit: Time) {
    && limit <= at + Life(c, q, ans)
    && Life(c, q, ans) > 0
    && (SaysValid(ans) ==>
          && Outlives(c, q, limit - 1)
          && (c.parseExpiry(ans.actor.expiresAt).Some? ==> limit <= c.parseExpiry(ans.actor.expiresAt).value))
  }

  /** The slot holds `ans`, which answered `q` at `at`, for no longer than it may. */
  predicate Backed(c: Config, q: Question, at: Time, ans: Answer, s: Slot) {
    && WithinLife(c, q, at, ans, s.expires)
    && match ans
       case Said(a) => s.actor == Some(a) && s.err == None
       case Failed(e) => s.actor == None && s.err == Some(e) && DefiniteNegative(q, e)
       case Nothing => false
  }

  /** What a fetch leaves: its own answer properly capped, nothing at all, or, after a
      failure that decides nothing, exactly what was there before. */
  lemma StoreIsBacked(c: Config, q: Question, now: Time, at: Time, ans: Answer, prior: Slot)
    requires now <= at
    ensures
      var s := Store(c, q, now, ans, prior);
      || (s == prior && (ans.Nothing? || (ans.Failed? && !DefiniteNegative(q, ans.err))))
      || s == EMPTY_SLOT
      || (Backed(c, q, at, ans, s) && now < s.expires)
  {
  }

  /** A served answer is the stored one, read strictly before every bound on it. */
  lemma ServeIsWithinLife(c: Config, q: Question, at: Time, ans: Answer, s: Slot, bypass: bool, now: Time)
    requires Backed(c, q, at, ans, s)
    ensures Serve(s, bypass, now).Some? ==> Serve(s, bypass, now).value == ans && !bypass && WithinLife(c, q, at, ans, now + 1)
  {
  }

  /** And it is served for exactly that long: a yes until its TTL, the credential's exp
      or the reported expiry, whichever comes first; a no or a definite 401 for the
      negative TTL; after any other failure, what was there before. */
  lemma ServedExactlyUntil(c: Config, q: Question, now: Time, ans: Answer, prior: Slot, later: Time)
    requires c.Valid() && now <= later
    ensures
      var served := Serve(Store(c, q, now, ans, prior), false, later);
      match ans
      case Said(a) =>
        && served in {None, Some(ans)}
        && (served == Some(ans) <==>
              && later < now + (if a.valid then TTLOf(c, q).pos else TTLOf(c, q).neg)
              && (a.valid ==>
                    && (q.kind != ValidateAPIKey && c.jwtExpiry(q.cred) != ZERO_TIME ==> later < c.jwtExpiry(q.cred))
                    && (c.parseExpiry(a.expiresAt).Some? ==> later < c.parseExpiry(a.expiresAt).value)))
      case Failed(_) =>
        if IsDefinite401(q, ans) then served == if later < now + TTLOf(c, q).neg then Some(ans) else None
        else served == Serve(prior, false, later)
      case Nothing => served == Serve(prior, false, later)
  {
    assert 0 <= c.Policy(ClassOf(q)).neg && 0 < c.Policy(ClassOf(q)).pos;
  }

  /** How long the default cache serves an answer with no end of its own, in nanoseconds. */
  lemma DefaultLives(c: Config, q: Question, now: Time, a: Actor, later: Time)
    requires c == DefaultConfig(c.h, c.jwtExpiry, c.parseExpiry) && now <= later && HexDigest(c.h)
    requires c.jwtExpiry(q.cred) == ZERO_TIME && c.parseExpiry(a.expiresAt).None?
    ensures
      var asksOnlyAboutKey := q.kind == ValidateAPIKey && q.perms == [];
      Serve(Store(c, q, now, Said(a), EMPTY_SLOT), false, later).Some? <==>
        later - now < (if asksOnlyAboutKey then if a.valid then 60_000_000_000 else 10_000_000_000
                       else if a.valid then 15_000_000_000 else 5_000_000_000)
  {
  }

  /** And a cache configured with one TTL. */
  lemma ExplicitLives(ttl: int, negativeTTL: int, maxEntries: int, c: Config, q: Question, now: Time, a: Actor, later: Time)
    requires ExplicitConfig(ttl, negativeTTL, maxEntries, c.h, c.jwtExpiry, c.parseExpiry) == Some(c) && now <= later
    requires c.jwtExpiry(q.cred) == ZERO_TIME && c.parseExpiry(a.expiresAt).None?
    ensures
      var neg := if negativeTTL == 0 then 5_000_000_000 else negativeTTL;
      Serve(Store(c, q, now, Said(a), EMPTY_SLOT), false, later).Some? <==>
        later - now < ttl && (!a.valid ==> later - now < neg)
  {
  }

  // ---- eviction ----

  /** The victims evictIfFullLocked may pick once expired entries are gone: no more
      than needed to reach `target`, live entries in expiry order, in-flight ones only
      when no live one is left. */
  ghost predicate EvictionChoice(victims: set<string>, live: map<string, Time>, inFlight: set<string>, size: nat, target: nat) {
    && victims <= live.Keys + inFlight
    && |victims| == (if size > target then size - target else 0)
    && (victims * inFlight != {} ==> live.Keys <= victims)
    && forall a, b :: a in victims && a in live && b in live && b !in victims ==> live[a] <= live[b]
  }

  /** How eviction classes an entry. */
  datatype Status = InFlight | Gone | Live(expires: Time)

  function GoneKeys(status: map<string, Status>): set<string> {
    set k | k in status && status[k].Gone?
  }

  function LiveKeys(status: map<string, Status>): map<string, Time> {
    map k | k in status && status[k].Live? :: status[k].expires
  }

  function InFlightKeys(status: map<string, Status>): set<string> {
    set k | k in status && status[k].InFlight?
  }

  /** What eviction may leave: everything while there is room; else the expired entries
      go, and then a choice that respects the eviction order. */
  ghost predicate Evicted(status: map<string, Status>, kept: set<string>, target: nat) {
    if |status| <= target then kept == status.Keys
    else
      exists victims ::
        && EvictionChoice(victims, LiveKeys(status), InFlightKeys(status), |LiveKeys(status)| + |InFlightKeys(status)|, target)
        && kept == LiveKeys(status).Keys + InFlightKeys(status) - victims
  }
}
