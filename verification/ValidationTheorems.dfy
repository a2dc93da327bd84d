/** What the validation cache promises, over every interleaving of every run. */
module ValidationTheorems {
  import opened CacheKeys
  import opened ValidationPolicy
  import opened ValidationMachine
  import opened ValidationInvariants

  /** No answer in the history came from a question SHA-256 would confuse with `q`. */
  ghost predicate NoCollision(c: Config, log: seq<Event>, q: Question) {
    forall k :: 0 <= k < |log| && log[k].Answered? ==> !Confusable(c.h, log[k].q, q)
  }

  /** No run ever hands an answer fetched for one question to a caller asking another;
      an answer not taken from the cache is the caller's own fetch's answer. */
  lemma AnswersTheQuestionAsked(c: Config, s0: State, steps: seq<Step>, i: nat)
    requires c.Valid() && Init(s0) && IsRun(c, s0, steps)
    requires
      var log := Final(c, s0, steps).log;
      i < |log| && log[i].Returned? && NoCollision(c, log, log[i].q)
    ensures
      var log := Final(c, s0, steps).log;
      && log[i].source < i
      && log[log[i].source].Answered?
      && log[log[i].source].q == log[i].q
      && log[log[i].source].answer == log[i].answer
      && (!log[i].hit ==> log[log[i].source].call == log[i].call && log[i].looked <= log[log[i].source].began)
  {
    InvInit(c, s0);
    InvRun(c, s0, steps);
    var log := Final(c, s0, steps).log;
    assert EventOk(c, log, i);
    ValidationKeyInjective(c.h, log[log[i].source].q, log[i].q);
  }

  /** Every hit is explained by one earlier answer to the same question, given less than
      that answer's life ago: the TTL of decisions if the question asks for permissions or
      about a resource, else that of the kind of credential. A yes is served before the
      token's own exp and the reported expiry. A cached error is always a 401 from
      validate-token. */
  lemma HitsAreJustified(c: Config, s0: State, steps: seq<Step>, i: nat)
    requires c.Valid() && Init(s0) && IsRun(c, s0, steps)
    requires
      var log := Final(c, s0, steps).log;
      i < |log| && log[i].Returned? && log[i].hit && NoCollision(c, log, log[i].q)
    ensures
      var log := Final(c, s0, steps).log;
      var e := log[i];
      && e.source < i
      && log[e.source].Answered?
      && var a := log[e.source];
      && a.q == e.q && a.answer == e.answer && !e.answer.Nothing?
      && (var ttl := if e.q.perms != [] || e.q.kind == AuthorizeResource then c.decision
                     else if e.q.kind == ValidateAPIKey then c.apiKey else c.token;
          var life := if SaysValid(e.answer) then ttl.pos else ttl.neg;
          e.reading < a.at + life && life > 0)
      && (SaysValid(e.answer) ==>
            && (e.q.kind != ValidateAPIKey && c.jwtExpiry(e.q.cred) != ZERO_TIME ==> e.reading < c.jwtExpiry(e.q.cred))
            && (c.parseExpiry(e.answer.actor.expiresAt).Some? ==> e.reading < c.parseExpiry(e.answer.actor.expiresAt).value))
      && (e.answer.Failed? ==>
            && e.q.kind == ValidateToken && !e.answer.err.Plain? && e.answer.err.api.status == 401)
  {
    AnswersTheQuestionAsked(c, s0, steps, i);
    InvInit(c, s0);
    InvRun(c, s0, steps);
    assert EventOk(c, Final(c, s0, steps).log, i);
  }

  /** Revocation latency. If from time `r` on the service never again says yes to `q`,
      no hit whose clock reading is at least `r` plus the positive TTL of such questions says
      yes. */
  lemma RevocationLatency(c: Config, s0: State, steps: seq<Step>, q: Question, r: Time, i: nat)
    requires c.Valid() && Init(s0) && IsRun(c, s0, steps)
    requires
      var log := Final(c, s0, steps).log;
      && i < |log| && log[i].Returned? && log[i].hit && log[i].q == q
      && log[i].reading >= r + TTLOf(c, q).pos
      && NoCollision(c, log, q)
      && forall k :: 0 <= k < |log| && log[k].Answered? && log[k].q == q && log[k].at >= r ==> !SaysValid(log[k].answer)
    ensures !SaysValid(Final(c, s0, steps).log[i].answer)
  {
    HitsAreJustified(c, s0, steps, i);
  }

  /** The default cache in numbers: a hit is less than 60 s old if it says that an API key
      is valid, 10 s if that it is not, and otherwise 15 s and 5 s. */
  lemma DefaultHitsAreRecent(c: Config, s0: State, steps: seq<Step>, i: nat)
    requires c == DefaultConfig(c.h, c.jwtExpiry, c.parseExpiry) && HexDigest(c.h)
    requires c.Valid() && Init(s0) && IsRun(c, s0, steps)
    requires
      var log := Final(c, s0, steps).log;
      i < |log| && log[i].Returned? && log[i].hit && NoCollision(c, log, log[i].q)
    ensures
      var log := Final(c, s0, steps).log;
      var e := log[i];
      && e.source < i && log[e.source].Answered? && log[e.source].q == e.q && log[e.source].answer == e.answer
      && var age := e.reading - log[e.source].at;
         if e.q.kind == ValidateAPIKey && e.q.perms == []
         then age < (if SaysValid(e.answer) then 60_000_000_000 else 10_000_000_000)
         else age < (if SaysValid(e.answer) then 15_000_000_000 else 5_000_000_000)
    ensures |Final(c, s0, steps).entries| <= 4096
  {
    HitsAreJustified(c, s0, steps, i);
    NeverMoreThanMaxEntries(c, s0, steps);
  }

  /** A cache configured with one TTL: a yes is less than `ttl` old; anything else less than
      the negative TTL, which is 5 s unless given, never more than `ttl`, and not cached at
      all if it is negative. */
  lemma ExplicitHitsAreRecent(ttl: int, negativeTTL: int, maxEntries: int, c: Config, s0: State, steps: seq<Step>, i: nat)
    requires ExplicitConfig(ttl, negativeTTL, maxEntries, c.h, c.jwtExpiry, c.parseExpiry) == Some(c) && HexDigest(c.h)
    requires c.Valid() && Init(s0) && IsRun(c, s0, steps)
    requires
      var log := Final(c, s0, steps).log;
      i < |log| && log[i].Returned? && log[i].hit && NoCollision(c, log, log[i].q)
    ensures
      var log := Final(c, s0, steps).log;
      var e := log[i];
      && e.source < i && log[e.source].Answered? && log[e.source].q == e.q && log[e.source].answer == e.answer
      && var age := e.reading - log[e.source].at;
         && age < ttl
         && (!SaysValid(e.answer) ==> negativeTTL >= 0 && age < (if negativeTTL == 0 then 5_000_000_000 else negativeTTL))
    ensures |Final(c, s0, steps).entries| <= if maxEntries <= 0 then 4096 else maxEntries
  {
    HitsAreJustified(c, s0, steps, i);
    NeverMoreThanMaxEntries(c, s0, steps);
  }

  /** Invalidation is a real cut. A call that looks its entry up after the call to
      InvalidateValidation(cred), or to ResetValidationCache, is only ever given an
      answer whose fetch began after it, whatever was in flight at that moment. */
  lemma InvalidationIsACut(c: Config, s0: State, steps: seq<Step>, k: nat, i: nat)
    requires c.Valid() && Init(s0) && IsRun(c, s0, steps)
    requires
      var log := Final(c, s0, steps).log;
      && k < |log| && log[k].Cut?
      && i < |log| && log[i].Returned? && k < log[i].looked
      && (log[k].prefix == "" || log[k].prefix == CredentialFingerprint(c.h, log[i].q.cred))
    ensures
      var log := Final(c, s0, steps).log;
      && log[i].source < |log| && log[log[i].source].Answered?
      && k < log[log[i].source].began
  {
    InvInit(c, s0);
    InvRun(c, s0, steps);
    var log := Final(c, s0, steps).log;
    assert EventOk(c, log, i);
    assert log[k].prefix <= ValidationKey(c.h, log[i].q);
  }

  /** A call has its answer from the moment it has read one or stored one. */
  predicate HasAnswer(p: Phase) {
    p.CountingHit? || p.Leaving? || p.Finished?
  }

  predicate IsReturnOf(s: State, i: nat, t: nat) {
    i < |s.log| && s.log[i].Returned? && s.log[i].call == t
  }

  ghost predicate ReturnOk(s: State, i: nat, t: nat) {
    IsReturnOf(s, i, t) ==>
      && t < |s.calls| && HasAnswer(s.calls[t].phase)
      && s.calls[t].q == s.log[i].q
      && (s.log[i].hit ==> !s.calls[t].bypass)
      && forall j: nat :: IsReturnOf(s, j, t) ==> j == i
  }

  ghost predicate ReturnsOk(s: State) {
    && (forall i: nat, t: nat :: ReturnOk(s, i, t))
    && (forall t :: 0 <= t < |s.calls| && HasAnswer(s.calls[t].phase) ==> exists i: nat :: IsReturnOf(s, i, t))
  }

  lemma ReturnOkStep(c: Config, s: State, step: Step, i: nat, t: nat)
    requires c.maxEntries >= 1 && ReturnsOk(s) && Enabled(c, s, step)
    ensures ReturnOk(Apply(c, s, step), i, t)
  {
    hide ValidationKey, EvictionChoice, Store, Serve, DropPrefix, CredentialFingerprint, Apply, Enabled;
    var s' := Apply(c, s, step);
    OldOrOwn(c, s, step, i, t);
    assert ReturnOk(s, i, t);
    if IsReturnOf(s', i, t) {
      CallKeepsQuestion(c, s, step, t);
      forall j: nat | IsReturnOf(s', j, t)
        ensures j == i
      {
        OldOrOwn(c, s, step, j, t);
        assert ReturnOk(s, j, t);
      }
    }
  }

  /** A return in the history after a step was there before, or is this step's. */
  lemma OldOrOwn(c: Config, s: State, step: Step, i: nat, t: nat)
    requires c.maxEntries >= 1 && Enabled(c, s, step)
    ensures
      var s' := Apply(c, s, step);
      IsReturnOf(s', i, t) ==>
        || (IsReturnOf(s, i, t) && s'.log[i] == s.log[i])
        || (&& i == |s.log| && (step == Read(t) || step == Keep(t)) && t < |s.calls| && !HasAnswer(s.calls[t].phase)
            && HasAnswer(s'.calls[t].phase) && s'.log[i].q == s.calls[t].q && (s'.log[i].hit ==> !s.calls[t].bypass))
  {
    hide ValidationKey, EvictionChoice, Store, DropPrefix, CredentialFingerprint;
    StepExtends(c, s, step);
  }

  lemma OwnCallKeepsQuestion(c: Config, s: State, step: Step)
    requires c.maxEntries >= 1 && Enabled(c, s, step) && IsCallStep(step)
    ensures
      var s', t := Apply(c, s, step), step.t;
      && t < |s.calls| && t < |s'.calls| && s'.calls[t].q == s.calls[t].q && s'.calls[t].bypass == s.calls[t].bypass
      && (HasAnswer(s.calls[t].phase) ==> HasAnswer(s'.calls[t].phase))
  {
    hide ValidationKey, EvictionChoice, Store, Serve, DropPrefix, CredentialFingerprint, Expired;
  }

  lemma CallKeepsQuestion(c: Config, s: State, step: Step, t: nat)
    requires c.maxEntries >= 1 && Enabled(c, s, step) && t < |s.calls|
    ensures
      var s' := Apply(c, s, step);
      && t < |s'.calls| && s'.calls[t].q == s.calls[t].q && s'.calls[t].bypass == s.calls[t].bypass
      && (HasAnswer(s.calls[t].phase) ==> HasAnswer(s'.calls[t].phase))
  {
    hide Apply, Enabled, HasAnswer;
    if IsCallStep(step) && step.t == t {
      OwnCallKeepsQuestion(c, s, step);
    } else {
      OthersStay(c, s, step, t);
    }
  }

  /** A call gets its answer in the step that writes the return into the history. */
  lemma GainsAnswer(c: Config, s: State, step: Step)
    requires c.maxEntries >= 1 && Enabled(c, s, step) && IsCallStep(step)
    ensures
      var s', t := Apply(c, s, step), step.t;
      && t < |s.calls| && t < |s'.calls|
      && (HasAnswer(s'.calls[t].phase) && !HasAnswer(s.calls[t].phase) ==> IsReturnOf(s', |s.log|, t))
  {
    hide ValidationKey, EvictionChoice, Store, DropPrefix, CredentialFingerprint, Expired;
  }

  lemma NewcomerHasNoAnswer(c: Config, s: State, step: Step, t: nat)
    requires c.maxEntries >= 1 && Enabled(c, s, step) && |s.calls| <= t < |Apply(c, s, step).calls|
    ensures !HasAnswer(Apply(c, s, step).calls[t].phase)
  {
    hide ValidationKey, EvictionChoice, Store, Serve, DropPrefix, CredentialFingerprint, Expired;
  }

  lemma AnsweredStep(c: Config, s: State, step: Step, t: nat)
    requires c.maxEntries >= 1 && ReturnsOk(s) && Enabled(c, s, step)
    requires t < |Apply(c, s, step).calls| && HasAnswer(Apply(c, s, step).calls[t].phase)
    ensures exists i: nat :: IsReturnOf(Apply(c, s, step), i, t)
  {
    hide Apply, Enabled, HasAnswer;
    var s' := Apply(c, s, step);
    StepExtends(c, s, step);
    if t >= |s.calls| {
      NewcomerHasNoAnswer(c, s, step, t);
    } else if HasAnswer(s.calls[t].phase) {
      var i: nat :| IsReturnOf(s, i, t);
      assert IsReturnOf(s', i, t);
    } else if IsCallStep(step) && step.t == t {
      GainsAnswer(c, s, step);
    } else {
      OthersStay(c, s, step, t);
    }
  }

  lemma {:induction false} ReturnsRun(c: Config, s: State, steps: seq<Step>)
    requires c.maxEntries >= 1 && ReturnsOk(s) && IsRun(c, s, steps)
    ensures ReturnsOk(Final(c, s, steps))
    decreases |steps|
  {
    hide Enabled, Apply, ReturnOk, HasAnswer, IsReturnOf;
    if steps != [] {
      var s' := Apply(c, s, steps[0]);
      forall i: nat, t: nat ensures ReturnOk(s', i, t) { ReturnOkStep(c, s, steps[0], i, t); }
      forall t | 0 <= t < |s'.calls| && HasAnswer(s'.calls[t].phase)
        ensures exists i: nat :: IsReturnOf(s', i, t)
      {
        AnsweredStep(c, s, steps[0], t);
      }
      ReturnsRun(c, s', steps[1..]);
    }
  }

  /** Every call that ends was answered, once, for its own question; and a call made with
      WithFreshValidation by its own fetch, begun after it looked its entry up. */
  lemma EveryCallIsAnsweredOnce(c: Config, s0: State, steps: seq<Step>, t: nat) returns (i: nat)
    requires c.Valid() && Init(s0) && IsRun(c, s0, steps)
    requires t < |Final(c, s0, steps).calls| && Final(c, s0, steps).calls[t].phase.Finished?
    ensures
      var s := Final(c, s0, steps);
      && IsReturnOf(s, i, t) && s.log[i].q == s.calls[t].q
      && (forall j: nat :: IsReturnOf(s, j, t) ==> j == i)
      && (s.calls[t].bypass ==>
            && !s.log[i].hit && s.log[i].source < |s.log| && s.log[s.log[i].source].Answered?
            && s.log[s.log[i].source].call == t && s.log[i].looked <= s.log[s.log[i].source].began
            && s.log[s.log[i].source].answer == s.log[i].answer)
  {
    ReturnsRun(c, s0, steps);
    InvInit(c, s0);
    InvRun(c, s0, steps);
    var s := Final(c, s0, steps);
    i :| IsReturnOf(s, i, t);
    assert ReturnOk(s, i, t);
    assert EventOk(c, s.log, i);
  }

  /** The bound holds in every reachable state, bursts of cold misses included. */
  lemma NeverMoreThanMaxEntries(c: Config, s0: State, steps: seq<Step>)
    requires c.Valid() && Init(s0) && IsRun(c, s0, steps)
    ensures |Final(c, s0, steps).entries| <= c.maxEntries
  {
    InvInit(c, s0);
    InvRun(c, s0, steps);
  }

  /** One fetch at a time per entry object, and no fetch without the flight lock. */
  lemma SingleFlightPerEntry(c: Config, s0: State, steps: seq<Step>, t: nat, u: nat)
    requires c.Valid() && Init(s0) && IsRun(c, s0, steps)
    requires
      var s := Final(c, s0, steps);
      PhaseOf(s, t).Fetching? && PhaseOf(s, u).Fetching? && PhaseOf(s, t).entry == PhaseOf(s, u).entry
    ensures t == u
  {
    InvInit(c, s0);
    InvRun(c, s0, steps);
    var s := Final(c, s0, steps);
    var e := PhaseOf(s, t).entry;
    assert HoldsFlight(s, t, e) && HoldsFlight(s, u, e);
    assert FlightIs(s, e, t) && FlightIs(s, e, u);
  }

  /** Eviction touches the map only. Every entry object, in flight or not, and every
      other call is exactly as it was, so what an evicted entry's own callers receive
      does not change. */
  lemma EvictionLeavesEntriesAlone(c: Config, s: State, step: Step)
    requires c.maxEntries >= 1 && Enabled(c, s, step) && (step.Scan? || step.Settle?)
    ensures
      var s' := Apply(c, s, step);
      && s.heap <= s'.heap
      && s'.log == s.log
      && |s'.calls| == |s.calls|
      && forall u :: 0 <= u < |s.calls| && u != step.t ==> s'.calls[u] == s.calls[u]
  {
  }

  // ---- deadlock freedom and termination ----

  predicate IsCallStep(step: Step) {
    !step.Tick? && !step.Arrive? && !step.Invalidate? && !step.Reset?
  }

  lemma EarliestKey(live: map<string, Time>) returns (k: string)
    requires live != map[]
    ensures k in live && forall j :: j in live ==> live[k] <= live[j]
    decreases |live|
  {
    k :| k in live;
    var rest := live - {k};
    assert rest.Keys == live.Keys - {k};
    assert forall j :: j in live && j != k ==> j in rest && rest[j] == live[j];
    if rest != map[] {
      DropSize(live, {k});
      var m := EarliestKey(rest);
      if live[m] < live[k] { k := m; }
    }
  }

  /** The eviction order can always be followed. */
  lemma ChooseVictims(live: map<string, Time>, inFlight: set<string>, size: nat, target: nat) returns (victims: set<string>)
    requires live.Keys !! inFlight && size <= |live| + |inFlight|
    ensures EvictionChoice(victims, live, inFlight, size, target)
    decreases if size > target then size - target else 0
  {
    if size <= target {
      victims := {};
    } else if live != map[] {
      var k := EarliestKey(live);
      var rest := live - {k};
      assert rest.Keys == live.Keys - {k};
      DropSize(live, {k});
      var more := ChooseVictims(rest, inFlight, size - 1, target);
      assert k !in more;
      victims := more + {k};
    } else {
      assert live.Keys == {};
      victims := TakeSome(inFlight, size - target);
    }
  }

  lemma TakeSome(from: set<string>, n: nat) returns (some: set<string>)
    requires n <= |from|
    ensures some <= from && |some| == n
  {
    if n == 0 {
      some := {};
    } else {
      var k :| k in from;
      var more := TakeSome(from - {k}, n - 1);
      some := more + {k};
    }
  }

  lemma InMap(s: State, key: string)
    requires MapOk(s) && key in s.entries
    ensures s.entries[key] < |s.heap|
  {
  }

  /** Once all entries are sorted, the sizes of the classes add up to the map's. */
  lemma SortedSize(keys: set<string>, live: map<string, Time>, inFlight: set<string>)
    requires Sorted(keys, {}, live.Keys, inFlight)
    ensures |keys| == |live| + |inFlight| && live.Keys !! inFlight
  {
    assert keys == live.Keys + inFlight;
    assert |live.Keys| == |live|;
  }

  /** A mutex holder never waits, so it can always go on. */
  lemma EvictorCanMove(c: Config, s: State, t: nat) returns (step: Step)
    requires Inv(c, s) && s.mu == Some(t)
    ensures IsCallStep(step) && Enabled(c, s, step)
  {
    hide EventsOk, HeapOk, MapOk, CallsOk, ValidationKey, EvictionChoice, Sorted;
    assert PhaseOf(s, t).Scanning?;
    var p := PhaseOf(s, t);
    assert Sorted(s.entries.Keys, p.todo, p.live.Keys, p.inFlight);
    if p.todo != {} {
      var key :| key in p.todo;
      TodoInMap(s.entries.Keys, p.todo, p.live.Keys, p.inFlight, key);
      InMap(s, key);
      step := Scan(t, key);
    } else {
      SortedSize(s.entries.Keys, p.live, p.inFlight);
      assert |s.entries| == |s.entries.Keys|;
      var victims := ChooseVictims(p.live, p.inFlight, |s.entries|, Target(c));
      step := Settle(t, victims);
    }
  }

  lemma TodoInMap(keys: set<string>, todo: set<string>, live: set<string>, inFlight: set<string>, key: string)
    requires Sorted(keys, todo, live, inFlight) && key in todo
    ensures key in keys
  {
  }

  /** A flight holder waits for nothing but the mutex. */
  lemma HolderCanMove(c: Config, s: State, t: nat) returns (step: Step)
    requires Inv(c, s) && s.mu.None? && Held(PhaseOf(s, t)).Some?
    ensures IsCallStep(step) && Enabled(c, s, step)
  {
    assert CallOk(c, s, t);
    match PhaseOf(s, t)
    case Holding(_, _) => step := Read(t);
    case CountingHit(_, _) => step := CountHit(t);
    case CountingMiss(_, _, _) => step := CountMiss(t);
    case Fetching(_, _, _, _) => step := Answer(t, Nothing);
    case Storing(_, _, _, _) => step := Keep(t);
    case Leaving(_, _) => step := Unlock(t);
  }

  /** Deadlock freedom: while any call is unfinished, some call can take a step. */
  lemma SomeCallCanMove(c: Config, s: State, t: nat) returns (step: Step)
    requires Inv(c, s) && t < |s.calls| && !s.calls[t].phase.Finished?
    ensures IsCallStep(step) && Enabled(c, s, step)
  {
    if s.mu.Some? {
      step := EvictorCanMove(c, s, s.mu.value);
    } else if Held(s.calls[t].phase).Some? {
      step := HolderCanMove(c, s, t);
    } else if s.calls[t].phase.Entering? {
      step := Enter(t);
    } else {
      assert PhaseOf(s, t) == s.calls[t].phase && !PhaseOf(s, t).Scanning?;
      assert CallOk(c, s, t);
      var e := s.calls[t].phase.entry;
      if s.heap[e].flight.None? {
        step := Lock(t);
      } else {
        var u := s.heap[e].flight.value;
        assert FlightIs(s, e, u);
        assert HoldsFlight(s, u, e);
        step := HolderCanMove(c, s, u);
      }
    }
  }

  /** How many more steps a call can take. */
  function Rank(c: Config, call: Call): nat {
    match call.phase
    case Entering => c.maxEntries + 8
    case Scanning(_, todo, _, _) => |todo| + 7
    case Waiting(_, _) => 6
    case Holding(_, _) => 5
    case CountingHit(_, _) => 4
    case CountingMiss(_, _, _) => 4
    case Fetching(_, _, _, _) => 3
    case Storing(_, _, _, _) => 2
    case Leaving(_, _) => 1
    case Finished => 0
  }

  function Work(c: Config, calls: seq<Call>): nat {
    if calls == [] then 0 else Work(c, calls[..|calls| - 1]) + Rank(c, calls[|calls| - 1])
  }

  lemma {:induction false} WorkUpdate(c: Config, calls: seq<Call>, t: nat, call: Call)
    requires t < |calls|
    ensures Work(c, calls[t := call]) == Work(c, calls) - Rank(c, calls[t]) + Rank(c, call)
  {
    var n := |calls| - 1;
    if t == n {
      assert calls[t := call][..n] == calls[..n];
    } else {
      assert calls[t := call][..n] == calls[..n][t := call];
      WorkUpdate(c, calls[..n], t, call);
    }
  }

  lemma EvictorLowersRank(c: Config, s: State, step: Step)
    requires c.Valid() && SizeOk(c, s) && Enabled(c, s, step) && (step.Enter? || step.Scan? || step.Settle?)
    ensures
      var s' := Apply(c, s, step);
      && step.t < |s.calls|
      && |s'.calls| == |s.calls|
      && s'.calls == s.calls[step.t := s'.calls[step.t]]
      && Rank(c, s'.calls[step.t]) < Rank(c, s.calls[step.t])
  {
    hide ValidationKey, EvictionChoice, Store, Serve, CredentialFingerprint, DropPrefix;
    assert |s.entries.Keys| == |s.entries|;
  }

  lemma HolderLowersRank(c: Config, s: State, step: Step)
    requires c.Valid() && Enabled(c, s, step) && IsCallStep(step) && !step.Enter? && !step.Scan? && !step.Settle?
    ensures
      var s' := Apply(c, s, step);
      && step.t < |s.calls|
      && |s'.calls| == |s.calls|
      && s'.calls == s.calls[step.t := s'.calls[step.t]]
      && Rank(c, s'.calls[step.t]) < Rank(c, s.calls[step.t])
  {
    hide ValidationKey, EvictionChoice, Store, Serve, CredentialFingerprint, DropPrefix, InsertFor;
  }

  lemma StepLowersRank(c: Config, s: State, step: Step)
    requires c.Valid() && SizeOk(c, s) && Enabled(c, s, step) && IsCallStep(step)
    ensures
      var s' := Apply(c, s, step);
      && step.t < |s.calls|
      && |s'.calls| == |s.calls|
      && s'.calls == s.calls[step.t := s'.calls[step.t]]
      && Rank(c, s'.calls[step.t]) < Rank(c, s.calls[step.t])
  {
    hide Apply, Rank, Enabled, SizeOk;
    if step.Enter? || step.Scan? || step.Settle? {
      EvictorLowersRank(c, s, step);
    } else {
      HolderLowersRank(c, s, step);
    }
  }

  function CallSteps(steps: seq<Step>): nat {
    if steps == [] then 0 else (if IsCallStep(steps[0]) then 1 else 0) + CallSteps(steps[1..])
  }

  function Arrivals(steps: seq<Step>): nat {
    if steps == [] then 0 else (if steps[0].Arrive? then 1 else 0) + Arrivals(steps[1..])
  }

  lemma WorkAfter(c: Config, s: State, step: Step)
    requires c.Valid() && SizeOk(c, s) && Enabled(c, s, step)
    ensures
      var before, after := Work(c, s.calls), Work(c, Apply(c, s, step).calls);
      if IsCallStep(step) then after < before
      else after == before + if step.Arrive? then c.maxEntries + 8 else 0
  {
    hide SizeOk, Enabled;
    var s' := Apply(c, s, step);
    if IsCallStep(step) {
      hide Apply, Rank;
      StepLowersRank(c, s, step);
      WorkUpdate(c, s.calls, step.t, s'.calls[step.t]);
    } else if step.Arrive? {
      assert s'.calls[..|s.calls|] == s.calls;
    }
  }

  lemma OneMore(k: nat, n: nat)
    ensures k * (1 + n) == k + k * n
  {
  }

  /** Every schedule drains: from any reachable state, a run can contain at most the
      work of the calls present plus maxEntries + 8 steps for each call that arrives
      later. With deadlock freedom: every call returns, under any scheduler, as long as
      fetches do. */
  lemma {:induction false} WorkIsBounded(c: Config, s: State, steps: seq<Step>)
    requires Inv(c, s) && IsRun(c, s, steps)
    ensures CallSteps(steps) + Work(c, Final(c, s, steps).calls) <= Work(c, s.calls) + (c.maxEntries + 8) * Arrivals(steps)
    decreases |steps|
  {
    hide EventsOk, HeapOk, MapOk, CallsOk, LocksOk, SizeOk, Enabled, Apply, Work;
    if steps != [] {
      InvStep(c, s, steps[0]);
      WorkIsBounded(c, Apply(c, s, steps[0]), steps[1..]);
      WorkAfter(c, s, steps[0]);
      OneMore(c.maxEntries + 8, Arrivals(steps[1..]));
    }
  }

  /** From any reachable state the calls can run to completion. */
  lemma {:induction false} Drains(c: Config, s: State) returns (steps: seq<Step>)
    requires Inv(c, s)
    ensures IsRun(c, s, steps) && forall i :: 0 <= i < |steps| ==> IsCallStep(steps[i])
    ensures forall t :: 0 <= t < |Final(c, s, steps).calls| ==> Final(c, s, steps).calls[t].phase.Finished?
    decreases Work(c, s.calls)
  {
    hide Enabled, Apply, Work, Rank, IsCallStep, EventsOk, HeapOk, MapOk, CallsOk, LocksOk;
    if t :| 0 <= t < |s.calls| && !s.calls[t].phase.Finished? {
      var step := SomeCallCanMove(c, s, t);
      var s' := Apply(c, s, step);
      StepLowersRank(c, s, step);
      WorkUpdate(c, s.calls, step.t, s'.calls[step.t]);
      InvStep(c, s, step);
      var rest := Drains(c, s');
      steps := [step] + rest;
      assert steps[1..] == rest;
    } else {
      steps := [];
    }
  }
}
