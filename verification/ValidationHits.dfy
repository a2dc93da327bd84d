/** What the validation cache is for: what one call stores is served to later ones, for as
    long as it may be, and Stats counts it. */
module ValidationHits {
  import opened CacheKeys
  import opened ValidationPolicy
  import opened ValidationMachine
  import opened ValidationInvariants
  import opened ValidationTheorems

  /** No call writes entry `e` during the run. */
  ghost predicate NobodyStores(c: Config, s: State, steps: seq<Step>, e: nat)
    requires c.maxEntries >= 1 && IsRun(c, s, steps)
    decreases |steps|
  {
    steps == []
    || (&& (steps[0].Keep? ==> PhaseOf(s, steps[0].t).entry != e)
        && NobodyStores(c, Apply(c, s, steps[0]), steps[1..], e))
  }

  lemma ClockStays(c: Config, s: State, step: Step)
    requires c.maxEntries >= 1 && Enabled(c, s, step)
    ensures s.clock <= Apply(c, s, step).clock
  {
    hide ValidationKey, EvictionChoice, Store, Serve, CredentialFingerprint, DropPrefix;
  }

  lemma {:induction false} SlotStaysOver(c: Config, s: State, steps: seq<Step>, e: nat)
    requires c.maxEntries >= 1 && IsRun(c, s, steps) && e < |s.heap| && NobodyStores(c, s, steps, e)
    ensures
      var s' := Final(c, s, steps);
      e < |s'.heap| && s'.heap[e].slot == s.heap[e].slot && s.clock <= s'.clock
    decreases |steps|
  {
    hide Apply, Enabled;
    if steps != [] {
      SlotsStay(c, s, steps[0], e);
      ClockStays(c, s, steps[0]);
      SlotStaysOver(c, Apply(c, s, steps[0]), steps[1..], e);
    }
  }

  /** A call that finds an entry in the map and nobody at it looks there and is served what
      the entry's slot allows. */
  lemma FindsEntry(c: Config, s: State, u: nat)
    requires c.maxEntries >= 1 && PhaseOf(s, u).Entering? && s.mu.None?
    requires
      var key := KeyOf(c, s.calls[u]);
      key in s.entries && s.entries[key] < |s.heap| && s.heap[s.entries[key]].flight.None?
    ensures
      var steps := [Enter(u), Lock(u), Read(u)];
      var e := s.heap[s.entries[KeyOf(c, s.calls[u])]];
      && IsRun(c, s, steps)
      && var s' := Final(c, s, steps);
         match Serve(e.slot, s.calls[u].bypass, s.clock)
         case Some(ans) =>
           s'.log == s.log + [Returned(u, s.calls[u].q, ans, true, s.clock, |s.log|, e.source)]
         case None => s'.log == s.log && PhaseOf(s', u).CountingMiss?
  {
    hide ValidationKey, EvictionChoice, Store, Serve, DropPrefix;
    var s1 := Apply(c, s, Enter(u));
    var s2 := Apply(c, s1, Lock(u));
    var s3 := Apply(c, s2, Read(u));
    assert [Enter(u), Lock(u), Read(u)][1..] == [Lock(u), Read(u)] && [Lock(u), Read(u)][1..] == [Read(u)];
    assert [Read(u)][1..] == [];
    assert IsRun(c, s2, [Read(u)]) && Final(c, s2, [Read(u)]) == s3;
    assert IsRun(c, s1, [Lock(u), Read(u)]) && Final(c, s1, [Lock(u), Read(u)]) == s3;
  }

  /** What was fetched is served. After a call has stored an answer, over any run in which
      nobody stores another in that entry, a call that finds the entry in the map is given
      this answer, exactly as long as its TTL, the token's own exp and the reported expiry
      allow, and unless it was made with WithFreshValidation. */
  lemma KeptThenServed(c: Config, s: State, t: nat, steps: seq<Step>, u: nat, a: Actor)
    requires Inv(c, s) && Enabled(c, s, Keep(t)) && s.log[PhaseOf(s, t).source].answer == Said(a)
    requires
      var s1 := Apply(c, s, Keep(t));
      IsRun(c, s1, steps) && NobodyStores(c, s1, steps, PhaseOf(s, t).entry)
    requires
      var s2, e := Final(c, Apply(c, s, Keep(t)), steps), PhaseOf(s, t).entry;
      && PhaseOf(s2, u).Entering? && s2.mu.None?
      && e < |s2.heap| && s2.heap[e].flight.None?
      && KeyOf(c, s2.calls[u]) in s2.entries && s2.entries[KeyOf(c, s2.calls[u])] == e
    ensures
      var s2 := Final(c, Apply(c, s, Keep(t)), steps);
      var q, now := s.calls[t].q, PhaseOf(s, t).now;
      IsRun(c, s2, [Enter(u), Lock(u), Read(u)])
      && var s3 := Final(c, s2, [Enter(u), Lock(u), Read(u)]);
         var hit := |s3.log| > |s2.log|;
         && (hit <==>
               && !s2.calls[u].bypass
               && s2.clock < now + (if a.valid then TTLOf(c, q).pos else TTLOf(c, q).neg)
               && (a.valid ==>
                     && (q.kind != ValidateAPIKey && c.jwtExpiry(q.cred) != ZERO_TIME ==> s2.clock < c.jwtExpiry(q.cred))
                     && (c.parseExpiry(a.expiresAt).Some? ==> s2.clock < c.parseExpiry(a.expiresAt).value)))
         && (hit ==>
               var r := s3.log[|s2.log|];
               r.Returned? && r.call == u && r.hit && r.q == s2.calls[u].q && r.answer == Said(a) && r.reading == s2.clock)
         && (!hit ==> s3.log == s2.log && PhaseOf(s3, u).CountingMiss?)
  {
    var e, now := PhaseOf(s, t).entry, PhaseOf(s, t).now;
    hide ValidationKey, EvictionChoice, Store, DropPrefix, Apply, Enabled, IsRun, Final;
    var s1 := Apply(c, s, Keep(t));
    Stored(c, s, t);
    SlotStaysOver(c, s1, steps, e);
    var s2 := Final(c, s1, steps);
    FindsEntry(c, s2, u);
    ServedExactlyUntil(c, s.calls[t].q, now, Said(a), s.heap[e].slot, s2.clock);
  }

  lemma Stored(c: Config, s: State, t: nat)
    requires Inv(c, s) && Enabled(c, s, Keep(t))
    ensures
      var s', e, p := Apply(c, s, Keep(t)), PhaseOf(s, t).entry, PhaseOf(s, t);
      && c.Valid() && e < |s.heap| && e < |s'.heap| && p.source < |s.log| && s.log[p.source].Answered?
      && s'.heap[e].slot == Store(c, s.calls[t].q, p.now, s.log[p.source].answer, s.heap[e].slot)
      && p.now <= s'.clock
  {
    hide ValidationKey, EvictionChoice, Store, DropPrefix;
    assert CallOk(c, s, t);
  }

  // ---- Stats ----

  function One(b: bool): nat {
    if b then 1 else 0
  }

  /** Hits given out so far. */
  function HitReturns(log: seq<Event>): nat {
    if log == [] then 0
    else HitReturns(log[..|log| - 1]) + One(log[|log| - 1].Returned? && log[|log| - 1].hit)
  }

  function Count(calls: seq<Call>, p: Phase -> bool): nat {
    if calls == [] then 0 else Count(calls[..|calls| - 1], p) + One(p(calls[|calls| - 1].phase))
  }

  predicate IsCounting(p: Phase) {
    p.CountingHit?
  }

  /** Past the point where a call is counted. */
  predicate IsCounted(p: Phase) {
    p.Fetching? || p.Storing? || p.Leaving? || p.Finished?
  }

  lemma {:induction false} CountUpdate(calls: seq<Call>, t: nat, call: Call, p: Phase -> bool)
    requires t < |calls|
    ensures Count(calls[t := call], p) == Count(calls, p) - One(p(calls[t].phase)) + One(p(call.phase))
  {
    var n := |calls| - 1;
    if t == n {
      assert calls[t := call][..n] == calls[..n];
    } else {
      assert calls[t := call][..n] == calls[..n][t := call];
      CountUpdate(calls[..n], t, call, p);
    }
  }

  /** Everything given out is counted, or its call is about to. */
  ghost predicate StatsOk(s: State) {
    && s.hits + Count(s.calls, IsCounting) == HitReturns(s.log)
    && s.hits + s.misses == Count(s.calls, IsCounted)
  }

  lemma LastEvent(log: seq<Event>, e: Event)
    ensures HitReturns(log + [e]) == HitReturns(log) + One(e.Returned? && e.hit)
  {
    assert (log + [e])[..|log|] == log;
  }

  /** A step of call `t` from phase `p` to `p'`: what it counts. */
  ghost predicate Counts(s: State, s': State, t: nat) {
    && t < |s.calls| == |s'.calls| && s'.calls == s.calls[t := s'.calls[t]]
    && var p, p' := s.calls[t].phase, s'.calls[t].phase;
       && s'.hits + s'.misses == s.hits + s.misses + One(IsCounted(p')) - One(IsCounted(p))
       && HitReturns(s'.log) == HitReturns(s.log) + (s'.hits - s.hits) + One(IsCounting(p')) - One(IsCounting(p))
  }

  lemma SilentStepCounts(c: Config, s: State, step: Step)
    requires c.maxEntries >= 1 && Enabled(c, s, step) && IsCallStep(step)
    requires !step.Read? && !step.CountMiss? && !step.Answer? && !step.Keep?
    ensures Counts(s, Apply(c, s, step), step.t)
  {
    hide ValidationKey, EvictionChoice, Store, Serve, CredentialFingerprint, DropPrefix, HitReturns;
  }

  lemma LoggedStepCounts(c: Config, s: State, step: Step)
    requires c.maxEntries >= 1 && Enabled(c, s, step)
    requires step.Read? || step.CountMiss? || step.Answer? || step.Keep?
    ensures Counts(s, Apply(c, s, step), step.t)
  {
    hide ValidationKey, EvictionChoice, Store, Serve, CredentialFingerprint, DropPrefix, HitReturns;
    var s' := Apply(c, s, step);
    if |s'.log| > |s.log| {
      LastEvent(s.log, s'.log[|s.log|]);
    }
  }

  lemma OtherStepCounts(c: Config, s: State, step: Step)
    requires c.maxEntries >= 1 && Enabled(c, s, step) && !IsCallStep(step)
    ensures
      var s' := Apply(c, s, step);
      && s'.hits == s.hits && s'.misses == s.misses
      && (s'.calls == s.calls
          || exists q, bypass :: s'.calls == s.calls + [Call(q, bypass, Entering)])
      && HitReturns(s'.log) == HitReturns(s.log)
  {
    hide ValidationKey, CredentialFingerprint, DropPrefix, HitReturns;
    var s' := Apply(c, s, step);
    if step.Arrive? {
      assert s'.calls == s.calls + [Call(step.q, step.bypass, Entering)];
    } else if |s'.log| > |s.log| {
      LastEvent(s.log, s'.log[|s.log|]);
    }
  }

  lemma CountNew(calls: seq<Call>, call: Call, p: Phase -> bool)
    ensures Count(calls + [call], p) == Count(calls, p) + One(p(call.phase))
  {
    assert (calls + [call])[..|calls|] == calls;
  }

  lemma CallKeepsStats(s: State, s': State, t: nat)
    requires Counts(s, s', t) && StatsOk(s)
    ensures StatsOk(s')
  {
    hide HitReturns, Count, IsCounting, IsCounted;
    CountUpdate(s.calls, t, s'.calls[t], IsCounting);
    CountUpdate(s.calls, t, s'.calls[t], IsCounted);
  }

  lemma StatsStep(c: Config, s: State, step: Step)
    requires c.maxEntries >= 1 && Enabled(c, s, step) && StatsOk(s)
    ensures StatsOk(Apply(c, s, step))
  {
    hide Apply, Enabled, Counts, StatsOk;
    if !IsCallStep(step) {
      OtherKeepsStats(c, s, step);
    } else {
      if step.Read? || step.CountMiss? || step.Answer? || step.Keep? {
        LoggedStepCounts(c, s, step);
      } else {
        SilentStepCounts(c, s, step);
      }
      CallKeepsStats(s, Apply(c, s, step), step.t);
    }
  }

  lemma OtherKeepsStats(c: Config, s: State, step: Step)
    requires c.maxEntries >= 1 && Enabled(c, s, step) && !IsCallStep(step) && StatsOk(s)
    ensures StatsOk(Apply(c, s, step))
  {
    hide Apply, Enabled, HitReturns, Count;
    var s' := Apply(c, s, step);
    OtherStepCounts(c, s, step);
    if s'.calls != s.calls {
      CountNew(s.calls, s'.calls[|s.calls|], IsCounting);
      CountNew(s.calls, s'.calls[|s.calls|], IsCounted);
    }
  }

  lemma {:induction false} StatsRun(c: Config, s: State, steps: seq<Step>)
    requires c.maxEntries >= 1 && IsRun(c, s, steps) && StatsOk(s)
    ensures StatsOk(Final(c, s, steps))
    decreases |steps|
  {
    hide Apply, Enabled, StatsOk;
    if steps != [] {
      StatsStep(c, s, steps[0]);
      StatsRun(c, Apply(c, s, steps[0]), steps[1..]);
    }
  }

  lemma {:induction false} CountAll(calls: seq<Call>)
    requires forall t :: 0 <= t < |calls| ==> calls[t].phase.Finished?
    ensures Count(calls, IsCounted) == |calls| && Count(calls, IsCounting) == 0
  {
    if calls != [] {
      CountAll(calls[..|calls| - 1]);
    }
  }

  /** Stats is exact over any interleaving: never more hits than answers served from the
      cache, and once all calls have ended just as many, every other call being a miss. */
  lemma StatsAreExact(c: Config, s0: State, steps: seq<Step>)
    requires c.Valid() && Init(s0) && IsRun(c, s0, steps)
    ensures
      var s := Final(c, s0, steps);
      && s.hits <= HitReturns(s.log)
      && s.hits + s.misses <= |s.calls|
      && ((forall t :: 0 <= t < |s.calls| ==> s.calls[t].phase.Finished?) ==>
            s.hits == HitReturns(s.log) && s.misses == |s.calls| - HitReturns(s.log))
  {
    StatsRun(c, s0, steps);
    var s := Final(c, s0, steps);
    CountIsSmall(s.calls, IsCounted);
    if forall t :: 0 <= t < |s.calls| ==> s.calls[t].phase.Finished? {
      CountAll(s.calls);
    }
  }

  lemma {:induction false} CountIsSmall(calls: seq<Call>, p: Phase -> bool)
    ensures Count(calls, p) <= |calls|
  {
    if calls != [] {
      CountIsSmall(calls[..|calls| - 1], p);
    }
  }
}
