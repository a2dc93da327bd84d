/** What every step of the validation cache keeps. */
module ValidationInvariants {
  import opened CacheKeys
  import opened ValidationPolicy
  import opened ValidationMachine

  /** Every invalidation of `key` among the first `n` events came before position `p`. */
  ghost predicate CutsPrecede(log: seq<Event>, n: nat, key: string, p: nat) {
    forall k :: 0 <= k < n <= |log| && log[k].Cut? && log[k].prefix <= key ==> k < p
  }

  /** A returned answer is either the caller's own, or a stored one that answered the
      same key, was still within its life, and was asked for after every invalidation
      the caller can have seen. */
  ghost predicate EventOk(c: Config, log: seq<Event>, i: nat)
    requires i < |log|
  {
    match log[i]
    case Answered(_, _, _, _, began) => began < i
    case Returned(call, q, ans, hit, reading, looked, source) =>
      && looked <= i
      && source < i
      && log[source].Answered?
      && var a := log[source];
      && a.answer == ans
      && CutsPrecede(log, looked, ValidationKey(c.h, q), a.began)
      && if hit then
           && ValidationKey(c.h, a.q) == ValidationKey(c.h, q)
           && !ans.Nothing?
           && (ans.Failed? ==> DefiniteNegative(a.q, ans.err))
           && WithinLife(c, a.q, a.at, ans, reading + 1)
         else
           && a.call == call
           && a.q == q
           && looked <= a.began
           && reading <= a.at
    case _ => true
  }

  ghost predicate EventsOk(c: Config, s: State) {
    forall i :: 0 <= i < |s.log| ==> EventOk(c, s.log, i)
  }

  /** A filled entry holds an answer to its own key, asked for after it was created. */
  ghost predicate EntryOk(c: Config, s: State, e: nat)
    requires e < |s.heap|
  {
    var x := s.heap[e];
    && x.born <= |s.log|
    && (Holds(x.slot) ==>
          && x.source < |s.log|
          && s.log[x.source].Answered?
          && var a := s.log[x.source];
          && ValidationKey(c.h, a.q) == x.key
          && Backed(c, a.q, a.at, a.answer, x.slot)
          && x.born <= a.began)
  }

  ghost predicate HeapOk(c: Config, s: State) {
    forall e :: 0 <= e < |s.heap| ==> EntryOk(c, s, e)
  }

  ghost predicate MapOk(s: State) {
    forall k :: k in s.entries ==>
      && s.entries[k] < |s.heap|
      && s.heap[s.entries[k]].key == k
      && CutsPrecede(s.log, |s.log|, k, s.heap[s.entries[k]].born)
  }

  ghost predicate CallOk(c: Config, s: State, t: nat)
    requires t < |s.calls|
  {
    var call := s.calls[t];
    var p := call.phase;
    && (EntryOf(p).Some? ==>
          && p.entry < |s.heap|
          && s.heap[p.entry].key == KeyOf(c, call)
          && s.heap[p.entry].born <= p.looked <= |s.log|
          && CutsPrecede(s.log, p.looked, KeyOf(c, call), s.heap[p.entry].born))
    && (p.CountingMiss? ==> p.now <= s.clock)
    && (p.Fetching? ==> p.now <= s.clock && p.looked <= p.began < |s.log|)
    && (p.Storing? ==>
          && p.now <= s.clock
          && p.source < |s.log|
          && s.log[p.source].Answered?
          && var a := s.log[p.source];
          && a.call == t && a.q == call.q
          && p.looked <= a.began
          && p.now <= a.at)
  }

  ghost predicate CallsOk(c: Config, s: State) {
    forall t :: 0 <= t < |s.calls| ==> CallOk(c, s, t)
  }

  predicate HoldsFlight(s: State, t: nat, e: nat) {
    t < |s.calls| && Held(s.calls[t].phase) == Some(e)
  }

  predicate FlightIs(s: State, e: nat, t: nat) {
    e < |s.heap| && s.heap[e].flight == Some(t)
  }

  /** Each flight lock is held by exactly the call that is between its Lock and its
      Unlock, and the map mutex by the one call that is evicting. */
  ghost predicate LocksOk(s: State) {
    && (forall t: nat, e: nat :: HoldsFlight(s, t, e) <==> FlightIs(s, e, t))
    && (forall t: nat :: PhaseOf(s, t).Scanning? <==> s.mu == Some(t))
  }

  /** How far an eviction has sorted the entries still in the map. */
  ghost predicate Sorted(keys: set<string>, todo: set<string>, live: set<string>, inFlight: set<string>) {
    && keys == todo + live + inFlight
    && live !! inFlight
    && todo !! (live + inFlight)
  }

  /** MaxEntries is never exceeded, not even between two steps. */
  ghost predicate SizeOk(c: Config, s: State) {
    && |s.entries| <= c.maxEntries
    && (s.mu.Some? && PhaseOf(s, s.mu.value).Scanning? ==>
          var p := PhaseOf(s, s.mu.value);
          Sorted(s.entries.Keys, p.todo, p.live.Keys, p.inFlight))
  }

  ghost predicate Inv(c: Config, s: State) {
    && c.Valid()
    && EventsOk(c, s)
    && HeapOk(c, s)
    && MapOk(s)
    && CallsOk(c, s)
    && LocksOk(s)
    && SizeOk(c, s)
  }

  // ---- preservation ----

  /** History and clock only grow; an entry object keeps its key for life. */
  ghost predicate Extends(s: State, s': State) {
    && s.log <= s'.log
    && s.clock <= s'.clock
    && |s.heap| <= |s'.heap|
    && forall e :: 0 <= e < |s.heap| ==> s'.heap[e].key == s.heap[e].key && s'.heap[e].born == s.heap[e].born
  }

  lemma StepExtends(c: Config, s: State, step: Step)
    requires c.maxEntries >= 1 && Enabled(c, s, step)
    ensures Extends(s, Apply(c, s, step))
  {
    hide ValidationKey, EvictionChoice, Store, Serve, CredentialFingerprint, DropPrefix;
  }

  /** Only Lock and Unlock change who holds a flight lock ... */
  lemma HoldersStay(c: Config, s: State, step: Step, t: nat, e: nat)
    requires c.maxEntries >= 1 && Enabled(c, s, step) && !step.Lock? && !step.Unlock?
    ensures HoldsFlight(Apply(c, s, step), t, e) <==> HoldsFlight(s, t, e)
  {
    hide ValidationKey, EvictionChoice, Store, Serve, DropPrefix, CredentialFingerprint;
  }

  /** ... and whom an entry says holds its own. */
  lemma FlightsStay(c: Config, s: State, step: Step, t: nat, e: nat)
    requires c.maxEntries >= 1 && Enabled(c, s, step) && !step.Lock? && !step.Unlock?
    ensures FlightIs(Apply(c, s, step), e, t) <==> FlightIs(s, e, t)
  {
    hide ValidationKey, EvictionChoice, Store, Serve, DropPrefix, CredentialFingerprint, EntryOf;
  }

  lemma FlightStepAt(c: Config, s: State, step: Step, t: nat, e: nat)
    requires c.maxEntries >= 1 && LocksOk(s) && Enabled(c, s, step)
    ensures var s' := Apply(c, s, step); HoldsFlight(s', t, e) <==> FlightIs(s', e, t)
  {
    assert HoldsFlight(s, t, e) <==> FlightIs(s, e, t);
    if step.Lock? {
      hide ValidationKey, EvictionChoice, Store, Serve, DropPrefix, CredentialFingerprint, InsertFor;
    } else if step.Unlock? {
      hide ValidationKey, EvictionChoice, Store, Serve, DropPrefix, CredentialFingerprint, InsertFor;
      assert HoldsFlight(s, step.t, PhaseOf(s, step.t).entry);
    } else {
      hide Apply, Enabled;
      HoldersStay(c, s, step, t, e);
      FlightsStay(c, s, step, t, e);
    }
  }

  lemma MutexStepAt(c: Config, s: State, step: Step, t: nat)
    requires c.maxEntries >= 1 && LocksOk(s) && Enabled(c, s, step)
    ensures var s' := Apply(c, s, step); PhaseOf(s', t).Scanning? <==> s'.mu == Some(t)
  {
    hide ValidationKey, EvictionChoice, Store, Serve, DropPrefix, CredentialFingerprint;
    assert PhaseOf(s, t).Scanning? <==> s.mu == Some(t);
    if step.Settle? {
      assert PhaseOf(s, step.t).Scanning?;
    }
  }

  lemma MapStepAt(c: Config, s: State, step: Step, k: string)
    requires c.maxEntries >= 1 && MapOk(s) && Enabled(c, s, step)
    requires k in Apply(c, s, step).entries
    ensures
      var s' := Apply(c, s, step);
      && s'.entries[k] < |s'.heap|
      && s'.heap[s'.entries[k]].key == k
      && CutsPrecede(s'.log, |s'.log|, k, s'.heap[s'.entries[k]].born)
  {
    hide ValidationKey, EvictionChoice, Store, Serve, CredentialFingerprint, CutsPrecede;
    var s' := Apply(c, s, step);
    StepExtends(c, s, step);
    if k in s.entries && s'.entries[k] == s.entries[k] {
      LogCuts(c, s, step, k);
      CutsExtend(s.log, s'.log, k, s.heap[s.entries[k]].born);
    } else {
      NoLaterCuts(s'.log, k);
    }
  }

  lemma NoLaterCuts(log: seq<Event>, k: string)
    ensures CutsPrecede(log, |log|, k, |log|)
  {
  }

  lemma CutsExtend(log: seq<Event>, log': seq<Event>, k: string, born: nat)
    requires log <= log' && CutsPrecede(log, |log|, k, born)
    requires forall i :: |log| <= i < |log'| && log'[i].Cut? ==> !(log'[i].prefix <= k)
    ensures CutsPrecede(log', |log'|, k, born)
  {
  }

  /** What survives an invalidation in the map was not meant by it. */
  lemma LogCuts(c: Config, s: State, step: Step, k: string)
    requires c.maxEntries >= 1 && Enabled(c, s, step) && k in Apply(c, s, step).entries
    ensures
      var log, log' := s.log, Apply(c, s, step).log;
      forall i :: |log| <= i < |log'| && log'[i].Cut? ==> !(log'[i].prefix <= k)
  {
    hide ValidationKey, EvictionChoice, Store, Serve, CredentialFingerprint;
  }

  lemma CallOkExtends(c: Config, s: State, s': State, t: nat)
    requires Extends(s, s')
    requires t < |s.calls| && t < |s'.calls| && s'.calls[t] == s.calls[t]
    requires CallOk(c, s, t)
    ensures CallOk(c, s', t)
  {
  }

  /** A call that looks up its entry gets one that outlived every earlier invalidation. */
  lemma LookupStep(c: Config, s: State, step: Step)
    requires c.maxEntries >= 1 && MapOk(s) && HeapOk(c, s) && Enabled(c, s, step)
    requires step.Enter? || step.Settle?
    ensures CallOk(c, Apply(c, s, step), step.t)
  {
    hide ValidationKey, EvictionChoice, Store, Serve, CredentialFingerprint;
    StepExtends(c, s, step);
    var key := KeyOf(c, s.calls[step.t]);
    if step.Enter? && key in s.entries {
      assert EntryOk(c, s, s.entries[key]);
    }
  }

  lemma ProgressStep(c: Config, s: State, step: Step, t: nat)
    requires c.maxEntries >= 1 && Enabled(c, s, step)
    requires step == Lock(t) || step == Read(t) || step == CountHit(t) || step == CountMiss(t) || step == Unlock(t)
             || (step.Answer? && step.t == t) || step == Keep(t) || (step.Scan? && step.t == t)
    requires CallOk(c, s, t)
    ensures CallOk(c, Apply(c, s, step), t)
  {
    hide ValidationKey, EvictionChoice, Store, Serve, CredentialFingerprint, DropPrefix;
  }

  /** A step moves at most its own call. */
  lemma OthersStay(c: Config, s: State, step: Step, t: nat)
    requires c.maxEntries >= 1 && Enabled(c, s, step) && t < |s.calls|
    requires step.Tick? || step.Arrive? || step.Invalidate? || step.Reset? || step.t != t
    ensures t < |Apply(c, s, step).calls| && Apply(c, s, step).calls[t] == s.calls[t]
  {
    hide ValidationKey, EvictionChoice, Store, Serve, CredentialFingerprint, DropPrefix;
  }

  lemma NewCallOk(c: Config, s: State, step: Step)
    requires c.maxEntries >= 1 && Enabled(c, s, step) && |s.calls| < |Apply(c, s, step).calls|
    ensures |Apply(c, s, step).calls| == |s.calls| + 1 && CallOk(c, Apply(c, s, step), |s.calls|)
  {
    hide ValidationKey, EvictionChoice, Store, Serve, CredentialFingerprint, DropPrefix;
  }

  lemma CallStepAt(c: Config, s: State, step: Step, t: nat)
    requires c.maxEntries >= 1 && MapOk(s) && HeapOk(c, s) && CallsOk(c, s) && Enabled(c, s, step)
    requires t < |Apply(c, s, step).calls|
    ensures CallOk(c, Apply(c, s, step), t)
  {
    hide Apply, Enabled, CallOk, Extends, MapOk, HeapOk;
    StepExtends(c, s, step);
    if t >= |s.calls| {
      NewCallOk(c, s, step);
    } else if step.Tick? || step.Arrive? || step.Invalidate? || step.Reset? || step.t != t {
      OthersStay(c, s, step, t);
      CallOkExtends(c, s, Apply(c, s, step), t);
    } else if step.Enter? || step.Settle? {
      LookupStep(c, s, step);
    } else {
      ProgressStep(c, s, step, t);
    }
  }

  lemma EntryOkExtends(c: Config, s: State, s': State, e: nat)
    requires Extends(s, s') && e < |s.heap|
    requires s'.heap[e].slot == s.heap[e].slot && s'.heap[e].source == s.heap[e].source
    requires EntryOk(c, s, e)
    ensures EntryOk(c, s', e)
  {
    hide ValidationKey, Backed;
  }

  lemma SlotsStay(c: Config, s: State, step: Step, e: nat)
    requires c.maxEntries >= 1 && Enabled(c, s, step) && e < |s.heap|
    requires !step.Keep? || PhaseOf(s, step.t).entry != e
    ensures
      var s' := Apply(c, s, step);
      e < |s'.heap| && s'.heap[e].slot == s.heap[e].slot && s'.heap[e].source == s.heap[e].source
  {
    hide ValidationKey, EvictionChoice, Store, Serve, CredentialFingerprint, DropPrefix;
  }

  lemma NewEntryOk(c: Config, s: State, step: Step)
    requires c.maxEntries >= 1 && Enabled(c, s, step) && |s.heap| < |Apply(c, s, step).heap|
    ensures |Apply(c, s, step).heap| == |s.heap| + 1 && EntryOk(c, Apply(c, s, step), |s.heap|)
  {
    hide ValidationKey, EvictionChoice, Store, Serve, CredentialFingerprint, DropPrefix, Backed, Expired;
  }

  /** The entry a call stores into holds the call's own answer, or what it held. */
  lemma KeptEntryOk(c: Config, s: State, t: nat)
    requires c.maxEntries >= 1 && HeapOk(c, s) && CallsOk(c, s) && Enabled(c, s, Keep(t))
    ensures EntryOk(c, Apply(c, s, Keep(t)), PhaseOf(s, t).entry)
  {
    hide ValidationKey, Store, Backed;
    assert CallOk(c, s, t);
    var p := s.calls[t].phase;
    var a := s.log[p.source];
    assert EntryOk(c, s, p.entry);
    StoreIsBacked(c, a.q, p.now, a.at, a.answer, s.heap[p.entry].slot);
  }

  lemma EntryStepAt(c: Config, s: State, step: Step, e: nat)
    requires c.maxEntries >= 1 && HeapOk(c, s) && CallsOk(c, s) && Enabled(c, s, step)
    requires e < |Apply(c, s, step).heap|
    ensures EntryOk(c, Apply(c, s, step), e)
  {
    hide Apply, EntryOk, Extends, CallsOk, EvictionChoice, ValidationKey;
    StepExtends(c, s, step);
    if e >= |s.heap| {
      NewEntryOk(c, s, step);
    } else if step.Keep? && PhaseOf(s, step.t).entry == e {
      KeptEntryOk(c, s, step.t);
    } else {
      SlotsStay(c, s, step, e);
      EntryOkExtends(c, s, Apply(c, s, step), e);
    }
  }

  lemma EventOkExtends(c: Config, log: seq<Event>, log': seq<Event>, i: nat)
    requires i < |log| && log <= log' && EventOk(c, log, i)
    ensures EventOk(c, log', i)
  {
  }

  lemma HitEvent(c: Config, s: State, t: nat)
    requires c.maxEntries >= 1 && HeapOk(c, s) && CallsOk(c, s) && Enabled(c, s, Read(t))
    requires |Apply(c, s, Read(t)).log| > |s.log|
    ensures EventOk(c, Apply(c, s, Read(t)).log, |s.log|)
  {
    assert CallOk(c, s, t);
    var call := s.calls[t];
    assert EntryOk(c, s, call.phase.entry);
    var x := s.heap[call.phase.entry];
    var a := s.log[x.source];
    ServeIsWithinLife(c, a.q, a.at, a.answer, x.slot, call.bypass, s.clock);
    assert CutsPrecede(s.log, call.phase.looked, KeyOf(c, call), a.began);
  }

  lemma EventStepAt(c: Config, s: State, step: Step, i: nat)
    requires c.maxEntries >= 1 && EventsOk(c, s) && HeapOk(c, s) && CallsOk(c, s) && Enabled(c, s, step)
    requires i < |Apply(c, s, step).log|
    ensures EventOk(c, Apply(c, s, step).log, i)
  {
    StepExtends(c, s, step);
    if i < |s.log| {
      EventOkExtends(c, s.log, Apply(c, s, step).log, i);
    } else if step.Read? {
      HitEvent(c, s, step.t);
    } else if step.Keep? || step.Answer? {
      assert CallOk(c, s, step.t);
    }
  }

  lemma DropSize<T, U>(m: map<T, U>, gone: set<T>)
    requires gone <= m.Keys
    ensures |m - gone| == |m| - |gone|
  {
    assert (m - gone).Keys == m.Keys - gone;
    assert |m| == |m.Keys| && |m - gone| == |(m - gone).Keys|;
  }

  lemma SubmapSize<T, U>(m: map<T, U>, m': map<T, U>)
    requires m'.Keys <= m.Keys
    ensures |m'| <= |m|
  {
    assert m'.Keys + (m.Keys - m'.Keys) == m.Keys;
    assert |m| == |m.Keys| && |m'| == |m'.Keys|;
  }

  lemma InsertSize<T, U>(m: map<T, U>, k: T, v: U)
    ensures |m[k := v]| <= |m| + 1
  {
    assert m[k := v].Keys == m.Keys + {k};
    assert |m| == |m.Keys| && |m[k := v]| == |m[k := v].Keys|;
  }

  /** Room is made before every insert, so the bound survives it. */
  lemma SettleSize(c: Config, s: State, t: nat, victims: set<string>)
    requires c.maxEntries >= 1 && SizeOk(c, s) && LocksOk(s) && Enabled(c, s, Settle(t, victims))
    ensures SizeOk(c, Apply(c, s, Settle(t, victims)))
  {
    var p := PhaseOf(s, t);
    assert s.mu == Some(t);
    assert victims <= s.entries.Keys;
    DropSize(s.entries, victims);
    InsertSize(s.entries - victims, KeyOf(c, s.calls[t]), |s.heap|);
  }

  lemma SortOne(keys: set<string>, todo: set<string>, live: set<string>, inFlight: set<string>, key: string)
    requires Sorted(keys, todo, live, inFlight) && key in todo
    ensures Sorted(keys, todo - {key}, live + {key}, inFlight)
    ensures Sorted(keys, todo - {key}, live, inFlight + {key})
    ensures Sorted(keys - {key}, todo - {key}, live, inFlight)
  {
  }

  /** What Scan does, with the set algebra kept out of sight. */
  lemma ScanEffect(c: Config, s: State, t: nat, key: string)
    requires c.maxEntries >= 1 && Enabled(c, s, Scan(t, key))
    ensures
      var s', p, e := Apply(c, s, Scan(t, key)), PhaseOf(s, t), s.heap[s.entries[key]];
      var p' := PhaseOf(s', t);
      && s'.mu == s.mu && p'.Scanning? && p'.todo == p.todo - {key}
      && (if e.flight.Some? then s'.entries == s.entries && p'.live == p.live && p'.inFlight == p.inFlight + {key}
          else if Expired(e.slot, p.now) then s'.entries == s.entries - {key} && p'.live == p.live && p'.inFlight == p.inFlight
          else s'.entries == s.entries && p'.live == p.live[key := e.slot.expires] && p'.inFlight == p.inFlight)
  {
  }

  lemma KeysAfter<U>(m: map<string, U>, key: string, v: U)
    ensures m[key := v].Keys == m.Keys + {key}
    ensures (m - {key}).Keys == m.Keys - {key}
    ensures |m - {key}| <= |m|
  {
    assert (m - {key}).Keys == m.Keys - {key};
    SubmapSize(m, m - {key});
  }

  lemma ScanSize(c: Config, s: State, t: nat, key: string)
    requires c.maxEntries >= 1 && SizeOk(c, s) && s.mu == Some(t) && Enabled(c, s, Scan(t, key))
    ensures SizeOk(c, Apply(c, s, Scan(t, key)))
  {
    var p, e := PhaseOf(s, t), s.heap[s.entries[key]];
    ScanEffect(c, s, t, key);
    SortOne(s.entries.Keys, p.todo, p.live.Keys, p.inFlight, key);
    KeysAfter(p.live, key, e.slot.expires);
    KeysAfter(s.entries, key, 0);
  }

  lemma EnterSize(c: Config, s: State, t: nat)
    requires c.maxEntries >= 1 && SizeOk(c, s) && LocksOk(s) && Enabled(c, s, Enter(t))
    ensures SizeOk(c, Apply(c, s, Enter(t)))
  {
    hide ValidationKey;
    assert s.entries - {} == s.entries;
    InsertSize(s.entries - {}, KeyOf(c, s.calls[t]), |s.heap|);
  }

  lemma QuietSize(c: Config, s: State, step: Step)
    requires c.maxEntries >= 1 && SizeOk(c, s) && LocksOk(s) && Enabled(c, s, step)
    requires !step.Scan? && !step.Settle? && !step.Enter? && !step.Invalidate? && !step.Reset?
    ensures SizeOk(c, Apply(c, s, step))
  {
    hide ValidationKey, EvictionChoice, Store, Serve, CredentialFingerprint, DropPrefix, Sorted;
    var s' := Apply(c, s, step);
    assert s'.entries == s.entries && s'.mu == s.mu;
    if s.mu.Some? {
      assert PhaseOf(s, s.mu.value).Scanning?;
      assert PhaseOf(s', s.mu.value) == PhaseOf(s, s.mu.value);
    }
  }

  lemma SizeStep(c: Config, s: State, step: Step)
    requires c.maxEntries >= 1 && SizeOk(c, s) && LocksOk(s) && Enabled(c, s, step)
    ensures SizeOk(c, Apply(c, s, step))
  {
    match step
    case Scan(t, key) =>
      assert PhaseOf(s, t).Scanning?;
      ScanSize(c, s, t, key);
    case Settle(t, victims) => SettleSize(c, s, t, victims);
    case Enter(t) => EnterSize(c, s, t);
    case Invalidate(cred) =>
      SubmapSize(s.entries, DropPrefix(s.entries, CredentialFingerprint(c.h, cred)));
    case Reset =>
    case _ => QuietSize(c, s, step);
  }

  lemma InvInit(c: Config, s: State)
    requires c.Valid() && Init(s)
    ensures Inv(c, s)
  {
  }

  lemma InvStep(c: Config, s: State, step: Step)
    requires Inv(c, s) && Enabled(c, s, step)
    ensures Inv(c, Apply(c, s, step))
  {
    var s' := Apply(c, s, step);
    forall t: nat, e: nat
      ensures HoldsFlight(s', t, e) <==> FlightIs(s', e, t)
    {
      FlightStepAt(c, s, step, t, e);
    }
    forall t: nat
      ensures PhaseOf(s', t).Scanning? <==> s'.mu == Some(t)
    {
      MutexStepAt(c, s, step, t);
    }
    forall k | k in s'.entries
      ensures
        && s'.entries[k] < |s'.heap|
        && s'.heap[s'.entries[k]].key == k
        && CutsPrecede(s'.log, |s'.log|, k, s'.heap[s'.entries[k]].born)
    {
      MapStepAt(c, s, step, k);
    }
    forall t | 0 <= t < |s'.calls| ensures CallOk(c, s', t) { CallStepAt(c, s, step, t); }
    forall e | 0 <= e < |s'.heap| ensures EntryOk(c, s', e) { EntryStepAt(c, s, step, e); }
    forall i | 0 <= i < |s'.log| ensures EventOk(c, s'.log, i) { EventStepAt(c, s, step, i); }
    SizeStep(c, s, step);
  }

  /** Every state of every run satisfies the invariant. */
  lemma {:induction false} InvRun(c: Config, s: State, steps: seq<Step>)
    requires Inv(c, s) && IsRun(c, s, steps)
    ensures Inv(c, Final(c, s, steps))
    decreases |steps|
  {
    if steps != [] {
      InvStep(c, s, steps[0]);
      InvRun(c, Apply(c, s, steps[0]), steps[1..]);
    }
  }
}
