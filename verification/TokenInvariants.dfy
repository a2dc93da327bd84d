/** What every step of the TokenFor cache keeps. */
module TokenInvariants {
  import opened CacheKeys
  import opened ValidationPolicy
  import opened TokenKeys
  import opened TokenMachine

  ghost predicate NoRepeats(order: seq<string>) {
    forall i, j :: 0 <= i < j < |order| ==> order[i] != order[j]
  }

  /** An abstract LRU: the list holds exactly `keys`, each once, most recent use first. */
  ghost predicate Lru(order: seq<string>, keys: set<string>, used: map<string, nat>, uses: nat) {
    && NoRepeats(order)
    && (forall k :: k in order <==> k in keys)
    && (forall k :: k in used ==> used[k] < uses)
    && ByRecency(order, used)
  }

  ghost predicate ByRecency(order: seq<string>, used: map<string, nat>) {
    && (forall i :: 0 <= i < |order| ==> order[i] in used)
    && (forall i, j :: 0 <= i < j < |order| ==> used[order[j]] < used[order[i]])
  }

  /** Map and list agree, no key is both cached and in flight, and the bound holds. */
  ghost predicate CacheOk(max: nat, s: State) {
    && StoreOk(max, s.store)
    && s.store.items.Keys !! s.inflight.Keys
  }

  ghost predicate StoreOk(max: nat, st: Store) {
    && Lru(st.order, st.items.Keys, st.used, st.uses)
    && |st.order| <= max
  }

  /** A cached token stays inside every limit it was stored under. */
  ghost predicate ItemOk(c: Client, k: string, item: Item) {
    && Key(c, item.req) == k
    && item.freshUntil <= item.tok.expiresAt - REFRESH_MARGIN
    && (CapAt(c, item.req) != ZERO_TIME ==> item.freshUntil <= CapAt(c, item.req))
  }

  ghost predicate ItemsOk(c: Client, s: State) {
    forall k :: k in s.store.items ==> ItemOk(c, k, s.store.items[k])
  }

  ghost predicate HitsOk(c: Client, s: State) {
    forall i :: 0 <= i < |s.hits| ==>
      && s.hits[i].call < |s.calls|
      && ItemOk(c, CallKey(c, s.calls[s.hits[i].call]), s.hits[i].item)
      && s.hits[i].now < s.hits[i].item.freshUntil
  }

  predicate LeadsFlight(s: State, t: nat, f: nat) {
    t < |s.calls| && Leads(s.calls[t].phase) == Some(f)
  }

  /** The flight table lists exactly the flights being led, one per key. */
  ghost predicate InflightOk(c: Client, s: State) {
    && (forall k :: k in s.inflight ==>
          && s.inflight[k] < |s.flights|
          && s.flights[s.inflight[k]].key == k
          && LeadsFlight(s, s.flights[s.inflight[k]].leader, s.inflight[k]))
    && (forall t: nat, f: nat :: LeadsFlight(s, t, f) ==>
          && CallKey(c, s.calls[t]) in s.inflight
          && s.inflight[CallKey(c, s.calls[t])] == f
          && f < |s.flights|
          && s.flights[f].leader == t
          && s.flights[f].outcome.None?)
  }

  /** An error says some context ended only to callers of that very context. */
  predicate OwnCause(s: State, ctx: nat, out: Outcome) {
    out.Error? && out.cause.ContextEnded? ==> out.cause.ctx == ctx && ctx in s.cancelled
  }

  /** Only a flight marked leaderCancelled can carry an error of its leader's context. */
  ghost predicate FlightOk(s: State, f: nat)
    requires f < |s.flights|
  {
    var x := s.flights[f];
    && x.leader < |s.calls|
    && (x.done ==> x.outcome.Some? && s.calls[x.leader].phase.Done?)
    && (x.outcome.Some? && x.outcome.value.Error? && x.outcome.value.cause.ContextEnded? ==> x.leaderCancelled)
    && (x.leaderCancelled ==> s.calls[x.leader].ctx in s.cancelled && x.outcome.Some? && x.outcome.value.Error?)
    && (x.outcome.None? ==> LeadsFlight(s, x.leader, f))
    && (x.outcome.Some? && !x.done ==> s.calls[x.leader].phase == Closing(f, x.outcome.value))
  }

  ghost predicate FlightsOk(s: State) {
    forall f :: 0 <= f < |s.flights| ==> FlightOk(s, f)
  }

  ghost predicate CallOk(c: Client, s: State, t: nat)
    requires t < |s.calls|
  {
    var call := s.calls[t];
    && (match call.phase
        case Looping => true
        case Joined(f) =>
          && f < |s.flights| && s.flights[f].key == CallKey(c, call) && s.flights[f].leader != t
          && f !in call.retried
        case Nesting(f) => call.req.Exchange?
        case Nested(f, child) =>
          && call.req.Exchange?
          && t < child < |s.calls|
          && s.calls[child].ctx == call.ctx && s.calls[child].req.ActorToken?
        case Leading(f) => true
        case Returned(f, out) => OwnCause(s, call.ctx, out)
        case Closing(f, out) =>
          && f < |s.flights| && s.flights[f].leader == t && s.flights[f].outcome == Some(out) && !s.flights[f].done
          && OwnCause(s, call.ctx, out)
        case Done(out) => OwnCause(s, call.ctx, out))
    && (forall i :: 0 <= i < |call.retried| ==>
          && call.retried[i] < |s.flights|
          && s.flights[call.retried[i]].done
          && s.flights[call.retried[i]].leaderCancelled
          && s.flights[call.retried[i]].leader != t
          && s.flights[call.retried[i]].key == CallKey(c, call))
    && (forall i, j :: 0 <= i < j < |call.retried| ==> call.retried[i] != call.retried[j])
  }

  ghost predicate CallsOk(c: Client, s: State) {
    forall t :: 0 <= t < |s.calls| ==> CallOk(c, s, t)
  }

  ghost predicate Inv(c: Client, max: nat, s: State) {
    && CacheOk(max, s)
    && ItemsOk(c, s) && HitsOk(c, s)
    && InflightOk(c, s) && FlightsOk(s) && CallsOk(c, s)
  }

  // ---- the recency list ----

  lemma {:induction false} WithoutKey(order: seq<string>, key: string)
    requires NoRepeats(order)
    ensures NoRepeats(Without(order, key))
    ensures forall k :: k in Without(order, key) <==> k in order && k != key
    ensures |Without(order, key)| == |order| - (if key in order then 1 else 0)
    ensures key !in order ==> Without(order, key) == order
  {
    if order != [] {
      var tail := Without(order[1..], key);
      WithoutKey(order[1..], key);
      assert order == [order[0]] + order[1..];
      assert order[0] !in order[1..];
      if order[0] != key {
        assert order[0] !in tail;
      }
    }
  }

  lemma {:induction false} WithoutByRecency(order: seq<string>, key: string, used: map<string, nat>)
    requires ByRecency(order, used) && NoRepeats(order)
    ensures ByRecency(Without(order, key), used)
  {
    if order != [] {
      var head, rest := order[0], order[1..];
      var tail := Without(rest, key);
      assert forall i :: 0 <= i < |rest| ==> rest[i] == order[i + 1];
      WithoutByRecency(rest, key, used);
      WithoutKey(rest, key);
      if head != key {
        assert Without(order, key) == [head] + tail;
        forall j | 0 <= j < |tail|
          ensures used[tail[j]] < used[head]
        {
          assert tail[j] in rest;
          var i :| 0 <= i < |rest| && rest[i] == tail[j];
          assert order[i + 1] == tail[j];
        }
        ConsByRecency(head, tail, used);
      }
    }
  }

  lemma ConsByRecency(head: string, tail: seq<string>, used: map<string, nat>)
    requires ByRecency(tail, used) && head in used
    requires forall j :: 0 <= j < |tail| ==> used[tail[j]] < used[head]
    ensures ByRecency([head] + tail, used)
  {
  }

  lemma LruRemove(order: seq<string>, keys: set<string>, used: map<string, nat>, uses: nat, key: string)
    requires Lru(order, keys, used, uses)
    ensures Lru(Without(order, key), keys - {key}, used, uses)
    ensures |Without(order, key)| <= |order|
    ensures key in keys ==> |Without(order, key)| == |order| - 1
  {
    WithoutKey(order, key);
    WithoutByRecency(order, key, used);
  }

  lemma LruPush(order: seq<string>, keys: set<string>, used: map<string, nat>, uses: nat, key: string)
    requires Lru(order, keys, used, uses) && key !in keys
    ensures Lru([key] + order, keys + {key}, used[key := uses], uses + 1)
  {
    var order', used' := [key] + order, used[key := uses];
    forall i | 0 <= i < |order|
      ensures order[i] != key && order[i] in used && used'[order[i]] == used[order[i]] < uses
    {
      assert order[i] in order;
    }
  }

  lemma TrimIsPrefix(order: seq<string>, max: nat)
    ensures |Trim(order, max)| <= max && |Trim(order, max)| <= |order|
    ensures forall i :: 0 <= i < |Trim(order, max)| ==> Trim(order, max)[i] == order[i]
    ensures forall i :: 0 <= i < |order| && order[i] !in Trim(order, max) ==> i >= |Trim(order, max)|
  {
    forall i | 0 <= i < |Trim(order, max)|
      ensures order[i] in Trim(order, max)
    {
      assert Trim(order, max)[i] == order[i];
    }
  }

  /** Dropping from the back drops the least recently used keys. */
  lemma LruTrim(order: seq<string>, keys: set<string>, used: map<string, nat>, uses: nat, max: nat)
    requires Lru(order, keys, used, uses)
    ensures Lru(Trim(order, max), (set k | k in keys && k in Trim(order, max)), used, uses)
    ensures |Trim(order, max)| <= max
    ensures forall gone, kept :: gone in order && gone !in Trim(order, max) && kept in Trim(order, max) ==>
              gone in used && kept in used && used[gone] < used[kept]
  {
    TrimIsPrefix(order, max);
    hide Trim;
    var front := Trim(order, max);
    forall k | k in front
      ensures k in keys
    {
      var i :| 0 <= i < |front| && front[i] == k;
      assert order[i] in order;
    }
    forall gone, kept | gone in order && gone !in front && kept in front
      ensures gone in used && kept in used && used[gone] < used[kept]
    {
      var i :| 0 <= i < |order| && order[i] == gone;
      var j :| 0 <= j < |front| && front[j] == kept;
      assert order[j] == kept && j < i;
    }
  }

  // ---- the cache itself ----

  lemma PromoteOk(max: nat, st: Store, key: string)
    requires StoreOk(max, st) && key in st.items
    ensures StoreOk(max, Promote(st, key))
  {
    LruRemove(st.order, st.items.Keys, st.used, st.uses, key);
    LruPush(Without(st.order, key), st.items.Keys - {key}, st.used, st.uses, key);
    assert st.items.Keys - {key} + {key} == st.items.Keys;
  }

  lemma DiscardOk(max: nat, st: Store, key: string)
    requires StoreOk(max, st)
    ensures StoreOk(max, Discard(st, key)) && Discard(st, key).items.Keys == st.items.Keys - {key}
  {
    LruRemove(st.order, st.items.Keys, st.used, st.uses, key);
    assert (st.items - {key}).Keys == st.items.Keys - {key};
  }

  lemma InsertOk(max: nat, st: Store, key: string, item: Item)
    requires StoreOk(max, st) && key !in st.items
    ensures StoreOk(max, Insert(st, max, key, item))
    ensures Insert(st, max, key, item).items.Keys <= st.items.Keys + {key}
  {
    LruPush(st.order, st.items.Keys, st.used, st.uses, key);
    var keys := st.items.Keys + {key};
    LruTrim([key] + st.order, keys, st.used[key := st.uses], st.uses + 1, max);
    assert Insert(st, max, key, item).items.Keys == set k | k in keys && k in Trim([key] + st.order, max);
  }

  lemma LookKeepsCache(c: Client, max: nat, s: State, t: nat)
    requires CacheOk(max, s) && t < |s.calls|
    ensures CacheOk(max, LookStep(c, s, t))
  {
    var key := CallKey(c, s.calls[t]);
    DiscardOk(max, s.store, key);
    if key in s.store.items {
      PromoteOk(max, s.store, key);
    }
  }

  lemma PublishKeepsCache(c: Client, max: nat, s: State, t: nat)
    requires CacheOk(max, s)
    requires PhaseOf(s, t).Returned? && PhaseOf(s, t).flight < |s.flights|
    requires CallKey(c, s.calls[t]) in s.inflight
    ensures CacheOk(max, PublishStep(c, max, s, t))
  {
    var call := s.calls[t];
    var key := CallKey(c, call);
    if call.phase.out.Got? {
      InsertOk(max, s.store, key, Item(call.phase.out.tok, FreshUntil(c, call.req, call.phase.out.tok), call.req));
    }
  }

  // ---- preservation ----

  /** Flights are appended, keep key and leader, and once settled stay settled; calls
      keep context and request; ended contexts stay ended. */
  ghost predicate Extends(s: State, s': State) {
    && |s.flights| <= |s'.flights|
    && |s.calls| <= |s'.calls|
    && s.cancelled <= s'.cancelled
    && (forall f :: 0 <= f < |s.flights| ==>
          && s'.flights[f].key == s.flights[f].key
          && s'.flights[f].leader == s.flights[f].leader
          && (s.flights[f].outcome.Some? ==> s'.flights[f].outcome == s.flights[f].outcome)
          && (s.flights[f].done ==> s'.flights[f].done)
          && (s.flights[f].outcome.Some? ==> s'.flights[f].leaderCancelled == s.flights[f].leaderCancelled))
    && (forall t :: 0 <= t < |s.calls| ==> s'.calls[t].ctx == s.calls[t].ctx && s'.calls[t].req == s.calls[t].req)
  }

  lemma LookExtends(c: Client, s: State, t: nat)
    requires Enabled(s, Look(t))
    ensures Extends(s, LookStep(c, s, t))
  {
    hide Key, Promote, Discard, Keep, IsFresh;
  }

  lemma PublishExtends(c: Client, max: nat, s: State, t: nat)
    requires InflightOk(c, s) && Enabled(s, Publish(t))
    ensures Extends(s, PublishStep(c, max, s, t))
  {
    hide Key, Promote, Discard, Keep, IsFresh;
    assert LeadsFlight(s, t, s.calls[t].phase.flight);
  }

  lemma StepExtends(c: Client, max: nat, s: State, step: Step)
    requires InflightOk(c, s) && CallsOk(c, s) && Enabled(s, step)
    ensures Extends(s, Apply(c, max, s, step))
  {
    hide Key, Promote, Discard, Keep, IsFresh, InflightOk, LookStep, PublishStep;
    match step
    case Look(t) => LookExtends(c, s, t);
    case Publish(t) => PublishExtends(c, max, s, t);
    case Close(t) => assert CallOk(c, s, t);
    case _ =>
  }

  lemma CacheStep(c: Client, max: nat, s: State, step: Step)
    requires CacheOk(max, s) && InflightOk(c, s) && Enabled(s, step)
    ensures CacheOk(max, Apply(c, max, s, step))
  {
    match step
    case Look(t) => LookKeepsCache(c, max, s, t);
    case Publish(t) =>
      assert LeadsFlight(s, t, s.calls[t].phase.flight);
      PublishKeepsCache(c, max, s, t);
    case _ =>
  }

  /** A store takes in nothing but items inside every limit they are stored under. */
  ghost predicate StoreItemsOk(c: Client, st: Store) {
    forall k :: k in st.items ==> ItemOk(c, k, st.items[k])
  }

  lemma KeepItems(c: Client, max: nat, st: Store, req: Request, out: Outcome, now: Time)
    requires StoreItemsOk(c, st)
    ensures StoreItemsOk(c, Keep(c, max, st, req, out, now))
  {
    hide Key, CapAt, Trim;
  }

  lemma ItemsStep(c: Client, max: nat, s: State, step: Step)
    requires ItemsOk(c, s) && Enabled(s, step)
    ensures ItemsOk(c, Apply(c, max, s, step))
  {
    hide Key, ItemOk, Keep, Without;
    assert StoreItemsOk(c, s.store);
    if step.Publish? {
      var call := s.calls[step.t];
      KeepItems(c, max, s.store, call.req, call.phase.out, s.clock);
    }
  }

  lemma HitsStep(c: Client, max: nat, s: State, step: Step)
    requires ItemsOk(c, s) && HitsOk(c, s) && Enabled(s, step) && Extends(s, Apply(c, max, s, step))
    ensures HitsOk(c, Apply(c, max, s, step))
  {
    hide Key, ItemOk, Keep, Promote, Discard;
  }

  lemma LeadsStep(c: Client, max: nat, s: State, step: Step, t: nat, f: nat)
    requires InflightOk(c, s) && Enabled(s, step)
    ensures
      var s' := Apply(c, max, s, step);
      LeadsFlight(s', t, f) ==> LeadsFlight(s, t, f) || (step == Look(t) && f == |s.flights| && f < |s'.flights|)
  {
    hide Key, Promote, Discard, Keep, IsFresh, InflightOk;
  }

  lemma InflightAtLook(c: Client, s: State, u: nat, t: nat, f: nat)
    requires InflightOk(c, s) && Enabled(s, Look(u))
    ensures
      var s' := LookStep(c, s, u);
      LeadsFlight(s', t, f) ==>
        && CallKey(c, s'.calls[t]) in s'.inflight
        && s'.inflight[CallKey(c, s'.calls[t])] == f
        && f < |s'.flights|
        && s'.flights[f].leader == t
        && s'.flights[f].outcome.None?
  {
    hide Key, Promote, Discard, Keep, IsFresh;
    assert LeadsFlight(s, t, f) ==> CallKey(c, s.calls[t]) in s.inflight;
  }

  lemma InflightAtPublish(c: Client, max: nat, s: State, u: nat, t: nat, f: nat)
    requires InflightOk(c, s) && Enabled(s, Publish(u))
    ensures
      var s' := PublishStep(c, max, s, u);
      LeadsFlight(s', t, f) ==>
        && CallKey(c, s'.calls[t]) in s'.inflight
        && s'.inflight[CallKey(c, s'.calls[t])] == f
        && f < |s'.flights|
        && s'.flights[f].leader == t
        && s'.flights[f].outcome.None?
  {
    hide Key, Promote, Discard, Keep, IsFresh;
    assert LeadsFlight(s, t, f) ==> CallKey(c, s.calls[t]) in s.inflight;
    assert LeadsFlight(s, u, s.calls[u].phase.flight);
  }

  /** The other steps leave the flight table and the flights' outcomes alone. */
  lemma TableStays(c: Client, max: nat, s: State, step: Step, f: nat)
    requires Enabled(s, step) && !step.Look? && !step.Publish?
    ensures
      var s' := Apply(c, max, s, step);
      && s'.inflight == s.inflight && |s'.flights| == |s.flights|
      && (f < |s.flights| ==> s'.flights[f].leader == s.flights[f].leader && s'.flights[f].outcome == s.flights[f].outcome)
  {
    hide LookStep, PublishStep;
  }

  lemma InflightStepAt(c: Client, max: nat, s: State, step: Step, t: nat, f: nat)
    requires InflightOk(c, s) && Enabled(s, step) && Extends(s, Apply(c, max, s, step))
    ensures
      var s' := Apply(c, max, s, step);
      LeadsFlight(s', t, f) ==>
        && CallKey(c, s'.calls[t]) in s'.inflight
        && s'.inflight[CallKey(c, s'.calls[t])] == f
        && f < |s'.flights|
        && s'.flights[f].leader == t
        && s'.flights[f].outcome.None?
  {
    hide Key, LookStep, PublishStep, Enabled;
    if step.Look? {
      InflightAtLook(c, s, step.t, t, f);
    } else if step.Publish? {
      InflightAtPublish(c, max, s, step.t, t, f);
    } else {
      hide Apply;
      LeadsStep(c, max, s, step, t, f);
      TableStays(c, max, s, step, f);
    }
  }

  lemma InflightKeyStep(c: Client, max: nat, s: State, step: Step, k: string)
    requires InflightOk(c, s) && Enabled(s, step) && Extends(s, Apply(c, max, s, step))
    requires k in Apply(c, max, s, step).inflight
    ensures
      var s' := Apply(c, max, s, step);
      && s'.inflight[k] < |s'.flights|
      && s'.flights[s'.inflight[k]].key == k
      && LeadsFlight(s', s'.flights[s'.inflight[k]].leader, s'.inflight[k])
  {
    hide Key, LookStep, PublishStep;
    if step.Publish? {
      PublishedKey(c, max, s, step.t, k);
    } else if step.Look? {
      LookedKey(c, max, s, step.t, k);
    } else {
      LeaderGoesOn(c, max, s, step, s.flights[s.inflight[k]].leader, s.inflight[k]);
    }
  }

  lemma LeaderGoesOn(c: Client, max: nat, s: State, step: Step, t: nat, f: nat)
    requires LeadsFlight(s, t, f) && Enabled(s, step) && !step.Publish? && !step.Look?
    ensures LeadsFlight(Apply(c, max, s, step), t, f)
  {
    hide Key;
  }

  lemma PublishedKey(c: Client, max: nat, s: State, t: nat, k: string)
    requires InflightOk(c, s) && Enabled(s, Publish(t)) && k in PublishStep(c, max, s, t).inflight
    ensures
      var s' := PublishStep(c, max, s, t);
      && s'.inflight[k] < |s'.flights|
      && s'.flights[s'.inflight[k]].key == k
      && LeadsFlight(s', s'.flights[s'.inflight[k]].leader, s'.inflight[k])
  {
    hide Key, Promote, Discard, Keep, IsFresh;
    assert LeadsFlight(s, t, s.calls[t].phase.flight);
  }

  lemma LookedKey(c: Client, max: nat, s: State, t: nat, k: string)
    requires InflightOk(c, s) && Enabled(s, Look(t)) && k in LookStep(c, s, t).inflight
    ensures
      var s' := LookStep(c, s, t);
      && s'.inflight[k] < |s'.flights|
      && s'.flights[s'.inflight[k]].key == k
      && LeadsFlight(s', s'.flights[s'.inflight[k]].leader, s'.inflight[k])
  {
    hide Key, Promote, Discard, Keep, IsFresh;
  }

  lemma FlightSettles(c: Client, max: nat, s: State, step: Step, f: nat)
    requires FlightsOk(s) && InflightOk(c, s) && CallsOk(c, s) && Enabled(s, step) && Extends(s, Apply(c, max, s, step))
    requires step.Publish? || step.Close?
    requires f < |s.flights|
    ensures FlightOk(Apply(c, max, s, step), f)
  {
    hide Key, Promote, Discard, Keep, IsFresh;
    assert FlightOk(s, f);
    assert CallOk(c, s, step.t);
    if step.Publish? {
      assert LeadsFlight(s, step.t, s.calls[step.t].phase.flight);
    }
  }

  lemma FlightWaits(c: Client, max: nat, s: State, step: Step, f: nat)
    requires FlightsOk(s) && CallsOk(c, s) && Enabled(s, step) && Extends(s, Apply(c, max, s, step))
    requires !step.Publish? && !step.Close? && !step.Look?
    requires f < |s.flights|
    ensures FlightOk(Apply(c, max, s, step), f)
  {
    hide Key, Promote, Discard, Keep, IsFresh;
    assert FlightOk(s, f);
  }

  lemma FlightLooked(c: Client, s: State, t: nat, f: nat)
    requires FlightsOk(s) && Enabled(s, Look(t)) && f < |LookStep(c, s, t).flights|
    ensures FlightOk(LookStep(c, s, t), f)
  {
    hide Key, Promote, Discard, Keep, IsFresh;
    if f < |s.flights| {
      assert FlightOk(s, f);
    }
  }

  lemma FlightStepAt(c: Client, max: nat, s: State, step: Step, f: nat)
    requires FlightsOk(s) && InflightOk(c, s) && CallsOk(c, s) && Enabled(s, step) && Extends(s, Apply(c, max, s, step))
    requires f < |Apply(c, max, s, step).flights|
    ensures FlightOk(Apply(c, max, s, step), f)
  {
    hide Key, LookStep, PublishStep, Enabled, FlightsOk, InflightOk, CallsOk;
    if step.Look? {
      FlightLooked(c, s, step.t, f);
    } else if step.Publish? || step.Close? {
      OldFlight(c, max, s, step, f);
      FlightSettles(c, max, s, step, f);
    } else {
      OldFlight(c, max, s, step, f);
      FlightWaits(c, max, s, step, f);
    }
  }

  lemma OldFlight(c: Client, max: nat, s: State, step: Step, f: nat)
    requires Enabled(s, step) && !step.Look? && f < |Apply(c, max, s, step).flights|
    ensures f < |s.flights|
  {
    hide LookStep, Keep;
  }

  /** What CallOk says of a call's past survives whatever the flights become. */
  lemma PastExtends(c: Client, s: State, s': State, t: nat)
    requires FlightsOk(s) && Extends(s, s') && t < |s.calls| && t < |s'.calls| && s'.calls[t] == s.calls[t]
    requires CallOk(c, s, t)
    requires s.calls[t].phase.Closing? && s.calls[t].phase.flight < |s'.flights| ==> !s'.flights[s.calls[t].phase.flight].done
    ensures CallOk(c, s', t)
  {
    hide Key;
    forall i | 0 <= i < |s.calls[t].retried|
      ensures s.flights[s.calls[t].retried[i]].outcome.Some?
    {
      assert FlightOk(s, s.calls[t].retried[i]);
    }
  }

  lemma BystanderStep(c: Client, max: nat, s: State, step: Step, t: nat)
    requires FlightsOk(s) && CallsOk(c, s) && Enabled(s, step) && Extends(s, Apply(c, max, s, step))
    requires t < |s.calls| && Apply(c, max, s, step).calls[t] == s.calls[t]
    requires step.Close? ==> step.t != t
    ensures CallOk(c, Apply(c, max, s, step), t)
  {
    hide Key, Promote, Discard, Keep, IsFresh, FlightsOk;
    assert CallOk(c, s, t);
    if step.Close? {
      assert CallOk(c, s, step.t);
    }
    PastExtends(c, s, Apply(c, max, s, step), t);
  }

  /** A waiter joins a flight that is still open, led by someone else, and never one it
      waited on before. */
  lemma JoinStep(c: Client, max: nat, s: State, t: nat)
    requires FlightsOk(s) && InflightOk(c, s) && CallsOk(c, s) && Enabled(s, Look(t))
    requires Extends(s, Apply(c, max, s, Look(t)))
    ensures CallOk(c, Apply(c, max, s, Look(t)), t)
  {
    hide Key, Promote, Discard, Keep, IsFresh;
    assert CallOk(c, s, t);
    var key := CallKey(c, s.calls[t]);
    if key in s.inflight {
      var f := s.inflight[key];
      assert LeadsFlight(s, s.flights[f].leader, f);
      assert FlightOk(s, f);
    }
  }

  lemma WakeStep(c: Client, max: nat, s: State, t: nat)
    requires FlightsOk(s) && CallsOk(c, s) && Enabled(s, Wake(t))
    requires Extends(s, Apply(c, max, s, Wake(t)))
    ensures CallOk(c, Apply(c, max, s, Wake(t)), t)
  {
    hide Key, Promote, Discard, Keep, IsFresh;
    assert CallOk(c, s, t);
    assert FlightOk(s, s.calls[t].phase.flight);
  }

  lemma PublisherStep(c: Client, max: nat, s: State, t: nat)
    requires InflightOk(c, s) && CallsOk(c, s) && Enabled(s, Publish(t)) && Extends(s, Apply(c, max, s, Publish(t)))
    requires FlightsOk(s)
    ensures CallOk(c, Apply(c, max, s, Publish(t)), t)
  {
    hide Key, Promote, Discard, Keep, IsFresh;
    assert CallOk(c, s, t);
    assert LeadsFlight(s, t, s.calls[t].phase.flight);
    assert FlightOk(s, s.calls[t].phase.flight);
  }

  lemma LeaderStep(c: Client, max: nat, s: State, step: Step, t: nat)
    requires InflightOk(c, s) && FlightsOk(s) && CallsOk(c, s) && Enabled(s, step)
    requires Extends(s, Apply(c, max, s, step))
    requires step == Nest(t) || step == Resume(t) || (step.FetchReturns? && step.t == t) || step == Publish(t)
             || step == Close(t) || step == GiveUp(t)
    ensures CallOk(c, Apply(c, max, s, step), t)
  {
    hide Key, PublishStep, InflightOk, FlightsOk;
    assert CallOk(c, s, t);
    if step.Resume? {
      assert CallOk(c, s, s.calls[t].phase.child);
    } else if step.Publish? {
      PublisherStep(c, max, s, t);
    }
  }

  lemma OthersStay(c: Client, max: nat, s: State, step: Step, t: nat)
    requires Enabled(s, step) && t < |s.calls|
    requires step.Tick? || step.Cancel? || step.Arrive? || step.t != t
    ensures t < |Apply(c, max, s, step).calls| && Apply(c, max, s, step).calls[t] == s.calls[t]
  {
    hide Key, Promote, Discard, Keep, IsFresh;
  }

  lemma NewCallOk(c: Client, max: nat, s: State, step: Step)
    requires Enabled(s, step) && |s.calls| < |Apply(c, max, s, step).calls|
    ensures |Apply(c, max, s, step).calls| == |s.calls| + 1 && CallOk(c, Apply(c, max, s, step), |s.calls|)
  {
    hide Key, Promote, Discard, Keep, IsFresh;
  }

  lemma CallStepAt(c: Client, max: nat, s: State, step: Step, t: nat)
    requires FlightsOk(s) && InflightOk(c, s) && CallsOk(c, s) && Enabled(s, step) && Extends(s, Apply(c, max, s, step))
    requires t < |Apply(c, max, s, step).calls|
    ensures CallOk(c, Apply(c, max, s, step), t)
  {
    hide Apply, Enabled, CallOk, FlightsOk, InflightOk, Extends;
    if t >= |s.calls| {
      NewCallOk(c, max, s, step);
    } else if step.Tick? || step.Cancel? || step.Arrive? || step.t != t {
      OthersStay(c, max, s, step, t);
      BystanderStep(c, max, s, step, t);
    } else if step.Look? {
      JoinStep(c, max, s, t);
    } else if step.Wake? {
      WakeStep(c, max, s, t);
    } else {
      LeaderStep(c, max, s, step, t);
    }
  }

  lemma InvInit(c: Client, max: nat, s: State)
    requires Init(s)
    ensures Inv(c, max, s)
  {
  }

  lemma InvStep(c: Client, max: nat, s: State, step: Step)
    requires Inv(c, max, s) && Enabled(s, step)
    ensures Inv(c, max, Apply(c, max, s, step))
  {
    hide Key, Apply;
    var s' := Apply(c, max, s, step);
    StepExtends(c, max, s, step);
    CacheStep(c, max, s, step);
    ItemsStep(c, max, s, step);
    HitsStep(c, max, s, step);
    forall t: nat, f: nat | LeadsFlight(s', t, f)
      ensures
        && CallKey(c, s'.calls[t]) in s'.inflight
        && s'.inflight[CallKey(c, s'.calls[t])] == f
        && f < |s'.flights|
        && s'.flights[f].leader == t
        && s'.flights[f].outcome.None?
    {
      InflightStepAt(c, max, s, step, t, f);
    }
    forall k | k in s'.inflight
      ensures
        && s'.inflight[k] < |s'.flights|
        && s'.flights[s'.inflight[k]].key == k
        && LeadsFlight(s', s'.flights[s'.inflight[k]].leader, s'.inflight[k])
    {
      InflightKeyStep(c, max, s, step, k);
    }
    forall f | 0 <= f < |s'.flights| ensures FlightOk(s', f) { FlightStepAt(c, max, s, step, f); }
    forall t | 0 <= t < |s'.calls| ensures CallOk(c, s', t) { CallStepAt(c, max, s, step, t); }
  }

  /** Every state of every run satisfies the invariant. */
  lemma {:induction false} InvRun(c: Client, max: nat, s: State, steps: seq<Step>)
    requires Inv(c, max, s) && IsRun(c, max, s, steps)
    ensures Inv(c, max, Final(c, max, s, steps))
    decreases |steps|
  {
    if steps != [] {
      InvStep(c, max, s, steps[0]);
      InvRun(c, max, Apply(c, max, s, steps[0]), steps[1..]);
    }
  }
}
