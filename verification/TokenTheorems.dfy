/** What the TokenFor cache promises, over every interleaving of every run. */
module TokenTheorems {
  import opened CacheKeys
  import opened ValidationPolicy
  import opened TokenKeys
  import opened TokenMachine
  import opened TokenInvariants

  /** In every reachable state map and list agree key by key, no key is both cached and
      in flight, and the bound holds. */
  lemma CacheIsWellFormed(c: Client, max: nat, s0: State, steps: seq<Step>)
    requires Init(s0) && IsRun(c, max, s0, steps)
    ensures
      var s := Final(c, max, s0, steps);
      && NoRepeats(s.store.order)
      && (forall k :: k in s.store.order <==> k in s.store.items)
      && |s.store.order| == |s.store.items| <= max
      && s.store.items.Keys !! s.inflight.Keys
  {
    InvInit(c, max, s0);
    InvRun(c, max, s0, steps);
    var st := Final(c, max, s0, steps).store;
    ListSize(st.order, st.items.Keys);
  }

  lemma {:induction false} ListSize(order: seq<string>, keys: set<string>)
    requires NoRepeats(order) && forall k :: k in order <==> k in keys
    ensures |order| == |keys|
  {
    if order == [] {
      assert keys == {};
    } else {
      var rest := keys - {order[0]};
      forall k
        ensures k in order[1..] <==> k in rest
      {
        assert order == [order[0]] + order[1..];
      }
      ListSize(order[1..], rest);
      assert order[0] in order;
      assert keys == rest + {order[0]};
    }
  }

  /** When room has to be made, what goes was used before everything that stays. */
  lemma DropsLeastRecentlyUsed(max: nat, st: Store, key: string, item: Item, gone: string, kept: string)
    requires StoreOk(max, st) && key !in st.items
    requires gone in st.items && gone !in Insert(st, max, key, item).items
    requires kept in Insert(st, max, key, item).items && max >= 1
    ensures kept == key || (gone in st.used && kept in st.used && st.used[gone] < st.used[kept])
    ensures |st.items| == max
  {
    LruPush(st.order, st.items.Keys, st.used, st.uses, key);
    LruTrim([key] + st.order, st.items.Keys + {key}, st.used[key := st.uses], st.uses + 1, max);
    assert gone in st.order;
    assert gone in [key] + st.order;
    ListSize(st.order, st.items.Keys);
  }

  /** A hit is a use: the key becomes the most recent, and nothing else changes place. */
  lemma HitMakesMostRecent(max: nat, st: Store, key: string, a: string, b: string)
    requires StoreOk(max, st) && key in st.items && a in st.items && b in st.items
    ensures Promote(st, key).items == st.items
    ensures a != key ==> Promote(st, key).used[a] < Promote(st, key).used[key]
    ensures a != key && b != key ==> (Promote(st, key).used[a] < Promote(st, key).used[b] <==> st.used[a] < st.used[b])
  {
    assert a in st.order && b in st.order && key in st.order;
  }

  lemma PublishDrops(c: Client, max: nat, s: State, t: nat, k: string)
    requires Enabled(s, Publish(t)) && max >= 1
    requires k in s.store.items && k !in PublishStep(c, max, s, t).store.items
    requires CacheOk(max, s) && InflightOk(c, s)
    ensures |s.store.items| == max
    ensures forall kept :: kept in PublishStep(c, max, s, t).store.items && kept != CallKey(c, s.calls[t]) ==>
              k in s.store.used && kept in s.store.used && s.store.used[k] < s.store.used[kept]
  {
    hide Key, Insert;
    var call := s.calls[t];
    assert LeadsFlight(s, t, call.phase.flight);
    var key := CallKey(c, call);
    var item := Item(call.phase.out.tok, FreshUntil(c, call.req, call.phase.out.tok), call.req);
    forall kept | kept in PublishStep(c, max, s, t).store.items
      ensures |s.store.items| == max
      ensures kept != key ==> k in s.store.used && kept in s.store.used && s.store.used[k] < s.store.used[kept]
    {
      DropsLeastRecentlyUsed(max, s.store, key, item, k, kept);
    }
    KeptIsThere(max, s.store, key, item);
  }

  /** What leaves the cache: an item found expired by a look-up of its own key, or, when a
      token is kept and the cache is full, one used before everything that stays. */
  lemma ItemsLeaveOnly(c: Client, max: nat, s: State, step: Step, k: string)
    requires Inv(c, max, s) && Enabled(s, step) && max >= 1
    requires k in s.store.items && k !in Apply(c, max, s, step).store.items
    ensures
      || (step.Look? && k == CallKey(c, s.calls[step.t]) && s.clock >= s.store.items[k].freshUntil)
      || (&& step.Publish? && |s.store.items| == max
          && forall kept :: kept in Apply(c, max, s, step).store.items && kept != CallKey(c, s.calls[step.t]) ==>
               k in s.store.used && kept in s.store.used && s.store.used[k] < s.store.used[kept])
  {
    hide Key, Without, PublishStep, CacheOk, ItemsOk, HitsOk, InflightOk, FlightsOk, CallsOk;
    if step.Publish? {
      PublishDrops(c, max, s, step.t, k);
    }
  }

  lemma KeptIsThere(max: nat, st: Store, key: string, item: Item)
    requires max >= 1
    ensures key in Insert(st, max, key, item).items && Insert(st, max, key, item).items[key] == item
  {
    assert Trim([key] + st.order, max)[0] == key;
  }

  /** Key k stays in the cache all through a run. */
  ghost predicate StaysCached(c: Client, max: nat, s: State, steps: seq<Step>, k: string)
    requires IsRun(c, max, s, steps)
    decreases |steps|
  {
    k in s.store.items && (steps == [] || StaysCached(c, max, Apply(c, max, s, steps[0]), steps[1..], k))
  }

  /** While a key stays, so does what is stored under it: nothing else is put there. */
  lemma PublishKeepsItem(c: Client, max: nat, s: State, t: nat, k: string)
    requires Enabled(s, Publish(t))
    requires k in s.store.items && k in PublishStep(c, max, s, t).store.items
    requires CacheOk(max, s) && InflightOk(c, s)
    ensures PublishStep(c, max, s, t).store.items[k] == s.store.items[k]
  {
    hide Key, Trim, Without;
    assert LeadsFlight(s, t, s.calls[t].phase.flight);
  }

  lemma ItemStaysAt(c: Client, max: nat, s: State, step: Step, k: string)
    requires Inv(c, max, s) && Enabled(s, step)
    requires k in s.store.items && k in Apply(c, max, s, step).store.items
    ensures Apply(c, max, s, step).store.items[k] == s.store.items[k]
  {
    hide Key, Without, PublishStep, CacheOk, ItemsOk, HitsOk, InflightOk, FlightsOk, CallsOk;
    if step.Publish? {
      PublishKeepsItem(c, max, s, step.t, k);
    }
  }

  lemma {:induction false} ItemStays(c: Client, max: nat, s: State, steps: seq<Step>, k: string)
    requires Inv(c, max, s) && IsRun(c, max, s, steps) && StaysCached(c, max, s, steps, k)
    ensures k in s.store.items && k in Final(c, max, s, steps).store.items
    ensures Final(c, max, s, steps).store.items[k] == s.store.items[k]
    ensures Inv(c, max, Final(c, max, s, steps))
    decreases |steps|
  {
    hide Apply, Enabled, Inv;
    if steps != [] {
      InvStep(c, max, s, steps[0]);
      ItemStaysAt(c, max, s, steps[0], k);
      ItemStays(c, max, Apply(c, max, s, steps[0]), steps[1..], k);
    }
  }

  /** What was fetched is served. After a token is published, over any run during which
      its key is not dropped, a call with that key is given this token exactly as long as
      it has more than 30 s left and the person's own token has not ended. */
  lemma PublishedThenServed(c: Client, max: nat, s: State, t: nat, steps: seq<Step>, u: nat)
    requires Inv(c, max, s) && Enabled(s, Publish(t)) && s.calls[t].phase.out.Got?
    requires
      var s1 := Apply(c, max, s, Publish(t));
      IsRun(c, max, s1, steps) && StaysCached(c, max, s1, steps, CallKey(c, s.calls[t]))
    requires
      var s2 := Final(c, max, Apply(c, max, s, Publish(t)), steps);
      u < |s2.calls| && s2.calls[u].phase.Looping? && CallKey(c, s2.calls[u]) == CallKey(c, s.calls[t])
    ensures
      var s2 := Final(c, max, Apply(c, max, s, Publish(t)), steps);
      var tok, req := s.calls[t].phase.out.tok, s.calls[t].req;
      var served := Apply(c, max, s2, Look(u)).calls[u].phase;
      && (served == Done(Got(tok)) <==>
            && s2.clock < tok.expiresAt - 30 * SECOND
            && ((req.ForPerson? || req.Exchange?) && c.jwtExpiry(req.subject) != ZERO_TIME ==> s2.clock < c.jwtExpiry(req.subject)))
      && (served.Done? ==> served == Done(Got(tok)))
  {
    var k := CallKey(c, s.calls[t]);
    var s1 := Apply(c, max, s, Publish(t));
    InvStep(c, max, s, Publish(t));
    PublishedItem(c, max, s, t);
    ItemStays(c, max, s1, steps, k);
    LookServes(c, max, Final(c, max, s1, steps), u, k);
  }

  /** A fetched token is put there exactly when it says when it ends and is fresh now. */
  lemma PublishedIsCachedIff(c: Client, max: nat, s: State, t: nat)
    requires Inv(c, max, s) && max >= 1 && Enabled(s, Publish(t)) && s.calls[t].phase.out.Got?
    ensures
      var tok := s.calls[t].phase.out.tok;
      CallKey(c, s.calls[t]) in Apply(c, max, s, Publish(t)).store.items
      <==>
      && tok.expiresAt != ZERO_TIME && s.clock < tok.expiresAt - 30 * SECOND
      && (var req := s.calls[t].req;
          (req.ForPerson? || req.Exchange?) && c.jwtExpiry(req.subject) != ZERO_TIME ==> s.clock < c.jwtExpiry(req.subject))
  {
    hide Key, Trim, Insert;
    var call := s.calls[t];
    assert LeadsFlight(s, t, call.phase.flight);
    KeptIsThere(max, s.store, CallKey(c, call), Item(call.phase.out.tok, FreshUntil(c, call.req, call.phase.out.tok), call.req));
  }

  /** The key was not cached while its fetch ran, so what is there after the publish is
      what was published. */
  lemma PublishedItem(c: Client, max: nat, s: State, t: nat)
    requires Inv(c, max, s) && Enabled(s, Publish(t)) && s.calls[t].phase.out.Got?
    requires CallKey(c, s.calls[t]) in Apply(c, max, s, Publish(t)).store.items
    ensures
      var call := s.calls[t];
      Apply(c, max, s, Publish(t)).store.items[CallKey(c, call)]
      == Item(call.phase.out.tok, FreshUntil(c, call.req, call.phase.out.tok), call.req)
  {
    hide Key, Trim;
    assert LeadsFlight(s, t, s.calls[t].phase.flight);
  }

  lemma LookServes(c: Client, max: nat, s: State, u: nat, k: string)
    requires Enabled(s, Look(u)) && CallKey(c, s.calls[u]) == k && k in s.store.items
    ensures
      var p := Apply(c, max, s, Look(u)).calls[u].phase;
      if s.clock < s.store.items[k].freshUntil then p == Done(Got(s.store.items[k].tok)) else !p.Done?
  {
    hide Key, Without;
  }

  /** At most one fetch per key runs at a time. */
  lemma SingleFlightPerKey(c: Client, max: nat, s0: State, steps: seq<Step>, t: nat, u: nat)
    requires Init(s0) && IsRun(c, max, s0, steps)
    requires
      var s := Final(c, max, s0, steps);
      && t < |s.calls| && u < |s.calls|
      && Leads(s.calls[t].phase).Some? && Leads(s.calls[u].phase).Some?
      && CallKey(c, s.calls[t]) == CallKey(c, s.calls[u])
    ensures t == u
  {
    InvInit(c, max, s0);
    InvRun(c, max, s0, steps);
    var s := Final(c, max, s0, steps);
    assert LeadsFlight(s, t, Leads(s.calls[t].phase).value);
    assert LeadsFlight(s, u, Leads(s.calls[u].phase).value);
  }

  /** A caller is told that a context ended only if it is the caller's own, and it did. */
  lemma NobodyInheritsACancellation(c: Client, max: nat, s0: State, steps: seq<Step>, t: nat)
    requires Init(s0) && IsRun(c, max, s0, steps)
    requires
      var s := Final(c, max, s0, steps);
      && t < |s.calls| && s.calls[t].phase.Done?
      && s.calls[t].phase.out.Error? && s.calls[t].phase.out.cause.ContextEnded?
    ensures
      var s := Final(c, max, s0, steps);
      s.calls[t].phase.out.cause.ctx == s.calls[t].ctx && s.calls[t].ctx in s.cancelled
  {
    InvInit(c, max, s0);
    InvRun(c, max, s0, steps);
    assert CallOk(c, Final(c, max, s0, steps), t);
  }

  /** Each extra turn of a waiter's loop is paid for by a different call that led the
      same key, failed, and whose context ended. */
  lemma OneRetryPerCancelledLeader(c: Client, max: nat, s0: State, steps: seq<Step>, t: nat, i: nat, j: nat)
    requires Init(s0) && IsRun(c, max, s0, steps)
    requires
      var s := Final(c, max, s0, steps);
      t < |s.calls| && i < |s.calls[t].retried| && j < |s.calls[t].retried| && i != j
    ensures
      var s := Final(c, max, s0, steps);
      var f, g := s.calls[t].retried[i], s.calls[t].retried[j];
      && f < |s.flights| && g < |s.flights|
      && s.flights[f].leader != s.flights[g].leader
      && s.flights[f].leader < |s.calls| && s.flights[f].leader != t
      && s.flights[f].outcome.Some? && s.flights[f].outcome.value.Error?
      && s.flights[f].key == CallKey(c, s.calls[t])
      && s.calls[s.flights[f].leader].ctx in s.cancelled
  {
    InvInit(c, max, s0);
    LeadersInit(s0);
    LeadersRun(c, max, s0, steps);
    InvRun(c, max, s0, steps);
    var s := Final(c, max, s0, steps);
    assert CallOk(c, s, t);
    assert FlightOk(s, s.calls[t].retried[i]);
    if i < j {
      assert s.calls[t].retried[i] != s.calls[t].retried[j];
    } else {
      assert s.calls[t].retried[j] != s.calls[t].retried[i];
    }
  }

  /** A call leads at most one flight in its life. */
  ghost predicate LeadersDiffer(s: State) {
    forall f, g :: 0 <= f < g < |s.flights| ==> s.flights[f].leader != s.flights[g].leader
  }

  lemma LeadersInit(s: State)
    requires Init(s)
    ensures LeadersDiffer(s)
  {
  }

  lemma LeadersStep(c: Client, max: nat, s: State, step: Step)
    requires Inv(c, max, s) && LeadersDiffer(s) && Enabled(s, step)
    ensures LeadersDiffer(Apply(c, max, s, step))
  {
    hide Key, Promote, Discard, Keep, IsFresh;
    StepExtends(c, max, s, step);
    var s' := Apply(c, max, s, step);
    if step.Look? && |s'.flights| > |s.flights| {
      forall f | 0 <= f < |s.flights|
        ensures s.flights[f].leader != step.t
      {
        assert FlightOk(s, f);
      }
    }
  }

  lemma {:induction false} LeadersRun(c: Client, max: nat, s: State, steps: seq<Step>)
    requires Inv(c, max, s) && LeadersDiffer(s) && IsRun(c, max, s, steps)
    ensures LeadersDiffer(Final(c, max, s, steps))
    decreases |steps|
  {
    if steps != [] {
      InvStep(c, max, s, steps[0]);
      LeadersStep(c, max, s, steps[0]);
      LeadersRun(c, max, Apply(c, max, s, steps[0]), steps[1..]);
    }
  }

  /** A token served from the cache was minted for the very request of the caller: same
      pattern, resource, scopes and person. It has more than 30 s left and is served
      before that person's own token expires. */
  lemma HitsAreFreshAndOwn(c: Client, max: nat, s0: State, steps: seq<Step>, i: nat)
    requires Init(s0) && IsRun(c, max, s0, steps)
    requires i < |Final(c, max, s0, steps).hits|
    ensures
      var s := Final(c, max, s0, steps);
      var hit := s.hits[i];
      && hit.call < |s.calls|
      && var req := s.calls[hit.call].req;
      && (!KeysCollide(c, hit.item.req, req) ==>
            && hit.item.req == req
            && ((req.ForPerson? || req.Exchange?) && c.jwtExpiry(req.subject) != ZERO_TIME ==> hit.now < c.jwtExpiry(req.subject)))
      && hit.item.tok.expiresAt - hit.now > 30 * SECOND
  {
    InvInit(c, max, s0);
    InvRun(c, max, s0, steps);
    var s := Final(c, max, s0, steps);
    var hit := s.hits[i];
    var req := s.calls[hit.call].req;
    if !KeysCollide(c, hit.item.req, req) {
      KeyDeterminesRequest(c, hit.item.req, req);
    }
  }

  // ---- whose token a call ends with ----

  predicate IsCallStep(step: Step) {
    !step.Tick? && !step.Cancel? && !step.Arrive?
  }

  /** Flight `f` brought `tok` for key `k`. */
  predicate IsMint(s: State, f: nat, k: string, tok: Token) {
    f < |s.flights| && s.flights[f].key == k && s.flights[f].outcome == Some(Got(tok))
  }

  ghost predicate Minted(s: State, k: string, tok: Token) {
    exists f: nat :: IsMint(s, f, k, tok)
  }

  ghost predicate TokensOk(c: Client, s: State) {
    && (forall f :: 0 <= f < |s.flights| && s.flights[f].leader < |s.calls| ==>
          s.flights[f].key == CallKey(c, s.calls[s.flights[f].leader]))
    && (forall k :: k in s.store.items ==> Minted(s, k, s.store.items[k].tok))
    && (forall t :: 0 <= t < |s.calls| ==> CallMinted(c, s, t))
  }

  ghost predicate CallMinted(c: Client, s: State, t: nat)
    requires t < |s.calls|
  {
    s.calls[t].phase.Done? && s.calls[t].phase.out.Got? ==> Minted(s, CallKey(c, s.calls[t]), s.calls[t].phase.out.tok)
  }

  lemma MintedStays(s: State, s': State, k: string, tok: Token)
    requires Extends(s, s') && Minted(s, k, tok)
    ensures Minted(s', k, tok)
  {
    var f: nat :| IsMint(s, f, k, tok);
    assert IsMint(s', f, k, tok);
  }

  lemma FlightKeysStep(c: Client, max: nat, s: State, step: Step)
    requires Inv(c, max, s) && TokensOk(c, s) && Enabled(s, step)
    ensures
      var s' := Apply(c, max, s, step);
      forall f :: 0 <= f < |s'.flights| && s'.flights[f].leader < |s'.calls| ==>
        s'.flights[f].key == CallKey(c, s'.calls[s'.flights[f].leader])
  {
    hide Key, Promote, Discard, Keep, IsFresh, Minted, CallMinted, CacheOk, ItemsOk, HitsOk;
    StepExtends(c, max, s, step);
    forall f | 0 <= f < |s.flights|
      ensures s.flights[f].leader < |s.calls|
    {
      assert FlightOk(s, f);
    }
  }

  /** What is published goes into the store under the key it was fetched for. */
  lemma PublishedIsMinted(c: Client, max: nat, s: State, t: nat, k: string)
    requires Inv(c, max, s) && TokensOk(c, s) && Enabled(s, Publish(t))
    requires k in Apply(c, max, s, Publish(t)).store.items
    ensures
      var s' := Apply(c, max, s, Publish(t));
      Minted(s', k, s'.store.items[k].tok)
  {
    hide Key, Promote, Discard, Trim, CallMinted, Minted;
    var s' := Apply(c, max, s, Publish(t));
    var call := s.calls[t];
    StepExtends(c, max, s, Publish(t));
    assert LeadsFlight(s, t, call.phase.flight);
    if k == CallKey(c, call) && k !in s.store.items {
      MintOf(s', call.phase.flight, k, call.phase.out.tok);
    } else {
      MintedStays(s, s', k, s.store.items[k].tok);
    }
  }

  lemma MintOf(s: State, f: nat, k: string, tok: Token)
    requires IsMint(s, f, k, tok)
    ensures Minted(s, k, tok)
  {
  }

  lemma StoredStep(c: Client, max: nat, s: State, step: Step, k: string)
    requires Inv(c, max, s) && TokensOk(c, s) && Enabled(s, step)
    requires k in Apply(c, max, s, step).store.items
    ensures
      var s' := Apply(c, max, s, step);
      Minted(s', k, s'.store.items[k].tok)
  {
    hide Key, Without, Keep, PublishStep, CallMinted, Minted, InflightOk, FlightsOk, CallsOk;
    StepExtends(c, max, s, step);
    if step.Publish? {
      PublishedIsMinted(c, max, s, step.t, k);
    } else {
      MintedStays(s, Apply(c, max, s, step), k, s.store.items[k].tok);
    }
  }

  lemma EndsWithOwn(c: Client, max: nat, s: State, step: Step)
    requires Inv(c, max, s) && TokensOk(c, s) && Enabled(s, step) && IsCallStep(step) && step.t < |s.calls|
    requires !s.calls[step.t].phase.Done?
    ensures step.t < |Apply(c, max, s, step).calls| && CallMinted(c, Apply(c, max, s, step), step.t)
  {
    hide Key, Promote, Discard, Keep, Minted;
    var t := step.t;
    var s' := Apply(c, max, s, step);
    StepExtends(c, max, s, step);
    assert CallOk(c, s, t);
    if s'.calls[t].phase.Done? && s'.calls[t].phase.out.Got? {
      var k, tok := CallKey(c, s.calls[t]), s'.calls[t].phase.out.tok;
      if step.Look? {
        MintedStays(s, s', k, s.store.items[k].tok);
      } else {
        assert FlightOk(s, s.calls[t].phase.flight);
        MintOf(s, s.calls[t].phase.flight, k, tok);
        MintedStays(s, s', k, tok);
      }
    }
  }

  lemma CallMintedStep(c: Client, max: nat, s: State, step: Step, t: nat)
    requires Inv(c, max, s) && TokensOk(c, s) && Enabled(s, step) && t < |Apply(c, max, s, step).calls|
    ensures CallMinted(c, Apply(c, max, s, step), t)
  {
    hide Apply, Enabled, Minted, Key, FlightsOk, InflightOk, Extends;
    if t >= |s.calls| {
      NewCallOpen(c, max, s, step, t);
    } else if IsCallStep(step) && step.t == t {
      DoneStays(c, max, s, step);
      EndsWithOwn(c, max, s, step);
    } else {
      OthersStay(c, max, s, step, t);
      StepExtends(c, max, s, step);
      assert CallMinted(c, s, t);
      if s.calls[t].phase.Done? && s.calls[t].phase.out.Got? {
        MintedStays(s, Apply(c, max, s, step), CallKey(c, s.calls[t]), s.calls[t].phase.out.tok);
      }
    }
  }

  lemma NewCallOpen(c: Client, max: nat, s: State, step: Step, t: nat)
    requires Enabled(s, step) && |s.calls| <= t < |Apply(c, max, s, step).calls|
    ensures !Apply(c, max, s, step).calls[t].phase.Done?
  {
    hide Key, Promote, Discard, Keep, IsFresh;
  }

  lemma DoneStays(c: Client, max: nat, s: State, step: Step)
    requires Enabled(s, step) && IsCallStep(step)
    ensures step.t < |s.calls| && !s.calls[step.t].phase.Done?
  {
  }

  lemma TokensStep(c: Client, max: nat, s: State, step: Step)
    requires Inv(c, max, s) && TokensOk(c, s) && Enabled(s, step)
    ensures TokensOk(c, Apply(c, max, s, step))
  {
    hide Enabled, Apply, Inv, CallMinted, Minted, Key;
    var s' := Apply(c, max, s, step);
    FlightKeysStep(c, max, s, step);
    forall k | k in s'.store.items
      ensures Minted(s', k, s'.store.items[k].tok)
    {
      StoredStep(c, max, s, step, k);
    }
    forall t | 0 <= t < |s'.calls| ensures CallMinted(c, s', t) { CallMintedStep(c, max, s, step, t); }
  }

  lemma {:induction false} TokensRun(c: Client, max: nat, s: State, steps: seq<Step>)
    requires Inv(c, max, s) && TokensOk(c, s) && IsRun(c, max, s, steps)
    ensures TokensOk(c, Final(c, max, s, steps))
    decreases |steps|
  {
    hide Enabled, Apply, Inv, TokensOk;
    if steps != [] {
      InvStep(c, max, s, steps[0]);
      TokensStep(c, max, s, steps[0]);
      TokensRun(c, max, Apply(c, max, s, steps[0]), steps[1..]);
    }
  }

  /** Every token a call ends with, fetched by itself, waited for or served from the
      cache, was fetched by a call for the very same request: same pattern, resource,
      scopes, audience and person. */
  lemma EveryTokenIsOwn(c: Client, max: nat, s0: State, steps: seq<Step>, t: nat) returns (f: nat)
    requires Init(s0) && IsRun(c, max, s0, steps)
    requires
      var s := Final(c, max, s0, steps);
      t < |s.calls| && s.calls[t].phase.Done? && s.calls[t].phase.out.Got?
    ensures
      var s := Final(c, max, s0, steps);
      && f < |s.flights| && s.flights[f].outcome == Some(s.calls[t].phase.out)
      && s.flights[f].leader < |s.calls|
      && var minter := s.calls[s.flights[f].leader].req;
         !KeysCollide(c, minter, s.calls[t].req) ==> minter == s.calls[t].req
  {
    hide Key, KeysCollide;
    InvInit(c, max, s0);
    TokensRun(c, max, s0, steps);
    InvRun(c, max, s0, steps);
    var s := Final(c, max, s0, steps);
    assert CallMinted(c, s, t);
    f :| IsMint(s, f, CallKey(c, s.calls[t]), s.calls[t].phase.out.tok);
    assert FlightOk(s, f);
    var minter := s.calls[s.flights[f].leader].req;
    if !KeysCollide(c, minter, s.calls[t].req) {
      KeyDeterminesRequest(c, minter, s.calls[t].req);
    }
  }

  // ---- deadlock freedom and termination ----

  /** The bridge's inner key is nobody's outer key. */
  ghost predicate ActorKeyApart(c: Client, s: State) {
    forall t :: 0 <= t < |s.calls| && s.calls[t].req.Exchange? ==> CallKey(c, s.calls[t]) != Key(c, ActorToken)
  }

  lemma ActorKeyIsApart(c: Client, req: Request)
    requires req.Exchange? && !KeysCollide(c, req, ActorToken)
    ensures Key(c, req) != Key(c, ActorToken)
  {
    if Key(c, req) == Key(c, ActorToken) {
      KeyDeterminesRequest(c, req, ActorToken);
    }
  }

  /** A call that is neither waiting nor nesting can always go on. */
  lemma RunnerCanMove(c: Client, max: nat, s: State, t: nat) returns (step: Step)
    requires Inv(c, max, s) && t < |s.calls|
    requires !s.calls[t].phase.Done? && !s.calls[t].phase.Joined? && !s.calls[t].phase.Nested?
    ensures IsCallStep(step) && Enabled(s, step)
  {
    hide Key;
    assert CallOk(c, s, t);
    match s.calls[t].phase
    case Looping => step := Look(t);
    case Nesting(_) => step := Nest(t);
    case Leading(_) => step := FetchReturns(t, Error(Refusal("")));
    case Returned(f, _) =>
      assert LeadsFlight(s, t, f);
      step := Publish(t);
    case Closing(_, _) => step := Close(t);
  }

  /** A waiter waits for a leader, and the leader of the inner key never nests. */
  lemma WaiterCanMove(c: Client, max: nat, s: State, t: nat) returns (step: Step)
    requires Inv(c, max, s) && ActorKeyApart(c, s) && t < |s.calls| && s.calls[t].phase.Joined?
    ensures IsCallStep(step) && Enabled(s, step)
    decreases if s.calls[t].req.ActorToken? then 0 else 2
  {
    hide Key;
    assert CallOk(c, s, t);
    var f := s.calls[t].phase.flight;
    assert FlightOk(s, f);
    if s.flights[f].done {
      step := Wake(t);
    } else {
      var l := s.flights[f].leader;
      if s.flights[f].outcome.None? {
        assert LeadsFlight(s, l, f);
        assert CallKey(c, s.calls[l]) == CallKey(c, s.calls[t]);
      }
      assert CallOk(c, s, l);
      if s.calls[l].phase.Nested? {
        step := NesterCanMove(c, max, s, l);
      } else {
        step := RunnerCanMove(c, max, s, l);
      }
    }
  }

  lemma NesterCanMove(c: Client, max: nat, s: State, t: nat) returns (step: Step)
    requires Inv(c, max, s) && ActorKeyApart(c, s) && t < |s.calls| && s.calls[t].phase.Nested?
    ensures IsCallStep(step) && Enabled(s, step)
    decreases 1
  {
    hide Key;
    assert CallOk(c, s, t);
    var child := s.calls[t].phase.child;
    assert CallOk(c, s, child);
    if s.calls[child].phase.Done? {
      step := Resume(t);
    } else if s.calls[child].phase.Joined? {
      step := WaiterCanMove(c, max, s, child);
    } else {
      step := RunnerCanMove(c, max, s, child);
    }
  }

  /** Deadlock freedom: while any call is unfinished, some call can take a step. */
  lemma SomeCallCanMove(c: Client, max: nat, s: State, t: nat) returns (step: Step)
    requires Inv(c, max, s) && ActorKeyApart(c, s) && t < |s.calls| && !s.calls[t].phase.Done?
    ensures IsCallStep(step) && Enabled(s, step)
  {
    if s.calls[t].phase.Joined? {
      step := WaiterCanMove(c, max, s, t);
    } else if s.calls[t].phase.Nested? {
      step := NesterCanMove(c, max, s, t);
    } else {
      step := RunnerCanMove(c, max, s, t);
    }
  }

  /** How many calls this one is still good for: an Exchange that has not nested yet may
      bring one more. */
  function Seat(call: Call): nat {
    if call.req.Exchange? && (call.phase.Looping? || call.phase.Joined? || call.phase.Nesting?) then 2 else 1
  }

  function Seats(calls: seq<Call>): nat {
    if calls == [] then 0 else Seats(calls[..|calls| - 1]) + Seat(calls[|calls| - 1])
  }

  /** Calls yet to finish, counting those yet to be made. */
  function Ahead(calls: seq<Call>): nat {
    if calls == [] then 0
    else Ahead(calls[..|calls| - 1]) + if calls[|calls| - 1].phase.Done? then 0 else Seat(calls[|calls| - 1])
  }

  const MAX_STAGE: nat := 22

  /** Steps a call can still take before some call finishes. */
  function Stage(flights: seq<Flight>, call: Call): nat {
    var looping := if call.req.Exchange? then 21 else 9;
    match call.phase
    case Joined(f) => if f < |flights| && flights[f].done then looping + 1 else 1
    case Looping => looping
    case Nesting(_) => 20
    case Nested(_, _) => 7
    case Leading(_) => 6
    case Returned(_, _) => 5
    case Closing(_, _) => 4
    case Done(_) => 0
  }

  function Ready(flights: seq<Flight>, calls: seq<Call>): nat {
    if calls == [] then 0 else Ready(flights, calls[..|calls| - 1]) + Stage(flights, calls[|calls| - 1])
  }

  lemma {:induction false} SumsAt(flights: seq<Flight>, calls: seq<Call>, t: nat, call: Call)
    requires t < |calls|
    ensures Seats(calls[t := call]) == Seats(calls) - Seat(calls[t]) + Seat(call)
    ensures Ahead(calls[t := call]) == Ahead(calls) - (if calls[t].phase.Done? then 0 else Seat(calls[t]))
                                       + (if call.phase.Done? then 0 else Seat(call))
    ensures Ready(flights, calls[t := call]) == Ready(flights, calls) - Stage(flights, calls[t]) + Stage(flights, call)
  {
    hide Seat, Stage;
    var n := |calls| - 1;
    if t == n {
      assert calls[t := call][..n] == calls[..n];
    } else {
      assert calls[t := call][..n] == calls[..n][t := call];
      SumsAt(flights, calls[..n], t, call);
    }
  }

  lemma {:induction false} ReadyFrame(flights: seq<Flight>, flights': seq<Flight>, calls: seq<Call>)
    requires |flights| <= |flights'|
    requires forall f :: 0 <= f < |flights| ==> flights'[f].done == flights[f].done
    requires forall t :: 0 <= t < |calls| && calls[t].phase.Joined? ==> calls[t].phase.flight < |flights|
    ensures Ready(flights', calls) == Ready(flights, calls)
  {
    if calls != [] {
      ReadyFrame(flights, flights', calls[..|calls| - 1]);
    }
  }

  lemma {:induction false} SumBounds(flights: seq<Flight>, calls: seq<Call>)
    ensures |calls| <= Seats(calls)
    ensures Ready(flights, calls) <= MAX_STAGE * |calls|
    ensures Ahead(calls) <= Seats(calls)
  {
    if calls != [] {
      SumBounds(flights, calls[..|calls| - 1]);
    }
  }

  /** What a call step does to the calls: one moves on, and Nest brings one more. */
  lemma MovesOne(c: Client, max: nat, s: State, step: Step)
    requires Inv(c, max, s) && Enabled(s, step) && IsCallStep(step) && !step.Nest?
    ensures
      var s' := Apply(c, max, s, step);
      && step.t < |s.calls| == |s'.calls|
      && s'.calls == s.calls[step.t := s'.calls[step.t]]
      && (step.Close? || (|s.flights| <= |s'.flights|
                          && forall f :: 0 <= f < |s.flights| ==> s'.flights[f].done == s.flights[f].done))
      && !s.calls[step.t].phase.Done?
      && 1 <= Seat(s'.calls[step.t]) <= Seat(s.calls[step.t])
      && (s'.calls[step.t].phase.Done?
          || (!step.Close? && Stage(s'.flights, s'.calls[step.t]) < Stage(s'.flights, s.calls[step.t])))
  {
    hide Key, Promote, Discard, Keep, IsFresh;
    assert CallOk(c, s, step.t);
    if step.Look? {
      var key := CallKey(c, s.calls[step.t]);
      if key in s.inflight {
        var f := s.inflight[key];
        assert LeadsFlight(s, s.flights[f].leader, f);
        assert FlightOk(s, f);
      }
    }
  }

  lemma NestMoves(c: Client, max: nat, s: State, t: nat)
    requires Inv(c, max, s) && Enabled(s, Nest(t))
    ensures
      var s' := Apply(c, max, s, Nest(t));
      && Seats(s'.calls) == Seats(s.calls) && Ahead(s'.calls) == Ahead(s.calls)
      && Ready(s'.flights, s'.calls) < Ready(s.flights, s.calls)
  {
    hide Key;
    assert CallOk(c, s, t);
    var s' := Apply(c, max, s, Nest(t));
    var n := |s.calls|;
    assert s'.calls[..n] == s.calls[t := s'.calls[t]];
    SumsAt(s.flights, s.calls, t, s'.calls[t]);
  }

  /** Every call step finishes a call or brings one closer to finishing. */
  lemma StepMakesProgress(c: Client, max: nat, s: State, step: Step)
    requires Inv(c, max, s) && Enabled(s, step) && IsCallStep(step)
    ensures
      var s' := Apply(c, max, s, step);
      && Seats(s'.calls) <= Seats(s.calls)
      && Ahead(s'.calls) <= Ahead(s.calls)
      && (Ahead(s'.calls) == Ahead(s.calls) ==> Ready(s'.flights, s'.calls) < Ready(s.flights, s.calls))
  {
    hide Key, Seat, Stage, Apply, Enabled, CacheOk, ItemsOk, HitsOk, InflightOk, FlightsOk;
    if step.Nest? {
      NestMoves(c, max, s, step.t);
    } else {
      var s' := Apply(c, max, s, step);
      MovesOne(c, max, s, step);
      SumsAt(s'.flights, s.calls, step.t, s'.calls[step.t]);
      if !step.Close? {
        forall t | 0 <= t < |s.calls| && s.calls[t].phase.Joined?
          ensures s.calls[t].phase.flight < |s.flights|
        {
          assert CallOk(c, s, t);
        }
        ReadyFrame(s.flights, s'.flights, s.calls);
      }
    }
  }

  function Arrivals(steps: seq<Step>): nat {
    if steps == [] then 0 else (if steps[0].Arrive? then 1 else 0) + Arrivals(steps[1..])
  }

  function CallSteps(steps: seq<Step>): nat {
    if steps == [] then 0 else (if IsCallStep(steps[0]) then 1 else 0) + CallSteps(steps[1..])
  }

  /** One unit of Ahead outweighs every Stage there can be. */
  function Budget(seats: nat, ahead: nat, ready: nat): nat {
    ahead * (MAX_STAGE * seats + 1) + ready
  }

  lemma LessByOne(a: nat, a': nat, k: nat)
    requires a' < a
    ensures a' * k + k <= a * k
  {
    assert a' * k + k == (a' + 1) * k <= a * k;
  }

  lemma BudgetFalls(seats: nat, ahead: nat, ready: nat, ahead': nat, ready': nat)
    requires ahead' <= ahead && ready' <= MAX_STAGE * seats
    requires ahead' == ahead ==> ready' < ready
    ensures Budget(seats, ahead', ready') < Budget(seats, ahead, ready)
  {
    if ahead' < ahead {
      LessByOne(ahead, ahead', MAX_STAGE * seats + 1);
    }
  }

  /** The budget of the calls present and of `more` yet to arrive. */
  function BudgetWith(s: State, more: nat, seats: nat): nat {
    Budget(seats, Ahead(s.calls) + 2 * more, Ready(s.flights, s.calls) + MAX_STAGE * more)
  }

  lemma StepLowersBudget(c: Client, max: nat, s: State, step: Step, more: nat, seats: nat)
    requires Inv(c, max, s) && Enabled(s, step) && IsCallStep(step)
    requires Seats(s.calls) + 2 * more <= seats
    ensures BudgetWith(Apply(c, max, s, step), more, seats) < BudgetWith(s, more, seats)
    ensures Seats(Apply(c, max, s, step).calls) + 2 * more <= seats
  {
    hide Budget, Inv, IsCallStep, Enabled, Apply, Seats, Ahead, Ready;
    var s' := Apply(c, max, s, step);
    StepMakesProgress(c, max, s, step);
    SumBounds(s'.flights, s'.calls);
    BudgetFalls(seats, Ahead(s.calls) + 2 * more, Ready(s.flights, s.calls) + MAX_STAGE * more,
                Ahead(s'.calls) + 2 * more, Ready(s'.flights, s'.calls) + MAX_STAGE * more);
  }

  lemma ArrivalIsPaidFor(c: Client, max: nat, s: State, step: Step, more: nat, seats: nat)
    requires Enabled(s, step) && step.Arrive?
    requires Seats(s.calls) + 2 * (more + 1) <= seats
    ensures BudgetWith(Apply(c, max, s, step), more, seats) <= BudgetWith(s, more + 1, seats)
    ensures Seats(Apply(c, max, s, step).calls) + 2 * more <= seats
  {
    var s' := Apply(c, max, s, step);
    assert s'.calls[..|s.calls|] == s.calls;
    var k := MAX_STAGE * seats + 1;
    MoreTimes(Ahead(s'.calls) + 2 * more, Ahead(s.calls) + 2 * (more + 1), k);
  }

  lemma MoreTimes(a: nat, b: nat, k: nat)
    requires a <= b
    ensures a * k <= b * k
  {
  }

  lemma OnlyTime(c: Client, max: nat, s: State, step: Step)
    requires Enabled(s, step) && !IsCallStep(step) && !step.Arrive?
    ensures Apply(c, max, s, step).calls == s.calls && Apply(c, max, s, step).flights == s.flights
  {
  }

  /** Every schedule drains: no scheduler can keep the calls going for more steps than the
      budget of the calls present and of those that arrive, retries, nesting and contexts
      ending included. With deadlock freedom, every call returns. */
  lemma {:induction false} WorkIsBounded(c: Client, max: nat, s: State, steps: seq<Step>, seats: nat)
    requires Inv(c, max, s) && IsRun(c, max, s, steps)
    requires Seats(s.calls) + 2 * Arrivals(steps) <= seats
    ensures CallSteps(steps) <= BudgetWith(s, Arrivals(steps), seats)
    decreases |steps|
  {
    hide Key, BudgetWith, Inv, IsCallStep;
    if steps == [] {
      return;
    }
    var s', more := Apply(c, max, s, steps[0]), Arrivals(steps[1..]);
    InvStep(c, max, s, steps[0]);
    if IsCallStep(steps[0]) {
      NoArrival(steps[0]);
      StepLowersBudget(c, max, s, steps[0], more, seats);
    } else if steps[0].Arrive? {
      ArrivalIsPaidFor(c, max, s, steps[0], more, seats);
    } else {
      OnlyTime(c, max, s, steps[0]);
      SameBudget(s, s', more, seats);
    }
    WorkIsBounded(c, max, s', steps[1..], seats);
  }

  lemma NoArrival(step: Step)
    requires IsCallStep(step)
    ensures !step.Arrive?
  {
  }

  lemma SameBudget(s: State, s': State, more: nat, seats: nat)
    requires s.calls == s'.calls && s.flights == s'.flights
    ensures BudgetWith(s, more, seats) == BudgetWith(s', more, seats)
  {
  }

  /** From the start, n arrivals bring at most 88n^2 + 24n steps, whoever's context ends. */
  lemma StepsOfArrivals(c: Client, max: nat, s0: State, steps: seq<Step>)
    requires Init(s0) && IsRun(c, max, s0, steps)
    ensures
      var n := Arrivals(steps);
      CallSteps(steps) <= 88 * n * n + 24 * n
  {
    hide Budget, Inv, IsRun;
    var n := Arrivals(steps);
    InvInit(c, max, s0);
    WorkIsBounded(c, max, s0, steps, 2 * n);
    BudgetOf(n);
  }

  lemma BudgetOf(n: nat)
    ensures Budget(2 * n, 2 * n, MAX_STAGE * n) == 88 * n * n + 24 * n
  {
    assert 2 * n * (MAX_STAGE * (2 * n) + 1) + MAX_STAGE * n == 88 * n * n + 24 * n;
  }

  lemma StepKeepsActorKeyApart(c: Client, max: nat, s: State, step: Step)
    requires Inv(c, max, s) && ActorKeyApart(c, s) && Enabled(s, step) && IsCallStep(step)
    ensures ActorKeyApart(c, Apply(c, max, s, step))
  {
    hide Key, Promote, Discard, Keep, IsFresh;
    StepExtends(c, max, s, step);
  }

  /** From any reachable state the calls can run to completion, nested and waiting ones
      alike. */
  lemma {:induction false} Drains(c: Client, max: nat, s: State) returns (steps: seq<Step>)
    requires Inv(c, max, s) && ActorKeyApart(c, s)
    ensures IsRun(c, max, s, steps) && forall i :: 0 <= i < |steps| ==> IsCallStep(steps[i])
    ensures forall t :: 0 <= t < |Final(c, max, s, steps).calls| ==> Final(c, max, s, steps).calls[t].phase.Done?
    decreases Ahead(s.calls), Ready(s.flights, s.calls)
  {
    hide Key, Inv, Enabled, Apply, Ahead, Ready, IsCallStep, ActorKeyApart;
    if t :| 0 <= t < |s.calls| && !s.calls[t].phase.Done? {
      var step := SomeCallCanMove(c, max, s, t);
      StepMakesProgress(c, max, s, step);
      InvStep(c, max, s, step);
      StepKeepsActorKeyApart(c, max, s, step);
      var rest := Drains(c, max, Apply(c, max, s, step));
      steps := [step] + rest;
      assert steps[1..] == rest;
    } else {
      steps := [];
    }
  }
}
