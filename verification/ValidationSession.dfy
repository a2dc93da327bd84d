/** The heap cache over any sequence of calls, invalidations and caller writes. */
module ValidationSession {
  import opened CacheKeys
  import opened ValidationPolicy
  import C = ValidationCache

  /** Something that happens to a cache: a call with the answer a fetch of its own would
      bring, an invalidation, or callers writing to everything they can reach. */
  datatype Action =
    | Ask(q: Question, bypass: bool, now: Time, reply: Answer)
    | Invalidate(prefix: string)
    | CallersWrite

  /** What came of it. `given` is what the caller of an Ask read when the call returned. */
  datatype Outcome =
    | Asked(q: Question, bypass: bool, now: Time, reply: Answer, hit: bool, given: Answer, slot: Slot)
    | Invalidated(prefix: string)
    | Wrote

  /** The slot the last call with this key left, unless it was invalidated since. */
  function LastSlot(config: Config, trace: seq<Outcome>, key: string): Slot {
    if trace == [] then EMPTY_SLOT
    else
      var last := trace[|trace| - 1];
      if last.Asked? && ValidationKey(config.h, last.q) == key then last.slot
      else if last.Invalidated? && last.prefix <= key then EMPTY_SLOT
      else LastSlot(config, trace[..|trace| - 1], key)
  }

  /** A hit is what the last call with its key left, served by the policy; a miss is the
      call's own answer, and leaves what the policy says. */
  ghost predicate Explained(config: Config, before: seq<Outcome>, o: Outcome) {
    o.Asked? ==>
      var prior := LastSlot(config, before, ValidationKey(config.h, o.q));
      if o.hit then Serve(prior, o.bypass, o.now) == Some(o.given) && o.slot == prior
      else o.given == o.reply && (o.slot == Store(config, o.q, o.now, o.reply, prior)
                                  || o.slot == Store(config, o.q, o.now, o.reply, EMPTY_SLOT))
  }

  /** As long as nothing had to go for room, the last call with this key decides whether it
      is a hit, and what is left. */
  ghost predicate Decided(config: Config, before: seq<Outcome>, o: Outcome) {
    o.Asked? ==>
      var prior := LastSlot(config, before, ValidationKey(config.h, o.q));
      var served := Serve(prior, o.bypass, o.now);
      && o.hit == served.Some?
      && o.given == (if o.hit then served.value else o.reply)
      && o.slot == (if o.hit then prior else Store(config, o.q, o.now, o.reply, prior))
  }

  function KeyOf(config: Config, a: Action): set<string> {
    if a.Ask? then {ValidationKey(config.h, a.q)} else {}
  }

  /** The keys a script has asked for. */
  function KeysOf(config: Config, script: seq<Action>): set<string> {
    if script == [] then {} else KeysOf(config, script[..|script| - 1]) + KeyOf(config, script[|script| - 1])
  }

  lemma KeysNext(config: Config, script: seq<Action>, i: nat)
    requires i < |script|
    ensures KeysOf(config, script[..i + 1]) == KeysOf(config, script[..i]) + KeyOf(config, script[i])
    ensures |KeysOf(config, script[..i])| <= |KeysOf(config, script[..i + 1])|
  {
    assert script[..i + 1][..i] == script[..i];
    PartIsSmaller(KeysOf(config, script[..i]), KeysOf(config, script[..i + 1]));
  }

  lemma PartIsSmaller(part: set<string>, all: set<string>)
    requires part <= all
    ensures |part| <= |all|
  {
    assert part + (all - part) == all;
  }

  predicate Reports(a: Action, o: Outcome) {
    match a
    case Ask(q, bypass, now, reply) => o.Asked? && o.q == q && o.bypass == bypass && o.now == now && o.reply == reply
    case Invalidate(prefix) => o == Invalidated(prefix)
    case CallersWrite => o == Wrote
  }

  /** A definite negative wrapping an *APIError is the one answer kept without a copy. */
  predicate KeptAsIs(config: Config, a: Action) {
    && a.Ask? && a.reply.Failed? && a.reply.err.Wrapping?
    && DefiniteNegative(a.q, a.reply.err) && config.Policy(ClassOf(a.q)).neg > 0
  }

  method SliceOf(xs: seq<string>) returns (a: array<string>)
    ensures fresh(a) && C.Elems(a) == xs
  {
    a := new string[|xs|](i requires 0 <= i < |xs| => xs[i]);
    assert a[..] == xs;
  }

  /** A decoded response: an actor whose memory is its own. */
  method ActorOf(v: Actor) returns (a: C.ActorObject)
    ensures fresh(a) && a.Valid() && fresh(a.footprint) && a.View() == v
  {
    var p := SliceOf(v.permissions);
    var u := SliceOf(v.audience);
    var s := SliceOf(v.delegationScope);
    var c := SliceOf(v.delegationChain);
    a := new C.ActorObject.Of(v, p, u, s, c);
  }

  method ApiErrorOf(v: ApiError) returns (o: C.ApiErrorObject)
    ensures fresh(o) && o.View() == v
  {
    o := new C.ApiErrorObject.Of(v);
  }

  /** What a fetch hands back. */
  method Fetch(reply: Answer) returns (actor: C.ActorObject?, err: C.GoError)
    ensures actor != null ==> actor.Valid() && fresh(actor.footprint)
    ensures fresh(C.ErrorFootprint(err)) && C.AnswerView(actor, err) == reply
    ensures err.WrappingErr? <==> reply.Failed? && reply.err.Wrapping?
    ensures actor == null || err.NoError?
  {
    actor, err := null, C.NoError;
    match reply
    case Said(v) => actor := ActorOf(v);
    case Nothing =>
    case Failed(Direct(api)) =>
      var o := ApiErrorOf(api);
      err := C.ApiErr(o);
    case Failed(Wrapping(context, api)) =>
      var o := ApiErrorOf(api);
      err := C.WrappingErr(context, o);
    case Failed(Plain(reason)) => err := C.PlainErr(reason);
  }

  method ReadSlice(a: array?<string>) returns (xs: seq<string>)
    ensures xs == C.Elems(a)
  {
    xs := if a == null then [] else a[..];
  }

  /** What a caller reads in the result of a call. */
  method Observe(actor: C.ActorObject?, err: C.GoError) returns (given: Answer)
    requires actor != null ==> actor.Valid()
    ensures given == C.AnswerView(actor, err)
  {
    match err
    case ApiErr(o) => return Failed(Direct(ApiError(o.status, o.endpoint, o.code, o.message, o.body)));
    case WrappingErr(context, o) => return Failed(Wrapping(context, ApiError(o.status, o.endpoint, o.code, o.message, o.body)));
    case PlainErr(reason) => return Failed(Plain(reason));
    case NoError =>
      if actor == null {
        return Nothing;
      }
      var p := ReadSlice(actor.permissions);
      var u := ReadSlice(actor.audience);
      var s := ReadSlice(actor.delegationScope);
      var c := ReadSlice(actor.delegationChain);
      return Said(Actor(actor.valid, actor.userID, actor.orgID, actor.email, p, u, actor.expiresAt, actor.error,
                        actor.isDelegation, actor.actingAs, s, c));
  }

  lemma EmptyServesNothing(bypass: bool, now: Time)
    ensures Serve(EMPTY_SLOT, bypass, now).None?
  {
  }

  /** The slots of the map are the ones the trace says. */
  ghost predicate Matches(cache: C.ValidationCache, trace: seq<Outcome>)
    reads cache, cache.entries.Values, cache.answers
  {
    cache.Valid() && cache.Isolated()
    && forall k :: k in cache.entries ==> cache.SlotOf(k) == LastSlot(cache.config, trace, k)
  }

  /** Nothing the trace remembers is missing from the map. */
  ghost predicate Complete(cache: C.ValidationCache, trace: seq<Outcome>)
    reads cache
  {
    forall k :: k !in cache.entries ==> LastSlot(cache.config, trace, k) == EMPTY_SLOT
  }

  /** The call has its entry, or there is room for it. */
  predicate HasRoom(cache: C.ValidationCache, a: Action)
    reads cache
  {
    a.Ask? ==> ValidationKey(cache.config.h, a.q) in cache.entries || |cache.entries| < cache.config.maxEntries
  }

  lemma LastSlotNext(config: Config, trace: seq<Outcome>, o: Outcome, key: string)
    ensures LastSlot(config, trace + [o], key) ==
              if o.Asked? && ValidationKey(config.h, o.q) == key then o.slot
              else if o.Invalidated? && o.prefix <= key then EMPTY_SLOT
              else LastSlot(config, trace, key)
  {
    assert (trace + [o])[..|trace|] == trace;
  }

  /** The slots a call with this key leaves, given what there was. */
  ghost predicate Left(cache: C.ValidationCache, a: Action, prior: Slot, given: Answer, hit: bool)
    requires a.Ask? && cache.Valid()
    reads cache, cache.entries.Values, cache.answers
  {
    var key := ValidationKey(cache.config.h, a.q);
    && key in cache.entries
    && hit == Serve(prior, a.bypass, a.now).Some?
    && given == (if hit then Serve(prior, a.bypass, a.now).value else a.reply)
    && cache.SlotOf(key) == (if hit then prior else Store(cache.config, a.q, a.now, a.reply, prior))
  }

  /** One call, as its caller sees it, once its fetch's result is the caller's. */
  method CallWith(cache: C.ValidationCache, a: Action, fetched: C.ActorObject?, ferr: C.GoError)
      returns (given: Answer, hit: bool)
    requires a.Ask? && cache.Valid() && cache.Isolated() && !C.IsKeptAsIs(cache.config, a.q, ferr)
    requires fetched != null ==> fetched.Valid() && fetched.footprint <= cache.lent && fetched.footprint !! cache.entries.Values
    requires C.ErrorFootprint(ferr) <= cache.lent && (fetched == null || ferr.NoError?)
    requires C.AnswerView(fetched, ferr) == a.reply
    modifies cache, cache.entries.Values
    ensures cache.Valid() && cache.Isolated()
    ensures fresh(cache.lent - old(cache.lent)) && fresh(cache.entries.Values - old(cache.entries.Values))
    ensures
      var key := ValidationKey(cache.config.h, a.q);
      Left(cache, a, if key in old(cache.entries) then old(cache.SlotOf(key)) else EMPTY_SLOT, given, hit)
    ensures forall k :: k in cache.entries && k != ValidationKey(cache.config.h, a.q) ==>
              k in old(cache.entries) && cache.SlotOf(k) == old(cache.SlotOf(k))
    ensures old(HasRoom(cache, a)) ==> old(cache.entries.Keys) <= cache.entries.Keys
  {
    hide Store, Serve, ValidationKey, C.ActorObject.View, C.ActorObject.Valid, C.ValidationEntry.View,
         C.ValidationEntry.Valid, C.Covers, C.ValidationCache.ValidWith, C.IsKeptAsIs, C.ErrorView;
    cache.OutOfReach();
    var actor, err;
    actor, err, hit := cache.GetWith(a.q, a.bypass, a.now, fetched, ferr);
    assert C.AnswerView(fetched, ferr) == a.reply;
    given := Observe(actor, err);
  }

  /** One call with a fetch of its own. */
  method Call(cache: C.ValidationCache, a: Action) returns (given: Answer, hit: bool)
    requires a.Ask? && !KeptAsIs(cache.config, a) && cache.Valid() && cache.Isolated()
    modifies cache, cache.entries.Values
    ensures cache.Valid() && cache.Isolated()
    ensures fresh(cache.lent - old(cache.lent)) && fresh(cache.entries.Values - old(cache.entries.Values))
    ensures
      var key := ValidationKey(cache.config.h, a.q);
      Left(cache, a, if key in old(cache.entries) then old(cache.SlotOf(key)) else EMPTY_SLOT, given, hit)
    ensures forall k :: k in cache.entries && k != ValidationKey(cache.config.h, a.q) ==>
              k in old(cache.entries) && cache.SlotOf(k) == old(cache.SlotOf(k))
    ensures old(HasRoom(cache, a)) ==> old(cache.entries.Keys) <= cache.entries.Keys
  {
    hide Store, Serve, ValidationKey, C.ActorObject.View, C.ActorObject.Valid, C.ValidationEntry.View,
         C.ValidationEntry.Valid, C.Covers, C.ValidationCache.ValidWith, Left;
    var fetched, ferr := Fetch(a.reply);
    cache.Lend((if fetched == null then {} else fetched.footprint) + C.ErrorFootprint(ferr));
    given, hit := CallWith(cache, a, fetched, ferr);
  }

  method AskOnce(cache: C.ValidationCache, a: Action, trace: seq<Outcome>) returns (o: Outcome)
    requires a.Ask? && !KeptAsIs(cache.config, a) && Matches(cache, trace)
    modifies cache, cache.entries.Values
    ensures Matches(cache, trace + [o])
    ensures fresh(cache.lent - old(cache.lent)) && fresh(cache.entries.Values - old(cache.entries.Values))
    ensures Reports(a, o) && Explained(cache.config, trace, o)
    ensures cache.entries.Keys <= old(cache.entries.Keys) + KeyOf(cache.config, a)
    ensures old(Complete(cache, trace) && HasRoom(cache, a)) ==>
              Complete(cache, trace + [o]) && Decided(cache.config, trace, o)
  {
    hide Store, Serve, LastSlot, ValidationKey, KeptAsIs, C.ValidationCache.ValidWith;
    var key := ValidationKey(cache.config.h, a.q);
    var prior := if key in cache.entries then LastSlot(cache.config, trace, key) else EMPTY_SLOT;
    EmptyServesNothing(a.bypass, a.now);
    var given, hit := Call(cache, a);
    o := Asked(a.q, a.bypass, a.now, a.reply, hit, given, if hit then prior else Store(cache.config, a.q, a.now, a.reply, prior));
    forall k | k in cache.entries
      ensures cache.SlotOf(k) == LastSlot(cache.config, trace + [o], k)
    {
      LastSlotNext(cache.config, trace, o, k);
    }
    forall k | k !in cache.entries
      ensures LastSlot(cache.config, trace, k) == EMPTY_SLOT && old(k in cache.entries ==> !HasRoom(cache, a)) ==>
                LastSlot(cache.config, trace + [o], k) == EMPTY_SLOT
    {
      LastSlotNext(cache.config, trace, o, k);
    }
  }

  method InvalidateOnce(cache: C.ValidationCache, prefix: string, ghost trace: seq<Outcome>)
    requires Matches(cache, trace)
    modifies cache`entries
    ensures Matches(cache, trace + [Invalidated(prefix)])
    ensures cache.entries.Values <= old(cache.entries.Values) && cache.entries.Keys <= old(cache.entries.Keys)
    ensures old(Complete(cache, trace)) ==> Complete(cache, trace + [Invalidated(prefix)])
  {
    hide LastSlot, C.ActorObject.View, C.ActorObject.Valid;
    cache.DropPrefix(prefix);
    forall k | k in cache.entries
      ensures cache.SlotOf(k) == LastSlot(cache.config, trace + [Invalidated(prefix)], k)
    {
      LastSlotNext(cache.config, trace, Invalidated(prefix), k);
    }
    forall k | k !in cache.entries
      ensures LastSlot(cache.config, trace + [Invalidated(prefix)], k) == EMPTY_SLOT
              || (LastSlot(cache.config, trace + [Invalidated(prefix)], k) == LastSlot(cache.config, trace, k) && !(prefix <= k))
    {
      LastSlotNext(cache.config, trace, Invalidated(prefix), k);
    }
  }

  method WriteOnce(cache: C.ValidationCache, ghost trace: seq<Outcome>)
    requires Matches(cache, trace)
    modifies cache.lent
    ensures Matches(cache, trace + [Wrote])
    ensures cache.lent == old(cache.lent) && cache.entries == old(cache.entries)
    ensures old(Complete(cache, trace)) ==> Complete(cache, trace + [Wrote])
  {
    hide LastSlot, C.ActorObject.View, C.ActorObject.Valid;
    cache.CallerWrites(cache.lent);
    forall k
      ensures LastSlot(cache.config, trace + [Wrote], k) == LastSlot(cache.config, trace, k)
    {
      LastSlotNext(cache.config, trace, Wrote, k);
    }
  }

  /** Heap isolation over any session: calls, invalidations and writes to anything any
      caller can reach, in any order. Every answer is explained by the calls alone; no
      write ever shows in a later one. While the script has asked for at most maxEntries
      keys, every call is decided by the last one with its key: what is kept is served. */
  method Session(config: Config, script: seq<Action>) returns (trace: seq<Outcome>)
    requires config.maxEntries >= 1
    requires forall i :: 0 <= i < |script| ==> !KeptAsIs(config, script[i])
    ensures |trace| == |script|
    ensures forall i :: 0 <= i < |trace| ==> Reports(script[i], trace[i]) && Explained(config, trace[..i], trace[i])
    ensures forall i :: 0 <= i < |trace| && |KeysOf(config, script[..i + 1])| <= config.maxEntries ==>
              Decided(config, trace[..i], trace[i])
  {
    hide Explained, Decided, Reports, KeptAsIs, Tracks, Answered, KeysOf;
    var cache := new C.ValidationCache(config);
    trace := [];
    NothingYet(cache, script);
    for i := 0 to |script|
      invariant |trace| == i && cache.config == config && Tracks(cache, script[..i], trace)
      invariant fresh(cache) && fresh(cache.lent) && fresh(cache.entries.Values)
      invariant Answered(config, script, trace)
    {
      var o := Next(cache, script, i, trace);
      AnsweredNext(config, script, trace, o);
      trace := trace + [o];
    }
    AllAnswered(config, script, trace);
  }

  ghost predicate AnsweredAt(config: Config, script: seq<Action>, before: seq<Outcome>, o: Outcome)
    requires |before| < |script|
  {
    && Reports(script[|before|], o) && Explained(config, before, o)
    && (|KeysOf(config, script[..|before| + 1])| <= config.maxEntries ==> Decided(config, before, o))
  }

  ghost predicate Answered(config: Config, script: seq<Action>, trace: seq<Outcome>) {
    |trace| <= |script| && forall i :: 0 <= i < |trace| ==> AnsweredAt(config, script, trace[..i], trace[i])
  }

  lemma AnsweredNext(config: Config, script: seq<Action>, trace: seq<Outcome>, o: Outcome)
    requires Answered(config, script, trace) && |trace| < |script| && AnsweredAt(config, script, trace, o)
    ensures Answered(config, script, trace + [o])
  {
    hide AnsweredAt;
    forall i | 0 <= i <= |trace|
      ensures AnsweredAt(config, script, (trace + [o])[..i], (trace + [o])[i])
    {
      assert (trace + [o])[..i] == trace[..i];
      assert trace[..|trace|] == trace;
    }
  }

  lemma AllAnswered(config: Config, script: seq<Action>, trace: seq<Outcome>)
    requires Answered(config, script, trace)
    ensures forall i :: 0 <= i < |trace| ==> Reports(script[i], trace[i]) && Explained(config, trace[..i], trace[i])
    ensures forall i :: 0 <= i < |trace| && |KeysOf(config, script[..i + 1])| <= config.maxEntries ==>
              Decided(config, trace[..i], trace[i])
  {
    hide Reports, Explained, KeysOf, Decided;
    forall i | 0 <= i < |trace|
      ensures AnsweredAt(config, script, trace[..i], trace[i])
    {
    }
  }

  /** The map after these calls, in general and while there has always been room. */
  ghost predicate Tracks(cache: C.ValidationCache, done: seq<Action>, trace: seq<Outcome>)
    reads cache, cache.entries.Values, cache.answers
  {
    && Matches(cache, trace)
    && cache.entries.Keys <= KeysOf(cache.config, done)
    && (|KeysOf(cache.config, done)| <= cache.config.maxEntries ==> Complete(cache, trace))
  }

  lemma NothingYet(cache: C.ValidationCache, script: seq<Action>)
    requires cache.Valid() && cache.Isolated() && cache.entries == map[]
    ensures Tracks(cache, script[..0], []) && Answered(cache.config, script, [])
  {
  }

  /** A key that fits into the bound with those before it finds room. */
  lemma RoomFor(cache: C.ValidationCache, script: seq<Action>, i: nat)
    requires i < |script| && cache.entries.Keys <= KeysOf(cache.config, script[..i])
    requires |KeysOf(cache.config, script[..i + 1])| <= cache.config.maxEntries
    ensures HasRoom(cache, script[i])
  {
    KeysNext(cache.config, script, i);
    var a := script[i];
    if a.Ask? && ValidationKey(cache.config.h, a.q) !in cache.entries {
      var key := ValidationKey(cache.config.h, a.q);
      PartIsSmaller(cache.entries.Keys + {key}, KeysOf(cache.config, script[..i + 1]));
      assert |cache.entries.Keys + {key}| == |cache.entries.Keys| + 1;
      assert |cache.entries.Keys| == |cache.entries|;
    }
  }

  method Next(cache: C.ValidationCache, script: seq<Action>, i: nat, trace: seq<Outcome>) returns (o: Outcome)
    requires i < |script| && !KeptAsIs(cache.config, script[i]) && Tracks(cache, script[..i], trace)
    modifies cache, cache.entries.Values, cache.lent
    ensures Tracks(cache, script[..i + 1], trace + [o])
    ensures Reports(script[i], o) && Explained(cache.config, trace, o)
    ensures |KeysOf(cache.config, script[..i + 1])| <= cache.config.maxEntries ==> Decided(cache.config, trace, o)
    ensures fresh(cache.lent - old(cache.lent)) && fresh(cache.entries.Values - old(cache.entries.Values))
  {
    hide KeptAsIs, Matches, KeysOf, Complete, HasRoom;
    KeysNext(cache.config, script, i);
    if |KeysOf(cache.config, script[..i + 1])| <= cache.config.maxEntries {
      RoomFor(cache, script, i);
    }
    o := Do(cache, script[i], trace);
  }

  method Do(cache: C.ValidationCache, a: Action, trace: seq<Outcome>) returns (o: Outcome)
    requires !KeptAsIs(cache.config, a) && Matches(cache, trace)
    modifies cache, cache.entries.Values, cache.lent
    ensures Matches(cache, trace + [o]) && Reports(a, o) && Explained(cache.config, trace, o)
    ensures cache.entries.Keys <= old(cache.entries.Keys) + KeyOf(cache.config, a)
    ensures old(Complete(cache, trace) && HasRoom(cache, a)) ==>
              Complete(cache, trace + [o]) && Decided(cache.config, trace, o)
    ensures fresh(cache.lent - old(cache.lent)) && fresh(cache.entries.Values - old(cache.entries.Values))
  {
    hide KeptAsIs, Matches, Complete, HasRoom;
    match a
    case Ask(_, _, _, _) =>
      o := AskOnce(cache, a, trace);
    case Invalidate(prefix) =>
      InvalidateOnce(cache, prefix, trace);
      o := Invalidated(prefix);
    case CallersWrite =>
      WriteOnce(cache, trace);
      o := Wrote;
  }

  /** http.Client.Do wraps what its RoundTripper returns, and send hands that on: an
      *APIError from a RoundTripper (one that calls this very service for a token of its
      own, say) reaches the cache inside a *url.Error. */
  function FromRoundTripper(context: string, e: C.GoError): C.GoError {
    match e
    case NoError => C.NoError
    case ApiErr(o) => C.WrappingErr(context, o)
    case WrappingErr(inner, o) => C.WrappingErr(context + inner, o)
    case PlainErr(reason) => C.PlainErr(context + reason)
  }

  lemma WrappedIsStored(config: Config, q: Question, now: Time, err: Failure, later: Time)
    requires q.kind.ValidateToken? && err.Wrapping? && err.api.status == 401
    requires now <= later < now + config.Policy(ClassOf(q)).neg
    ensures Store(config, q, now, Failed(err), EMPTY_SLOT) == Slot(None, Some(err), now + config.Policy(ClassOf(q)).neg)
    ensures Serve(EMPTY_SLOT, false, now).None?
  {
  }

  /** A call whose fetch brings a 401 inside another error: the entry keeps that error. */
  method KeepWrapped(cache: C.ValidationCache, q: Question, now: Time, context: string, o: C.ApiErrorObject)
      returns (given: Answer)
    requires cache.Valid() && cache.entries == map[] && o in cache.lent
    requires q.kind.ValidateToken? && o.status == 401 && cache.config.Policy(ClassOf(q)).neg > 0
    modifies cache
    ensures cache.Valid() && given == Failed(Wrapping(context, o.View())) && fresh(cache.entries.Values)
    ensures
      var key := ValidationKey(cache.config.h, q);
      && key in cache.entries && cache.entries[key].actor == null && cache.entries[key].err == C.WrappingErr(context, o)
      && cache.entries[key].expires == now + cache.config.Policy(ClassOf(q)).neg
  {
    hide Store, Serve, ValidationKey, C.ValidationCache.ValidWith;
    var ferr := FromRoundTripper(context, C.ApiErr(o));
    WrappedIsStored(cache.config, q, now, Wrapping(context, o.View()), now);
    var actor, err, hit := cache.GetWith(q, false, now, null, ferr);
    given := Observe(actor, err);
  }

  /** Its caller may write to it; the cache notices nothing. */
  method Alter(cache: C.ValidationCache, o: C.ApiErrorObject, status: int)
    requires cache.Valid()
    modifies o
    ensures cache.Valid() && cache.entries == old(cache.entries) && o.View() == old(o.View()).(status := status)
  {
    hide C.ActorObject.View;
    o.status := status;
  }

  /** The one kind of answer a session leaves out, and why: the caller of the first call
      alters the error it was given, and the next call is served the altered one. */
  method WrappedErrorIsShared(config: Config, q: Question, now: Time, later: Time, context: string, api: ApiError, status: int)
      returns (first: Answer, second: Answer)
    requires config.maxEntries >= 1 && q.kind.ValidateToken? && api.status == 401
    requires now <= later < now + config.Policy(ClassOf(q)).neg
    ensures first == Failed(Wrapping(context, api))
    ensures second == Failed(Wrapping(context, api.(status := status)))
  {
    hide Store, ValidationKey, C.ValidationCache.ValidWith;
    var cache := new C.ValidationCache(config);
    var o := ApiErrorOf(api);
    cache.Lend({o});
    first := KeepWrapped(cache, q, now, context, o);
    Alter(cache, o, status);
    assert cache.SlotOf(ValidationKey(config.h, q)).err == Some(Wrapping(context, o.View()));
    var actor, err, hit := cache.GetWith(q, false, later, null, C.NoError);
    second := Observe(actor, err);
  }
}
