/** The TokenFor cache under concurrency, as a step system: an LRU list, a map, a table
    of flights, and callers that lead, wait, give up or retry.

    One step is one section under the cache mutex, or one event outside it: a fetch
    returning, a channel closing, a waiter waking, a context ending. The bridge's inner
    call for the app's own token is a call of its own, sharing its parent's context. */
module TokenMachine {
  import opened CacheKeys
  import opened ValidationPolicy
  import opened TokenKeys

  const REFRESH_MARGIN: int := 30 * SECOND

  datatype Token = Token(access: string, expiresAt: Time)

  /** Why a fetch failed: the service or the network said so, or that context ended. */
  datatype Cause = Refusal(code: string) | ContextEnded(ctx: nat)

  datatype Outcome = Got(tok: Token) | Error(cause: Cause)

  /** One cached token; `req` is the request it was minted for. */
  datatype Item = Item(tok: Token, freshUntil: Time, req: Request)

  datatype Flight = Flight(key: string, leader: nat, outcome: Option<Outcome>, leaderCancelled: bool, done: bool)

  datatype Phase =
    | Looping                            // about to take the mutex
    | Joined(flight: nat)                // waiting for somebody else's fetch
    | Nesting(flight: nat)               // leading an Exchange, inner call not made yet
    | Nested(flight: nat, child: nat)    // inner call running
    | Leading(flight: nat)               // the token endpoint is being asked
    | Returned(flight: nat, out: Outcome)
    | Closing(flight: nat, out: Outcome) // published, channel not closed yet
    | Done(out: Outcome)

  datatype Call = Call(ctx: nat, req: Request, phase: Phase, retried: seq<nat>)

  datatype Hit = Hit(call: nat, now: Time, item: Item)

  /** The map and the recency list; `used` and `uses` are a history of when each key was
      last used. */
  datatype Store = Store(items: map<string, Item>, order: seq<string>, used: map<string, nat>, uses: nat)

  datatype State = State(
    clock: Time,
    store: Store,
    inflight: map<string, nat>,
    flights: seq<Flight>,
    calls: seq<Call>,
    cancelled: set<nat>,
    hits: seq<Hit>)                // history: what was served from the cache

  datatype Step =
    | Tick(delta: nat)
    | Cancel(ctx: nat)
    | Arrive(ctx: nat, req: Request)
    | Look(t: nat)
    | Nest(t: nat)
    | Resume(t: nat)
    | FetchReturns(t: nat, out: Outcome)
    | Publish(t: nat)
    | Close(t: nat)
    | Wake(t: nat)
    | GiveUp(t: nat)

  predicate Init(s: State) {
    s.clock > ZERO_TIME && s == State(s.clock, Store(map[], [], map[], 0), map[], [], [], {}, [])
  }

  function PhaseOf(s: State, t: nat): Phase {
    if t < |s.calls| then s.calls[t].phase else Done(Error(Refusal("")))
  }

  function CallKey(c: Client, call: Call): string {
    Key(c, call.req)
  }

  /** The flight a call leads, until it has published. */
  function Leads(p: Phase): Option<nat> {
    match p
    case Nesting(f) => Some(f)
    case Nested(f, _) => Some(f)
    case Leading(f) => Some(f)
    case Returned(f, _) => Some(f)
    case _ => None
  }

  predicate Enabled(s: State, step: Step) {
    match step
    case Tick(_) => true
    case Cancel(_) => true
    case Arrive(_, req) => !req.ActorToken?
    case Look(t) => PhaseOf(s, t).Looping?
    case Nest(t) => PhaseOf(s, t).Nesting?
    case Resume(t) =>
      && PhaseOf(s, t).Nested?
      && PhaseOf(s, t).child < |s.calls|
      && PhaseOf(s, PhaseOf(s, t).child).Done?
    case FetchReturns(t, out) =>
      && PhaseOf(s, t).Leading?
      && (out.Error? && out.cause.ContextEnded? ==> out.cause.ctx == s.calls[t].ctx && out.cause.ctx in s.cancelled)
    case Publish(t) => PhaseOf(s, t).Returned? && PhaseOf(s, t).flight < |s.flights|
    case Close(t) => PhaseOf(s, t).Closing? && PhaseOf(s, t).flight < |s.flights|
    case Wake(t) =>
      && PhaseOf(s, t).Joined? && PhaseOf(s, t).flight < |s.flights|
      && s.flights[PhaseOf(s, t).flight].done && s.flights[PhaseOf(s, t).flight].outcome.Some?
    case GiveUp(t) => PhaseOf(s, t).Joined? && s.calls[t].ctx in s.cancelled
  }

  function MoveTo(s: State, t: nat, p: Phase): State
    requires t < |s.calls|
  {
    s.(calls := s.calls[t := s.calls[t].(phase := p)])
  }

  function Without(order: seq<string>, key: string): seq<string> {
    if order == [] then []
    else if order[0] == key then Without(order[1..], key)
    else [order[0]] + Without(order[1..], key)
  }

  predicate IsFresh(st: Store, key: string, now: Time) {
    key in st.items && now < st.items[key].freshUntil
  }

  /** ll.MoveToFront on a hit. */
  function Promote(st: Store, key: string): Store {
    Store(st.items, [key] + Without(st.order, key), st.used[key := st.uses], st.uses + 1)
  }

  /** ll.Remove and delete on an expired item; nothing when there is none. */
  function Discard(st: Store, key: string): Store {
    Store(st.items - {key}, Without(st.order, key), st.used, st.uses)
  }

  function Trim(order: seq<string>, max: nat): seq<string> {
    if |order| > max then order[..max] else order
  }

  /** ll.PushFront, then removal from the back until the bound holds. */
  function Insert(st: Store, max: nat, key: string, item: Item): Store {
    var order := Trim([key] + st.order, max);
    Store(map k | k in st.items[key := item] && k in order :: st.items[key := item][k],
          order, st.used[key := st.uses], st.uses + 1)
  }

  /** The section under the mutex at the top of the loop. */
  function LookStep(c: Client, s: State, t: nat): State
    requires t < |s.calls|
  {
    var call := s.calls[t];
    var key := CallKey(c, call);
    if IsFresh(s.store, key, s.clock) then
      var item := s.store.items[key];
      MoveTo(s.(store := Promote(s.store, key), hits := s.hits + [Hit(t, s.clock, item)]), t, Done(Got(item.tok)))
    else if key in s.inflight then
      MoveTo(s.(store := Discard(s.store, key)), t, Joined(s.inflight[key]))
    else
      var f := |s.flights|;
      MoveTo(s.(store := Discard(s.store, key),
                inflight := s.inflight[key := f],
                flights := s.flights + [Flight(key, t, None, false, false)]),
             t, if call.req.Exchange? then Nesting(f) else Leading(f))
  }

  /** How long a newly fetched token may be served. */
  function FreshUntil(c: Client, req: Request, tok: Token): Time {
    var limit := tok.expiresAt - REFRESH_MARGIN;
    if CapAt(c, req) != ZERO_TIME && CapAt(c, req) < limit then CapAt(c, req) else limit
  }

  /** What the second section does to the cache for a fetch's outcome. */
  function Keep(c: Client, max: nat, st: Store, req: Request, out: Outcome, now: Time): Store {
    if out.Got? && out.tok.expiresAt != ZERO_TIME && now < FreshUntil(c, req, out.tok)
    then Insert(st, max, Key(c, req), Item(out.tok, FreshUntil(c, req, out.tok), req))
    else st
  }

  /** The section under the mutex after the fetch. */
  function PublishStep(c: Client, max: nat, s: State, t: nat): State
    requires PhaseOf(s, t).Returned? && PhaseOf(s, t).flight < |s.flights|
  {
    var call := s.calls[t];
    var out, f := call.phase.out, call.phase.flight;
    var settled := s.flights[f].(outcome := Some(out), leaderCancelled := out.Error? && call.ctx in s.cancelled);
    MoveTo(s.(inflight := s.inflight - {CallKey(c, call)},
              flights := s.flights[f := settled],
              store := Keep(c, max, s.store, call.req, out, s.clock)),
           t, Closing(f, out))
  }

  function Apply(c: Client, max: nat, s: State, step: Step): State
    requires Enabled(s, step)
  {
    match step
    case Tick(delta) => s.(clock := s.clock + delta)
    case Cancel(ctx) => s.(cancelled := s.cancelled + {ctx})
    case Arrive(ctx, req) => s.(calls := s.calls + [Call(ctx, req, Looping, [])])
    case Look(t) => LookStep(c, s, t)
    case Nest(t) =>
      MoveTo(s, t, Nested(s.calls[t].phase.flight, |s.calls|)).(
        calls := MoveTo(s, t, Nested(s.calls[t].phase.flight, |s.calls|)).calls + [Call(s.calls[t].ctx, ActorToken, Looping, [])])
    case Resume(t) =>
      var p := s.calls[t].phase;
      (match s.calls[p.child].phase.out
       case Got(_) => MoveTo(s, t, Leading(p.flight))
       case Error(_) => MoveTo(s, t, Returned(p.flight, s.calls[p.child].phase.out)))
    case FetchReturns(t, out) => MoveTo(s, t, Returned(s.calls[t].phase.flight, out))
    case Publish(t) => PublishStep(c, max, s, t)
    case Close(t) =>
      var p := s.calls[t].phase;
      MoveTo(s.(flights := s.flights[p.flight := s.flights[p.flight].(done := true)]), t, Done(p.out))
    case Wake(t) =>
      var f := s.calls[t].phase.flight;
      if s.flights[f].leaderCancelled then
        s.(calls := s.calls[t := s.calls[t].(phase := Looping, retried := s.calls[t].retried + [f])])
      else MoveTo(s, t, Done(s.flights[f].outcome.value))
    case GiveUp(t) => MoveTo(s, t, Done(Error(ContextEnded(s.calls[t].ctx))))
  }

  predicate IsRun(c: Client, max: nat, s: State, steps: seq<Step>)
    decreases |steps|
  {
    steps == [] || (Enabled(s, steps[0]) && IsRun(c, max, Apply(c, max, s, steps[0]), steps[1..]))
  }

  function Final(c: Client, max: nat, s: State, steps: seq<Step>): State
    requires IsRun(c, max, s, steps)
    decreases |steps|
  {
    if steps == [] then s else Final(c, max, Apply(c, max, s, steps[0]), steps[1..])
  }
}
