/** The validation cache under concurrency, as a step system.

    One step is one stretch of code another goroutine cannot see inside: a section under
    the map mutex, taking or releasing a flight lock, one clock reading, the service's
    answer. Eviction is several steps, because it holds the mutex while it try-locks one
    flight after another. Entries are objects with identity (indices into `heap`), so an
    entry dropped from the map while its fetch runs stays visible to its own callers.
    `log` is a history of what happened, kept only to state properties. */
module ValidationMachine {
  import opened CacheKeys
  import opened ValidationPolicy

  datatype Entry = Entry(
    key: string,
    flight: Option<nat>,  // the call holding the flight lock
    slot: Slot,
    source: nat,          // log position of the answer the slot holds
    born: nat)            // log position at which the entry was created

  datatype Phase =
    | Entering
    | Scanning(now: Time, todo: set<string>, live: map<string, Time>, inFlight: set<string>)
    | Waiting(entry: nat, looked: nat)
    | Holding(entry: nat, looked: nat)
    | CountingHit(entry: nat, looked: nat)
    | CountingMiss(entry: nat, looked: nat, now: Time)
    | Fetching(entry: nat, looked: nat, now: Time, began: nat)
    | Storing(entry: nat, looked: nat, now: Time, source: nat)
    | Leaving(entry: nat, looked: nat)
    | Finished

  /** One call of getWith. `bypass` is a context marked by WithFreshValidation. */
  datatype Call = Call(q: Question, bypass: bool, phase: Phase)

  datatype Event =
    | Cut(prefix: string)  // InvalidateValidation, or ResetValidationCache with the empty prefix
    | Began(call: nat)
    | Answered(call: nat, q: Question, at: Time, answer: Answer, began: nat)
    | Returned(call: nat, q: Question, answer: Answer, hit: bool, reading: Time, looked: nat, source: nat)

  datatype State = State(
    clock: Time,
    mu: Option<nat>,
    entries: map<string, nat>,
    heap: seq<Entry>,
    calls: seq<Call>,
    hits: nat,
    misses: nat,
    log: seq<Event>)

  datatype Step =
    | Tick(delta: nat)
    | Arrive(q: Question, bypass: bool)
    | Invalidate(cred: string)
    | Reset
    | Enter(t: nat)
    | Scan(t: nat, key: string)
    | Settle(t: nat, victims: set<string>)
    | Lock(t: nat)
    | Read(t: nat)
    | CountHit(t: nat)
    | CountMiss(t: nat)
    | Answer(t: nat, answer: Answer)
    | Keep(t: nat)
    | Unlock(t: nat)

  predicate Init(s: State) {
    s.clock > ZERO_TIME && s == State(s.clock, None, map[], [], [], 0, 0, [])
  }

  function KeyOf(c: Config, call: Call): string {
    ValidationKey(c.h, call.q)
  }

  function Target(c: Config): nat
    requires c.maxEntries >= 1
  {
    c.maxEntries - 1
  }

  /** The entry whose flight lock a call holds, if any. */
  function Held(p: Phase): Option<nat> {
    if p.Holding? || p.CountingHit? || p.CountingMiss? || p.Fetching? || p.Storing? || p.Leaving?
    then Some(p.entry) else None
  }

  /** The entry a call found or made, if it has one yet. */
  function EntryOf(p: Phase): Option<nat> {
    if p.Waiting? then Some(p.entry) else Held(p)
  }

  function PhaseOf(s: State, t: nat): Phase {
    if t < |s.calls| then s.calls[t].phase else Finished
  }

  ghost predicate Enabled(c: Config, s: State, step: Step)
    requires c.maxEntries >= 1
  {
    match step
    case Tick(_) => true
    case Arrive(_, _) => true
    case Invalidate(cred) => s.mu.None? && cred != ""
    case Reset => s.mu.None?
    case Enter(t) => PhaseOf(s, t).Entering? && s.mu.None?
    case Scan(t, key) =>
      && PhaseOf(s, t).Scanning?
      && key in PhaseOf(s, t).todo
      && key in s.entries && s.entries[key] < |s.heap|
    case Settle(t, victims) =>
      && PhaseOf(s, t).Scanning?
      && PhaseOf(s, t).todo == {}
      && EvictionChoice(victims, PhaseOf(s, t).live, PhaseOf(s, t).inFlight, |s.entries|, Target(c))
    case Lock(t) =>
      && PhaseOf(s, t).Waiting?
      && PhaseOf(s, t).entry < |s.heap|
      && s.heap[PhaseOf(s, t).entry].flight.None?
    case Read(t) => PhaseOf(s, t).Holding? && PhaseOf(s, t).entry < |s.heap|
    case CountHit(t) => PhaseOf(s, t).CountingHit? && s.mu.None?
    case CountMiss(t) => PhaseOf(s, t).CountingMiss? && s.mu.None?
    case Answer(t, _) => PhaseOf(s, t).Fetching?
    case Keep(t) =>
      && PhaseOf(s, t).Storing?
      && PhaseOf(s, t).entry < |s.heap|
      && PhaseOf(s, t).source < |s.log| && s.log[PhaseOf(s, t).source].Answered?
    case Unlock(t) => PhaseOf(s, t).Leaving? && PhaseOf(s, t).entry < |s.heap|
  }

  function MoveTo(s: State, t: nat, p: Phase): State
    requires t < |s.calls|
  {
    s.(calls := s.calls[t := s.calls[t].(phase := p)])
  }

  /** `v.entries[key] = &validationEntry{}`, after dropping `victims`. */
  function InsertFor(c: Config, s: State, t: nat, victims: set<string>): State
    requires t < |s.calls|
  {
    var key := KeyOf(c, s.calls[t]);
    MoveTo(s.(entries := (s.entries - victims)[key := |s.heap|],
              heap := s.heap + [Entry(key, None, EMPTY_SLOT, 0, |s.log|)]),
           t, Waiting(|s.heap|, |s.log|))
  }

  function DropPrefix(entries: map<string, nat>, prefix: string): map<string, nat> {
    map k | k in entries && !(prefix <= k) :: entries[k]
  }

  ghost function Apply(c: Config, s: State, step: Step): State
    requires c.maxEntries >= 1
    requires Enabled(c, s, step)
  {
    match step
    case Tick(delta) => s.(clock := s.clock + delta)
    case Arrive(q, bypass) => s.(calls := s.calls + [Call(q, bypass, Entering)])
    case Invalidate(cred) =>
      var prefix := CredentialFingerprint(c.h, cred);
      s.(entries := DropPrefix(s.entries, prefix), log := s.log + [Cut(prefix)])
    case Reset => s.(entries := map[], log := s.log + [Cut("")])
    case Enter(t) =>
      var key := KeyOf(c, s.calls[t]);
      if key in s.entries then MoveTo(s, t, Waiting(s.entries[key], |s.log|))
      else if |s.entries| > Target(c) then
        MoveTo(s.(mu := Some(t)), t, Scanning(s.clock, s.entries.Keys, map[], {}))
      else InsertFor(c, s, t, {})
    case Scan(t, key) =>
      var p := s.calls[t].phase;
      var e := s.heap[s.entries[key]];
      if e.flight.Some? then MoveTo(s, t, p.(todo := p.todo - {key}, inFlight := p.inFlight + {key}))
      else if Expired(e.slot, p.now) then
        MoveTo(s.(entries := s.entries - {key}), t, p.(todo := p.todo - {key}))
      else MoveTo(s, t, p.(todo := p.todo - {key}, live := p.live[key := e.slot.expires]))
    case Settle(t, victims) => InsertFor(c, s, t, victims).(mu := None)
    case Lock(t) =>
      var p := s.calls[t].phase;
      MoveTo(s.(heap := s.heap[p.entry := s.heap[p.entry].(flight := Some(t))]), t, Holding(p.entry, p.looked))
    case Read(t) =>
      var p := s.calls[t].phase;
      var call := s.calls[t];
      var e := s.heap[p.entry];
      (match Serve(e.slot, call.bypass, s.clock)
       case Some(ans) =>
         MoveTo(s.(log := s.log + [Returned(t, call.q, ans, true, s.clock, p.looked, e.source)]),
                t, CountingHit(p.entry, p.looked))
       case None => MoveTo(s, t, CountingMiss(p.entry, p.looked, s.clock)))
    case CountHit(t) =>
      var p := s.calls[t].phase;
      MoveTo(s.(hits := s.hits + 1), t, Leaving(p.entry, p.looked))
    case CountMiss(t) =>
      var p := s.calls[t].phase;
      MoveTo(s.(misses := s.misses + 1, log := s.log + [Began(t)]),
             t, Fetching(p.entry, p.looked, p.now, |s.log|))
    case Answer(t, ans) =>
      var p := s.calls[t].phase;
      MoveTo(s.(log := s.log + [Answered(t, s.calls[t].q, s.clock, ans, p.began)]),
             t, Storing(p.entry, p.looked, p.now, |s.log|))
    case Keep(t) =>
      var p := s.calls[t].phase;
      var e := s.heap[p.entry];
      var ans := s.log[p.source].answer;
      var slot := Store(c, s.calls[t].q, p.now, ans, e.slot);
      var e' := e.(slot := slot, source := if slot == e.slot then e.source else p.source);
      MoveTo(s.(heap := s.heap[p.entry := e'],
                log := s.log + [Returned(t, s.calls[t].q, ans, false, p.now, p.looked, p.source)]),
             t, Leaving(p.entry, p.looked))
    case Unlock(t) =>
      var p := s.calls[t].phase;
      MoveTo(s.(heap := s.heap[p.entry := s.heap[p.entry].(flight := None)]), t, Finished)
  }

  // ---- runs ----

  ghost predicate IsRun(c: Config, s: State, steps: seq<Step>)
    requires c.maxEntries >= 1
    decreases |steps|
  {
    steps == [] || (Enabled(c, s, steps[0]) && IsRun(c, Apply(c, s, steps[0]), steps[1..]))
  }

  ghost function Final(c: Config, s: State, steps: seq<Step>): State
    requires c.maxEntries >= 1
    requires IsRun(c, s, steps)
    decreases |steps|
  {
    if steps == [] then s else Final(c, Apply(c, s, steps[0]), steps[1..])
  }
}
