/** One whole eviction, from the look-up that needs room to the insert, whatever other
    callers do meanwhile. */
module ValidationEviction {
  import opened CacheKeys
  import opened ValidationPolicy
  import opened ValidationMachine
  import opened ValidationInvariants
  import opened ValidationTheorems

  /** The class of an entry at the moment it is looked at, on the clock reading `now`. */
  function StatusOf(e: Entry, now: Time): Status {
    if e.flight.Some? then InFlight
    else if Expired(e.slot, now) then Gone
    else Live(e.slot.expires)
  }

  /** What caller t's scan finds in a run, added to what it had found: for each key its
      entry's class in the very state in which the scan comes to it. */
  ghost function Found(c: Config, s: State, steps: seq<Step>, t: nat, now: Time, found: map<string, Status>): map<string, Status>
    requires c.maxEntries >= 1 && IsRun(c, s, steps)
    decreases |steps|
  {
    if steps == [] then found
    else
      var found' :=
        if steps[0].Scan? && steps[0].t == t
        then found[steps[0].key := StatusOf(s.heap[s.entries[steps[0].key]], now)]
        else found;
      Found(c, Apply(c, s, steps[0]), steps[1..], t, now, found')
  }

  predicate NotSettled(steps: seq<Step>, t: nat) {
    forall i :: 0 <= i < |steps| ==> !(steps[i].Settle? && steps[i].t == t)
  }

  /** A phase that has sorted the keys of `found`, and the map left by it. */
  ghost predicate SortedInto(p: Phase, now: Time, entries: map<string, nat>,
                             before: map<string, nat>, found: map<string, Status>)
  {
    && p.Scanning? && p.now == now
    && p.todo == before.Keys - found.Keys
    && found.Keys <= before.Keys
    && entries.Keys == before.Keys - GoneKeys(found)
    && (forall k :: k in entries ==> entries[k] == before[k])
    && p.live == LiveKeys(found)
    && p.inFlight == InFlightKeys(found)
  }

  /** The scan of t is under way: `found` is what it has found so far, `before` the map it
      started with. */
  ghost predicate Sorting(s: State, t: nat, now: Time, before: map<string, nat>, found: map<string, Status>) {
    s.mu == Some(t) && t < |s.calls| && SortedInto(s.calls[t].phase, now, s.entries, before, found)
  }

  /** Caller t finds its key missing and the map full. */
  ghost predicate StartsEviction(c: Config, s: State, t: nat)
    requires c.maxEntries >= 1
  {
    Enabled(c, s, Enter(t)) && KeyOf(c, s.calls[t]) !in s.entries && |s.entries| > Target(c)
  }

  lemma BeginsSorting(c: Config, s: State, t: nat)
    requires c.maxEntries >= 1 && StartsEviction(c, s, t)
    ensures Sorting(Apply(c, s, Enter(t)), t, s.clock, s.entries, map[])
  {
    hide ValidationKey, EvictionChoice, Store, Serve, DropPrefix, CredentialFingerprint;
  }

  /** While t holds the mutex nobody else touches the map. */
  lemma OthersKeepSorting(c: Config, s: State, step: Step, t: nat, now: Time,
                          before: map<string, nat>, found: map<string, Status>)
    requires Inv(c, s) && Sorting(s, t, now, before, found) && Enabled(c, s, step)
    requires !(step.Scan? && step.t == t) && !(step.Settle? && step.t == t)
    ensures Sorting(Apply(c, s, step), t, now, before, found)
  {
    hide ValidationKey, EvictionChoice, Store, Serve, DropPrefix, CredentialFingerprint, Expired, SortedInto;
    hide EventsOk, HeapOk, MapOk, CallsOk, SizeOk;
    assert PhaseOf(s, t).Scanning?;
  }

  lemma ClassesGrow(found: map<string, Status>, k: string, st: Status)
    requires k !in found
    ensures GoneKeys(found[k := st]) == GoneKeys(found) + if st.Gone? then {k} else {}
    ensures InFlightKeys(found[k := st]) == InFlightKeys(found) + if st.InFlight? then {k} else {}
    ensures LiveKeys(found[k := st]) == if st.Live? then LiveKeys(found)[k := st.expires] else LiveKeys(found)
  {
  }

  lemma SortOneMore(p: Phase, p': Phase, now: Time, entries: map<string, nat>, entries': map<string, nat>,
                    before: map<string, nat>,
                    found: map<string, Status>, k: string, st: Status)
    requires SortedInto(p, now, entries, before, found) && k in p.todo && p'.Scanning? && p'.now == now && p'.todo == p.todo - {k}
    requires
      match st
      case InFlight => entries' == entries && p'.live == p.live && p'.inFlight == p.inFlight + {k}
      case Gone => entries' == entries - {k} && p'.live == p.live && p'.inFlight == p.inFlight
      case Live(expires) => entries' == entries && p'.live == p.live[k := expires] && p'.inFlight == p.inFlight
    ensures k !in found && SortedInto(p', now, entries', before, found[k := st])
  {
    ClassesGrow(found, k, st);
    hide GoneKeys, LiveKeys, InFlightKeys;
    assert found[k := st].Keys == found.Keys + {k};
    assert (entries - {k}).Keys == entries.Keys - {k};
  }

  lemma ScanKeepsReading(c: Config, s: State, t: nat, k: string)
    requires c.maxEntries >= 1 && Enabled(c, s, Scan(t, k))
    ensures PhaseOf(Apply(c, s, Scan(t, k)), t).Scanning? && PhaseOf(Apply(c, s, Scan(t, k)), t).now == PhaseOf(s, t).now
    ensures |Apply(c, s, Scan(t, k)).calls| == |s.calls|
  {
    hide ValidationKey, Expired;
  }

  lemma ScanSorts(c: Config, s: State, t: nat, k: string, now: Time, before: map<string, nat>, found: map<string, Status>)
    requires c.maxEntries >= 1 && Sorting(s, t, now, before, found) && Enabled(c, s, Scan(t, k))
    ensures Sorting(Apply(c, s, Scan(t, k)), t, now, before, found[k := StatusOf(s.heap[s.entries[k]], now)])
  {
    hide GoneKeys, LiveKeys, InFlightKeys, Expired, ValidationKey, EvictionChoice;
    var s' := Apply(c, s, Scan(t, k));
    var st := StatusOf(s.heap[s.entries[k]], now);
    ScanEffect(c, s, t, k);
    ScanKeepsReading(c, s, t, k);
    SortOneMore(PhaseOf(s, t), PhaseOf(s', t), now, s.entries, s'.entries, before, found, k, st);
  }

  lemma {:induction false} RunSorts(c: Config, s: State, steps: seq<Step>, t: nat, now: Time,
                                    before: map<string, nat>, found: map<string, Status>)
    requires Inv(c, s) && IsRun(c, s, steps) && NotSettled(steps, t) && Sorting(s, t, now, before, found)
    ensures Sorting(Final(c, s, steps), t, now, before, Found(c, s, steps, t, now, found))
    ensures Inv(c, Final(c, s, steps))
    decreases |steps|
  {
    hide Sorting, Apply, Enabled, EventsOk, HeapOk, MapOk, CallsOk, LocksOk, SizeOk, StatusOf;
    if steps != [] {
      InvStep(c, s, steps[0]);
      assert forall i :: 0 <= i < |steps[1..]| ==> steps[1..][i] == steps[i + 1];
      if steps[0].Scan? && steps[0].t == t {
        ScanSorts(c, s, t, steps[0].key, now, before, found);
        RunSorts(c, Apply(c, s, steps[0]), steps[1..], t, now, before,
                 found[steps[0].key := StatusOfAt(c, s, steps[0], now)]);
      } else {
        OthersKeepSorting(c, s, steps[0], t, now, before, found);
        RunSorts(c, Apply(c, s, steps[0]), steps[1..], t, now, before, found);
      }
    }
  }

  ghost function StatusOfAt(c: Config, s: State, step: Step, now: Time): Status
    requires c.maxEntries >= 1 && step.Scan? && Enabled(c, s, step)
  {
    StatusOf(s.heap[s.entries[step.key]], now)
  }

  /** Settling what has been found is the eviction the policy allows, and the insert. */
  lemma SettlesFound(c: Config, s: State, t: nat, victims: set<string>, now: Time,
                     before: map<string, nat>, found: map<string, Status>)
    requires Inv(c, s) && Sorting(s, t, now, before, found) && Enabled(c, s, Settle(t, victims))
    requires KeyOf(c, s.calls[t]) !in before && |before| > Target(c)
    ensures
      var s', key := Apply(c, s, Settle(t, victims)), KeyOf(c, s.calls[t]);
      && found.Keys == before.Keys
      && Evicted(found, s'.entries.Keys - {key}, Target(c))
      && key in s'.entries && s'.entries[key] == |s.heap| && |s'.entries| <= c.maxEntries
      && forall k :: k in s'.entries && k != key ==> k in before && s'.entries[k] == before[k]
  {
    hide ValidationKey, EventsOk, HeapOk, MapOk, CallsOk, GoneKeys, LiveKeys, InFlightKeys, Evicted, EvictionChoice;
    SettleSize(c, s, t, victims);
    SettleEffect(c, s, t, victims);
    SettledMap(s.entries, victims, KeyOf(c, s.calls[t]), |s.heap|, before, found, Target(c));
  }

  lemma SettleEffect(c: Config, s: State, t: nat, victims: set<string>)
    requires c.maxEntries >= 1 && Enabled(c, s, Settle(t, victims))
    ensures Apply(c, s, Settle(t, victims)).entries == (s.entries - victims)[KeyOf(c, s.calls[t]) := |s.heap|]
  {
    hide ValidationKey, EvictionChoice;
  }

  lemma SettledMap(entries: map<string, nat>, victims: set<string>, key: string, entry: nat, before: map<string, nat>,
                   found: map<string, Status>, target: nat)
    requires found.Keys == before.Keys && key !in before && |before| > target
    requires entries.Keys == before.Keys - GoneKeys(found) && forall k :: k in entries ==> entries[k] == before[k]
    requires EvictionChoice(victims, LiveKeys(found), InFlightKeys(found), |entries|, target)
    ensures
      var after := (entries - victims)[key := entry];
      && Evicted(found, after.Keys - {key}, target)
      && forall k :: k in after && k != key ==> k in before && after[k] == before[k]
  {
    hide GoneKeys, LiveKeys, InFlightKeys, EvictionChoice;
    ClassesAdd(found);
    assert |entries| == |entries.Keys| && |found| == |found.Keys| && |before| == |before.Keys|;
    assert ((entries - victims)[key := entry]).Keys - {key} == entries.Keys - victims;
  }

  lemma ClassesAdd(found: map<string, Status>)
    ensures found.Keys - GoneKeys(found) == LiveKeys(found).Keys + InFlightKeys(found)
    ensures LiveKeys(found).Keys !! InFlightKeys(found)
    ensures |LiveKeys(found).Keys + InFlightKeys(found)| == |LiveKeys(found)| + |InFlightKeys(found)|
  {
    assert |LiveKeys(found).Keys| == |LiveKeys(found)|;
  }

  /** From a look-up that needs room to its insert, with any steps of any other callers in
      between: every entry of the map is looked at, once and on one clock reading; the
      expired idle ones go; then live ones go in order of expiry, and in-flight ones only
      when no live one is left, no more than make room; what stays is the same objects. */
  lemma WholeEviction(c: Config, s: State, t: nat, between: seq<Step>, victims: set<string>)
    requires Inv(c, s) && StartsEviction(c, s, t)
    requires IsRun(c, Apply(c, s, Enter(t)), between) && NotSettled(between, t)
    requires Enabled(c, Final(c, Apply(c, s, Enter(t)), between), Settle(t, victims))
    ensures
      var start := Apply(c, s, Enter(t));
      var found := Found(c, start, between, t, s.clock, map[]);
      var s' := Apply(c, Final(c, start, between), Settle(t, victims));
      var key := KeyOf(c, s.calls[t]);
      && found.Keys == s.entries.Keys
      && Evicted(found, s'.entries.Keys - {key}, Target(c))
      && key in s'.entries && |s'.entries| <= c.maxEntries
      && forall k :: k in s'.entries && k != key ==> k in s.entries && s'.entries[k] == s.entries[k]
  {
    hide Sorting, ValidationKey, EvictionChoice, Evicted;
    var start := Apply(c, s, Enter(t));
    BeginsSorting(c, s, t);
    InvStep(c, s, Enter(t));
    RunSorts(c, start, between, t, s.clock, s.entries, map[]);
    KeyStays(c, start, between, t);
    SettlesFound(c, Final(c, start, between), t, victims, s.clock, s.entries, Found(c, start, between, t, s.clock, map[]));
  }

  lemma {:induction false} KeyStays(c: Config, s: State, steps: seq<Step>, t: nat)
    requires c.maxEntries >= 1 && IsRun(c, s, steps) && t < |s.calls|
    ensures t < |Final(c, s, steps).calls| && Final(c, s, steps).calls[t].q == s.calls[t].q
    decreases |steps|
  {
    hide Apply, Enabled;
    if steps != [] {
      CallKeepsQuestion(c, s, steps[0], t);
      KeyStays(c, Apply(c, s, steps[0]), steps[1..], t);
    }
  }
}
