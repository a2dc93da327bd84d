/** An entry that has left the map, by eviction or invalidation, belongs to the calls that
    had it: nobody else ever touches it again, and nothing anybody else does changes what
    those calls are answered or what the entry holds. */
module ValidationDetached {
  import opened CacheKeys
  import opened ValidationPolicy
  import opened ValidationMachine
  import opened ValidationInvariants
  import opened ValidationTheorems

  predicate Detached(s: State, e: nat) {
    e < |s.heap| && forall k :: k in s.entries ==> s.entries[k] != e
  }

  /** The calls that have entry `e`. */
  function Owners(s: State, e: nat): set<nat> {
    set t | 0 <= t < |s.calls| && EntryOf(s.calls[t].phase) == Some(e)
  }

  /** `own` contains every call that has `e`; each of them has it still or is finished. */
  predicate OwnedBy(s: State, e: nat, own: set<nat>) {
    && (forall t :: 0 <= t < |s.calls| && EntryOf(s.calls[t].phase) == Some(e) ==> t in own)
    && (forall t :: t in own ==> t < |s.calls| && (EntryOf(s.calls[t].phase) == Some(e) || s.calls[t].phase.Finished?))
  }

  /** The steps of `own`, and the passing of time. */
  predicate IsOwn(step: Step, own: set<nat>) {
    step.Tick? || (IsCallStep(step) && step.t in own)
  }

  function OwnSteps(steps: seq<Step>, own: set<nat>): seq<Step> {
    if steps == [] then []
    else (if IsOwn(steps[0], own) then [steps[0]] else []) + OwnSteps(steps[1..], own)
  }

  datatype Return = Return(call: nat, answer: Answer, hit: bool)

  /** What the calls of `own` were answered, in order. */
  function Returns(log: seq<Event>, own: set<nat>): seq<Return> {
    if log == [] then []
    else
      var last := log[|log| - 1];
      Returns(log[..|log| - 1], own)
      + if last.Returned? && last.call in own then [Return(last.call, last.answer, last.hit)] else []
  }

  /** A phase without its positions in the history. */
  function Strip(p: Phase): Phase {
    match p
    case Waiting(e, _) => Waiting(e, 0)
    case Holding(e, _) => Holding(e, 0)
    case CountingHit(e, _) => CountingHit(e, 0)
    case CountingMiss(e, _, now) => CountingMiss(e, 0, now)
    case Fetching(e, _, now, _) => Fetching(e, 0, now, 0)
    case Storing(e, _, now, _) => Storing(e, 0, now, 0)
    case Leaving(e, _) => Leaving(e, 0)
    case _ => p
  }

  /** The answer a call is about to store. */
  function Fetched(s: State, t: nat): Option<Answer> {
    if t < |s.calls| && s.calls[t].phase.Storing? && s.calls[t].phase.source < |s.log|
       && s.log[s.calls[t].phase.source].Answered?
    then Some(s.log[s.calls[t].phase.source].answer) else None
  }

  predicate SameCall(s: State, r: State, t: nat) {
    && t < |s.calls| && t < |r.calls|
    && s.calls[t].q == r.calls[t].q && s.calls[t].bypass == r.calls[t].bypass
    && Strip(s.calls[t].phase) == Strip(r.calls[t].phase)
    && Fetched(s, t) == Fetched(r, t)
    && (s.calls[t].phase.Storing? ==> Fetched(s, t).Some?)
  }

  /** To `own` the two states look the same. */
  ghost predicate Alike(s: State, r: State, e: nat, own: set<nat>) {
    && s.clock == r.clock && r.mu.None?
    && e < |s.heap| && e < |r.heap|
    && s.heap[e].slot == r.heap[e].slot && s.heap[e].flight == r.heap[e].flight
    && (forall t :: t in own ==> SameCall(s, r, t))
    && Returns(s.log, own) == Returns(r.log, own)
  }

  lemma ReturnsNext(log: seq<Event>, x: Event, own: set<nat>)
    ensures Returns(log + [x], own) == Returns(log, own)
              + if x.Returned? && x.call in own then [Return(x.call, x.answer, x.hit)] else []
  {
    assert (log + [x])[..|log|] == log;
  }

  // ---- an entry once out stays out ----

  lemma StaysDetached(c: Config, s: State, step: Step, e: nat)
    requires c.maxEntries >= 1 && Detached(s, e) && Enabled(c, s, step)
    ensures Detached(Apply(c, s, step), e)
  {
    hide ValidationKey, EvictionChoice, Store, Serve, CredentialFingerprint, Expired;
  }

  /** A call keeps its entry to its end; one without gets one from the map, or a new one. */
  lemma EntryMoves(c: Config, s: State, step: Step)
    requires c.maxEntries >= 1 && Enabled(c, s, step) && IsCallStep(step)
    ensures
      var s', t := Apply(c, s, step), step.t;
      && t < |s.calls| && t < |s'.calls|
      && (EntryOf(s.calls[t].phase).Some? ==>
            EntryOf(s'.calls[t].phase) == EntryOf(s.calls[t].phase) || s'.calls[t].phase.Finished?)
      && (EntryOf(s.calls[t].phase).None? && EntryOf(s'.calls[t].phase).Some? ==>
            var x := EntryOf(s'.calls[t].phase).value;
            x == |s.heap| || (KeyOf(c, s.calls[t]) in s.entries && x == s.entries[KeyOf(c, s.calls[t])]))
      && !s.calls[t].phase.Finished?
  {
    hide ValidationKey, EvictionChoice, Store, Serve, CredentialFingerprint, Expired, DropPrefix;
  }

  lemma NewcomerHasNoEntry(c: Config, s: State, step: Step, t: nat)
    requires c.maxEntries >= 1 && Enabled(c, s, step) && |s.calls| <= t < |Apply(c, s, step).calls|
    ensures EntryOf(Apply(c, s, step).calls[t].phase).None?
  {
    hide ValidationKey, EvictionChoice, Store, Serve, CredentialFingerprint, Expired, DropPrefix;
  }

  /** No call that did not have it ever gets it. */
  lemma OwnersStayAt(c: Config, s: State, step: Step, e: nat, own: set<nat>, t: nat)
    requires c.maxEntries >= 1 && Detached(s, e) && OwnedBy(s, e, own) && Enabled(c, s, step)
    requires t < |Apply(c, s, step).calls|
    ensures EntryOf(Apply(c, s, step).calls[t].phase) == Some(e) ==> t in own
    ensures t in own ==> EntryOf(Apply(c, s, step).calls[t].phase) == Some(e) || Apply(c, s, step).calls[t].phase.Finished?
  {
    hide Apply, Enabled;
    if t >= |s.calls| {
      NewcomerHasNoEntry(c, s, step, t);
    } else if IsCallStep(step) && step.t == t {
      EntryMoves(c, s, step);
    } else {
      OthersStay(c, s, step, t);
    }
  }

  lemma OwnersStay(c: Config, s: State, step: Step, e: nat, own: set<nat>)
    requires c.maxEntries >= 1 && Detached(s, e) && OwnedBy(s, e, own) && Enabled(c, s, step)
    ensures OwnedBy(Apply(c, s, step), e, own)
  {
    hide Apply, Enabled, Detached, EntryOf;
    var s' := Apply(c, s, step);
    forall t | t in own
      ensures t < |s'.calls|
    {
      CallKeepsQuestion(c, s, step, t);
    }
    forall t | 0 <= t < |s'.calls|
      ensures EntryOf(s'.calls[t].phase) == Some(e) ==> t in own
      ensures t in own ==> EntryOf(s'.calls[t].phase) == Some(e) || s'.calls[t].phase.Finished?
    {
      OwnersStayAt(c, s, step, e, own, t);
    }
  }

  // ---- what others do does not show ----

  /** A step of anybody else leaves the entry, the owners and their answers alone. */
  lemma OtherStep(c: Config, s: State, r: State, e: nat, own: set<nat>, step: Step)
    requires c.maxEntries >= 1 && OwnedBy(s, e, own) && Alike(s, r, e, own)
    requires Enabled(c, s, step) && !IsOwn(step, own)
    ensures Alike(Apply(c, s, step), r, e, own)
  {
    hide Apply, Enabled, Strip, Returns, EntryOf;
    OtherHeap(c, s, step, e, own);
    OtherLog(c, s, step, own);
    var s' := Apply(c, s, step);
    StepExtends(c, s, step);
    forall t | t in own
      ensures SameCall(s', r, t)
    {
      OthersStay(c, s, step, t);
    }
  }

  lemma OtherHeap(c: Config, s: State, step: Step, e: nat, own: set<nat>)
    requires c.maxEntries >= 1 && e < |s.heap| && OwnedBy(s, e, own) && Enabled(c, s, step) && !IsOwn(step, own)
    ensures
      var s' := Apply(c, s, step);
      && e < |s'.heap| && s'.heap[e].slot == s.heap[e].slot && s'.heap[e].flight == s.heap[e].flight
      && s'.clock == s.clock
  {
    hide ValidationKey, EvictionChoice, Store, Serve, CredentialFingerprint, Expired, DropPrefix;
  }

  lemma OtherLog(c: Config, s: State, step: Step, own: set<nat>)
    requires c.maxEntries >= 1 && Enabled(c, s, step) && !IsOwn(step, own)
    ensures Returns(Apply(c, s, step).log, own) == Returns(s.log, own)
  {
    hide ValidationKey, EvictionChoice, Store, CredentialFingerprint, Expired, DropPrefix, Returns;
    var s' := Apply(c, s, step);
    if s'.log != s.log {
      var x := s'.log[|s.log|];
      assert s'.log == s.log + [x];
      ReturnsNext(s.log, x, own);
    }
  }

  // ---- and what the owners do is all there is ----

  lemma OwnPhase(s: State, r: State, e: nat, own: set<nat>, t: nat)
    requires OwnedBy(s, e, own) && Alike(s, r, e, own) && t in own && !s.calls[t].phase.Finished?
    ensures EntryOf(s.calls[t].phase) == Some(e) && EntryOf(r.calls[t].phase) == Some(e)
  {
    assert SameCall(s, r, t);
  }

  /** The owners can take the same steps in the state where nobody else moves. */
  lemma OwnEnabled(c: Config, s: State, r: State, e: nat, own: set<nat>, step: Step)
    requires c.maxEntries >= 1 && OwnedBy(s, e, own) && Alike(s, r, e, own)
    requires Enabled(c, s, step) && IsOwn(step, own)
    ensures Enabled(c, r, step)
  {
    hide ValidationKey, EvictionChoice, Returns;
    if !step.Tick? {
      assert SameCall(s, r, step.t);
      EntryMoves(c, s, step);
      OwnPhase(s, r, e, own, step.t);
    }
  }

  /** The other owners' calls are untouched, and the answers they are about to store. */
  lemma SameCallStays(c: Config, s: State, r: State, step: Step, t: nat)
    requires c.maxEntries >= 1 && SameCall(s, r, t) && Enabled(c, s, step) && Enabled(c, r, step)
    requires step.Tick? || (IsCallStep(step) && step.t != t)
    ensures SameCall(Apply(c, s, step), Apply(c, r, step), t)
  {
    hide Apply, Enabled;
    OthersStay(c, s, step, t);
    OthersStay(c, r, step, t);
    StepExtends(c, s, step);
    StepExtends(c, r, step);
  }

  /** The moving owner ends up alike, whichever step it takes. */
  lemma SameCallWaits(c: Config, s: State, r: State, e: nat, step: Step)
    requires c.maxEntries >= 1 && Enabled(c, s, step) && Enabled(c, r, step) && IsCallStep(step)
    requires SameCall(s, r, step.t) && s.clock == r.clock
    requires EntryOf(s.calls[step.t].phase) == EntryOf(r.calls[step.t].phase) == Some(e)
    requires e < |s.heap| && e < |r.heap| && s.heap[e].slot == r.heap[e].slot && s.heap[e].flight == r.heap[e].flight
    requires step.Lock? || step.Unlock? || step.CountHit? || step.CountMiss?
    ensures SameCall(Apply(c, s, step), Apply(c, r, step), step.t)
  {
    hide ValidationKey, EvictionChoice, Store, Serve, CredentialFingerprint, Expired, DropPrefix, InsertFor, Returns;
  }

  lemma SameCallReads(c: Config, s: State, r: State, e: nat, step: Step)
    requires c.maxEntries >= 1 && Enabled(c, s, step) && Enabled(c, r, step) && IsCallStep(step)
    requires SameCall(s, r, step.t) && s.clock == r.clock
    requires EntryOf(s.calls[step.t].phase) == EntryOf(r.calls[step.t].phase) == Some(e)
    requires e < |s.heap| && e < |r.heap| && s.heap[e].slot == r.heap[e].slot && s.heap[e].flight == r.heap[e].flight
    requires step.Read?
    ensures SameCall(Apply(c, s, step), Apply(c, r, step), step.t)
  {
    hide ValidationKey, EvictionChoice, Store, CredentialFingerprint, Expired, DropPrefix, InsertFor, Returns;
  }

  lemma SameCallFetches(c: Config, s: State, r: State, e: nat, step: Step)
    requires c.maxEntries >= 1 && Enabled(c, s, step) && Enabled(c, r, step) && IsCallStep(step)
    requires SameCall(s, r, step.t) && s.clock == r.clock
    requires EntryOf(s.calls[step.t].phase) == EntryOf(r.calls[step.t].phase) == Some(e)
    requires e < |s.heap| && e < |r.heap| && s.heap[e].slot == r.heap[e].slot && s.heap[e].flight == r.heap[e].flight
    requires step.Answer? || step.Keep?
    ensures SameCall(Apply(c, s, step), Apply(c, r, step), step.t)
  {
    hide ValidationKey, EvictionChoice, Store, Serve, CredentialFingerprint, Expired, DropPrefix, InsertFor, Returns;
  }

  lemma SameCallMoves(c: Config, s: State, r: State, e: nat, step: Step)
    requires c.maxEntries >= 1 && Enabled(c, s, step) && Enabled(c, r, step) && IsCallStep(step)
    requires SameCall(s, r, step.t) && s.clock == r.clock
    requires EntryOf(s.calls[step.t].phase) == EntryOf(r.calls[step.t].phase) == Some(e)
    requires e < |s.heap| && e < |r.heap| && s.heap[e].slot == r.heap[e].slot && s.heap[e].flight == r.heap[e].flight
    ensures SameCall(Apply(c, s, step), Apply(c, r, step), step.t)
  {
    hide Apply, Enabled, Strip;
    if step.Read? {
      SameCallReads(c, s, r, e, step);
    } else if step.Answer? || step.Keep? {
      SameCallFetches(c, s, r, e, step);
    } else {
      if step.Enter? || step.Scan? || step.Settle? {
        HasNoEntryYet(c, s, step);
      }
      SameCallWaits(c, s, r, e, step);
    }
  }

  lemma HasNoEntryYet(c: Config, s: State, step: Step)
    requires c.maxEntries >= 1 && Enabled(c, s, step) && (step.Enter? || step.Scan? || step.Settle?)
    ensures step.t < |s.calls| && EntryOf(s.calls[step.t].phase).None?
  {
    hide ValidationKey, EvictionChoice;
  }

  lemma SameSlotStays(c: Config, s: State, r: State, e: nat, step: Step)
    requires c.maxEntries >= 1 && Enabled(c, s, step) && Enabled(c, r, step) && IsCallStep(step)
    requires SameCall(s, r, step.t) && s.clock == r.clock
    requires EntryOf(s.calls[step.t].phase) == EntryOf(r.calls[step.t].phase) == Some(e)
    requires e < |s.heap| && e < |r.heap| && s.heap[e].slot == r.heap[e].slot && s.heap[e].flight == r.heap[e].flight
    requires step.Read? || step.CountHit? || step.CountMiss? || step.Answer?
    ensures
      var s', r' := Apply(c, s, step), Apply(c, r, step);
      && e < |s'.heap| && e < |r'.heap| && s'.heap[e].slot == r'.heap[e].slot && s'.heap[e].flight == r'.heap[e].flight
      && s'.clock == r'.clock && r'.mu == r.mu
  {
    hide ValidationKey, EvictionChoice, Store, Serve, CredentialFingerprint, Expired, DropPrefix, InsertFor, Returns;
  }

  lemma SameFlightMoves(c: Config, s: State, r: State, e: nat, step: Step)
    requires c.maxEntries >= 1 && Enabled(c, s, step) && Enabled(c, r, step) && IsCallStep(step)
    requires SameCall(s, r, step.t) && s.clock == r.clock
    requires EntryOf(s.calls[step.t].phase) == EntryOf(r.calls[step.t].phase) == Some(e)
    requires e < |s.heap| && e < |r.heap| && s.heap[e].slot == r.heap[e].slot && s.heap[e].flight == r.heap[e].flight
    requires step.Lock? || step.Unlock?
    ensures
      var s', r' := Apply(c, s, step), Apply(c, r, step);
      && e < |s'.heap| && e < |r'.heap| && s'.heap[e].slot == r'.heap[e].slot && s'.heap[e].flight == r'.heap[e].flight
      && s'.clock == r'.clock && r'.mu == r.mu
  {
    hide ValidationKey, EvictionChoice, Store, Serve, CredentialFingerprint, Expired, DropPrefix, InsertFor, Returns;
  }

  lemma SameSlotKept(c: Config, s: State, r: State, e: nat, step: Step)
    requires c.maxEntries >= 1 && Enabled(c, s, step) && Enabled(c, r, step) && IsCallStep(step)
    requires SameCall(s, r, step.t) && s.clock == r.clock
    requires EntryOf(s.calls[step.t].phase) == EntryOf(r.calls[step.t].phase) == Some(e)
    requires e < |s.heap| && e < |r.heap| && s.heap[e].slot == r.heap[e].slot && s.heap[e].flight == r.heap[e].flight
    requires step.Keep?
    ensures
      var s', r' := Apply(c, s, step), Apply(c, r, step);
      && e < |s'.heap| && e < |r'.heap| && s'.heap[e].slot == r'.heap[e].slot && s'.heap[e].flight == r'.heap[e].flight
      && s'.clock == r'.clock && r'.mu == r.mu
  {
    hide ValidationKey, EvictionChoice, Store, Serve, CredentialFingerprint, Expired, DropPrefix, InsertFor, Returns;
  }

  lemma SameEntryMoves(c: Config, s: State, r: State, e: nat, step: Step)
    requires c.maxEntries >= 1 && Enabled(c, s, step) && Enabled(c, r, step) && IsCallStep(step)
    requires SameCall(s, r, step.t) && s.clock == r.clock
    requires EntryOf(s.calls[step.t].phase) == EntryOf(r.calls[step.t].phase) == Some(e)
    requires e < |s.heap| && e < |r.heap| && s.heap[e].slot == r.heap[e].slot && s.heap[e].flight == r.heap[e].flight
    ensures
      var s', r' := Apply(c, s, step), Apply(c, r, step);
      && e < |s'.heap| && e < |r'.heap| && s'.heap[e].slot == r'.heap[e].slot && s'.heap[e].flight == r'.heap[e].flight
      && s'.clock == r'.clock && r'.mu == r.mu
  {
    hide Apply, Enabled, Strip;
    if step.Enter? || step.Scan? || step.Settle? {
      HasNoEntryYet(c, s, step);
    } else if step.Keep? {
      SameSlotKept(c, s, r, e, step);
    } else if step.Lock? || step.Unlock? {
      SameFlightMoves(c, s, r, e, step);
    } else {
      SameSlotStays(c, s, r, e, step);
    }
  }

  /** Both histories get the same return, or none. */
  lemma SameReturn(c: Config, s: State, r: State, e: nat, step: Step, own: set<nat>)
    requires c.maxEntries >= 1 && Enabled(c, s, step) && Enabled(c, r, step) && IsCallStep(step)
    requires SameCall(s, r, step.t) && s.clock == r.clock
    requires EntryOf(s.calls[step.t].phase) == EntryOf(r.calls[step.t].phase) == Some(e)
    requires e < |s.heap| && e < |r.heap| && s.heap[e].slot == r.heap[e].slot
    requires Returns(s.log, own) == Returns(r.log, own)
    ensures Returns(Apply(c, s, step).log, own) == Returns(Apply(c, r, step).log, own)
  {
    hide ValidationKey, EvictionChoice, Store, CredentialFingerprint, Expired, DropPrefix, Returns;
    var s', r' := Apply(c, s, step), Apply(c, r, step);
    if s'.log != s.log {
      assert s'.log == s.log + [s'.log[|s.log|]] && r'.log == r.log + [r'.log[|r.log|]];
      ReturnsNext(s.log, s'.log[|s.log|], own);
      ReturnsNext(r.log, r'.log[|r.log|], own);
    }
  }

  lemma OwnStep(c: Config, s: State, r: State, e: nat, own: set<nat>, step: Step)
    requires c.maxEntries >= 1 && OwnedBy(s, e, own) && Alike(s, r, e, own)
    requires Enabled(c, s, step) && Enabled(c, r, step) && IsOwn(step, own)
    ensures Alike(Apply(c, s, step), Apply(c, r, step), e, own)
  {
    var s', r' := Apply(c, s, step), Apply(c, r, step);
    if step.Tick? {
      forall t | t in own ensures SameCall(s', r', t) { SameCallStays(c, s, r, step, t); }
    } else {
      hide Apply, Enabled, Strip, Returns, EntryOf;
      assert SameCall(s, r, step.t);
      EntryMoves(c, s, step);
      OwnPhase(s, r, e, own, step.t);
      SameEntryMoves(c, s, r, e, step);
      SameReturn(c, s, r, e, step, own);
      forall t | t in own
        ensures SameCall(s', r', t)
      {
        if t == step.t {
          SameCallMoves(c, s, r, e, step);
        } else {
          SameCallStays(c, s, r, step, t);
        }
      }
    }
  }

  lemma {:induction false} Simulates(c: Config, s: State, r: State, e: nat, own: set<nat>, steps: seq<Step>)
    requires c.maxEntries >= 1 && IsRun(c, s, steps)
    requires Detached(s, e) && OwnedBy(s, e, own) && Alike(s, r, e, own)
    ensures Detached(Final(c, s, steps), e) && OwnedBy(Final(c, s, steps), e, own)
    ensures IsRun(c, r, OwnSteps(steps, own)) && Alike(Final(c, s, steps), Final(c, r, OwnSteps(steps, own)), e, own)
    decreases |steps|
  {
    hide Apply, Enabled, Detached, OwnedBy, Alike, IsOwn;
    if steps != [] {
      var step := steps[0];
      StaysDetached(c, s, step, e);
      OwnersStay(c, s, step, e, own);
      if IsOwn(step, own) {
        OwnEnabled(c, s, r, e, own, step);
        OwnStep(c, s, r, e, own, step);
        Simulates(c, Apply(c, s, step), Apply(c, r, step), e, own, steps[1..]);
        assert ([step] + OwnSteps(steps[1..], own))[1..] == OwnSteps(steps[1..], own);
      } else {
        OtherStep(c, s, r, e, own, step);
        Simulates(c, Apply(c, s, step), r, e, own, steps[1..]);
        assert [] + OwnSteps(steps[1..], own) == OwnSteps(steps[1..], own);
      }
    }
  }

  /** From any reachable state and over any run of all callers, evictions, look-ups and
      invalidations included: an entry out of the map stays out, only the calls that had
      it ever have it, and what they are answered, how far they get and what the entry
      holds are what they would be if nobody but they took any step. */
  lemma DetachedEntryIsItsOwners(c: Config, s: State, e: nat, steps: seq<Step>)
    requires Inv(c, s) && Detached(s, e) && IsRun(c, s, steps)
    ensures
      var own := Owners(s, e);
      var alone := s.(mu := None);
      var s' := Final(c, s, steps);
      && Detached(s', e) && OwnedBy(s', e, own)
      && IsRun(c, alone, OwnSteps(steps, own))
      && var r' := Final(c, alone, OwnSteps(steps, own));
      && e < |r'.heap| && s'.heap[e].slot == r'.heap[e].slot
      && Returns(s'.log, own) == Returns(r'.log, own)
      && forall t :: t in own ==> t < |s'.calls| && t < |r'.calls| && Strip(s'.calls[t].phase) == Strip(r'.calls[t].phase)
  {
    var own := Owners(s, e);
    forall t | t in own
      ensures SameCall(s, s.(mu := None), t)
    {
      assert CallOk(c, s, t);
    }
    Simulates(c, s, s.(mu := None), e, own, steps);
    forall t | t in own
      ensures SameCall(Final(c, s, steps), Final(c, s.(mu := None), OwnSteps(steps, own)), t)
    {
    }
  }

  /** Whatever takes a key out of the map leaves its entry detached. */
  lemma RemovedIsDetached(c: Config, s: State, step: Step, k: string)
    requires Inv(c, s) && Enabled(c, s, step) && k in s.entries && k !in Apply(c, s, step).entries
    ensures Detached(Apply(c, s, step), s.entries[k])
  {
    hide ValidationKey, EvictionChoice, Store, Serve, CredentialFingerprint, Expired;
    hide EventsOk, HeapOk, CallsOk, LocksOk, SizeOk;
    var e := s.entries[k];
    forall j | j in s.entries && s.entries[j] == e
      ensures j == k
    {
      assert s.heap[e].key == j && s.heap[e].key == k;
    }
  }
}
