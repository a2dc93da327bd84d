/** How TokenFor calls end when they do not end with a token, and what the bridge's nested
    call guarantees. */
module TokenOutcomes {
  import opened CacheKeys
  import opened ValidationPolicy
  import opened TokenKeys
  import opened TokenMachine
  import opened TokenInvariants
  import opened TokenTheorems

  // ---- errors ----

  /** Flight `f` brought `out` for key `k`. */
  predicate IsOutcome(s: State, f: nat, k: string, out: Outcome) {
    f < |s.flights| && s.flights[f].key == k && s.flights[f].outcome == Some(out)
  }

  /** A call's error is that of its own context, or of a fetch for its own key. */
  ghost predicate ErrorIsOwn(c: Client, s: State, t: nat)
    requires t < |s.calls|
  {
    var call := s.calls[t];
    call.phase.Done? && call.phase.out.Error? ==>
      call.phase.out == Error(ContextEnded(call.ctx)) || exists f: nat :: IsOutcome(s, f, CallKey(c, call), call.phase.out)
  }

  ghost predicate ErrorsOk(c: Client, s: State) {
    TokensOk(c, s) && forall t :: 0 <= t < |s.calls| ==> ErrorIsOwn(c, s, t)
  }

  lemma FinishesWithOwnError(c: Client, max: nat, s: State, step: Step)
    requires Inv(c, max, s) && ErrorsOk(c, s) && Enabled(s, step) && IsCallStep(step) && step.t < |s.calls|
    ensures step.t < |Apply(c, max, s, step).calls| && ErrorIsOwn(c, Apply(c, max, s, step), step.t)
  {
    hide Key, Promote, Discard, Keep, CacheOk, ItemsOk, HitsOk, ErrorIsOwn;
    var t := step.t;
    var s' := Apply(c, max, s, step);
    StepExtends(c, max, s, step);
    assert CallOk(c, s, t);
    if step.Close? || step.Wake? {
      var f := s.calls[t].phase.flight;
      assert FlightOk(s, f);
      if s'.calls[t].phase.Done? {
        assert IsOutcome(s', f, CallKey(c, s'.calls[t]), s'.calls[t].phase.out);
      }
    }
    EndsOwn(c, s', t);
  }

  lemma EndsOwn(c: Client, s: State, t: nat)
    requires t < |s.calls|
    requires
      var call := s.calls[t];
      call.phase.Done? && call.phase.out.Error? ==>
        call.phase.out == Error(ContextEnded(call.ctx)) || exists f: nat :: IsOutcome(s, f, CallKey(c, call), call.phase.out)
    ensures ErrorIsOwn(c, s, t)
  {
  }

  lemma ErrorStays(c: Client, s: State, s': State, t: nat)
    requires Extends(s, s') && t < |s.calls| && ErrorIsOwn(c, s, t) && s'.calls[t] == s.calls[t]
    ensures ErrorIsOwn(c, s', t)
  {
    hide Key;
    var call := s.calls[t];
    if call.phase.Done? && call.phase.out.Error? && call.phase.out != Error(ContextEnded(call.ctx)) {
      var f: nat :| IsOutcome(s, f, CallKey(c, call), call.phase.out);
      assert IsOutcome(s', f, CallKey(c, call), call.phase.out);
    }
  }

  lemma ErrorStep(c: Client, max: nat, s: State, step: Step, t: nat)
    requires Inv(c, max, s) && ErrorsOk(c, s) && Enabled(s, step) && t < |Apply(c, max, s, step).calls|
    ensures ErrorIsOwn(c, Apply(c, max, s, step), t)
  {
    hide Apply, Enabled, Key, FlightsOk, InflightOk, Extends;
    if t >= |s.calls| {
      NewCallOpen(c, max, s, step, t);
    } else if IsCallStep(step) && step.t == t {
      FinishesWithOwnError(c, max, s, step);
    } else {
      OthersStay(c, max, s, step, t);
      StepExtends(c, max, s, step);
      ErrorStays(c, s, Apply(c, max, s, step), t);
    }
  }

  lemma {:induction false} ErrorsRun(c: Client, max: nat, s: State, steps: seq<Step>)
    requires Inv(c, max, s) && ErrorsOk(c, s) && IsRun(c, max, s, steps)
    ensures ErrorsOk(c, Final(c, max, s, steps))
    decreases |steps|
  {
    hide Apply, Enabled, Inv, ErrorIsOwn, TokensOk;
    if steps != [] {
      var s' := Apply(c, max, s, steps[0]);
      InvStep(c, max, s, steps[0]);
      TokensStep(c, max, s, steps[0]);
      forall t | 0 <= t < |s'.calls| ensures ErrorIsOwn(c, s', t) { ErrorStep(c, max, s, steps[0], t); }
      ErrorsRun(c, max, s', steps[1..]);
    }
  }

  /** Every error a call ends with is its own context's, which ended, or what a fetch for
      its own key brought. */
  lemma EveryErrorIsOwn(c: Client, max: nat, s0: State, steps: seq<Step>, t: nat)
    requires Init(s0) && IsRun(c, max, s0, steps)
    requires
      var s := Final(c, max, s0, steps);
      t < |s.calls| && s.calls[t].phase.Done? && s.calls[t].phase.out.Error?
    ensures
      var s := Final(c, max, s0, steps);
      var call := s.calls[t];
      || (call.phase.out == Error(ContextEnded(call.ctx)) && call.ctx in s.cancelled)
      || exists f: nat :: IsOutcome(s, f, CallKey(c, call), call.phase.out)
  {
    hide Key, Inv;
    InvInit(c, max, s0);
    ErrorsRun(c, max, s0, steps);
    assert ErrorIsOwn(c, Final(c, max, s0, steps), t);
    if Final(c, max, s0, steps).calls[t].phase.out.cause.ContextEnded? {
      NobodyInheritsACancellation(c, max, s0, steps, t);
    }
  }

  // ---- waiters ----

  lemma {:induction false} SettledStays(c: Client, max: nat, s: State, steps: seq<Step>, f: nat)
    requires Inv(c, max, s) && IsRun(c, max, s, steps) && f < |s.flights| && s.flights[f].outcome.Some?
    ensures
      var s' := Final(c, max, s, steps);
      && f < |s'.flights| && s'.flights[f].outcome == s.flights[f].outcome
      && s'.flights[f].leaderCancelled == s.flights[f].leaderCancelled
    decreases |steps|
  {
    hide Apply, Enabled, Key;
    if steps != [] {
      InvStep(c, max, s, steps[0]);
      StepExtends(c, max, s, steps[0]);
      SettledStays(c, max, Apply(c, max, s, steps[0]), steps[1..], f);
    }
  }

  lemma PublishSettles(c: Client, max: nat, s: State, t: nat)
    requires Inv(c, max, s) && Enabled(s, Publish(t))
    ensures
      var s', p := Apply(c, max, s, Publish(t)), s.calls[t].phase;
      && p.flight < |s'.flights| && s'.flights[p.flight].outcome == Some(p.out)
      && s'.flights[p.flight].leaderCancelled == (p.out.Error? && s.calls[t].ctx in s.cancelled)
  {
    hide Key, Keep;
  }

  /** What a waiter makes of its leader's result, however long it sleeps: it takes it, a
      token or an error, unless the leader failed with its context ended; then it starts
      over. */
  lemma WaiterTakesOrRetries(c: Client, max: nat, s: State, t: nat, steps: seq<Step>, u: nat)
    requires Inv(c, max, s) && Enabled(s, Publish(t))
    requires IsRun(c, max, Apply(c, max, s, Publish(t)), steps)
    requires
      var s2 := Final(c, max, Apply(c, max, s, Publish(t)), steps);
      Enabled(s2, Wake(u)) && s2.calls[u].phase == Joined(s.calls[t].phase.flight)
    ensures
      var s2, out := Final(c, max, Apply(c, max, s, Publish(t)), steps), s.calls[t].phase.out;
      Apply(c, max, s2, Wake(u)).calls[u].phase == if out.Error? && s.calls[t].ctx in s.cancelled then Looping else Done(out)
  {
    hide Key, Keep, Inv, PublishStep;
    PublishSettles(c, max, s, t);
    InvStep(c, max, s, Publish(t));
    SettledStays(c, max, Apply(c, max, s, Publish(t)), steps, s.calls[t].phase.flight);
  }

  // ---- the bridge ----

  /** Call `u` asks for the app's own token on behalf of call `t`, and ended with `out`. */
  predicate IsActorOf(s: State, u: nat, t: nat, out: Outcome) {
    && u < |s.calls| && t < |s.calls|
    && s.calls[u].req == ActorToken && s.calls[u].ctx == s.calls[t].ctx && s.calls[u].phase == Done(out)
  }

  /** The app's own token is in hand for call `t`. */
  ghost predicate HasActor(s: State, t: nat) {
    exists u: nat, tok :: IsActorOf(s, u, t, Got(tok))
  }

  /** `out` is what an exchange made with the app's own token brought, or why there is no
      such token. */
  ghost predicate Bridged(s: State, t: nat, out: Outcome) {
    HasActor(s, t) || (out.Error? && exists u: nat :: IsActorOf(s, u, t, out))
  }

  ghost predicate CallBridged(s: State, t: nat)
    requires t < |s.calls|
  {
    s.calls[t].req.Exchange? ==>
      && (s.calls[t].phase.Leading? ==> HasActor(s, t))
      && (s.calls[t].phase.Returned? ==> Bridged(s, t, s.calls[t].phase.out))
  }

  ghost predicate FlightBridged(s: State, f: nat)
    requires f < |s.flights|
  {
    var x := s.flights[f];
    x.outcome.Some? && x.leader < |s.calls| && s.calls[x.leader].req.Exchange? ==> Bridged(s, x.leader, x.outcome.value)
  }

  ghost predicate BridgeOk(s: State) {
    && (forall t :: 0 <= t < |s.calls| ==> CallBridged(s, t))
    && (forall f :: 0 <= f < |s.flights| ==> FlightBridged(s, f))
  }

  /** Calls that have ended stay as they are. */
  ghost predicate DoneStay(s: State, s': State) {
    |s.calls| <= |s'.calls| && forall u :: 0 <= u < |s.calls| && s.calls[u].phase.Done? ==> s'.calls[u] == s.calls[u]
  }

  lemma StepKeepsDone(c: Client, max: nat, s: State, step: Step)
    requires Inv(c, max, s) && Enabled(s, step)
    ensures DoneStay(s, Apply(c, max, s, step)) && Extends(s, Apply(c, max, s, step))
  {
    hide Apply, Enabled, Key, Extends;
    StepExtends(c, max, s, step);
    CallsOnlyGrow(c, max, s, step);
    forall u | 0 <= u < |s.calls| && s.calls[u].phase.Done?
      ensures Apply(c, max, s, step).calls[u] == s.calls[u]
    {
      if IsCallStep(step) { DoneStays(c, max, s, step); }
      OthersStay(c, max, s, step, u);
    }
  }

  lemma CallsOnlyGrow(c: Client, max: nat, s: State, step: Step)
    requires Enabled(s, step)
    ensures |s.calls| <= |Apply(c, max, s, step).calls|
  {
    hide Key, Promote, Discard, Keep, IsFresh;
  }

  lemma ActorStays(s: State, s': State, t: nat)
    requires DoneStay(s, s') && Extends(s, s') && HasActor(s, t)
    ensures HasActor(s', t)
  {
    var u: nat, tok :| IsActorOf(s, u, t, Got(tok));
    assert IsActorOf(s', u, t, Got(tok));
  }

  lemma BridgedStays(s: State, s': State, t: nat, out: Outcome)
    requires DoneStay(s, s') && Extends(s, s') && Bridged(s, t, out)
    ensures Bridged(s', t, out)
  {
    if HasActor(s, t) {
      ActorStays(s, s', t);
    } else {
      var u: nat :| IsActorOf(s, u, t, out);
      assert IsActorOf(s', u, t, out);
    }
  }

  /** How a call comes to be asking, or to have been answered. */
  lemma OwnStepBridged(c: Client, max: nat, s: State, step: Step)
    requires Inv(c, max, s) && BridgeOk(s) && Enabled(s, step) && IsCallStep(step) && step.t < |s.calls|
    requires DoneStay(s, Apply(c, max, s, step)) && Extends(s, Apply(c, max, s, step))
    ensures step.t < |Apply(c, max, s, step).calls| && CallBridged(Apply(c, max, s, step), step.t)
  {
    hide Key, Promote, Discard, Keep, IsFresh, HasActor, Bridged, CacheOk, ItemsOk, HitsOk, InflightOk, FlightsOk;
    var t := step.t;
    var s' := Apply(c, max, s, step);
    assert CallOk(c, s, t) && CallBridged(s, t);
    match step
    case Resume(_) => ResumeIsBridged(c, max, s, t);
    case FetchReturns(_, out) =>
      if s.calls[t].req.Exchange? {
        ActorStays(s, s', t);
        ActorBridges(s', t, out);
      }
    case _ =>
  }

  lemma ActorBridges(s: State, t: nat, out: Outcome)
    requires HasActor(s, t)
    ensures Bridged(s, t, out)
  {
  }

  lemma ResumeIsBridged(c: Client, max: nat, s: State, t: nat)
    requires Inv(c, max, s) && Enabled(s, Resume(t))
    ensures t < |Apply(c, max, s, Resume(t)).calls| && CallBridged(Apply(c, max, s, Resume(t)), t)
  {
    hide Key, CacheOk, ItemsOk, HitsOk, InflightOk, FlightsOk;
    assert CallOk(c, s, t);
    var s', u := Apply(c, max, s, Resume(t)), s.calls[t].phase.child;
    assert IsActorOf(s', u, t, s.calls[u].phase.out);
  }

  lemma CallBridgedStep(c: Client, max: nat, s: State, step: Step, t: nat)
    requires Inv(c, max, s) && BridgeOk(s) && Enabled(s, step) && t < |Apply(c, max, s, step).calls|
    ensures CallBridged(Apply(c, max, s, step), t)
  {
    hide Apply, Enabled, Key, HasActor, Bridged, Extends, DoneStay, IsActorOf;
    StepKeepsDone(c, max, s, step);
    if t >= |s.calls| {
      NewCallLooks(c, max, s, step, t);
    } else if IsCallStep(step) && step.t == t {
      OwnStepBridged(c, max, s, step);
    } else {
      OthersStay(c, max, s, step, t);
      assert CallBridged(s, t);
      if s.calls[t].req.Exchange? && s.calls[t].phase.Leading? {
        ActorStays(s, Apply(c, max, s, step), t);
      }
      if s.calls[t].req.Exchange? && s.calls[t].phase.Returned? {
        BridgedStays(s, Apply(c, max, s, step), t, s.calls[t].phase.out);
      }
    }
  }

  lemma NewCallLooks(c: Client, max: nat, s: State, step: Step, t: nat)
    requires Enabled(s, step) && |s.calls| <= t < |Apply(c, max, s, step).calls|
    ensures Apply(c, max, s, step).calls[t].phase.Looping?
  {
    hide Key, Promote, Discard, Keep, IsFresh;
  }

  /** A flight's outcome is what its leader had been returned. */
  lemma OutcomeComesFrom(c: Client, max: nat, s: State, step: Step, f: nat)
    requires Inv(c, max, s) && Enabled(s, step) && f < |Apply(c, max, s, step).flights|
    requires Apply(c, max, s, step).flights[f].outcome.Some?
    ensures
      var s' := Apply(c, max, s, step);
      && f < |s.flights| && s'.flights[f].leader == s.flights[f].leader < |s.calls|
      && (s.flights[f].outcome == s'.flights[f].outcome
          || (var p := s.calls[s.flights[f].leader].phase; p.Returned? && Some(p.out) == s'.flights[f].outcome))
  {
    hide Key, Promote, Discard, Keep, IsFresh, CacheOk, ItemsOk, HitsOk;
    if f < |s.flights| {
      assert FlightOk(s, f);
    }
    if step.Publish? {
      assert LeadsFlight(s, step.t, s.calls[step.t].phase.flight);
    }
  }

  lemma FlightBridgedStep(c: Client, max: nat, s: State, step: Step, f: nat)
    requires Inv(c, max, s) && BridgeOk(s) && Enabled(s, step) && f < |Apply(c, max, s, step).flights|
    ensures FlightBridged(Apply(c, max, s, step), f)
  {
    hide Apply, Enabled, Key, HasActor, Bridged, DoneStay, IsActorOf, Inv;
    var s' := Apply(c, max, s, step);
    if s'.flights[f].outcome.Some? {
      OutcomeComesFrom(c, max, s, step, f);
      StepKeepsDone(c, max, s, step);
      assert FlightBridged(s, f) && CallBridged(s, s.flights[f].leader);
      if s.calls[s.flights[f].leader].req.Exchange? {
        BridgedStays(s, s', s.flights[f].leader, s'.flights[f].outcome.value);
      }
    }
  }

  lemma {:induction false} BridgeRun(c: Client, max: nat, s: State, steps: seq<Step>)
    requires Inv(c, max, s) && BridgeOk(s) && IsRun(c, max, s, steps)
    ensures BridgeOk(Final(c, max, s, steps))
    decreases |steps|
  {
    hide Apply, Enabled, Inv, CallBridged, FlightBridged;
    if steps != [] {
      var s' := Apply(c, max, s, steps[0]);
      InvStep(c, max, s, steps[0]);
      forall t | 0 <= t < |s'.calls| ensures CallBridged(s', t) { CallBridgedStep(c, max, s, steps[0], t); }
      forall f | 0 <= f < |s'.flights| ensures FlightBridged(s', f) { FlightBridgedStep(c, max, s, steps[0], f); }
      BridgeRun(c, max, s', steps[1..]);
    }
  }

  /** On the bridge no exchange is asked for before a call for the app's own token, made
      under the same context, has ended with one; and what an exchange's flight brings is
      what was asked for with that token in hand, or the error of the call that was to
      bring it. */
  lemma ExchangeNeedsActorToken(c: Client, max: nat, s0: State, steps: seq<Step>)
    requires Init(s0) && IsRun(c, max, s0, steps)
    ensures
      var s := Final(c, max, s0, steps);
      && (forall t :: 0 <= t < |s.calls| && s.calls[t].req.Exchange? && s.calls[t].phase.Leading? ==> HasActor(s, t))
      && (forall f :: 0 <= f < |s.flights| && s.flights[f].outcome.Some? && s.flights[f].leader < |s.calls|
                      && s.calls[s.flights[f].leader].req.Exchange? ==>
            Bridged(s, s.flights[f].leader, s.flights[f].outcome.value))
  {
    hide HasActor, Bridged, Inv;
    InvInit(c, max, s0);
    BridgeRun(c, max, s0, steps);
    var s := Final(c, max, s0, steps);
    forall t | 0 <= t < |s.calls| && s.calls[t].req.Exchange? && s.calls[t].phase.Leading?
      ensures HasActor(s, t)
    {
      assert CallBridged(s, t);
    }
    forall f | 0 <= f < |s.flights| && s.flights[f].outcome.Some? && s.flights[f].leader < |s.calls|
               && s.calls[s.flights[f].leader].req.Exchange?
      ensures Bridged(s, s.flights[f].leader, s.flights[f].outcome.value)
    {
      assert FlightBridged(s, f);
    }
  }
}
