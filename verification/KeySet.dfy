/** The key-set cache: one entry's state machine, the bounded map of entries, and key
    lookup. An entry's lock is held across get and refreshForUnknownKid, so the calls on
    one entry happen one after another. */
module KeySet {
  import opened ValidationPolicy

  const TTL: int := 600 * SECOND
  const COOLDOWN: int := 60 * SECOND
  const MAX_ENTRIES: nat := 512

  datatype JWK = JWK(kid: string, material: string)

  /** What the service would answer to a fetch. */
  datatype Reply = Keys(keys: seq<JWK>) | Fails(err: string)

  datatype Entry = Entry(keys: seq<JWK>, fetched: Time, err: Option<string>, forcedAt: Time)

  const EMPTY_ENTRY := Entry([], ZERO_TIME, None, ZERO_TIME)

  datatype Result = Result(reply: Reply, asked: bool)

  /** A call on the entry: when it reads the clock, what a fetch would bring, and when. */
  datatype Op =
    | Get(now: Time, force: bool, reply: Reply, done: Time)
    | Refresh(now: Time, reply: Reply, done: Time)

  function Fetch(e: Entry, reply: Reply, done: Time): (Entry, Reply) {
    match reply
    case Keys(keys) => (e.(keys := keys, fetched := done, err := None), reply)
    case Fails(err) =>
      if e.fetched != ZERO_TIME && e.err.None? then (e, Keys(e.keys)) else (e.(err := Some(err)), reply)
  }

  predicate Fresh(e: Entry, now: Time, ttl: int) {
    e.err.None? && e.fetched != ZERO_TIME && now - e.fetched < ttl
  }

  predicate Cooling(e: Entry, now: Time, cooldown: int) {
    e.forcedAt != ZERO_TIME && now - e.forcedAt < cooldown
  }

  /** Does this call go to the network? */
  predicate Asks(e: Entry, op: Op, ttl: int, cooldown: int) {
    if op.Get? then op.force || !Fresh(e, op.now, ttl) else !Cooling(e, op.now, cooldown)
  }

  function Next(e: Entry, op: Op, ttl: int, cooldown: int): Entry {
    if !Asks(e, op, ttl, cooldown) then e
    else Fetch(if op.Refresh? then e.(forcedAt := op.now) else e, op.reply, op.done).0
  }

  function Returned(e: Entry, op: Op, ttl: int, cooldown: int): Reply {
    if !Asks(e, op, ttl, cooldown) then Keys(e.keys) else Fetch(e, op.reply, op.done).1
  }

  // ---- the code ----

  class EntryObject {
    var keys: seq<JWK>
    var fetched: Time
    var err: Option<string>
    var forcedAt: Time

    ghost function View(): Entry
      reads this
    {
      Entry(keys, fetched, err, forcedAt)
    }

    constructor ()
      ensures View() == EMPTY_ENTRY
    {
      keys, fetched, err, forcedAt := [], ZERO_TIME, None, ZERO_TIME;
    }

    method Read() returns (e: Entry)
      ensures e == View()
    {
      e := Entry(keys, fetched, err, forcedAt);
    }

    method FetchLocked(reply: Reply, done: Time) returns (r: Reply)
      modifies this
      ensures View() == Fetch(old(View()), reply, done).0 && r == Fetch(old(View()), reply, done).1
    {
      if reply.Fails? {
        if fetched != ZERO_TIME && err.None? {
          return Keys(keys);
        }
        err := Some(reply.err);
        return reply;
      }
      keys := reply.keys;
      fetched := done;
      err := None;
      return reply;
    }

    method GetKeys(ttl: int, now: Time, force: bool, reply: Reply, done: Time, ghost cooldown: int) returns (r: Reply)
      modifies this
      ensures
        var op := Get(now, force, reply, done);
        View() == Next(old(View()), op, ttl, cooldown) && r == Returned(old(View()), op, ttl, cooldown)
    {
      if !force && err.None? && fetched != ZERO_TIME && now - fetched < ttl {
        return Keys(keys);
      }
      r := FetchLocked(reply, done);
    }

    method RefreshForUnknownKid(cooldown: int, now: Time, reply: Reply, done: Time, ghost ttl: int)
        returns (r: Reply, refreshed: bool)
      modifies this
      ensures
        var op := Refresh(now, reply, done);
        var limit := if cooldown <= 0 then COOLDOWN else cooldown;
        && View() == Next(old(View()), op, ttl, limit)
        && r == Returned(old(View()), op, ttl, limit)
        && refreshed == Asks(old(View()), op, ttl, limit)
    {
      var limit := cooldown;
      if limit <= 0 {
        limit := COOLDOWN;
      }
      if forcedAt != ZERO_TIME && now - forcedAt < limit {
        return Keys(keys), false;
      }
      forcedAt := now;
      r := FetchLocked(reply, done);
      refreshed := true;
    }
  }

  function FirstKey(keys: seq<JWK>, kid: string): (k: Option<JWK>)
    ensures k.None? <==> forall i :: 0 <= i < |keys| ==> keys[i].kid != kid
  {
    if keys == [] then None
    else if keys[0].kid == kid then Some(keys[0])
    else FirstKey(keys[1..], kid)
  }

  lemma {:induction false} FirstKeyAt(keys: seq<JWK>, kid: string, i: nat)
    requires i < |keys| && FirstNamed(keys, kid, i)
    ensures FirstKey(keys, kid) == Some(keys[i])
  {
    if i > 0 {
      assert keys[0].kid != kid;
      FirstKeyAt(keys[1..], kid, i - 1);
    }
  }

  /** JWKS.Key: the first key of that name. */
  method FindKey(keys: seq<JWK>, kid: string) returns (k: Option<JWK>)
    ensures k == FirstKey(keys, kid)
    ensures k.None? <==> forall i :: 0 <= i < |keys| ==> keys[i].kid != kid
    ensures k.Some? ==> exists i :: 0 <= i < |keys| && FirstNamed(keys, kid, i) && k.value == keys[i]
  {
    for i := 0 to |keys|
      invariant forall j :: 0 <= j < i ==> keys[j].kid != kid
    {
      if keys[i].kid == kid {
        k := Some(keys[i]);
        assert FirstNamed(keys, kid, i) && k.value == keys[i];
        FirstKeyAt(keys, kid, i);
        return;
      }
    }
    return None;
  }

  predicate FirstNamed(keys: seq<JWK>, kid: string, i: nat)
    requires i < |keys|
  {
    keys[i].kid == kid && forall j :: 0 <= j < i ==> keys[j].kid != kid
  }

  // ---- what an entry promises over any sequence of calls ----

  /** Calls one after another, on a clock that does not run backwards. */
  predicate InOrder(from: Time, ops: seq<Op>)
    decreases |ops|
  {
    ops == [] || (from <= ops[0].now <= ops[0].done && InOrder(ops[0].done, ops[1..]))
  }

  function After(e: Entry, ops: seq<Op>, ttl: int, cooldown: int): Entry
    decreases |ops|
  {
    if ops == [] then e else After(Next(e, ops[0], ttl, cooldown), ops[1..], ttl, cooldown)
  }

  /** The answers of the fetches actually made, oldest first. */
  function Fetched(e: Entry, ops: seq<Op>, ttl: int, cooldown: int): seq<Reply>
    decreases |ops|
  {
    if ops == [] then []
    else (if Asks(e, ops[0], ttl, cooldown) then [ops[0].reply] else [])
         + Fetched(Next(e, ops[0], ttl, cooldown), ops[1..], ttl, cooldown)
  }

  /** The last good set among some answers, or `prior` if there is none. */
  function LastGood(prior: Option<seq<JWK>>, replies: seq<Reply>): Option<seq<JWK>>
    decreases |replies|
  {
    if replies == [] then prior
    else LastGood(if replies[0].Keys? then Some(replies[0].keys) else prior, replies[1..])
  }

  /** Every reachable entry: an error is remembered only while nothing was ever fetched. */
  predicate EntryOk(e: Entry, good: Option<seq<JWK>>) {
    && (e.fetched != ZERO_TIME <==> good.Some?)
    && (good.Some? ==> e.err.None? && e.keys == good.value)
    && (good.None? ==> e.keys == [])
  }

  lemma {:induction false} EntryTracksLastGood(e: Entry, good: Option<seq<JWK>>, from: Time, ops: seq<Op>,
                                               ttl: int, cooldown: int)
    requires EntryOk(e, good) && from > ZERO_TIME && InOrder(from, ops)
    ensures EntryOk(After(e, ops, ttl, cooldown), LastGood(good, Fetched(e, ops, ttl, cooldown)))
    decreases |ops|
  {
    if ops != [] {
      var e' := Next(e, ops[0], ttl, cooldown);
      var good' := if Asks(e, ops[0], ttl, cooldown) && ops[0].reply.Keys? then Some(ops[0].reply.keys) else good;
      EntryTracksLastGood(e', good', ops[0].done, ops[1..], ttl, cooldown);
      if Asks(e, ops[0], ttl, cooldown) {
        var rest := Fetched(e', ops[1..], ttl, cooldown);
        assert ([ops[0].reply] + rest)[1..] == rest;
      } else {
        assert [] + Fetched(e', ops[1..], ttl, cooldown) == Fetched(e', ops[1..], ttl, cooldown);
      }
    }
  }

  /** Once one fetch has succeeded, no call on the entry fails again, and each returns the
      last good set: its own if it fetched one, else the one before. */
  lemma NeverFailsAgain(from: Time, ops: seq<Op>, op: Op, ttl: int, cooldown: int)
    requires from > ZERO_TIME && InOrder(from, ops + [op])
    requires LastGood(None, Fetched(EMPTY_ENTRY, ops, ttl, cooldown)).Some?
    ensures
      var e := After(EMPTY_ENTRY, ops, ttl, cooldown);
      var prior := LastGood(None, Fetched(EMPTY_ENTRY, ops, ttl, cooldown)).value;
      Returned(e, op, ttl, cooldown) == Keys(if Asks(e, op, ttl, cooldown) && op.reply.Keys? then op.reply.keys else prior)
  {
    InOrderPrefix(from, ops, [op]);
    EntryTracksLastGood(EMPTY_ENTRY, None, from, ops, ttl, cooldown);
  }

  lemma {:induction false} InOrderPrefix(from: Time, a: seq<Op>, b: seq<Op>)
    requires InOrder(from, a + b)
    ensures InOrder(from, a)
    decreases |a|
  {
    if a != [] {
      assert (a + b)[1..] == a[1..] + b;
      InOrderPrefix(a[0].done, a[1..], b);
    }
  }

  // ---- when the service is asked ----

  function SuccessOf(e: Entry, op: Op, ttl: int, cooldown: int): seq<Time> {
    if Asks(e, op, ttl, cooldown) && op.reply.Keys? then [op.done] else []
  }

  function AttemptOf(e: Entry, op: Op, ttl: int, cooldown: int): seq<Time> {
    if op.Refresh? && Asks(e, op, ttl, cooldown) then [op.now] else []
  }

  /** When fetches succeeded, oldest first. */
  function Successes(e: Entry, ops: seq<Op>, ttl: int, cooldown: int): seq<Time>
    decreases |ops|
  {
    if ops == [] then []
    else SuccessOf(e, ops[0], ttl, cooldown) + Successes(Next(e, ops[0], ttl, cooldown), ops[1..], ttl, cooldown)
  }

  /** When unknown kids went to the network, oldest first. */
  function Attempts(e: Entry, ops: seq<Op>, ttl: int, cooldown: int): seq<Time>
    decreases |ops|
  {
    if ops == [] then []
    else AttemptOf(e, ops[0], ttl, cooldown) + Attempts(Next(e, ops[0], ttl, cooldown), ops[1..], ttl, cooldown)
  }

  function Last(prior: Time, times: seq<Time>): Time {
    if times == [] then prior else times[|times| - 1]
  }

  lemma LastOfJoin(prior: Time, a: seq<Time>, b: seq<Time>)
    ensures Last(prior, a + b) == Last(Last(prior, a), b)
  {
  }

  predicate Positive(times: seq<Time>) {
    forall i :: 0 <= i < |times| ==> times[i] > ZERO_TIME
  }

  lemma OneTime(e: Entry, op: Op, ttl: int, cooldown: int)
    requires ZERO_TIME < op.now <= op.done
    ensures Next(e, op, ttl, cooldown).fetched == Last(e.fetched, SuccessOf(e, op, ttl, cooldown))
    ensures Next(e, op, ttl, cooldown).forcedAt == Last(e.forcedAt, AttemptOf(e, op, ttl, cooldown))
    ensures Positive(SuccessOf(e, op, ttl, cooldown)) && Positive(AttemptOf(e, op, ttl, cooldown))
  {
  }

  lemma {:induction false} EntryTracksTimes(e: Entry, from: Time, ops: seq<Op>, ttl: int, cooldown: int)
    requires from > ZERO_TIME && InOrder(from, ops)
    ensures After(e, ops, ttl, cooldown).fetched == Last(e.fetched, Successes(e, ops, ttl, cooldown))
    ensures After(e, ops, ttl, cooldown).forcedAt == Last(e.forcedAt, Attempts(e, ops, ttl, cooldown))
    ensures Positive(Successes(e, ops, ttl, cooldown)) && Positive(Attempts(e, ops, ttl, cooldown))
    decreases |ops|
  {
    hide Asks, Next, Last, SuccessOf, AttemptOf;
    if ops == [] {
      NoTimes(e.fetched);
      NoTimes(e.forcedAt);
    } else {
      var e' := Next(e, ops[0], ttl, cooldown);
      OneTime(e, ops[0], ttl, cooldown);
      EntryTracksTimes(e', ops[0].done, ops[1..], ttl, cooldown);
      LastOfJoin(e.fetched, SuccessOf(e, ops[0], ttl, cooldown), Successes(e', ops[1..], ttl, cooldown));
      LastOfJoin(e.forcedAt, AttemptOf(e, ops[0], ttl, cooldown), Attempts(e', ops[1..], ttl, cooldown));
    }
  }

  lemma NoTimes(prior: Time)
    ensures Last(prior, []) == prior && Positive([])
  {
  }

  /** After any calls, get goes to the network exactly when it is forced to or when the last successful fetch is
      ttl old or there was none, and an unknown kid does exactly when the last attempt is a
      cooldown old or there was none. So keys are never served, unasked, past their ttl. */
  lemma AsksIff(from: Time, ops: seq<Op>, now: Time, reply: Reply, done: Time, ttl: int, cooldown: int)
    requires from > ZERO_TIME && InOrder(from, ops)
    ensures
      var e := After(EMPTY_ENTRY, ops, ttl, cooldown);
      var successes, attempts := Successes(EMPTY_ENTRY, ops, ttl, cooldown), Attempts(EMPTY_ENTRY, ops, ttl, cooldown);
      && (Asks(e, Get(now, false, reply, done), ttl, cooldown)
          <==> successes == [] || now - successes[|successes| - 1] >= ttl)
      && Asks(e, Get(now, true, reply, done), ttl, cooldown)
      && (Asks(e, Refresh(now, reply, done), ttl, cooldown)
          <==> attempts == [] || now - attempts[|attempts| - 1] >= cooldown)
  {
    hide After, Successes, Attempts, InOrder;
    EntryTracksTimes(EMPTY_ENTRY, from, ops, ttl, cooldown);
    EntryTracksLastGood(EMPTY_ENTRY, None, from, ops, ttl, cooldown);
  }

  // ---- an entry that never succeeded ----

  /** While nothing was ever fetched, get reports a failure as one. An unknown kid's
      refresh does so exactly when it asks; inside the cooldown of an earlier attempt it
      reports an empty set and no error instead. */
  lemma FailureIsHiddenIff(from: Time, ops: seq<Op>, now: Time, err: string, done: Time, ttl: int, cooldown: int)
    requires from > ZERO_TIME && InOrder(from, ops)
    requires Successes(EMPTY_ENTRY, ops, ttl, cooldown) == []
    ensures
      var e := After(EMPTY_ENTRY, ops, ttl, cooldown);
      var attempts := Attempts(EMPTY_ENTRY, ops, ttl, cooldown);
      var hidden := attempts != [] && now - attempts[|attempts| - 1] < cooldown;
      && Returned(e, Refresh(now, Fails(err), done), ttl, cooldown) == (if hidden then Keys([]) else Fails(err))
      && forall force :: Returned(e, Get(now, force, Fails(err), done), ttl, cooldown) == Fails(err)
  {
    hide After, Successes, Attempts, InOrder;
    AsksIff(from, ops, now, Fails(err), done, ttl, cooldown);
    EntryTracksTimes(EMPTY_ENTRY, from, ops, ttl, cooldown);
    EntryTracksLastGood(EMPTY_ENTRY, None, from, ops, ttl, cooldown);
  }

  lemma {:induction false} AfterJoin(e: Entry, a: seq<Op>, b: seq<Op>, ttl: int, cooldown: int)
    ensures After(e, a + b, ttl, cooldown) == After(After(e, a, ttl, cooldown), b, ttl, cooldown)
    decreases |a|
  {
    if a == [] {
      assert a + b == b;
    } else {
      assert (a + b)[1..] == a[1..] + b;
      AfterJoin(Next(e, a[0], ttl, cooldown), a[1..], b, ttl, cooldown);
    }
  }

  lemma {:induction false} InOrderJoin(from: Time, a: seq<Op>, b: seq<Op>) returns (middle: Time)
    requires InOrder(from, a + b)
    ensures from <= middle && InOrder(from, a) && InOrder(middle, b)
    decreases |a|
  {
    if a == [] {
      assert a + b == b;
      middle := from;
    } else {
      assert (a + b)[1..] == a[1..] + b;
      middle := InOrderJoin(a[0].done, a[1..], b);
    }
  }

  /** Verification calls get first and goes on only with a set. From then on, whatever
      other calls do to the same entry, a refresh returns a set some fetch brought: the
      hidden failure needs another entry, so an eviction in between. */
  lemma RefreshAfterGet(from: Time, before: seq<Op>, get: Op, between: seq<Op>, refresh: Op, ttl: int, cooldown: int)
    requires from > ZERO_TIME && InOrder(from, before + ([get] + between)) && get.Get? && refresh.Refresh?
    requires Returned(After(EMPTY_ENTRY, before, ttl, cooldown), get, ttl, cooldown).Keys?
    ensures
      var e := After(EMPTY_ENTRY, before + ([get] + between), ttl, cooldown);
      && e.fetched != ZERO_TIME
      && Returned(e, refresh, ttl, cooldown) ==
           (if Asks(e, refresh, ttl, cooldown) && refresh.reply.Keys? then refresh.reply else Keys(e.keys))
  {
    var middle := InOrderJoin(from, before, [get] + between);
    AfterJoin(EMPTY_ENTRY, before, [get] + between, ttl, cooldown);
    var e := After(EMPTY_ENTRY, before, ttl, cooldown);
    var good := LastGood(None, Fetched(EMPTY_ENTRY, before, ttl, cooldown));
    EntryTracksLastGood(EMPTY_ENTRY, None, from, before, ttl, cooldown);
    var e' := Next(e, get, ttl, cooldown);
    var good' := if Asks(e, get, ttl, cooldown) && get.reply.Keys? then Some(get.reply.keys) else good;
    assert EntryOk(e', good') && good'.Some?;
    assert ([get] + between)[1..] == between;
    EntryTracksLastGood(e', good', get.done, between, ttl, cooldown);
    GoodStays(good', Fetched(e', between, ttl, cooldown));
  }

  lemma {:induction false} GoodStays(prior: Option<seq<JWK>>, replies: seq<Reply>)
    requires prior.Some?
    ensures LastGood(prior, replies).Some?
    decreases |replies|
  {
    if replies != [] {
      GoodStays(if replies[0].Keys? then Some(replies[0].keys) else prior, replies[1..]);
    }
  }

  // ---- how often the service is asked ----

  predicate NoForce(ops: seq<Op>) {
    forall i :: 0 <= i < |ops| && ops[i].Get? ==> !ops[i].force
  }

  predicate Answering(ops: seq<Op>) {
    forall i :: 0 <= i < |ops| ==> ops[i].reply.Keys?
  }

  predicate Within(ops: seq<Op>, end: Time) {
    forall i :: 0 <= i < |ops| ==> ops[i].done <= end
  }

  /** Gets that asked and were answered. */
  function GoodGets(e: Entry, ops: seq<Op>, ttl: int, cooldown: int): nat
    decreases |ops|
  {
    if ops == [] then 0
    else (if ops[0].Get? && Asks(e, ops[0], ttl, cooldown) && ops[0].reply.Keys? then 1 else 0)
         + GoodGets(Next(e, ops[0], ttl, cooldown), ops[1..], ttl, cooldown)
  }

  /** Gets that asked in vain. */
  function FailedGets(e: Entry, ops: seq<Op>, ttl: int, cooldown: int): nat
    decreases |ops|
  {
    if ops == [] then 0
    else (if ops[0].Get? && Asks(e, ops[0], ttl, cooldown) && ops[0].reply.Fails? then 1 else 0)
         + FailedGets(Next(e, ops[0], ttl, cooldown), ops[1..], ttl, cooldown)
  }

  function ForcedFetches(e: Entry, ops: seq<Op>, ttl: int, cooldown: int): nat
    decreases |ops|
  {
    if ops == [] then 0
    else (if ops[0].Refresh? && Asks(e, ops[0], ttl, cooldown) then 1 else 0)
         + ForcedFetches(Next(e, ops[0], ttl, cooldown), ops[1..], ttl, cooldown)
  }

  lemma {:induction false} FetchesAdd(e: Entry, ops: seq<Op>, ttl: int, cooldown: int)
    ensures |Fetched(e, ops, ttl, cooldown)| ==
              GoodGets(e, ops, ttl, cooldown) + FailedGets(e, ops, ttl, cooldown) + ForcedFetches(e, ops, ttl, cooldown)
    decreases |ops|
  {
    if ops != [] {
      FetchesAdd(Next(e, ops[0], ttl, cooldown), ops[1..], ttl, cooldown);
    }
  }

  function Later(a: Time, b: Time): Time {
    if a < b then b else a
  }

  /** The earliest time at which a get can ask, once one was answered. */
  function NextStale(e: Entry, from: Time, ttl: int): Time {
    if e.err.None? && e.fetched != ZERO_TIME then Later(from, e.fetched + ttl) else from
  }

  /** Gets that are answered are a ttl apart, whatever fails in between. */
  lemma {:induction false} GoodGetsAreSpaced(e: Entry, from: Time, ops: seq<Op>, end: Time, ttl: int, cooldown: int)
    requires from > ZERO_TIME && ttl > 0 && e.fetched <= from
    requires InOrder(from, ops) && Within(ops, end) && NoForce(ops)
    ensures
      var n := GoodGets(e, ops, ttl, cooldown);
      n >= 1 ==> NextStale(e, from, ttl) + (n - 1) * ttl <= end
    decreases |ops|
  {
    if ops != [] {
      var e' := Next(e, ops[0], ttl, cooldown);
      assert forall i :: 0 <= i < |ops[1..]| ==> ops[1..][i] == ops[i + 1];
      GoodGetsAreSpaced(e', ops[0].done, ops[1..], end, ttl, cooldown);
      var rest := GoodGets(e', ops[1..], ttl, cooldown);
      if ops[0].Get? && Asks(e, ops[0], ttl, cooldown) && ops[0].reply.Keys? {
        assert NextStale(e, from, ttl) <= ops[0].now;
        assert ops[0].done <= end;
        assert rest >= 1 ==> ttl + (rest - 1) * ttl == rest * ttl;
      } else {
        assert NextStale(e, from, ttl) <= NextStale(e', ops[0].done, ttl);
      }
    }
  }

  /** The earliest time at which an unknown kid can go to the network. */
  function NextForced(e: Entry, from: Time, cooldown: int): Time {
    if e.forcedAt != ZERO_TIME then Later(from, e.forcedAt + cooldown) else from
  }

  /** Forced fetches are a cooldown apart whatever the service answers. */
  lemma {:induction false} ForcedFetchesAreSpaced(e: Entry, from: Time, ops: seq<Op>, end: Time, ttl: int, cooldown: int)
    requires from > ZERO_TIME && cooldown > 0
    requires InOrder(from, ops) && Within(ops, end)
    ensures
      var n := ForcedFetches(e, ops, ttl, cooldown);
      n >= 1 ==> NextForced(e, from, cooldown) + (n - 1) * cooldown <= end
    decreases |ops|
  {
    if ops != [] {
      var e' := Next(e, ops[0], ttl, cooldown);
      assert forall i :: 0 <= i < |ops[1..]| ==> ops[1..][i] == ops[i + 1];
      ForcedFetchesAreSpaced(e', ops[0].done, ops[1..], end, ttl, cooldown);
      var rest := ForcedFetches(e', ops[1..], ttl, cooldown);
      if ops[0].Refresh? && Asks(e, ops[0], ttl, cooldown) {
        assert ops[0].done <= end;
        assert rest >= 1 ==> cooldown + (rest - 1) * cooldown == rest * cooldown;
      }
    }
  }

  lemma AboveQuotient(k: nat, span: int, gap: int)
    requires gap > 0 && span >= 0 && k > span / gap
    ensures k * gap > span
  {
    assert k * gap >= (span / gap + 1) * gap;
  }

  lemma AtMost(n: nat, span: int, gap: int)
    requires gap > 0 && span >= 0 && (n >= 1 ==> (n - 1) * gap <= span)
    ensures n <= span / gap + 1
  {
    if n - 1 > span / gap {
      AboveQuotient(n - 1, span, gap);
    }
  }

  /** However many kids appear and whatever the service answers, calls within a span of
      time ask it at most span/ttl + span/cooldown + 2 times, and once more for every get
      it fails. */
  lemma FetchBudget(e: Entry, from: Time, ops: seq<Op>, end: Time, ttl: int, cooldown: int)
    requires from > ZERO_TIME && ttl > 0 && cooldown > 0 && e.fetched <= from <= end
    requires InOrder(from, ops) && Within(ops, end) && NoForce(ops)
    ensures |Fetched(e, ops, ttl, cooldown)| <=
              (end - from) / ttl + (end - from) / cooldown + 2 + FailedGets(e, ops, ttl, cooldown)
    ensures Answering(ops) ==> |Fetched(e, ops, ttl, cooldown)| <= (end - from) / ttl + (end - from) / cooldown + 2
  {
    FetchesAdd(e, ops, ttl, cooldown);
    GoodGetsAreSpaced(e, from, ops, end, ttl, cooldown);
    ForcedFetchesAreSpaced(e, from, ops, end, ttl, cooldown);
    AtMost(GoodGets(e, ops, ttl, cooldown), end - from, ttl);
    AtMost(ForcedFetches(e, ops, ttl, cooldown), end - from, cooldown);
    if Answering(ops) {
      NoneFail(e, ops, ttl, cooldown);
    }
  }

  lemma {:induction false} NoneFail(e: Entry, ops: seq<Op>, ttl: int, cooldown: int)
    requires Answering(ops)
    ensures FailedGets(e, ops, ttl, cooldown) == 0
    decreases |ops|
  {
    if ops != [] {
      assert forall i :: 0 <= i < |ops[1..]| ==> ops[1..][i] == ops[i + 1];
      NoneFail(Next(e, ops[0], ttl, cooldown), ops[1..], ttl, cooldown);
    }
  }

  /** With the 10 minutes and the one minute the client sets. */
  lemma DefaultAsksIff(from: Time, ops: seq<Op>, now: Time, reply: Reply, done: Time)
    requires from > ZERO_TIME && InOrder(from, ops)
    ensures
      var e := After(EMPTY_ENTRY, ops, TTL, COOLDOWN);
      var successes, attempts := Successes(EMPTY_ENTRY, ops, TTL, COOLDOWN), Attempts(EMPTY_ENTRY, ops, TTL, COOLDOWN);
      && (Asks(e, Get(now, false, reply, done), TTL, COOLDOWN)
          <==> successes == [] || now - successes[|successes| - 1] >= 600_000_000_000)
      && (Asks(e, Refresh(now, reply, done), TTL, COOLDOWN)
          <==> attempts == [] || now - attempts[|attempts| - 1] >= 60_000_000_000)
  {
    hide After, Successes, Attempts, InOrder, Asks;
    AsksIff(from, ops, now, reply, done, TTL, COOLDOWN);
  }

  /** So at most 68 requests in an hour. */
  lemma DefaultBudget(e: Entry, from: Time, ops: seq<Op>)
    requires from > ZERO_TIME && e.fetched <= from
    requires InOrder(from, ops) && Within(ops, from + 3600 * SECOND) && NoForce(ops) && Answering(ops)
    ensures |Fetched(e, ops, TTL, COOLDOWN)| <= 68
  {
    FetchBudget(e, from, ops, from + 3600 * SECOND, TTL, COOLDOWN);
  }

  /** Unknown kids alone stay bounded whatever the service answers ... */
  lemma ForcedBudget(e: Entry, from: Time, ops: seq<Op>, end: Time, ttl: int, cooldown: int)
    requires from > ZERO_TIME && cooldown > 0 && from <= end && InOrder(from, ops) && Within(ops, end)
    ensures ForcedFetches(e, ops, ttl, cooldown) <= (end - from) / cooldown + 1
  {
    ForcedFetchesAreSpaced(e, from, ops, end, ttl, cooldown);
    AtMost(ForcedFetches(e, ops, ttl, cooldown), end - from, cooldown);
  }

  /** ... and the term for failed gets cannot be spared: every get on a stale or empty
      entry asks again, any number at one instant. */
  lemma {:induction false} NoBudgetWhileFailing(e: Entry, now: Time, n: nat, ttl: int, cooldown: int)
    requires !Fresh(e, now, ttl)
    ensures
      var ops := seq(n, _ => Get(now, false, Fails("down"), now));
      |Fetched(e, ops, ttl, cooldown)| == FailedGets(e, ops, ttl, cooldown) == n
    decreases n
  {
    var ops := seq(n, _ => Get(now, false, Fails("down"), now));
    if n > 0 {
      assert ops[1..] == seq(n - 1, _ => Get(now, false, Fails("down"), now));
      NoBudgetWhileFailing(Next(e, ops[0], ttl, cooldown), now, n - 1, ttl, cooldown);
    }
  }

  // ---- the key for one token ----

  /** What a verification finds: no key set, a set without the kid, or the key. */
  datatype Lookup = NoSet | NoKey | Found(key: JWK)

  /** The two calls of one verification, the second made only for an unknown kid. */
  datatype Visit = Visit(get: Op, refresh: Op, ttl: int, cooldown: int) {
    predicate Valid() {
      get.Get? && !get.force && refresh.Refresh? && cooldown > 0
    }
  }

  /** `met` is the entry as the second call meets it. */
  function LookUp(e: Entry, met: Entry, v: Visit, kid: string): Lookup {
    match Returned(e, v.get, v.ttl, v.cooldown)
    case Fails(_) => NoSet
    case Keys(keys) =>
      if FirstKey(keys, kid).Some? then Found(FirstKey(keys, kid).value)
      else
        match Returned(met, v.refresh, v.ttl, v.cooldown)
        case Fails(_) => NoSet
        case Keys(renewed) =>
          if Asks(met, v.refresh, v.ttl, v.cooldown) && FirstKey(renewed, kid).Some? then Found(FirstKey(renewed, kid).value)
          else NoKey
  }

  /** The kid is not in the set get returned, so the second call is made. */
  predicate GoesOn(e: Entry, v: Visit, kid: string) {
    var held := Returned(e, v.get, v.ttl, v.cooldown);
    held.Keys? && FirstKey(held.keys, kid).None?
  }

  /** How often it asks the service: for a stale set, and for an unknown kid. */
  function Requests(e: Entry, met: Entry, v: Visit, kid: string): nat {
    (if Asks(e, v.get, v.ttl, v.cooldown) then 1 else 0)
    + if GoesOn(e, v, kid) && Asks(met, v.refresh, v.ttl, v.cooldown) then 1 else 0
  }

  /** Other verifications, and whoever else reads the key set, using this entry. */
  method Others(entry: EntryObject, calls: seq<Op>, ttl: int, cooldown: int)
    requires cooldown > 0
    modifies entry
    ensures entry.View() == After(old(entry.View()), calls, ttl, cooldown)
  {
    for i := 0 to |calls|
      invariant After(entry.View(), calls[i..], ttl, cooldown) == After(old(entry.View()), calls, ttl, cooldown)
    {
      assert calls[i..][1..] == calls[i + 1..];
      match calls[i]
      case Get(now, force, reply, done) =>
        var _ := entry.GetKeys(ttl, now, force, reply, done, cooldown);
      case Refresh(now, reply, done) =>
        var _, _ := entry.RefreshForUnknownKid(cooldown, now, reply, done, ttl);
    }
  }

  /** The entry as the second call of a verification meets it: `between` is what others did
      to it since the first. `again` stands for it when it is not the entry of the first. */
  function Met(e: Entry, again: Option<Entry>, v: Visit, between: seq<Op>): Entry {
    After(if again.Some? then again.value else Next(e, v.get, v.ttl, v.cooldown), between, v.ttl, v.cooldown)
  }

  /** The key stage of VerifyAccessTokenLocal. `again` is the entry the second call looks
      up: the same object, unless that one was evicted in between. */
  method FindForToken(entry: EntryObject, again: EntryObject, v: Visit, between: seq<Op>, kid: string)
      returns (found: Lookup, requests: nat)
    requires v.Valid()
    modifies entry, again
    ensures
      var e := old(entry.View());
      var met := Met(e, if again == entry then None else Some(old(again.View())), v, between);
      && found == LookUp(e, met, v, kid)
      && requests == Requests(e, met, v, kid) <= 2
      && (GoesOn(e, v, kid) ==> again.View() == Next(met, v.refresh, v.ttl, v.cooldown))
      && (!GoesOn(e, v, kid) && again != entry ==> again.View() == old(again.View()))
      && (!GoesOn(e, v, kid) || again != entry ==> entry.View() == Next(e, v.get, v.ttl, v.cooldown))
  {
    var before := entry.Read();
    requests := if Asks(before, v.get, v.ttl, v.cooldown) then 1 else 0;
    var keys := entry.GetKeys(v.ttl, v.get.now, v.get.force, v.get.reply, v.get.done, v.cooldown);
    if keys.Fails? {
      return NoSet, requests;
    }
    var key := FindKey(keys.keys, kid);
    if key.Some? {
      return Found(key.value), requests;
    }
    Others(again, between, v.ttl, v.cooldown);
    var refreshed, did := again.RefreshForUnknownKid(v.cooldown, v.refresh.now, v.refresh.reply, v.refresh.done, v.ttl);
    requests := requests + if did then 1 else 0;
    if refreshed.Fails? {
      return NoSet, requests;
    }
    if did {
      key := FindKey(refreshed.keys, kid);
      if key.Some? {
        return Found(key.value), requests;
      }
    }
    return NoKey, requests;
  }

  /** Is the last of these times less than a cooldown ago? */
  predicate Recent(times: seq<Time>, now: Time, cooldown: int) {
    times != [] && now - times[|times| - 1] < cooldown
  }

  /** What the second entry has been through: everything since the first call of all, or, if
      the entry was evicted between the two calls, only what others did to the new one. */
  function History(before: seq<Op>, v: Visit, between: seq<Op>, evicted: bool): seq<Op> {
    if evicted then between else before + ([v.get] + between)
  }

  /** The second entry when its share of `between` begins. */
  function Resumed(before: seq<Op>, v: Visit, evicted: bool): Entry {
    if evicted then EMPTY_ENTRY else Next(After(EMPTY_ENTRY, before, v.ttl, v.cooldown), v.get, v.ttl, v.cooldown)
  }

  /** How the second call finds its entry. */
  lemma Meeting(from: Time, before: seq<Op>, v: Visit, between: seq<Op>, evicted: bool)
    requires from > ZERO_TIME && InOrder(from, before + ([v.get] + between)) && v.Valid()
    ensures
      var e := After(EMPTY_ENTRY, before, v.ttl, v.cooldown);
      var history := History(before, v, between, evicted);
      var met := After(EMPTY_ENTRY, history, v.ttl, v.cooldown);
      var held := Returned(e, v.get, v.ttl, v.cooldown);
      var replies := Fetched(Resumed(before, v, evicted), between, v.ttl, v.cooldown);
      && met == Met(e, if evicted then Some(EMPTY_ENTRY) else None, v, between)
      && Cooling(met, v.refresh.now, v.cooldown)
         == Recent(Attempts(EMPTY_ENTRY, history, v.ttl, v.cooldown), v.refresh.now, v.cooldown)
      && (held.Keys? ==> EntryOk(met, LastGood(if evicted then None else Some(held.keys), replies)))
  {
    hide After, Attempts, Fetched, InOrder, LastGood, Returned, EntryOk, Next, Cooling, Recent, History;
    var start := Joining(from, before, v, between, evicted);
    CoolingIsRecent(start, History(before, v, between, evicted), v);
    var held := Returned(After(EMPTY_ENTRY, before, v.ttl, v.cooldown), v.get, v.ttl, v.cooldown);
    if held.Keys? {
      var prior := if evicted then None else Some(held.keys);
      ResumedIsOk(from, before, v, evicted);
      EntryTracksLastGood(Resumed(before, v, evicted), prior, v.get.done, between, v.ttl, v.cooldown);
    }
  }

  lemma Joining(from: Time, before: seq<Op>, v: Visit, between: seq<Op>, evicted: bool) returns (start: Time)
    requires from > ZERO_TIME && InOrder(from, before + ([v.get] + between))
    ensures InOrder(from, before) && InOrder(v.get.done, between) && v.get.done > ZERO_TIME
    ensures start > ZERO_TIME && InOrder(start, History(before, v, between, evicted))
    ensures After(EMPTY_ENTRY, History(before, v, between, evicted), v.ttl, v.cooldown)
            == After(Resumed(before, v, evicted), between, v.ttl, v.cooldown)
  {
    hide Next;
    var middle := InOrderJoin(from, before, [v.get] + between);
    AfterJoin(EMPTY_ENTRY, before, [v.get] + between, v.ttl, v.cooldown);
    assert ([v.get] + between)[1..] == between;
    start := if evicted then v.get.done else from;
  }

  lemma CoolingIsRecent(from: Time, history: seq<Op>, v: Visit)
    requires from > ZERO_TIME && InOrder(from, history)
    ensures Cooling(After(EMPTY_ENTRY, history, v.ttl, v.cooldown), v.refresh.now, v.cooldown)
            == Recent(Attempts(EMPTY_ENTRY, history, v.ttl, v.cooldown), v.refresh.now, v.cooldown)
  {
    hide After, Attempts, Successes, InOrder;
    EntryTracksTimes(EMPTY_ENTRY, from, history, v.ttl, v.cooldown);
  }

  lemma ResumedIsOk(from: Time, before: seq<Op>, v: Visit, evicted: bool)
    requires from > ZERO_TIME && InOrder(from, before) && v.Valid() && v.get.done > ZERO_TIME
    requires Returned(After(EMPTY_ENTRY, before, v.ttl, v.cooldown), v.get, v.ttl, v.cooldown).Keys?
    ensures
      var held := Returned(After(EMPTY_ENTRY, before, v.ttl, v.cooldown), v.get, v.ttl, v.cooldown);
      EntryOk(Resumed(before, v, evicted), if evicted then None else Some(held.keys))
  {
    hide After, Fetched, InOrder;
    EntryTracksLastGood(EMPTY_ENTRY, None, from, before, v.ttl, v.cooldown);
  }

  /** A key the service has at the second call is found, whatever went before on this entry
      and whatever others do to it between the two calls, an eviction included, unless the
      set get returned lacks it and the last unknown kid is less than a cooldown ago; and
      then, and only then, it is refused without the service being asked for it. */
  lemma CurrentKeyIsFoundIff(from: Time, before: seq<Op>, v: Visit, between: seq<Op>, evicted: bool,
                             kid: string, current: seq<JWK>)
    requires from > ZERO_TIME && InOrder(from, before + ([v.get] + between)) && v.Valid()
    requires v.refresh.reply == Keys(current) && FirstKey(current, kid).Some?
    ensures
      var e := After(EMPTY_ENTRY, before, v.ttl, v.cooldown);
      var history := History(before, v, between, evicted);
      var met := After(EMPTY_ENTRY, history, v.ttl, v.cooldown);
      var held := Returned(e, v.get, v.ttl, v.cooldown);
      var cooling := Recent(Attempts(EMPTY_ENTRY, history, v.ttl, v.cooldown), v.refresh.now, v.cooldown);
      var found := LookUp(e, met, v, kid);
      && (found.NoSet? <==> held.Fails?)
      && (v.get.reply.Keys? ==> held.Keys?)
      && (held.Keys? ==>
            && (found.Found? <==> FirstKey(held.keys, kid).Some? || !cooling)
            && (FirstKey(held.keys, kid).None? && !cooling ==> found.key == FirstKey(current, kid).value)
            && (found.NoKey? ==> !Asks(met, v.refresh, v.ttl, v.cooldown)))
  {
    hide After, Attempts, Fetched, InOrder, LastGood, Recent, History, Resumed;
    Meeting(from, before, v, between, evicted);
  }

  /** When a token is refused although the entry holds its key as the call returns: exactly
      when get's set lacks it, another call's fetch brought it between the two calls, and
      the last unknown kid is less than a cooldown ago. So never when nobody else calls. */
  lemma HeldKeyIsRefusedIff(from: Time, before: seq<Op>, v: Visit, between: seq<Op>, evicted: bool, kid: string)
    requires from > ZERO_TIME && InOrder(from, before + ([v.get] + between)) && v.Valid()
    ensures
      var e := After(EMPTY_ENTRY, before, v.ttl, v.cooldown);
      var history := History(before, v, between, evicted);
      var met := After(EMPTY_ENTRY, history, v.ttl, v.cooldown);
      var cooling := Recent(Attempts(EMPTY_ENTRY, history, v.ttl, v.cooldown), v.refresh.now, v.cooldown);
      var brought := LastGood(None, Fetched(Resumed(before, v, evicted), between, v.ttl, v.cooldown));
      var refused := LookUp(e, met, v, kid).NoKey? && FirstKey(Next(met, v.refresh, v.ttl, v.cooldown).keys, kid).Some?;
      && (refused <==> GoesOn(e, v, kid) && cooling && brought.Some? && FirstKey(brought.value, kid).Some?)
      && (between == [] ==> !refused)
  {
    hide After, Attempts, InOrder, Recent, History, Resumed;
    Meeting(from, before, v, between, evicted);
    var held := Returned(After(EMPTY_ENTRY, before, v.ttl, v.cooldown), v.get, v.ttl, v.cooldown);
    if held.Keys? {
      LastGoodFrom(held.keys, Fetched(Resumed(before, v, evicted), between, v.ttl, v.cooldown));
    }
  }

  /** When a token cannot be judged: get failed, or the entry was evicted between the two
      calls and the service is asked for the kid, fails, and never answered since. */
  lemma NotJudgedIff(from: Time, before: seq<Op>, v: Visit, between: seq<Op>, evicted: bool, kid: string)
    requires from > ZERO_TIME && InOrder(from, before + ([v.get] + between)) && v.Valid()
    ensures
      var e := After(EMPTY_ENTRY, before, v.ttl, v.cooldown);
      var history := History(before, v, between, evicted);
      var met := After(EMPTY_ENTRY, history, v.ttl, v.cooldown);
      var cooling := Recent(Attempts(EMPTY_ENTRY, history, v.ttl, v.cooldown), v.refresh.now, v.cooldown);
      var held := Returned(e, v.get, v.ttl, v.cooldown);
      LookUp(e, met, v, kid).NoSet? <==>
        || held.Fails?
        || (&& evicted && FirstKey(held.keys, kid).None? && !cooling && v.refresh.reply.Fails?
            && LastGood(None, Fetched(EMPTY_ENTRY, between, v.ttl, v.cooldown)).None?)
  {
    hide After, Attempts, InOrder, Recent, History;
    Meeting(from, before, v, between, evicted);
    var held := Returned(After(EMPTY_ENTRY, before, v.ttl, v.cooldown), v.get, v.ttl, v.cooldown);
    if held.Keys? && !evicted {
      GoodStays(Some(held.keys), Fetched(Resumed(before, v, evicted), between, v.ttl, v.cooldown));
    }
  }

  /** The prior set counts only while nothing newer came. */
  lemma {:induction false} LastGoodFrom(prior: seq<JWK>, replies: seq<Reply>)
    ensures LastGood(Some(prior), replies) ==
              (if LastGood(None, replies).Some? then LastGood(None, replies) else Some(prior))
    decreases |replies|
  {
    if replies != [] {
      if replies[0].Keys? {
        GoodStays(Some(replies[0].keys), replies[1..]);
      } else {
        LastGoodFrom(prior, replies[1..]);
      }
    }
  }

  /** It does happen. After a rotation two verifications get the old set; the first asks for
      the new one, and the second, inside the cooldown, is handed the set that holds its key
      and does not look in it. */
  lemma HeldKeyIsRefused(stale: seq<JWK>, renewed: seq<JWK>, kid: string, now: Time)
    requires now > ZERO_TIME && FirstKey(stale, kid).None? && FirstKey(renewed, kid).Some?
    ensures
      var fill := Get(now, false, Keys(stale), now);
      var get := Get(now + 1, false, Keys(renewed), now + 1);
      var refetch := Refresh(now + 2, Keys(renewed), now + 2);
      var v := Visit(get, Refresh(now + 3, Keys(renewed), now + 3), TTL, COOLDOWN);
      var e := After(EMPTY_ENTRY, [fill], TTL, COOLDOWN);
      var met := After(EMPTY_ENTRY, [fill] + ([get] + [get, refetch]), TTL, COOLDOWN);
      && InOrder(now, [fill] + ([get] + [get, refetch])) && v.Valid()
      && Returned(e, get, TTL, COOLDOWN) == Keys(stale)
      && Returned(met, v.refresh, TTL, COOLDOWN) == Keys(renewed) && met.keys == renewed
      && LookUp(e, met, v, kid) == NoKey
  {
    var fill := Get(now, false, Keys(stale), now);
    var get := Get(now + 1, false, Keys(renewed), now + 1);
    var refetch := Refresh(now + 2, Keys(renewed), now + 2);
    var e := Entry(stale, now, None, ZERO_TIME);
    assert [fill] + ([get] + [get, refetch]) == [fill, get, get, refetch];
    assert [fill, get, get, refetch][1..] == [get, get, refetch];
    assert [get, get, refetch][1..] == [get, refetch] && [get, refetch][1..] == [refetch] && [refetch][1..] == [];
    assert InOrder(now + 1, [get, get, refetch][1..]);
    assert InOrder(now, [get, get, refetch]);
    assert After(EMPTY_ENTRY, [fill], TTL, COOLDOWN) == e;
    assert Next(e, get, TTL, COOLDOWN) == e;
    assert After(e, [get, get, refetch], TTL, COOLDOWN) == After(e, [refetch], TTL, COOLDOWN)
        == Entry(renewed, now + 2, None, now + 2);
  }

  // ---- the bounded map ----

  class Cache {
    const max: nat
    var entries: map<string, EntryObject>

    constructor (maxEntries: int)
      ensures entries == map[] && max == (if maxEntries <= 0 then 512 else maxEntries)
    {
      max := if maxEntries <= 0 then MAX_ENTRIES else maxEntries;
      entries := map[];
    }

    /** One victim, the stalest entry nobody is fetching for; none if all are busy. */
    method EvictIfFull(busy: set<string>)
      modifies this
      ensures |old(entries)| < max || old(entries).Keys <= busy ==> entries == old(entries)
      ensures |old(entries)| >= max && !(old(entries).Keys <= busy) ==>
                exists victim :: IsStalest(old(entries), busy, victim) && entries == old(entries) - {victim}
    {
      if |entries| < max {
        return;
      }
      var victim, oldest, first := "", ZERO_TIME, true;
      var todo := entries.Keys;
      while todo != {}
        invariant todo <= entries.Keys && entries == old(entries)
        invariant first ==> entries.Keys - todo <= busy
        invariant !first ==> victim in entries && victim !in busy && oldest == entries[victim].fetched
        invariant !first ==> forall k :: k in entries && k !in todo && k !in busy ==> oldest <= entries[k].fetched
      {
        var k :| k in todo;
        todo := todo - {k};
        if k !in busy {
          if first || entries[k].fetched < oldest {
            victim, oldest, first := k, entries[k].fetched, false;
          }
        }
      }
      if !first {
        assert IsStalest(entries, busy, victim);
        entries := entries - {victim};
      }
    }

    /** entry: the one there is, or a new one in a map kept within its bound. */
    method EntryFor(path: string, busy: set<string>) returns (e: EntryObject)
      modifies this
      ensures path in entries && entries[path] == e
      ensures path in old(entries) ==> entries == old(entries)
      ensures path !in old(entries) ==> fresh(e) && e.View() == EMPTY_ENTRY
      ensures path !in old(entries) && (|old(entries)| < max || old(entries).Keys <= busy) ==>
                entries == old(entries)[path := e]
      ensures path !in old(entries) && |old(entries)| >= max && !(old(entries).Keys <= busy) ==>
                exists victim :: IsStalest(old(entries), busy, victim) && entries == (old(entries) - {victim})[path := e]
      ensures forall k :: k in entries && k != path ==> k in old(entries) && entries[k] == old(entries)[k]
      ensures forall k :: k in old(entries) && k in busy ==> k in entries && entries[k] == old(entries)[k]
      ensures |old(entries)| <= max && max >= 1
              && !(path !in old(entries) && |old(entries)| == max && old(entries).Keys <= busy) ==>
                |entries| <= max
    {
      if path in entries {
        return entries[path];
      }
      EvictIfFull(busy);
      e := new EntryObject();
      SizeAfterDrop(old(entries), entries);
      entries := entries[path := e];
    }
  }

  /** `path` was fetched first and everything else one tick later. */
  ghost predicate Oldest(cache: Cache, path: string, now: Time)
    reads cache, cache.entries.Values
  {
    && path in cache.entries && cache.entries[path].fetched == now
    && forall k :: k in cache.entries && k != path ==> cache.entries[k].fetched == now + 1
  }

  /** A first verification against one more path. */
  method FetchInto(cache: Cache, path: string, keys: seq<JWK>, now: Time) returns (held: Reply)
    requires path !in cache.entries && |cache.entries| < cache.max
    modifies cache
    ensures held == Keys(keys)
    ensures cache.entries.Keys == old(cache.entries.Keys) + {path} && |cache.entries| == |old(cache.entries)| + 1
    ensures cache.entries[path].View() == Entry(keys, now, None, ZERO_TIME)
    ensures forall k :: k in old(cache.entries) ==> cache.entries[k] == old(cache.entries)[k]
    ensures fresh(cache.entries[path])
  {
    var e := cache.EntryFor(path, {});
    held := e.GetKeys(TTL, now, false, Keys(keys), now, COOLDOWN);
  }

  /** A full cache takes one more path and lets the oldest go. */
  method PushOut(cache: Cache, path: string, other: string, now: Time)
    requires Oldest(cache, path, now) && other !in cache.entries && |cache.entries| == cache.max
    modifies cache
    ensures path !in cache.entries && |cache.entries| <= cache.max
  {
    var _ := cache.EntryFor(other, {});
  }

  predicate Distinct(paths: seq<string>) {
    forall i, j :: 0 <= i < j < |paths| ==> paths[i] != paths[j]
  }

  /** Two verifications of one path, the first into an empty cache. */
  method BothGet(cache: Cache, path: string, keys: seq<JWK>, now: Time) returns (held: Reply, alsoHeld: Reply)
    requires cache.entries == map[] && cache.max >= 1 && now > ZERO_TIME
    modifies cache
    ensures held == alsoHeld == Keys(keys)
    ensures Oldest(cache, path, now) && cache.entries.Keys == {path} && fresh(cache.entries.Values)
  {
    held := FetchInto(cache, path, keys, now);
    var e := cache.EntryFor(path, {});
    alsoHeld := e.GetKeys(TTL, now, false, Fails("down"), now, COOLDOWN);
  }

  /** One more path a tick later. */
  method FetchLater(cache: Cache, path: string, other: string, keys: seq<JWK>, now: Time)
    requires Oldest(cache, path, now) && other !in cache.entries && |cache.entries| < cache.max
    modifies cache
    ensures Oldest(cache, path, now) && cache.entries.Keys == old(cache.entries.Keys) + {other}
    ensures |cache.entries| == |old(cache.entries)| + 1
  {
    var _ := FetchInto(cache, other, keys, now + 1);
  }

  /** As many other paths as there is room for, and one. */
  method FillUp(cache: Cache, path: string, others: seq<string>, keys: seq<JWK>, now: Time)
    requires Oldest(cache, path, now) && cache.entries.Keys == {path} && |others| == cache.max >= 1
    requires Distinct(others) && path !in others
    modifies cache
    ensures path !in cache.entries
  {
    var last := |others| - 1;
    SizeOfOne(cache.entries, path);
    for i := 0 to last
      invariant Oldest(cache, path, now) && |cache.entries| == i + 1
      invariant forall k :: k in cache.entries ==> k == path || k in others[..i]
    {
      FetchLater(cache, path, others[i], keys, now);
    }
    PushOut(cache, path, others[last], now);
  }

  lemma SizeOfOne(entries: map<string, EntryObject>, path: string)
    requires entries.Keys == {path}
    ensures |entries| == 1
  {
    assert |entries.Keys| == |entries|;
  }

  /** Their second calls, with the entry gone and the service down. */
  method BothRefresh(cache: Cache, path: string, now: Time) returns (first: Reply, second: Reply, asked: bool)
    requires now > ZERO_TIME && path !in cache.entries
    modifies cache
    ensures first == Fails("down") && second == Keys([]) && !asked
  {
    var e := cache.EntryFor(path, {});
    first, asked := e.RefreshForUnknownKid(COOLDOWN, now, Fails("down"), now, TTL);
    e := cache.EntryFor(path, {});
    second, asked := e.RefreshForUnknownKid(COOLDOWN, now + 1, Fails("down"), now + 1, TTL);
  }

  /** How a failure gets hidden, in a cache of any size: two verifications hold a set, as
      many other paths are asked for as the cache has room for, so that the entry goes, both
      find their kid unknown and the service is down. The first is told so; the second, on
      the new entry and inside its cooldown, takes its kid for an unknown one. */
  method EvictionHidesFailure(maxEntries: int, path: string, others: seq<string>, keys: seq<JWK>, now: Time)
      returns (held: Reply, alsoHeld: Reply, first: Reply, second: Reply, asked: bool)
    requires now > ZERO_TIME && |others| == (if maxEntries <= 0 then 512 else maxEntries)
    requires Distinct(others) && path !in others
    ensures held == alsoHeld == Keys(keys) && first == Fails("down") && second == Keys([]) && !asked
  {
    var cache := new Cache(maxEntries);
    held, alsoHeld := BothGet(cache, path, keys, now);
    FillUp(cache, path, others, keys, now);
    first, second, asked := BothRefresh(cache, path, now + 2);
  }

  lemma SizeAfterDrop(before: map<string, EntryObject>, after: map<string, EntryObject>)
    requires after == before || exists k :: k in before && after == before - {k}
    ensures after == before || |after| == |before| - 1
  {
    if after != before {
      var k :| k in before && after == before - {k};
      assert after.Keys == before.Keys - {k};
      assert |after.Keys| == |after| && |before.Keys| == |before|;
    }
  }

  ghost predicate IsStalest(entries: map<string, EntryObject>, busy: set<string>, victim: string)
    reads entries.Values
  {
    && victim in entries && victim !in busy
    && forall k :: k in entries && k !in busy ==> entries[victim].fetched <= entries[k].fetched
  }
}
