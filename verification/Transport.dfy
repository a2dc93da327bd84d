/** The retrying transport: the backoff ceiling in 64-bit arithmetic, and the two retry
    loops against one account of what they do to any script of responses. */
module Transport {
  import opened ValidationPolicy

  // ---- 64-bit arithmetic ----

  const TWO_63: int := 0x8000_0000_0000_0000
  const TWO_64: int := 0x1_0000_0000_0000_0000

  function Pow2(n: nat): nat
    ensures Pow2(n) >= 1
  {
    if n == 0 then 1 else 2 * Pow2(n - 1)
  }

  /** What is left of x in a signed 64-bit integer. */
  function Wrap64(x: int): (w: int)
    ensures -TWO_63 <= w < TWO_63
    ensures -TWO_63 <= x < TWO_63 ==> w == x
  {
    (x + TWO_63) % TWO_64 - TWO_63
  }

  lemma {:induction false} Pow2Add(a: nat, b: nat)
    ensures Pow2(a + b) == Pow2(a) * Pow2(b)
  {
    if a > 0 {
      Pow2Add(a - 1, b);
      Associate(2, Pow2(a - 1), Pow2(b));
    }
  }

  lemma Associate(a: int, b: int, c: int)
    ensures a * (b * c) == (a * b) * c
  {
  }

  lemma Pow2Of64()
    ensures Pow2(64) == TWO_64 && Pow2(9) == 512
  {
    assert Pow2(8) == 256;
    Pow2Add(8, 8);
    Pow2Add(16, 16);
    Pow2Add(32, 32);
  }

  lemma WrapDrops(x: int) returns (z: int)
    ensures Wrap64(x) == x - TWO_64 * z
  {
    z := (x + TWO_63) / TWO_64;
  }

  // ---- the ceiling ----

  /** backoff's cap, before the jitter: base << attempt, clamped. */
  function Ceiling(base: int, max: int, attempt: nat): int {
    var d := Wrap64(base * Pow2(attempt));
    if d <= 0 || d > max then max else d
  }

  /** What the documentation says the cap is. */
  function Exact(base: int, max: int, attempt: nat): int {
    if base * Pow2(attempt) < max then base * Pow2(attempt) else max
  }

  /** The cap is the documented one unless the product overflows and the bits that are
      left read as a smaller positive number. */
  lemma CeilingIsExactIff(base: int, max: int, attempt: nat)
    requires 0 < base && 0 < max < TWO_63
    ensures Ceiling(base, max, attempt) == Exact(base, max, attempt)
            <==> !(base * Pow2(attempt) >= TWO_63 && 0 < Wrap64(base * Pow2(attempt)) < max)
  {
    assert base * Pow2(attempt) > 0;
  }

  lemma Monotone(m: int, p: int, q: int)
    requires m > 0 && p <= q
    ensures m * p <= m * q
  {
  }

  lemma MultipleAtLeast(m: int, k: int)
    requires m > 0 && m * k > 0
    ensures m * k >= m
  {
    if k <= 0 {
      Monotone(m, k, 0);
    } else {
      Monotone(m, 1, k);
    }
  }

  lemma Factor(m: int, o: int, p: int, z: int)
    ensures m * o - (m * p) * z == m * (o - p * z)
  {
    assert (m * p) * z == m * (p * z);
  }

  lemma WrapOfMultiple(x: int, q: int)
    requires x == TWO_64 * q
    ensures Wrap64(x) == 0
  {
    var z := WrapDrops(x);
  }

  /** A multiple of a power of two keeps it as a divisor, so what is left after wrapping
      is zero, negative, or no smaller than that power. */
  lemma WrapOfShifted(o: int, s: nat)
    ensures s >= 64 ==> Wrap64(o * Pow2(s)) == 0
    ensures Wrap64(o * Pow2(s)) > 0 ==> Wrap64(o * Pow2(s)) >= Pow2(s)
  {
    hide Pow2, Wrap64;
    Pow2Of64();
    if s >= 64 {
      Pow2Add(64, s - 64);
      Regroup(o, TWO_64, Pow2(s - 64));
      WrapOfMultiple(o * Pow2(s), o * Pow2(s - 64));
    } else {
      Pow2Add(s, 64 - s);
      var m, x := Pow2(s), o * Pow2(s);
      var z := WrapDrops(x);
      Factor(m, o, Pow2(64 - s), z);
      if Wrap64(x) > 0 {
        MultipleAtLeast(m, o - Pow2(64 - s) * z);
      }
    }
  }

  lemma Regroup(a: int, b: int, c: int)
    ensures a * (b * c) == b * (a * c) == (a * b) * c
  {
  }

  lemma ProductBound(o: int, p: int, max: int)
    requires 0 < o && o * max < TWO_63 <= o * p
    ensures max < p
  {
    if p <= max {
      Monotone(o, p, max);
    }
  }

  /** Enough for every attempt at once: the odd part of base times max stays below 2^63. */
  lemma CeilingIsExact(o: int, t: nat, max: int, attempt: nat)
    requires 0 < o && 0 < max && o * max < TWO_63 && max < TWO_63
    ensures Ceiling(o * Pow2(t), max, attempt) == Exact(o * Pow2(t), max, attempt)
  {
    hide Pow2, Wrap64, Ceiling, Exact;
    var base := o * Pow2(t);
    Monotone(o, 1, Pow2(t));
    Pow2Add(t, attempt);
    Regroup(o, Pow2(t), Pow2(attempt));
    WrapOfShifted(o, t + attempt);
    if base * Pow2(attempt) >= TWO_63 {
      ProductBound(o, Pow2(t + attempt), max);
    }
    CeilingIsExactIff(base, max, attempt);
  }

  lemma SquareBounds(base: int, max: int)
    requires 0 < base <= max
    ensures base * max <= max * max && max <= max * max && base * Pow2(0) == base
  {
    Monotone(max, base, max);
    Monotone(max, 1, max);
  }

  /** In particular when max squared fits, whatever base up to max. */
  lemma SquareFits(base: int, max: int, attempt: nat)
    requires 0 < base <= max && max * max < TWO_63
    ensures Ceiling(base, max, attempt) == Exact(base, max, attempt)
  {
    hide Ceiling, Exact;
    SquareBounds(base, max);
    CeilingIsExact(base, 0, max, attempt);
  }

  const DEFAULT_BASE: int := 200_000_000
  const DEFAULT_MAX: int := 5_000_000_000

  /** And for the defaults, 200 ms and 5 s, though 5 s squared does not fit. */
  lemma DefaultsAreExact(attempt: nat)
    ensures Ceiling(DEFAULT_BASE, DEFAULT_MAX, attempt) == Exact(200_000_000, 5_000_000_000, attempt)
    ensures DEFAULT_MAX * DEFAULT_MAX >= TWO_63
  {
    hide Ceiling, Exact;
    Pow2Of64();
    assert DEFAULT_BASE == 390625 * Pow2(9);
    CeilingIsExact(390625, 9, DEFAULT_MAX, attempt);
  }

  /** Not for every pair: base = 2^33 + 1 ns, max = 2^34 ns. At attempt 31 the product
      overflows and 2^31 ns is left, a fraction of the cap. */
  lemma CeilingCanCollapse()
    ensures Ceiling(0x2_0000_0001, 0x4_0000_0000, 31) == 0x8000_0000 < Exact(0x2_0000_0001, 0x4_0000_0000, 31)
  {
    assert Pow2(8) == 256;
    Pow2Add(8, 8);
    Pow2Add(16, 8);
    Pow2Add(24, 7);
    assert Pow2(7) == 128;
    assert Pow2(31) == 0x8000_0000;
    assert 0x2_0000_0001 * Pow2(31) == TWO_64 + 0x8000_0000;
  }

  lemma {:induction false} ExactNeverFalls(base: int, max: int, a: nat, b: nat)
    requires 0 < base && 0 < max && a <= b
    ensures 0 < Exact(base, max, a) <= Exact(base, max, b) <= max
  {
    Pow2Add(a, b - a);
    assert base * Pow2(b) == (base * Pow2(a)) * Pow2(b - a);
    assert base * Pow2(a) > 0;
    Monotone(base * Pow2(a), 1, Pow2(b - a));
  }

  /** The argument of rand.Int63n is positive, and the draw safe, unless the cap is the
      largest 64-bit integer. */
  lemma JitterBoundPositiveIff(base: int, max: int, attempt: nat)
    requires 0 < base && 0 < max < TWO_63
    ensures Wrap64(Ceiling(base, max, attempt) + 1) > 0 <==> Ceiling(base, max, attempt) < TWO_63 - 1
    ensures 0 < Ceiling(base, max, attempt) <= max
  {
  }

  // ---- waiting ----

  datatype Config = Config(maxRetries: nat, base: int, max: int) {
    ghost predicate Valid() {
      0 < base < TWO_63 && 0 < max < TWO_63 - 1
    }
  }

  /** The Retry-After header: absent or unreadable, a number of seconds, or a date so far
      from now. */
  datatype Hint = NoHint | Seconds(n: int) | Until(d: int)

  /** Seconds become nanoseconds in 64 bits, and can wrap. */
  function RetryAfter(h: Hint): int {
    match h
    case NoHint => 0
    case Seconds(n) => if n < 0 then 0 else Wrap64(n * SECOND)
    case Until(d) => if d > 0 then d else 0
  }

  /** The draw: anything from 0 up to the ceiling. */
  function Jitter(c: Config, attempt: nat, draw: nat): int {
    var n := Ceiling(c.base, c.max, attempt) + 1;
    if n > 0 then draw % n else 0
  }

  /** How long wait sleeps. */
  function Sleep(c: Config, attempt: nat, hint: int, draw: nat): int {
    var d := if hint <= 0 then Jitter(c, attempt, draw) else hint;
    if d > c.max then c.max else d
  }

  // ---- the loops ----

  /** What one attempt meets: no response (with the caller's context ended or not), or a
      status and a Retry-After. */
  datatype Reply = NoResponse(ctxEnded: bool) | Response(status: int, hint: Hint)

  /** ... and what its wait would meet: the jitter drawn, and whether the context ends. */
  datatype Turn = Turn(reply: Reply, draw: nat, cut: bool)

  type Script = nat -> Turn

  datatype Outcome = Delivered | TransportError | Refused(status: int) | WaitCut

  datatype Event = Event(attempt: nat, status: int, retrying: bool, failed: bool)

  predicate IsIdempotent(verb: string) {
    verb in ["GET", "HEAD", "OPTIONS", "PUT", "DELETE"]
  }

  predicate IsRetryable(status: int) {
    status == 429 || 500 <= status <= 599
  }

  predicate IsSuccess(status: int) {
    200 <= status < 300
  }

  /** When an attempt is not the last. */
  predicate Retries(c: Config, verb: string, script: Script, attempt: nat) {
    && attempt < c.maxRetries
    && match script(attempt).reply
       case NoResponse(ctxEnded) => !ctxEnded && IsIdempotent(verb)
       case Response(status, _) => IsRetryable(status)
  }

  function EventAt(c: Config, verb: string, script: Script, attempt: nat): Event {
    match script(attempt).reply
    case NoResponse(_) => Event(attempt, 0, Retries(c, verb, script, attempt), true)
    case Response(status, _) => Event(attempt, status, Retries(c, verb, script, attempt), false)
  }

  function SleepAt(c: Config, script: Script, attempt: nat): int {
    var t := script(attempt);
    Sleep(c, attempt, if t.reply.Response? then RetryAfter(t.reply.hint) else 0, t.draw)
  }

  /** The attempt after which there is no other. */
  predicate Stops(c: Config, verb: string, script: Script, attempt: nat) {
    !Retries(c, verb, script, attempt) || script(attempt).cut
  }

  function FirstStop(c: Config, verb: string, script: Script, attempt: nat): (n: nat)
    requires attempt <= c.maxRetries
    ensures attempt <= n <= c.maxRetries && Stops(c, verb, script, n)
    ensures forall i :: attempt <= i < n ==> !Stops(c, verb, script, i)
    decreases c.maxRetries - attempt
  {
    if Stops(c, verb, script, attempt) then attempt else FirstStop(c, verb, script, attempt + 1)
  }

  function OutcomeAt(c: Config, verb: string, script: Script, n: nat): Outcome {
    if Retries(c, verb, script, n) then WaitCut
    else
      match script(n).reply
      case NoResponse(_) => TransportError
      case Response(status, _) => if IsSuccess(status) then Delivered else Refused(status)
  }

  /** The service answered with a 2xx. */
  predicate Succeeds(script: Script, attempt: nat) {
    script(attempt).reply.Response? && IsSuccess(script(attempt).reply.status)
  }

  /** Nothing follows a success, so what is delivered is the first one. */
  lemma SuccessIsLast(c: Config, verb: string, script: Script)
    ensures
      var n := FirstStop(c, verb, script, 0);
      && (OutcomeAt(c, verb, script, n).Delivered? <==> Succeeds(script, n))
      && forall i :: 0 <= i < n ==> !Succeeds(script, i)
  {
    forall i | 0 <= i < FirstStop(c, verb, script, 0)
      ensures !Succeeds(script, i)
    {
      assert !Stops(c, verb, script, i);
    }
  }

  /** What both loops have done when they stop at attempt n: an event for every attempt,
      a sleep for every one that was to be retried. */
  ghost predicate Account(c: Config, verb: string, script: Script, events: seq<Event>, sleeps: seq<int>, n: nat) {
    && |events| == n + 1
    && (forall i :: 0 <= i <= n ==> events[i] == EventAt(c, verb, script, i))
    && |sleeps| == n + (if Retries(c, verb, script, n) then 1 else 0)
    && (forall i :: 0 <= i < |sleeps| ==> sleeps[i] == SleepAt(c, script, i))
  }

  /** send: one observer event per attempt. */
  method Send(c: Config, verb: string, script: Script) returns (outcome: Outcome, events: seq<Event>, sleeps: seq<int>)
    ensures
      var n := FirstStop(c, verb, script, 0);
      outcome == OutcomeAt(c, verb, script, n) && Account(c, verb, script, events, sleeps, n)
    ensures outcome.Delivered? <==> Succeeds(script, |events| - 1)
    ensures forall i :: 0 <= i < |events| - 1 ==> !Succeeds(script, i)
  {
    SuccessIsLast(c, verb, script);
    var attempt := 0;
    events, sleeps := [], [];
    while true
      invariant attempt <= c.maxRetries && |events| == |sleeps| == attempt
      invariant FirstStop(c, verb, script, 0) == FirstStop(c, verb, script, attempt)
      invariant forall i :: 0 <= i < attempt ==> events[i] == EventAt(c, verb, script, i) && sleeps[i] == SleepAt(c, script, i)
      decreases c.maxRetries - attempt
    {
      var turn := script(attempt);
      match turn.reply {
        case NoResponse(ctxEnded) =>
          if ctxEnded {
            events := events + [Event(attempt, 0, false, true)];
            return TransportError, events, sleeps;
          }
          var willRetry := attempt < c.maxRetries && IsIdempotent(verb);
          events := events + [Event(attempt, 0, willRetry, true)];
          if !willRetry {
            return TransportError, events, sleeps;
          }
          sleeps := sleeps + [Sleep(c, attempt, 0, turn.draw)];
        case Response(status, hint) =>
          if IsSuccess(status) {
            events := events + [Event(attempt, status, false, false)];
            return Delivered, events, sleeps;
          }
          var willRetry := attempt < c.maxRetries && IsRetryable(status);
          events := events + [Event(attempt, status, willRetry, false)];
          if !willRetry {
            return Refused(status), events, sleeps;
          }
          sleeps := sleeps + [Sleep(c, attempt, RetryAfter(hint), turn.draw)];
      }
      if turn.cut {
        return WaitCut, events, sleeps;
      }
      attempt := attempt + 1;
    }
  }

  /** doRaw: its own copy of the loop, without events; it makes the same attempts, sleeps
      the same and ends the same. */
  method DoRaw(c: Config, verb: string, script: Script) returns (outcome: Outcome, attempts: nat, sleeps: seq<int>)
    ensures
      var n := FirstStop(c, verb, script, 0);
      && outcome == OutcomeAt(c, verb, script, n)
      && attempts == n + 1
      && exists events :: Account(c, verb, script, events, sleeps, n)
    ensures outcome.Delivered? <==> Succeeds(script, attempts - 1)
    ensures forall i :: 0 <= i < attempts - 1 ==> !Succeeds(script, i)
  {
    SuccessIsLast(c, verb, script);
    var attempt := 0;
    sleeps := [];
    ghost var n := FirstStop(c, verb, script, 0);
    ghost var events := seq(n + 1, i requires 0 <= i => EventAt(c, verb, script, i));
    while true
      invariant attempt <= c.maxRetries && |sleeps| == attempt
      invariant n == FirstStop(c, verb, script, attempt)
      invariant forall i :: 0 <= i < attempt ==> sleeps[i] == SleepAt(c, script, i)
      decreases c.maxRetries - attempt
    {
      var turn := script(attempt);
      if turn.reply.NoResponse? {
        if !turn.reply.ctxEnded && attempt < c.maxRetries && IsIdempotent(verb) {
          sleeps := sleeps + [Sleep(c, attempt, 0, turn.draw)];
          if turn.cut {
            assert Account(c, verb, script, events, sleeps, n);
            return WaitCut, attempt + 1, sleeps;
          }
          attempt := attempt + 1;
          continue;
        }
        assert Account(c, verb, script, events, sleeps, n);
        return TransportError, attempt + 1, sleeps;
      }
      if IsSuccess(turn.reply.status) {
        assert Account(c, verb, script, events, sleeps, n);
        return Delivered, attempt + 1, sleeps;
      }
      if attempt < c.maxRetries && IsRetryable(turn.reply.status) {
        sleeps := sleeps + [Sleep(c, attempt, RetryAfter(turn.reply.hint), turn.draw)];
        if turn.cut {
          assert Account(c, verb, script, events, sleeps, n);
          return WaitCut, attempt + 1, sleeps;
        }
        attempt := attempt + 1;
        continue;
      }
      assert Account(c, verb, script, events, sleeps, n);
      return Refused(turn.reply.status), attempt + 1, sleeps;
    }
  }

  function Sum(xs: seq<int>): int {
    if xs == [] then 0 else Sum(xs[..|xs| - 1]) + xs[|xs| - 1]
  }

  lemma {:induction false} SumWithin(xs: seq<int>, max: nat)
    requires forall i :: 0 <= i < |xs| ==> 0 <= xs[i] <= max
    ensures 0 <= Sum(xs) <= |xs| * max
  {
    if xs != [] {
      SumWithin(xs[..|xs| - 1], max);
    }
  }

  /** No sleep is longer than the cap, whatever the header said or the jitter drew, even
      when the seconds wrapped. */
  lemma SleepWithin(c: Config, attempt: nat, hint: int, draw: nat)
    requires c.Valid()
    ensures 0 <= Sleep(c, attempt, hint, draw) <= c.max
    ensures hint <= 0 ==> Sleep(c, attempt, hint, draw) <= Ceiling(c.base, c.max, attempt)
    ensures hint > 0 ==> Sleep(c, attempt, hint, draw) == if hint < c.max then hint else c.max
  {
    JitterBoundPositiveIff(c.base, c.max, attempt);
  }

  /** One call, whatever the responses: at most maxRetries + 1 attempts numbered from 0,
      at most maxRetries * max asleep; every event but the last announces a retry, the
      last one only if its wait was cut short; a POST, a PATCH or anything else that is not
      idempotent is never repeated after a failure without a response; and only a 429 or a
      5xx is repeated after a response. */
  lemma CallIsBounded(c: Config, verb: string, script: Script, events: seq<Event>, sleeps: seq<int>)
    requires c.Valid() && Account(c, verb, script, events, sleeps, FirstStop(c, verb, script, 0))
    ensures 1 <= |events| <= c.maxRetries + 1
    ensures forall i :: 0 <= i < |events| ==> events[i].attempt == i
    ensures forall i :: 0 <= i < |events| - 1 ==> events[i].retrying
    ensures events[|events| - 1].retrying <==> OutcomeAt(c, verb, script, |events| - 1) == WaitCut
    ensures 0 <= Sum(sleeps) <= c.maxRetries * c.max
    ensures verb in ["POST", "PATCH"] ==> forall i :: 0 <= i < |events| - 1 ==> !events[i].failed
    ensures forall i :: 0 <= i < |events| - 1 && events[i].failed ==> verb in ["GET", "HEAD", "OPTIONS", "PUT", "DELETE"]
    ensures forall i :: 0 <= i < |events| - 1 && !events[i].failed ==>
              events[i].status == 429 || 500 <= events[i].status <= 599
  {
    hide Sleep, SleepAt, Ceiling;
    var n := FirstStop(c, verb, script, 0);
    forall i | 0 <= i < n
      ensures !Stops(c, verb, script, i) && events[i] == EventAt(c, verb, script, i)
    {
    }
    forall i | 0 <= i < |sleeps|
      ensures 0 <= sleeps[i] <= c.max
    {
      SleepAtWithin(c, script, i);
    }
    SumWithin(sleeps, c.max);
    Monotone(c.max, |sleeps|, c.maxRetries);
    NotIdempotent();
  }

  lemma NotIdempotent()
    ensures !IsIdempotent("POST") && !IsIdempotent("PATCH")
  {
    assert |"POST"| == |"HEAD"| && "POST"[0] != "HEAD"[0] && "PATCH"[0] == "PUT"[0] && |"PATCH"| == 5;
  }

  /** And it does not give up early: while retries are left and no wait is cut short, a
      429, a 5xx, and, for GET, HEAD, OPTIONS, PUT and DELETE, a failure with the context
      still alive are always followed by another attempt. */
  lemma GoesOn(c: Config, verb: string, script: Script, events: seq<Event>, sleeps: seq<int>)
    requires Account(c, verb, script, events, sleeps, FirstStop(c, verb, script, 0))
    ensures
      var n := |events| - 1;
      n < c.maxRetries && !script(n).cut ==>
        match script(n).reply
        case NoResponse(ctxEnded) => ctxEnded || verb !in ["GET", "HEAD", "OPTIONS", "PUT", "DELETE"]
        case Response(status, _) => status != 429 && !(500 <= status <= 599)
  {
  }

  /** How a call ends, by its last attempt. */
  lemma EndsWith(c: Config, verb: string, script: Script, n: nat)
    requires n == FirstStop(c, verb, script, 0)
    ensures
      var outcome := OutcomeAt(c, verb, script, n);
      match script(n).reply
      case NoResponse(ctxEnded) =>
        && outcome in {TransportError, WaitCut}
        && (outcome == WaitCut <==> !ctxEnded && n < c.maxRetries && verb in ["GET", "HEAD", "OPTIONS", "PUT", "DELETE"])
      case Response(status, _) =>
        && outcome in {Delivered, Refused(status), WaitCut}
        && (outcome == Delivered <==> 200 <= status <= 299)
        && (outcome == WaitCut <==> n < c.maxRetries && (status == 429 || 500 <= status <= 599))
    ensures OutcomeAt(c, verb, script, n) == WaitCut ==> script(n).cut
  {
  }

  /** Retry-After is in seconds, or the time until a date; a positive one is slept, up to
      the cap, unless its seconds overflow. */
  lemma RetryAfterIsHonoured(c: Config, attempt: nat, n: int, draw: nat)
    requires c.Valid() && 0 < n
    ensures n * 1_000_000_000 < 0x8000_0000_0000_0000 ==>
              Sleep(c, attempt, RetryAfter(Seconds(n)), draw) == if n * 1_000_000_000 < c.max then n * 1_000_000_000 else c.max
    ensures Sleep(c, attempt, RetryAfter(Until(n)), draw) == if n < c.max then n else c.max
  {
    hide Wrap64, Ceiling, Sleep;
    SleepWithin(c, attempt, RetryAfter(Seconds(n)), draw);
    SleepWithin(c, attempt, n, draw);
  }

  lemma NothingToHonour(h: Hint)
    requires (h.Seconds? ==> h.n <= 0) && (h.Until? ==> h.d <= 0)
    ensures RetryAfter(h) == 0
  {
  }

  /** Without a positive one, any sleep from 0 up to the ceiling can be drawn, no other. */
  lemma AnySleepCanBeDrawn(c: Config, attempt: nat, h: Hint, draw: nat)
    requires c.Valid() && (h.Seconds? ==> h.n <= 0) && (h.Until? ==> h.d <= 0)
    ensures Sleep(c, attempt, RetryAfter(h), draw) <= Ceiling(c.base, c.max, attempt)
    ensures draw <= Ceiling(c.base, c.max, attempt) ==> Sleep(c, attempt, RetryAfter(h), draw) == draw
  {
    hide Ceiling, Wrap64, RetryAfter;
    NothingToHonour(h);
    SleepWithin(c, attempt, RetryAfter(h), draw);
    JitterBoundPositiveIff(c.base, c.max, attempt);
  }

  lemma SleepAtWithin(c: Config, script: Script, attempt: nat)
    requires c.Valid()
    ensures 0 <= SleepAt(c, script, attempt) <= c.max
  {
    var t := script(attempt);
    SleepWithin(c, attempt, if t.reply.Response? then RetryAfter(t.reply.hint) else 0, t.draw);
  }

  /** The promise of one event without Retrying per call holds exactly when no wait was
      cut short ... */
  lemma OneFinalEventIff(c: Config, verb: string, script: Script, events: seq<Event>, sleeps: seq<int>)
    requires c.Valid() && Account(c, verb, script, events, sleeps, FirstStop(c, verb, script, 0))
    ensures (exists i :: 0 <= i < |events| && !events[i].retrying)
            <==> OutcomeAt(c, verb, script, |events| - 1) != WaitCut
    ensures forall i, j :: 0 <= i < |events| && 0 <= j < |events| && !events[i].retrying && !events[j].retrying ==> i == j
  {
    CallIsBounded(c, verb, script, events, sleeps);
  }

  /** ... and so not for a 503 whose wait is cut: its only event announces a retry. */
  lemma NoFinalEvent()
    ensures
      var c := Config.Config(2, DEFAULT_BASE, DEFAULT_MAX);
      var script: Script := _ => Turn(Response(503, NoHint), 0, true);
      && FirstStop(c, "GET", script, 0) == 0
      && EventAt(c, "GET", script, 0) == Event(0, 503, true, false)
      && OutcomeAt(c, "GET", script, 0) == WaitCut
  {
  }
}
