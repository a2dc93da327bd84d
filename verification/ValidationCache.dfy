/** The validation cache as objects on a heap: what is copied, what is shared, and what
    eviction does to the map. One caller at a time; ValidationMachine has the
    interleavings. */
module ValidationCache {
  import opened CacheKeys
  import opened ValidationPolicy
  import opened ValidationInvariants
  import opened ValidationTheorems

  ghost function Elems(a: array?<string>): seq<string>
    reads a
  {
    if a == null then [] else a[..]
  }

  ghost function Backing(a: array?<string>): set<object> {
    if a == null then {} else {a}
  }

  class ActorObject {
    var valid: bool
    var userID: string
    var orgID: string
    var email: string
    var permissions: array?<string>
    var audience: array?<string>
    var expiresAt: string
    var error: string
    var isDelegation: bool
    var actingAs: string
    var delegationScope: array?<string>
    var delegationChain: array?<string>
    ghost var footprint: set<object>

    /** `out := *a`, with the four slices replaced. */
    constructor Like(a: ActorObject, permissions: array?<string>, audience: array?<string>,
                     delegationScope: array?<string>, delegationChain: array?<string>)
      ensures this.permissions == permissions && this.audience == audience
      ensures this.delegationScope == delegationScope && this.delegationChain == delegationChain
      ensures valid == a.valid && userID == a.userID && orgID == a.orgID && email == a.email
      ensures expiresAt == a.expiresAt && error == a.error && isDelegation == a.isDelegation && actingAs == a.actingAs
      ensures Valid()
      ensures footprint == {this} + Backing(permissions) + Backing(audience) + Backing(delegationScope) + Backing(delegationChain)
    {
      valid, userID, orgID, email := a.valid, a.userID, a.orgID, a.email;
      expiresAt, error, isDelegation, actingAs := a.expiresAt, a.error, a.isDelegation, a.actingAs;
      this.permissions, this.audience := permissions, audience;
      this.delegationScope, this.delegationChain := delegationScope, delegationChain;
      new;
      footprint := {this} + Backing(permissions) + Backing(audience) + Backing(delegationScope) + Backing(delegationChain);
    }

    /** A decoded response, over the arrays its slices are given. */
    constructor Of(v: Actor, permissions: array?<string>, audience: array?<string>,
                   delegationScope: array?<string>, delegationChain: array?<string>)
      ensures this.permissions == permissions && this.audience == audience
      ensures this.delegationScope == delegationScope && this.delegationChain == delegationChain
      ensures valid == v.valid && userID == v.userID && orgID == v.orgID && email == v.email
      ensures expiresAt == v.expiresAt && error == v.error && isDelegation == v.isDelegation && actingAs == v.actingAs
      ensures Valid()
      ensures footprint == {this} + Backing(permissions) + Backing(audience) + Backing(delegationScope) + Backing(delegationChain)
    {
      valid, userID, orgID, email := v.valid, v.userID, v.orgID, v.email;
      expiresAt, error, isDelegation, actingAs := v.expiresAt, v.error, v.isDelegation, v.actingAs;
      this.permissions, this.audience := permissions, audience;
      this.delegationScope, this.delegationChain := delegationScope, delegationChain;
      new;
      footprint := {this} + Backing(permissions) + Backing(audience) + Backing(delegationScope) + Backing(delegationChain);
    }

    /** `footprint` covers the struct and the arrays behind its four slices. */
    ghost predicate Valid()
      reads this, footprint
    {
      && this in footprint
      && (permissions != null ==> permissions in footprint)
      && (audience != null ==> audience in footprint)
      && (delegationScope != null ==> delegationScope in footprint)
      && (delegationChain != null ==> delegationChain in footprint)
    }

    ghost function View(): Actor
      requires Valid()
      reads this, footprint
    {
      Actor(valid, userID, orgID, email, Elems(permissions), Elems(audience), expiresAt, error,
            isDelegation, actingAs, Elems(delegationScope), Elems(delegationChain))
    }
  }

  class ApiErrorObject {
    var status: int
    var endpoint: string
    var code: string
    var message: string
    var body: string

    constructor Of(v: ApiError)
      ensures View() == v
    {
      status, endpoint, code, message, body := v.status, v.endpoint, v.code, v.message, v.body;
    }

    ghost function View(): ApiError
      reads this
    {
      ApiError(status, endpoint, code, message, body)
    }
  }

  /** The error interface: nil, an *APIError, an error that wraps one, or another. */
  datatype GoError =
    | NoError
    | ApiErr(obj: ApiErrorObject)
    | WrappingErr(context: string, obj: ApiErrorObject)
    | PlainErr(reason: string)

  ghost function ErrorFootprint(e: GoError): set<object> {
    if e.ApiErr? || e.WrappingErr? then {e.obj} else {}
  }

  ghost function ErrorView(e: GoError): Option<Failure>
    reads ErrorFootprint(e)
  {
    match e
    case NoError => None
    case ApiErr(o) => Some(Direct(o.View()))
    case WrappingErr(ctx, o) => Some(Wrapping(ctx, o.View()))
    case PlainErr(r) => Some(Plain(r))
  }

  /** append([]string(nil), xs...): a new array, or nil when there is nothing to copy. */
  method CopySlice(a: array?<string>) returns (r: array?<string>)
    ensures Elems(r) == Elems(a)
    ensures r == null || fresh(r)
    ensures r == null <==> a == null || a.Length == 0
  {
    if a == null || a.Length == 0 {
      r := null;
    } else {
      r := new string[a.Length];
      for i := 0 to a.Length
        invariant forall j :: 0 <= j < i ==> r[j] == a[j]
        invariant fresh(r)
      {
        r[i] := a[i];
      }
      assert r[..] == a[..];
    }
  }

  method CopyActor(a: ActorObject) returns (r: ActorObject)
    requires a.Valid()
    ensures r.Valid() && fresh(r.footprint)
    ensures r.View() == a.View()
  {
    var p := CopySlice(a.permissions);
    var u := CopySlice(a.audience);
    var s := CopySlice(a.delegationScope);
    var c := CopySlice(a.delegationChain);
    r := new ActorObject.Like(a, p, u, s, c);
  }

  /** Only an error that is itself an *APIError is copied. */
  method CopyError(e: GoError) returns (r: GoError)
    ensures ErrorView(r) == ErrorView(e)
    ensures !e.ApiErr? ==> r == e
    ensures e.ApiErr? ==> r.ApiErr? && fresh(r.obj)
  {
    if e.ApiErr? {
      var o := new ApiErrorObject.Of(ApiError(e.obj.status, e.obj.endpoint, e.obj.code, e.obj.message, e.obj.body));
      r := ApiErr(o);
    } else {
      r := e;
    }
  }

  class ValidationEntry {
    var flight: bool  // some other caller's fetch is running
    var actor: ActorObject?
    var err: GoError
    var expires: Time

    constructor ()
      ensures !flight && actor == null && err == NoError && expires == ZERO_TIME
    {
      flight, actor, err, expires := false, null, NoError, ZERO_TIME;
    }

    /** How evictIfFullLocked classes this entry. */
    function StatusAt(now: Time): Status
      reads this
    {
      if flight then InFlight
      else if (actor == null && err.NoError?) || now >= expires then Gone
      else Live(expires)
    }

    ghost predicate Valid()
      reads this, actor, if actor == null then {} else actor.footprint
    {
      actor != null ==> actor.Valid()
    }

    ghost function View(): Slot
      requires Valid()
      reads this, actor, (if actor == null then {} else actor.footprint), ErrorFootprint(err)
    {
      Slot(if actor == null then None else Some(actor.View()), ErrorView(err), expires)
    }
  }

  /** Neither the actor nor any of its slices was written to. */
  twostate predicate Untouched(a: ActorObject)
    reads a, a.permissions, a.audience, a.delegationScope, a.delegationChain
  {
    && unchanged(a)
    && (old(a.permissions) != null ==> unchanged(old(a.permissions)))
    && (old(a.audience) != null ==> unchanged(old(a.audience)))
    && (old(a.delegationScope) != null ==> unchanged(old(a.delegationScope)))
    && (old(a.delegationChain) != null ==> unchanged(old(a.delegationChain)))
  }

  /** What the fetch handed back, as a value. */
  ghost function AnswerView(actor: ActorObject?, err: GoError): Answer
    requires actor != null ==> actor.Valid()
    reads actor, (if actor == null then {} else actor.footprint), ErrorFootprint(err)
  {
    if !err.NoError? then Failed(ErrorView(err).value)
    else if actor == null then Nothing
    else Said(actor.View())
  }

  ghost function SetOf(s: seq<string>): set<string> {
    set k | k in s
  }

  lemma SetOfConcat(a: seq<string>, b: seq<string>)
    ensures SetOf(a + b) == SetOf(a) + SetOf(b)
  {
    forall k | k in SetOf(a) + SetOf(b) ensures k in SetOf(a + b) {
      assert k in a + b;
    }
  }

  lemma SetOfAppend(s: seq<string>, k: string)
    ensures SetOf(s + [k]) == SetOf(s) + {k}
  {
    SetOfConcat(s, [k]);
    assert SetOf([k]) == {k};
  }

  ghost predicate InOrder(order: seq<string>, live: map<string, Time>) {
    && SetOf(order) == live.Keys
    && |order| == |live|
    && forall i, j :: 0 <= i < j < |order| ==> order[i] in live && order[j] in live && live[order[i]] <= live[order[j]]
  }

  method Earliest(live: map<string, Time>) returns (k: string)
    requires live != map[]
    ensures k in live && forall j :: j in live ==> live[k] <= live[j]
  {
    ghost var e := EarliestKey(live);
    assert e in live && forall j :: j in live ==> live[e] <= live[j];
    k :| k in live && forall j :: j in live ==> live[k] <= live[j];
  }

  /** A sorted front part and a remainder no earlier than it. */
  ghost predicate PartlySorted(order: seq<string>, rest: map<string, Time>, live: map<string, Time>) {
    && rest.Keys <= live.Keys
    && (forall k :: k in rest ==> rest[k] == live[k])
    && SetOf(order) == live.Keys - rest.Keys
    && |order| + |rest| == |live|
    && (forall i :: 0 <= i < |order| ==> order[i] in live)
    && (forall i, j :: 0 <= i < j < |order| ==> live[order[i]] <= live[order[j]])
    && (forall i, k :: 0 <= i < |order| && k in rest ==> live[order[i]] <= live[k])
  }

  lemma MoveEarliest(order: seq<string>, rest: map<string, Time>, live: map<string, Time>, k: string)
    requires PartlySorted(order, rest, live)
    requires k in rest && forall j :: j in rest ==> rest[k] <= rest[j]
    ensures PartlySorted(order + [k], rest - {k}, live)
    ensures |rest - {k}| < |rest|
  {
    hide SetOf;
    DropSize(rest, {k});
    assert (rest - {k}).Keys == rest.Keys - {k};
    SetOfAppend(order, k);
  }

  lemma NothingSorted(live: map<string, Time>)
    ensures PartlySorted([], live, live)
  {
  }

  lemma AllSorted(order: seq<string>, live: map<string, Time>)
    requires PartlySorted(order, map[], live)
    ensures InOrder(order, live)
  {
  }

  /** sort.Slice(live, ...) by expiry; ties in any order. */
  method SortByExpiry(live: map<string, Time>) returns (order: seq<string>)
    ensures InOrder(order, live)
  {
    hide PartlySorted, InOrder;
    order := [];
    var rest := live;
    NothingSorted(live);
    while rest != map[]
      invariant PartlySorted(order, rest, live)
      decreases |rest|
    {
      var k := Earliest(rest);
      MoveEarliest(order, rest, live, k);
      order := order + [k];
      rest := rest - {k};
    }
    AllSorted(order, live);
  }

  method ListOf(keys: set<string>) returns (order: seq<string>)
    ensures SetOf(order) == keys && |order| == |keys|
  {
    order := [];
    var rest := keys;
    while rest != {}
      invariant rest <= keys && SetOf(order) == keys - rest && |order| + |rest| == |keys|
      decreases rest
    {
      var k :| k in rest;
      SetOfAppend(order, k);
      order := order + [k];
      rest := rest - {k};
    }
  }

  lemma OrderedAt(order: seq<string>, live: map<string, Time>, all: seq<string>, n: nat, a: string, b: string)
    requires InOrder(order, live) && order <= all && n <= |all|
    requires a in live && a in SetOf(all[..n]) && b in live && b !in SetOf(all[..n])
    requires forall i, j :: 0 <= i < j < |all| ==> all[i] != all[j]
    ensures live[a] <= live[b]
  {
    forall x | 0 <= x < n ensures all[x] in SetOf(all[..n]) { assert all[..n][x] == all[x]; }
    assert a in SetOf(order) && b in SetOf(order);
    var i :| 0 <= i < |order| && order[i] == a;
    var j :| 0 <= j < |order| && order[j] == b;
    var i' :| 0 <= i' < n && all[i'] == a;
    assert all[i] == a && all[j] == b && i == i';
  }

  lemma LiveGoFirst(order: seq<string>, waiting: seq<string>, n: nat)
    requires n <= |order + waiting| && SetOf(order) !! SetOf(waiting)
    ensures SetOf((order + waiting)[..n]) <= SetOf(order) + SetOf(waiting)
    ensures SetOf((order + waiting)[..n]) * SetOf(waiting) != {} ==> SetOf(order) <= SetOf((order + waiting)[..n])
  {
    var all := order + waiting;
    SetOfConcat(order, waiting);
    assert SetOf(all[..n]) <= SetOf(all);
    if n <= |order| {
      assert all[..n] == order[..n];
      assert SetOf(order[..n]) <= SetOf(order);
    } else {
      assert all[..n] == order + waiting[..n - |order|];
      SetOfConcat(order, waiting[..n - |order|]);
    }
  }

  /** Deleting from the front of "live by expiry, then in flight" is the eviction order. */
  lemma PrefixIsAChoice(order: seq<string>, waiting: seq<string>, live: map<string, Time>, inFlight: set<string>,
                        n: nat, size: nat, target: nat)
    requires InOrder(order, live) && SetOf(waiting) == inFlight && |waiting| == |inFlight|
    requires live.Keys !! inFlight && size == |live| + |inFlight|
    requires n == (if size > target then size - target else 0)
    ensures n <= |order + waiting|
    ensures EvictionChoice(SetOf((order + waiting)[..n]), live, inFlight, size, target)
  {
    var all := order + waiting;
    SetOfConcat(order, waiting);
    assert |live.Keys + inFlight| == |all|;
    NoRepeats(all, n);
    LiveGoFirst(order, waiting, n);
    var victims := SetOf(all[..n]);
    forall a, b | a in victims && a in live && b in live && b !in victims
      ensures live[a] <= live[b]
    {
      OrderedAt(order, live, all, n, a, b);
    }
  }

  /** A list as long as its set of elements repeats none, nor does a prefix of it. */
  lemma {:induction false} NoRepeats(all: seq<string>, n: nat)
    requires n <= |all| && |SetOf(all)| == |all|
    ensures |SetOf(all[..n])| == n
    ensures forall i, j :: 0 <= i < j < |all| ==> all[i] != all[j]
    decreases |all|
  {
    if all == [] {
    } else {
      var last, front := all[|all| - 1], all[..|all| - 1];
      assert SetOf(all) == SetOf(front) + {last};
      SetOfSeqBound(front);
      assert last !in SetOf(front);
      NoRepeats(front, if n == |all| then n - 1 else n);
      if n == |all| {
        assert all[..n] == all && front[..n - 1] == front;
      } else {
        assert all[..n] == front[..n];
      }
    }
  }

  lemma {:induction false} SetOfSeqBound(s: seq<string>)
    ensures |set k | k in s| <= |s|
  {
    if s != [] {
      var last, front := s[|s| - 1], s[..|s| - 1];
      assert SetOf(s) == SetOf(front) + {last};
      SetOfSeqBound(front);
    }
  }

  /** The scan so far: expired entries are deleted, the others classed, `todo` is left. */
  ghost predicate Scanned<V>(status: map<string, Status>, todo: set<string>, before: map<string, V>, kept: map<string, V>,
                             live: map<string, Time>, inFlight: set<string>)
  {
    && todo <= before.Keys == status.Keys
    && kept.Keys == before.Keys - (GoneKeys(status) - todo)
    && (forall k :: k in kept ==> kept[k] == before[k])
    && live.Keys == LiveKeys(status).Keys - todo
    && (forall k :: k in live ==> status[k].Live? && live[k] == status[k].expires)
    && inFlight == InFlightKeys(status) - todo
  }

  lemma ScanOne<V>(status: map<string, Status>, todo: set<string>, before: map<string, V>, kept: map<string, V>,
                   live: map<string, Time>, inFlight: set<string>, k: string)
    requires Scanned(status, todo, before, kept, live, inFlight) && k in todo
    ensures k in kept && kept[k] == before[k]
    ensures status[k].Gone? ==> Scanned(status, todo - {k}, before, kept - {k}, live, inFlight)
    ensures status[k].InFlight? ==> Scanned(status, todo - {k}, before, kept, live, inFlight + {k})
    ensures status[k].Live? ==> Scanned(status, todo - {k}, before, kept, live[k := status[k].expires], inFlight)
  {
  }

  lemma ScanDone<V>(status: map<string, Status>, before: map<string, V>, kept: map<string, V>,
                    live: map<string, Time>, inFlight: set<string>)
    requires Scanned(status, {}, before, kept, live, inFlight)
    ensures live == LiveKeys(status) && inFlight == InFlightKeys(status)
    ensures kept.Keys == live.Keys + inFlight
  {
  }

  lemma ClassSizes(status: map<string, Status>)
    ensures LiveKeys(status).Keys !! InFlightKeys(status)
    ensures |LiveKeys(status).Keys + InFlightKeys(status)| == |LiveKeys(status)| + |InFlightKeys(status)|
  {
    assert |LiveKeys(status).Keys| == |LiveKeys(status)|;
  }

  lemma OrderSize(order: seq<string>, live: map<string, Time>)
    requires InOrder(order, live)
    ensures SetOf(order) == live.Keys && |order| == |live|
  {
  }

  lemma EvictedByOrder(status: map<string, Status>, keys: set<string>, order: seq<string>, waiting: seq<string>,
                       target: nat, n: nat)
    requires |status| > target
    requires InOrder(order, LiveKeys(status))
    requires SetOf(waiting) == InFlightKeys(status) && |waiting| == |InFlightKeys(status)|
    requires keys == LiveKeys(status).Keys + InFlightKeys(status)
    requires n == (if |keys| > target then |keys| - target else 0)
    ensures n <= |order + waiting| && SetOf(order + waiting) == keys && |order + waiting| == |keys|
    ensures Evicted(status, keys - SetOf((order + waiting)[..n]), target)
  {
    hide SetOf, InOrder, EvictionChoice, LiveKeys, InFlightKeys;
    var live, inFlight := LiveKeys(status), InFlightKeys(status);
    ClassSizes(status);
    OrderSize(order, live);
    SetOfConcat(order, waiting);
    PrefixIsAChoice(order, waiting, live, inFlight, n, |keys|, target);
  }

  /** The first i keys of the order are gone, nothing else. */
  ghost predicate Dropped<V>(kept: map<string, V>, entries: map<string, V>, order: seq<string>, i: nat) {
    && i <= |order|
    && kept.Keys == entries.Keys - SetOf(order[..i])
    && |kept| == |entries| - i
    && forall k :: k in kept ==> kept[k] == entries[k]
  }

  lemma NoneDropped<V>(entries: map<string, V>, order: seq<string>)
    ensures Dropped(entries, entries, order, 0)
  {
    assert order[..0] == [];
    NothingIn();
  }

  lemma DropOne<V>(kept: map<string, V>, entries: map<string, V>, order: seq<string>, i: nat)
    requires SetOf(order) == entries.Keys && |order| == |entries| && i < |order|
    requires Dropped(kept, entries, order, i)
    ensures order[i] in kept && Dropped(kept - {order[i]}, entries, order, i + 1)
    ensures |kept - {order[i]}| == |kept| - 1
  {
    assert |entries.Keys| == |entries|;
    DropNext(entries.Keys, order, i);
    DropSize(kept, {order[i]});
  }

  /** The deletion loop over "live by expiry, then in flight". */
  method DropInOrder<V>(entries: map<string, V>, order: seq<string>, target: nat) returns (kept: map<string, V>)
    requires SetOf(order) == entries.Keys && |order| == |entries|
    ensures Dropped(kept, entries, order, if |entries| > target then |entries| - target else 0)
  {
    hide SetOf, Dropped;
    kept := entries;
    var i := 0;
    NoneDropped(entries, order);
    while i < |order| && |kept| > target
      invariant Dropped(kept, entries, order, i)
      invariant |kept| == |entries| - i && i <= |order|
      invariant i > 0 ==> |kept| >= target
    {
      DropOne(kept, entries, order, i);
      kept := kept - {order[i]};
      i := i + 1;
    }
  }

  lemma NothingIn()
    ensures SetOf([]) == {}
  {
  }

  lemma DropNext(keys: set<string>, order: seq<string>, i: nat)
    requires SetOf(order) == keys && |order| == |keys| && i < |order|
    ensures order[i] in keys - SetOf(order[..i])
    ensures keys - SetOf(order[..i]) - {order[i]} == keys - SetOf(order[..i + 1])
  {
    NoRepeats(order, i);
    assert order[..i + 1] == order[..i] + [order[i]];
    SetOfAppend(order[..i], order[i]);
    assert order[i] in SetOf(order);
  }

  ghost function StatusOfAll(entries: map<string, ValidationEntry>, now: Time): map<string, Status>
    reads entries.Values
  {
    map k | k in entries :: entries[k].StatusAt(now)
  }

  /** The scan of evictIfFullLocked: expired entries are deleted while ranging over the
      map, the others are classed. */
  method ScanEntries(entries: map<string, ValidationEntry>, now: Time)
      returns (kept: map<string, ValidationEntry>, live: map<string, Time>, inFlight: set<string>)
    ensures var status := StatusOfAll(entries, now); live == LiveKeys(status) && inFlight == InFlightKeys(status)
    ensures kept.Keys == live.Keys + inFlight && live.Keys !! inFlight
    ensures kept.Keys <= entries.Keys && forall k :: k in kept ==> kept[k] == entries[k]
  {
    ghost var status := StatusOfAll(entries, now);
    kept, live, inFlight := entries, map[], {};
    var todo := entries.Keys;
    while todo != {}
      invariant Scanned(status, todo, entries, kept, live, inFlight)
      decreases todo
    {
      var k :| k in todo;
      ScanOne(status, todo, entries, kept, live, inFlight, k);
      match kept[k].StatusAt(now) {
        case InFlight => inFlight := inFlight + {k};
        case Gone => kept := kept - {k};
        case Live(expires) => live := live[k := expires];
      }
      todo := todo - {k};
    }
    ScanDone(status, entries, kept, live, inFlight);
  }

  /** The body of evictIfFullLocked: scan, sort, then delete in order until there is
      room for one more. */
  method EvictFrom(entries: map<string, ValidationEntry>, now: Time, target: nat, ghost status: map<string, Status>)
      returns (kept: map<string, ValidationEntry>)
    requires status == StatusOfAll(entries, now)
    ensures |kept| <= target
    ensures kept.Keys <= entries.Keys && forall k :: k in kept ==> kept[k] == entries[k]
    ensures Evicted(status, kept.Keys, target)
    ensures |entries| <= target ==> kept == entries
  {
    assert status.Keys == entries.Keys && |status| == |entries|;
    if |entries| <= target {
      return entries;
    }
    var scanned, live, inFlight := ScanEntries(entries, now);
    var liveOrder := SortByExpiry(live);
    var inFlightOrder := ListOf(inFlight);
    ghost var n := if |scanned| > target then |scanned| - target else 0;
    var order := liveOrder + inFlightOrder;
    assert |scanned.Keys| == |scanned|;
    EvictedByOrder(status, scanned.Keys, liveOrder, inFlightOrder, target, n);
    kept := DropInOrder(scanned, order, target);
    assert kept.Keys == scanned.Keys - SetOf(order[..n]);
  }

  /** Deleting while ranging over the map. */
  method DropFrom<V>(entries: map<string, V>, prefix: string) returns (kept: map<string, V>)
    ensures kept.Keys == set k | k in entries && !(prefix <= k)
    ensures forall k :: k in kept ==> kept[k] == entries[k]
  {
    kept := entries;
    var todo := entries.Keys;
    while todo != {}
      invariant todo <= entries.Keys
      invariant kept.Keys == set k | k in entries && (k in todo || !(prefix <= k))
      invariant forall k :: k in kept ==> kept[k] == entries[k]
      decreases todo
    {
      var k :| k in todo;
      if prefix <= k {
        kept := kept - {k};
      }
      todo := todo - {k};
    }
  }

  /** The read half of getWith: a live answer goes out as a copy. */
  method ServeFrom(e: ValidationEntry, bypass: bool, now: Time) returns (served: bool, actor: ActorObject?, err: GoError)
    requires e.Valid()
    ensures served == Serve(e.View(), bypass, now).Some?
    ensures actor != null ==> actor.Valid() && fresh(actor.footprint)
    ensures served ==> AnswerView(actor, err) == Serve(e.View(), bypass, now).value
    ensures err.ApiErr? ==> fresh(err.obj)
    ensures err.WrappingErr? ==> err == e.err
    ensures actor == null || err.NoError?
  {
    served, actor, err := false, null, NoError;
    if !bypass && now < e.expires {
      if e.actor != null {
        actor := CopyActor(e.actor);
        served := true;
      } else if !e.err.NoError? {
        err := CopyError(e.err);
        served := true;
      }
    }
  }

  /** `limit` capped by what the service and the credential say about their own end. */
  method ExpiryOf(config: Config, q: Question, now: Time, actor: ActorObject, ttl: int) returns (expires: Time)
    requires actor.Valid()
    requires ttl == (if actor.valid then config.Policy(ClassOf(q)).pos else config.Policy(ClassOf(q)).neg)
    ensures expires == ExpiryFor(config, q, now, actor.View())
  {
    expires := now + ttl;
    if actor.valid {
      var exp := config.parseExpiry(actor.expiresAt);
      if exp.Some? && exp.value < expires {
        expires := exp.value;
      }
      var notAfter := NotAfter(config, q);
      if notAfter != ZERO_TIME && notAfter < expires {
        expires := notAfter;
      }
    }
  }

  method Clear(e: ValidationEntry)
    modifies e
    ensures e.flight == old(e.flight) && e.actor == null && e.err == NoError && e.Valid() && e.View() == EMPTY_SLOT
  {
    e.actor, e.err, e.expires := null, NoError, ZERO_TIME;
  }

  method Fill(e: ValidationEntry, copy: ActorObject, expires: Time)
    requires copy.Valid() && e !in copy.footprint
    modifies e
    ensures e.flight == old(e.flight) && e.actor == copy && e.err == NoError && e.Valid() && copy.footprint == old(copy.footprint)
    ensures e.View() == Slot(Some(old(copy.View())), None, expires)
  {
    e.actor, e.err, e.expires := copy, NoError, expires;
  }

  /** `owned` covers what an entry's answer consists of. */
  ghost predicate Covers(owned: set<object>, e: ValidationEntry)
    reads e, e.actor
  {
    && (e.actor != null ==> e.actor in owned && e.actor.footprint <= owned)
    && (e.err.ApiErr? || e.err.WrappingErr? ==> e.err.obj in owned)
  }

  /** The one fetch result the cache keeps without copying: a definite negative that
      wraps an *APIError, when negatives are kept at all. */
  ghost predicate IsKeptAsIs(config: Config, q: Question, ferr: GoError)
    reads ErrorFootprint(ferr)
  {
    ferr.WrappingErr? && DefiniteNegative(q, ErrorView(ferr).value) && config.Policy(ClassOf(q)).neg > 0
  }

  /** Only validate-token's 401 is remembered; any other failure changes nothing. */
  method RememberFailure(config: Config, e: ValidationEntry, q: Question, now: Time, ferr: GoError)
      returns (ghost added: set<object>)
    requires e.Valid() && !ferr.NoError?
    modifies e
    ensures e.Valid() && e.flight == old(e.flight)
    ensures e.View() == Store(config, q, now, old(AnswerView(null, ferr)), old(e.View()))
    ensures Covers(added, e) || (e.actor == old(e.actor) && e.err == old(e.err))
    ensures if old(IsKeptAsIs(config, q, ferr)) then added == {ferr.obj} && e.err == ferr else fresh(added)
    ensures e.err.WrappingErr? ==> e.err == old(e.err) || old(IsKeptAsIs(config, q, ferr))
  {
    added := {};
    if q.kind.ValidateToken? && (ferr.ApiErr? || ferr.WrappingErr?) && ferr.obj.status == 401 {
      var neg := config.Policy(ClassOf(q)).neg;
      if neg > 0 {
        var copy := CopyError(ferr);
        e.actor, e.err, e.expires := null, copy, now + neg;
        added := {copy.obj};
      } else {
        Clear(e);
      }
    }
  }

  /** How long the answer may be kept; None when it may not be kept at all. */
  method Keeping(config: Config, q: Question, now: Time, actor: ActorObject, ghost view: Actor, ghost prior: Slot)
      returns (expires: Option<Time>)
    requires actor.Valid() && actor.View() == view
    ensures Store(config, q, now, Said(view), prior)
            == (if expires.None? then EMPTY_SLOT else Slot(Some(view), None, expires.value))
  {
    var ttl := if actor.valid then config.Policy(ClassOf(q)).pos else config.Policy(ClassOf(q)).neg;
    if ttl <= 0 {
      return None;
    }
    var limit := ExpiryOf(config, q, now, actor, ttl);
    expires := if limit <= now then None else Some(limit);
  }

  /** An actor is kept as a copy, for its own lifetime, or not at all. */
  method RememberActor(config: Config, e: ValidationEntry, q: Question, now: Time, fetched: ActorObject)
      returns (ghost added: set<object>)
    requires e.Valid() && fetched.Valid() && e !in fetched.footprint
    modifies e
    ensures e.Valid() && e.flight == old(e.flight)
    ensures e.View() == Store(config, q, now, Said(old(fetched.View())), old(e.View()))
    ensures Covers(added, e) && fresh(added)
  {
    ghost var prior, view := e.View(), fetched.View();
    var expires := Keeping(config, q, now, fetched, view, prior);
    added := {};
    if expires.None? {
      Clear(e);
    } else {
      var copy := CopyActor(fetched);
      Fill(e, copy, expires.value);
      added := copy.footprint;
    }
  }

  /** The write half of getWith: the entry keeps copies, never what the caller holds,
      except for an error that wraps an *APIError. */
  method Remember(config: Config, e: ValidationEntry, q: Question, now: Time, fetched: ActorObject?, ferr: GoError)
      returns (ghost added: set<object>)
    requires e.Valid()
    requires fetched != null ==> fetched.Valid() && e !in fetched.footprint
    modifies e
    ensures e.Valid() && e.flight == old(e.flight)
    ensures e.View() == Store(config, q, now, old(AnswerView(fetched, ferr)), old(e.View()))
    ensures Covers(added, e) || (e.actor == old(e.actor) && e.err == old(e.err))
    ensures if old(IsKeptAsIs(config, q, ferr)) then added == {ferr.obj} && e.err == ferr else fresh(added)
    ensures e.err.WrappingErr? ==> e.err == old(e.err) || old(IsKeptAsIs(config, q, ferr))
  {
    added := {};
    if !ferr.NoError? {
      added := RememberFailure(config, e, q, now, ferr);
    } else if fetched != null {
      added := RememberActor(config, e, q, now, fetched);
    }
  }

  class ValidationCache {
    const config: Config
    var entries: map<string, ValidationEntry>
    var hits: nat
    var misses: nat

    /** The objects stored answers are made of. */
    ghost var answers: set<object>
    /** The objects callers can reach: fetch results and everything handed out. */
    ghost var lent: set<object>

    constructor (config: Config)
      requires config.maxEntries >= 1
      ensures Valid() && Isolated() && this.config == config && entries == map[] && lent == {}
    {
      this.config := config;
      entries, hits, misses := map[], 0, 0;
      answers, lent := {}, {};
    }

    ghost predicate Valid()
      reads this, entries.Values, answers
    {
      ValidWith(answers)
    }

    /** Each key has its own entry object, and `owned` covers every stored answer. */
    ghost predicate ValidWith(owned: set<object>)
      reads this, entries.Values, owned
    {
      && 1 <= config.maxEntries && |entries| <= config.maxEntries
      && this !in owned && this !in lent
      && (forall k :: k in entries ==>
            && entries[k] !in owned
            && entries[k] !in lent
            && (entries[k].actor != null ==> entries[k].actor in owned)
            && Covers(owned, entries[k])
            && (entries[k].err.WrappingErr? ==> entries[k].err.obj in lent)
            && entries[k].Valid())
      && (forall k, j :: k in entries && j in entries && entries[k] == entries[j] ==> k == j)
    }

    /** No caller can reach anything the cache will serve. */
    ghost predicate Isolated()
      reads this
    {
      lent !! answers
    }

    ghost function SlotOf(k: string): Slot
      requires Valid() && k in entries
      reads this, entries.Values, answers
    {
      entries[k].View()
    }

    method EvictIfFullLocked(now: Time)
      requires Valid()
      modifies this`entries
      ensures Valid()
      ensures |entries| <= config.maxEntries - 1
      ensures entries.Keys <= old(entries.Keys) && forall k :: k in entries ==> entries[k] == old(entries[k])
      ensures Evicted(old(StatusOfAll(entries, now)), entries.Keys, config.maxEntries - 1)
      ensures |old(entries)| < config.maxEntries ==> entries == old(entries)
    {
      hide Evicted, StatusOfAll, ValidWith;
      OwnsNotItself();
      entries := EvictFrom(entries, now, config.maxEntries - 1, StatusOfAll(entries, now));
      Shrunk();
    }

    lemma OwnsNotItself()
      requires Valid()
      ensures this !in answers && config.maxEntries >= 1
    {
    }

    twostate lemma Shrunk()
      requires old(Valid()) && lent == old(lent) && answers == old(answers)
      requires unchanged(old(entries.Values)) && unchanged(old(answers))
      requires |entries| <= config.maxEntries
      requires entries.Keys <= old(entries.Keys) && forall k :: k in entries ==> entries[k] == old(entries[k])
      ensures Valid()
    {
      hide ActorObject.View;
    }

    method InsertNew(key: string) returns (e: ValidationEntry)
      requires Valid() && key !in entries && |entries| < config.maxEntries
      modifies this`entries
      ensures Valid()
      ensures entries == old(entries)[key := e]
      ensures fresh(e) && !e.flight && e.actor == null && e.View() == EMPTY_SLOT
    {
      e := new ValidationEntry();
      InsertSize(entries, key, e);
      entries := entries[key := e];
    }

    /** An entry nobody wrote to reads the same, whatever happened to the map. */
    twostate lemma SlotStays(k: string)
      requires old(Valid()) && Valid() && k in old(entries) && k in entries && entries[k] == old(entries[k])
      requires unchanged(old(entries[k]))
      requires old(entries[k].actor) != null ==> Untouched(old(entries[k].actor))
      requires old(entries[k].err).ApiErr? || old(entries[k].err).WrappingErr? ==> unchanged(old(entries[k].err.obj))
      ensures SlotOf(k) == old(SlotOf(k))
    {
    }

    method EntryFor(key: string, now: Time) returns (e: ValidationEntry)
      requires Valid()
      modifies this`entries
      ensures Valid()
      ensures key in entries && entries[key] == e
      ensures key in old(entries) ==> entries == old(entries)
      ensures key !in old(entries) ==>
                && fresh(e) && !e.flight && e.actor == null && e.View() == EMPTY_SLOT
                && Evicted(old(StatusOfAll(entries, now)), entries.Keys - {key}, config.maxEntries - 1)
      ensures |old(entries)| < config.maxEntries ==> old(entries.Keys) <= entries.Keys
      ensures forall k :: k in entries && k != key ==> k in old(entries) && entries[k] == old(entries[k])
      ensures forall k :: k in entries && k != key ==> SlotOf(k) == old(SlotOf(k))
    {
      hide Evicted, ValidWith, ValidationEntry.View, ValidationEntry.Valid, Covers;
      if key in entries {
        return entries[key];
      }
      EvictIfFullLocked(now);
      ghost var room := entries;
      e := InsertNew(key);
      assert entries.Keys - {key} == room.Keys;
      forall k | k in entries && k != key ensures SlotOf(k) == old(SlotOf(k)) { SlotStays(k); }
    }

    /** InvalidateValidation with the credential's fingerprint, ResetValidationCache with
        the empty prefix. */
    method DropPrefix(prefix: string)
      requires Valid()
      modifies this`entries
      ensures Valid()
      ensures entries.Keys == set k | k in old(entries) && !(prefix <= k)
      ensures forall k :: k in entries ==> entries[k] == old(entries[k])
    {
      hide ActorObject.Valid, ActorObject.View, ValidationEntry.View;
      var kept := DropFrom(entries, prefix);
      SubmapSize(entries, kept);
      entries := kept;
    }

    method Refresh(e: ValidationEntry, q: Question, now: Time, fetched: ActorObject?, ferr: GoError)
        returns (ghost added: set<object>)
      requires Valid() && e in entries.Values
      requires fetched != null ==> fetched.Valid() && fetched.footprint <= lent
      requires ferr.WrappingErr? ==> ferr.obj in lent
      modifies e
      ensures ValidWith(answers + added) && e.Valid()
      ensures forall k :: k in entries && entries[k] != e ==> entries[k].Valid() && entries[k].View() == old(entries[k].View())
      ensures e.View() == Store(config, q, now, old(AnswerView(fetched, ferr)), old(e.View()))
      ensures if old(IsKeptAsIs(config, q, ferr)) then added == {ferr.obj} && e.err == ferr else fresh(added)
    {
      hide Store, AnswerView, ActorObject.View;
      assert forall k :: k in entries && entries[k].actor != null ==> e !in entries[k].actor.footprint;
      added := Remember(config, e, q, now, fetched, ferr);
    }

    /** `objects` are now also reachable by a caller. */
    ghost method Lend(objects: set<object>)
      requires Valid() && this !in objects && objects !! entries.Values
      modifies this`lent
      ensures Valid() && lent == old(lent) + objects
      ensures Isolated() <==> old(Isolated()) && objects !! answers
      ensures forall k :: k in entries ==> SlotOf(k) == old(SlotOf(k))
    {
      lent := lent + objects;
    }

    ghost method Own(objects: set<object>)
      requires ValidWith(answers + objects)
      modifies this`answers
      ensures Valid() && answers == old(answers) + objects
      ensures Isolated() <==> old(Isolated()) && objects !! lent
      ensures forall k :: k in entries ==> SlotOf(k) == old(entries[k].View())
    {
      answers := answers + objects;
    }

    method Count(hit: bool)
      requires Valid()
      modifies this`hits, this`misses
      ensures Valid() && Isolated() == old(Isolated())
      ensures hits == old(hits) + (if hit then 1 else 0) && misses == old(misses) + (if hit then 0 else 1)
      ensures forall k :: k in entries ==> SlotOf(k) == old(SlotOf(k))
    {
      if hit {
        hits := hits + 1;
      } else {
        misses := misses + 1;
      }
    }

    /** The miss path: the caller keeps its own fetch's object, the cache a copy. */
    method Keep(key: string, q: Question, now: Time, fetched: ActorObject?, ferr: GoError)
      requires Valid() && key in entries
      requires fetched != null ==> fetched.Valid() && fetched.footprint <= lent
      requires ferr.WrappingErr? ==> ferr.obj in lent
      modifies this`answers, entries[key]
      ensures Valid()
      ensures SlotOf(key) == Store(config, q, now, old(AnswerView(fetched, ferr)), old(SlotOf(key)))
      ensures Isolated() <==> old(Isolated()) && !old(IsKeptAsIs(config, q, ferr))
      ensures old(IsKeptAsIs(config, q, ferr)) ==> entries[key].err == ferr
      ensures forall k :: k in entries && k != key ==> SlotOf(k) == old(SlotOf(k))
    {
      hide Store, AnswerView, ActorObject.View, ActorObject.Valid, ValidationEntry.View;
      ghost var added := Refresh(entries[key], q, now, fetched, ferr);
      Own(added);
    }

    /** The hit path: what the caller gets is a copy, made for it alone. */
    method HandOut(key: string, bypass: bool, now: Time) returns (actor: ActorObject?, err: GoError, hit: bool)
      requires Valid() && key in entries
      modifies this`lent
      ensures Valid() && SlotOf(key) == old(SlotOf(key))
      ensures hit == Serve(SlotOf(key), bypass, now).Some?
      ensures actor != null ==> actor.Valid() && fresh(actor.footprint)
      ensures hit ==> AnswerView(actor, err) == Serve(SlotOf(key), bypass, now).value
      ensures !hit ==> lent == old(lent)
      ensures hit ==> old(lent) <= lent && (actor != null ==> actor.footprint <= lent) && ErrorFootprint(err) <= lent
      ensures Isolated() <==> old(Isolated())
      ensures fresh(lent - old(lent))
      ensures forall k :: k in entries ==> SlotOf(k) == old(SlotOf(k))
    {
      hide Store, Serve, ActorObject.View, ActorObject.Valid, ValidationEntry.View;
      hit, actor, err := ServeFrom(entries[key], bypass, now);
      if hit {
        ghost var objects := (if actor == null then {} else actor.footprint) + ErrorFootprint(err);
        if err.WrappingErr? {
          assert objects == {err.obj} && err.obj in lent;
        } else {
          assert fresh(objects);
        }
        Lend(objects);
      }
    }

    /** getWith once the flight is held, around one fetch result, which is looked at only
        on a miss. The caller's own objects are in `lent` already. */
    method Respond(key: string, q: Question, bypass: bool, now: Time, fetched: ActorObject?, ferr: GoError)
        returns (actor: ActorObject?, err: GoError, hit: bool)
      requires Valid() && key in entries
      requires fetched != null ==> fetched.Valid() && fetched.footprint <= lent
      requires ferr.ApiErr? || ferr.WrappingErr? ==> ferr.obj in lent
      modifies this`answers, this`lent, this`hits, this`misses, entries[key]
      ensures Valid()
      ensures hit == Serve(old(SlotOf(key)), bypass, now).Some?
      ensures actor != null ==> actor.Valid()
      ensures hit ==> AnswerView(actor, err) == Serve(old(SlotOf(key)), bypass, now).value && SlotOf(key) == old(SlotOf(key))
      ensures !hit ==>
                && actor == (if ferr.NoError? then fetched else null)
                && err == ferr
                && SlotOf(key) == Store(config, q, now, old(AnswerView(fetched, ferr)), old(SlotOf(key)))
      ensures hits == old(hits) + (if hit then 1 else 0) && misses == old(misses) + (if hit then 0 else 1)
      ensures old(lent) <= lent && (actor != null ==> actor.footprint <= lent) && ErrorFootprint(err) <= lent
      ensures fresh(lent - old(lent))
      ensures Isolated() <==> old(Isolated()) && !(!hit && old(IsKeptAsIs(config, q, ferr)))
      ensures !hit && old(IsKeptAsIs(config, q, ferr)) ==> entries[key].err == ferr
      ensures forall k :: k in entries && k != key ==> SlotOf(k) == old(SlotOf(k))
    {
      hide Store, Serve, Isolated, ActorObject.View, ActorObject.Valid, ValidationEntry.View, Covers;
      actor, err, hit := HandOut(key, bypass, now);
      Count(hit);
      assert fetched != null ==> this !in fetched.footprint;
      assert AnswerView(fetched, ferr) == old(AnswerView(fetched, ferr));
      if !hit {
        Keep(key, q, now, fetched, ferr);
        actor, err := if ferr.NoError? then fetched else null, ferr;
      }
    }

    lemma OutOfReach()
      requires Valid()
      ensures this !in lent && forall k :: k in entries ==> entries[k] !in lent
    {
    }

    /** getWith: find or make the entry, then answer from it or from the fetch. */
    method GetWith(q: Question, bypass: bool, now: Time, fetched: ActorObject?, ferr: GoError)
        returns (actor: ActorObject?, err: GoError, hit: bool)
      requires Valid()
      requires fetched != null ==> fetched.Valid() && fetched.footprint <= lent
      requires ferr.ApiErr? || ferr.WrappingErr? ==> ferr.obj in lent
      modifies this, entries.Values
      ensures Valid()
      ensures
        var key := ValidationKey(config.h, q);
        var prior := if key in old(entries) then old(SlotOf(key)) else EMPTY_SLOT;
        && key in entries
        && hit == Serve(prior, bypass, now).Some?
        && (actor != null ==> actor.Valid())
        && (hit ==> AnswerView(actor, err) == Serve(prior, bypass, now).value && SlotOf(key) == prior)
        && (!hit ==>
              && actor == (if ferr.NoError? then fetched else null)
              && err == ferr
              && SlotOf(key) == Store(config, q, now, old(AnswerView(fetched, ferr)), prior))
      ensures hits == old(hits) + (if hit then 1 else 0) && misses == old(misses) + (if hit then 0 else 1)
      ensures old(lent) <= lent && (actor != null ==> actor.footprint <= lent) && ErrorFootprint(err) <= lent
      ensures fresh(lent - old(lent)) && fresh(entries.Values - old(entries.Values))
      ensures forall k :: k in entries && k != ValidationKey(config.h, q) ==> k in old(entries) && SlotOf(k) == old(SlotOf(k))
      ensures ValidationKey(config.h, q) in old(entries) || |old(entries)| < config.maxEntries ==>
                old(entries.Keys) <= entries.Keys
      // isolation is lost by exactly one kind of call
      ensures Isolated() <==> old(Isolated()) && !(!hit && old(IsKeptAsIs(config, q, ferr)))
      ensures !hit && old(IsKeptAsIs(config, q, ferr)) ==> entries[ValidationKey(config.h, q)].err == ferr
    {
      hide Evicted, Store, Serve, ActorObject.View, ActorObject.Valid, ValidationEntry.View, ValidWith;
      var key := ValidationKey(config.h, q);
      OutOfReach();
      var e := EntryFor(key, now);
      assert fetched != null ==> this !in fetched.footprint;
      assert AnswerView(fetched, ferr) == old(AnswerView(fetched, ferr));
      assert SlotOf(key) == (if key in old(entries) then old(SlotOf(key)) else EMPTY_SLOT);
      actor, err, hit := Respond(key, q, bypass, now, fetched, ferr);
    }

    /** Heap isolation. Whatever callers do to whatever they can reach (any field of an
        actor or an *APIError, any element of any slice, pointing a slice elsewhere), and
        however often, what the cache will serve does not change. */
    method CallerWrites(ghost objects: set<object>)
      requires Valid() && Isolated() && objects <= lent
      modifies objects
      ensures Valid() && Isolated() && lent == old(lent) && entries == old(entries)
      ensures forall k :: k in entries ==> SlotOf(k) == old(SlotOf(k))
    {
      modify objects;
    }
  }
}
