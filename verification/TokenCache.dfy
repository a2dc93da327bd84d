/** cachedToken's two sections under the mutex as the code has them: a list and a map of
    elements, updated in place, proved against the store of TokenMachine. */
module TokenCache {
  import opened CacheKeys
  import opened ValidationPolicy
  import opened TokenKeys
  import opened TokenMachine
  import opened TokenInvariants

  /** A list element with its entry; entries are never written after they are made. */
  class Element {
    const key: string
    const tok: Token
    const freshUntil: Time
    ghost const req: Request

    constructor (key: string, tok: Token, freshUntil: Time, ghost req: Request)
      ensures this.key == key && this.tok == tok && this.freshUntil == freshUntil && this.req == req
    {
      this.key, this.tok, this.freshUntil, this.req := key, tok, freshUntil, req;
    }

    ghost function AsItem(): Item {
      Item(tok, freshUntil, req)
    }
  }

  class FlightObject {
    var outcome: Option<Outcome>
    var leaderCancelled: bool

    constructor ()
      ensures outcome == None && !leaderCancelled
    {
      outcome, leaderCancelled := None, false;
    }
  }

  /** What the first section decides. */
  datatype Turn = Hit(tok: Token) | Wait(flight: FlightObject) | Lead(flight: FlightObject)

  ghost function KeysOf(ll: seq<Element>): seq<string> {
    seq(|ll|, i requires 0 <= i < |ll| => ll[i].key)
  }

  function Remove(ll: seq<Element>, el: Element): seq<Element> {
    if ll == [] then []
    else if ll[0] == el then Remove(ll[1..], el)
    else [ll[0]] + Remove(ll[1..], el)
  }

  lemma {:induction false} RemoveIsWithout(ll: seq<Element>, el: Element)
    requires forall i :: 0 <= i < |ll| && ll[i].key == el.key ==> ll[i] == el
    ensures KeysOf(Remove(ll, el)) == Without(KeysOf(ll), el.key)
    ensures forall i :: 0 <= i < |Remove(ll, el)| ==> Remove(ll, el)[i] in ll && Remove(ll, el)[i] != el
    ensures forall i :: 0 <= i < |ll| && ll[i] != el ==> ll[i] in Remove(ll, el)
  {
    if ll != [] {
      RemoveIsWithout(ll[1..], el);
      assert KeysOf(ll)[1..] == KeysOf(ll[1..]);
      assert ll == [ll[0]] + ll[1..];
      if ll[0] != el {
        assert KeysOf([ll[0]] + Remove(ll[1..], el)) == [ll[0].key] + KeysOf(Remove(ll[1..], el));
      }
    }
  }

  ghost predicate InMap(ll: seq<Element>, items: map<string, Element>) {
    forall i :: 0 <= i < |ll| ==> ll[i].key in items && items[ll[i].key] == ll[i]
  }

  /** Map and list hold the same elements. */
  ghost predicate Agree(ll: seq<Element>, items: map<string, Element>) {
    && (forall k :: k in items ==> items[k].key == k && items[k] in ll)
    && InMap(ll, items)
  }

  ghost function ItemsOf(items: map<string, Element>): map<string, Item> {
    map k | k in items :: items[k].AsItem()
  }

  lemma DropAgrees(ll: seq<Element>, items: map<string, Element>, el: Element)
    requires Agree(ll, items) && el in ll
    ensures Agree(Remove(ll, el), items - {el.key})
    ensures KeysOf(Remove(ll, el)) == Without(KeysOf(ll), el.key)
    ensures ItemsOf(items - {el.key}) == ItemsOf(items) - {el.key}
  {
    forall i | 0 <= i < |ll| && ll[i].key == el.key
      ensures ll[i] == el
    {
      assert ll[i] in ll;
    }
    RemoveIsWithout(ll, el);
  }

  lemma PushAgrees(ll: seq<Element>, items: map<string, Element>, el: Element)
    requires Agree(ll, items) && (el.key !in items || (items[el.key] == el && el !in ll))
    ensures Agree([el] + ll, items[el.key := el])
    ensures KeysOf([el] + ll) == [el.key] + KeysOf(ll)
    ensures ItemsOf(items[el.key := el]) == ItemsOf(items)[el.key := el.AsItem()]
  {
  }

  lemma MoveAgrees(ll: seq<Element>, items: map<string, Element>, el: Element)
    requires Agree(ll, items) && el in ll
    ensures Agree([el] + Remove(ll, el), items) && el.key in ItemsOf(items)
    ensures KeysOf([el] + Remove(ll, el)) == [el.key] + Without(KeysOf(ll), el.key)
  {
    DropAgrees(ll, items, el);
    PushAgrees(Remove(ll, el), items - {el.key}, el);
    assert (items - {el.key})[el.key := el] == items;
  }

  ghost predicate Keyed(items: map<string, Element>) {
    forall k :: k in items ==> items[k].key == k
  }

  /** What is left of `items` when the list is cut down to `ll`. */
  ghost predicate CutTo(ll: seq<Element>, items: map<string, Element>, every: map<string, Element>) {
    && (forall k :: k in items <==> k in every && every[k] in ll)
    && (forall k :: k in items ==> items[k] == every[k])
  }

  /** Taking the last element out of list and map keeps them in step. */
  lemma CutLast(ll: seq<Element>, items: map<string, Element>, every: map<string, Element>)
    requires ll != [] && CutTo(ll, items, every)
    requires NoRepeats(KeysOf(ll)) && InMap(ll, every)
    requires Keyed(every)
    ensures CutTo(ll[..|ll| - 1], items - {ll[|ll| - 1].key}, every)
    ensures NoRepeats(KeysOf(ll[..|ll| - 1])) && InMap(ll[..|ll| - 1], every)
  {
    var n := |ll| - 1;
    assert ll == ll[..n] + [ll[n]];
    assert KeysOf(ll)[n] == ll[n].key;
    forall i | 0 <= i < n
      ensures ll[i].key != ll[n].key
    {
      assert KeysOf(ll)[i] == ll[i].key;
    }
    assert forall i :: 0 <= i < n ==> KeysOf(ll[..n])[i] == KeysOf(ll)[i];
  }

  /** A map cut down to a prefix of the list is the map Insert is left with. */
  lemma CutIsTrim(all: seq<Element>, every: map<string, Element>, max: nat, items: map<string, Element>)
    requires Agree(all, every)
    requires CutTo(all[..Least(|all|, max)], items, every)
    ensures items.Keys <= every.Keys
    ensures KeysOf(all[..Least(|all|, max)]) == Trim(KeysOf(all), max)
    ensures Agree(all[..Least(|all|, max)], items)
    ensures ItemsOf(items) == map k | k in ItemsOf(every) && k in Trim(KeysOf(all), max) :: ItemsOf(every)[k]
  {
    var ll := all[..Least(|all|, max)];
    assert KeysOf(ll) == Trim(KeysOf(all), max);
    forall k | k in every
      ensures every[k] in ll <==> k in KeysOf(ll)
    {
      if every[k] in ll {
        var i :| 0 <= i < |ll| && ll[i] == every[k];
        assert KeysOf(ll)[i] == k;
      }
      if k in KeysOf(ll) {
        var i :| 0 <= i < |ll| && KeysOf(ll)[i] == k;
        assert ll[i] in all;
      }
    }
  }

  function Least(a: nat, b: nat): nat {
    if a < b then a else b
  }

  /** Right after PushFront: list and map agree and no key is there twice. */
  lemma PushedUnique(ll: seq<Element>, items: map<string, Element>, used: map<string, nat>, uses: nat, el: Element)
    requires Agree(ll, items) && Lru(KeysOf(ll), ItemsOf(items).Keys, used, uses) && el.key !in items
    ensures Agree([el] + ll, items[el.key := el])
    ensures KeysOf([el] + ll) == [el.key] + KeysOf(ll)
    ensures ItemsOf(items[el.key := el]) == ItemsOf(items)[el.key := el.AsItem()]
    ensures CutTo([el] + ll, items[el.key := el], items[el.key := el])
    ensures NoRepeats(KeysOf([el] + ll))
    ensures InMap([el] + ll, items[el.key := el])
    ensures Keyed(items[el.key := el])
  {
    PushAgrees(ll, items, el);
    LruPush(KeysOf(ll), ItemsOf(items).Keys, used, uses, el.key);
  }

  lemma NothingToDiscard(max: nat, st: Store, key: string)
    requires StoreOk(max, st) && key !in st.items
    ensures Discard(st, key) == st
  {
    WithoutKey(st.order, key);
    assert st.items - {key} == st.items;
  }

  class TokenCache {
    const max: nat
    var ll: seq<Element>
    var items: map<string, Element>
    var inflight: map<string, FlightObject>
    var hits: nat
    var misses: nat
    ghost var used: map<string, nat>
    ghost var uses: nat

    ghost function View(): Store
      reads this
    {
      Store(ItemsOf(items), KeysOf(ll), used, uses)
    }

    ghost predicate Valid()
      reads this
    {
      Agree(ll, items) && StoreOk(max, View()) && items.Keys !! inflight.Keys && max >= 1
    }

    constructor (max: nat)
      requires max >= 1
      ensures Valid() && this.max == max && View() == Store(map[], [], map[], 0) && inflight == map[] && hits == misses == 0
    {
      this.max, ll, items, inflight, hits, misses := max, [], map[], map[], 0, 0;
      used, uses := map[], 0;
    }

    /** tc.ll.MoveToFront */
    method MoveToFront(el: Element)
      requires Valid() && el in ll
      modifies `ll, `used, `uses
      ensures Valid() && View() == Promote(old(View()), el.key)
    {
      hide Agree, StoreOk, KeysOf, ItemsOf;
      MoveAgrees(ll, items, el);
      PromoteOk(max, View(), el.key);
      ll := [el] + Remove(ll, el);
      used, uses := used[el.key := uses], uses + 1;
    }

    /** tc.ll.Remove and delete from the map. */
    method Drop(el: Element)
      requires Valid() && el in ll
      modifies `ll, `items
      ensures Valid() && View() == Discard(old(View()), el.key)
    {
      hide Agree, StoreOk, KeysOf, ItemsOf;
      DropAgrees(ll, items, el);
      DiscardOk(max, View(), el.key);
      ll := Remove(ll, el);
      items := items - {el.key};
    }

    /** The section under the mutex at the top of the loop. */
    method Begin(key: string, now: Time) returns (turn: Turn)
      requires Valid()
      modifies this
      ensures Valid()
      ensures misses == old(misses) + (if turn.Lead? then 1 else 0) && hits == old(hits) + (if turn.Hit? then 1 else 0)
      ensures turn.Hit? <==> IsFresh(old(View()), key, now)
      ensures turn.Hit? ==>
                && View() == Promote(old(View()), key)
                && turn.tok == old(View()).items[key].tok
                && inflight == old(inflight)
      ensures !turn.Hit? ==> View() == Discard(old(View()), key)
      ensures turn.Wait? ==> key in old(inflight) && turn.flight == old(inflight)[key] && inflight == old(inflight)
      ensures turn.Lead? ==>
                && key !in old(inflight) && fresh(turn.flight) && inflight == old(inflight)[key := turn.flight]
                && turn.flight.outcome == None && !turn.flight.leaderCancelled
    {
      hide StoreOk, KeysOf, Promote, Lru;
      if key in items {
        var el := items[key];
        if now < el.freshUntil {
          MoveToFront(el);
          hits := hits + 1;
          return Turn.Hit(el.tok);
        }
        Drop(el);
      } else {
        NothingToDiscard(max, View(), key);
      }
      if key in inflight {
        return Wait(inflight[key]);
      }
      var f := new FlightObject();
      inflight := inflight[key := f];
      misses := misses + 1;
      return Lead(f);
    }

    /** Removal from the back until the bound holds. */
    method TrimBack()
      requires Keyed(items) && InMap(ll, items) && CutTo(ll, items, items) && NoRepeats(KeysOf(ll))
      modifies `ll, `items
      ensures ll == old(ll)[..Least(|old(ll)|, max)]
      ensures CutTo(ll, items, old(items))
    {
      hide KeysOf, CutTo, InMap, NoRepeats, Keyed;
      ghost var every := items;
      while |ll| > max
        invariant |ll| <= |old(ll)| && ll == old(ll)[..|ll|]
        invariant |ll| == |old(ll)| || |ll| >= max
        invariant CutTo(ll, items, every)
        invariant NoRepeats(KeysOf(ll)) && InMap(ll, every)
      {
        var last := ll[|ll| - 1];
        CutLast(ll, items, every);
        ll := ll[..|ll| - 1];
        items := items - {last.key};
      }
    }

    /** PushFront of a new element, then the trim. */
    method PushAndTrim(el: Element)
      requires Valid() && el.key !in items && el.key !in inflight
      modifies `ll, `items, `used, `uses
      ensures Valid() && View() == Insert(old(View()), max, el.key, el.AsItem())
    {
      hide KeysOf, Lru, Agree, CutTo, InMap, Keyed, NoRepeats;
      InsertOk(max, View(), el.key, el.AsItem());
      PushedUnique(ll, items, used, uses, el);
      ll := [el] + ll;
      items := items[el.key := el];
      used, uses := used[el.key := uses], uses + 1;
      ghost var all, every := ll, items;
      TrimBack();
      CutIsTrim(all, every, max, items);
      assert View().items == Insert(old(View()), max, el.key, el.AsItem()).items;
      assert View().order == Insert(old(View()), max, el.key, el.AsItem()).order;
    }

    /** The section under the mutex after the fetch; closing the channel comes later. */
    method Publish(f: FlightObject, key: string, capAt: Time, out: Outcome, ctxEnded: bool, now: Time,
                   ghost c: Client, ghost req: Request)
      requires Valid() && key in inflight && inflight[key] == f
      requires key == Key(c, req) && capAt == CapAt(c, req)
      modifies this, f
      ensures Valid() && inflight == old(inflight) - {key} && hits == old(hits) && misses == old(misses)
      ensures View() == Keep(c, max, old(View()), req, out, now)
      ensures f.outcome == Some(out) && f.leaderCancelled == (out.Error? && ctxEnded)
    {
      hide StoreOk, KeysOf, Agree, Lru, Insert, Key, CapAt;
      inflight := inflight - {key};
      if out.Got? && out.tok.expiresAt != ZERO_TIME {
        var limit := out.tok.expiresAt - REFRESH_MARGIN;
        if capAt != ZERO_TIME && capAt < limit {
          limit := capAt;
        }
        if now < limit {
          var el := new Element(key, out.tok, limit, req);
          PushAndTrim(el);
        }
      }
      f.outcome := Some(out);
      f.leaderCancelled := out.Error? && ctxEnded;
    }
  }
}
