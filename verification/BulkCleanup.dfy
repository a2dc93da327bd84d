/** Bulk cleanup: the list-and-delete loops against a service whose pages, page sizes,
    cursors and failures are arbitrary, with nobody else writing. */
module BulkCleanup {
  import opened ValidationPolicy

  datatype Tuple = Tuple(objectID: string, relation: string, subject: string)

  ghost predicate Distinct(ts: seq<Tuple>) {
    forall i, j :: 0 <= i < j < |ts| ==> ts[i] != ts[j]
  }

  /** Where a cursor read has got to: what was served, and a bound on the pages to come. */
  datatype Cursor = Start | At(served: set<Tuple>, pages: nat) | End

  function Served(c: Cursor): set<Tuple> {
    if c.At? then c.served else {}
  }

  datatype Page = Page(tuples: seq<Tuple>, next: Cursor)

  method InSomeOrder(s: set<Tuple>) returns (ts: seq<Tuple>)
    ensures Distinct(ts) && forall t :: t in ts <==> t in s
  {
    ts := [];
    var todo := s;
    while todo != {}
      invariant todo <= s && Distinct(ts) && forall t :: t in ts <==> t in s && t !in todo
    {
      var t :| t in todo;
      todo := todo - {t};
      ts := ts + [t];
    }
  }

  /** The service: a set of tuples. Any call may fail; the two counts are a history of how
      often a list or read failed, and a deletion. */
  class Service {
    var tuples: set<Tuple>
    ghost var unread: nat
    ghost var undeleted: nat

    ghost function OfObject(objectID: string): set<Tuple>
      reads this
    {
      set t | t in tuples && t.objectID == objectID
    }

    ghost function OfSubject(subject: string): set<Tuple>
      reads this
    {
      set t | t in tuples && t.subject == subject
    }

    /** Some of an object's tuples; none only if there are none. */
    method List(objectID: string) returns (page: Option<seq<Tuple>>)
      modifies this`unread
      ensures unread == old(unread) + if page.None? then 1 else 0
      ensures page.Some? ==>
                && Distinct(page.value)
                && (forall t :: t in page.value ==> t in OfObject(objectID))
                && (page.value == [] ==> OfObject(objectID) == {})
    {
      var all := set t | t in tuples && t.objectID == objectID;
      var some :| some <= all && (all != {} ==> some != {});
      var down: bool := *;
      if down {
        unread := unread + 1;
        return None;
      }
      var ts := InSomeOrder(some);
      if all != {} {
        var t :| t in some;
        assert t in ts;
      }
      return Some(ts);
    }

    /** One page of a subject's tuples. */
    method Read(subject: string, cursor: Cursor) returns (page: Option<Page>)
      requires !cursor.End?
      modifies this`unread
      ensures unread == old(unread) + if page.None? then 1 else 0
      ensures page.Some? ==>
                && Distinct(page.value.tuples)
                && (forall t :: t in page.value.tuples ==> t in OfSubject(subject) && t !in Served(cursor))
                && (match page.value.next
                    case Start => false
                    case End => forall t :: t in OfSubject(subject) && t !in Served(cursor) ==> t in page.value.tuples
                    case At(served, pages) =>
                      && (forall t :: t in served <==> t in Served(cursor) || t in page.value.tuples)
                      && (cursor.At? ==> pages < cursor.pages))
    {
      var rest := (set t | t in tuples && t.subject == subject) - Served(cursor);
      var down: bool := *;
      if down {
        unread := unread + 1;
        return None;
      }
      var more: bool := *;
      if more && (cursor.At? ==> cursor.pages > 0) {
        var some :| some <= rest;
        var pages: nat :| cursor.At? ==> pages < cursor.pages;
        var ts := InSomeOrder(some);
        return Some(Page(ts, At(Served(cursor) + some, pages)));
      }
      var ts := InSomeOrder(rest);
      return Some(Page(ts, End));
    }

    /** Removes the tuple. On an error it may or may not be gone. */
    method Delete(t: Tuple) returns (ok: bool, ghost applied: bool)
      modifies this`tuples, this`undeleted
      ensures undeleted == old(undeleted) + if ok then 0 else 1
      ensures ok ==> applied
      ensures tuples == if applied then old(tuples) - {t} else old(tuples)
    {
      ok := *;
      var carriedOut: bool := *;
      applied := ok || carriedOut;
      undeleted := undeleted + if ok then 0 else 1;
      if ok || carriedOut {
        tuples := tuples - {t};
      }
    }
  }

  /** How a cleanup ends: all gone, or stopped by a list or read that failed, or by a
      deletion that was reported as failed. */
  datatype Ending = Clean | CouldNotRead | CouldNotDelete

  /** What was counted, what is left, and the deletions that were carried out and not
      counted (`lost`) make up what there was. */
  ghost predicate Balance(before: set<Tuple>, after: set<Tuple>, total: int, lost: int) {
    after <= before && total + |after| + lost == |before|
  }

  /** Deleting one page, a tuple per call. */
  method DeleteEach(s: Service, page: seq<Tuple>, total: nat, ghost before: set<Tuple>)
      returns (sum: nat, ok: bool, ghost lost: nat)
    requires Distinct(page) && forall t :: t in page ==> t in s.tuples
    requires Balance(before, s.tuples, total, 0)
    modifies s`tuples, s`undeleted
    ensures s.undeleted == old(s.undeleted) + if ok then 0 else 1
    ensures Balance(before, s.tuples, sum, lost) && lost <= (if ok then 0 else 1)
    ensures forall t :: t in old(s.tuples) && t !in page ==> t in s.tuples
    ensures s.tuples <= old(s.tuples)
    ensures ok ==> forall t :: t in page ==> t !in s.tuples
  {
    sum, ok, lost := total, true, 0;
    for i := 0 to |page|
      invariant Balance(before, s.tuples, sum, 0) && s.tuples <= old(s.tuples) && ok && lost == 0
      invariant s.undeleted == old(s.undeleted)
      invariant forall j :: i <= j < |page| ==> page[j] in s.tuples
      invariant forall j :: 0 <= j < i ==> page[j] !in s.tuples
      invariant forall t :: t in old(s.tuples) && t !in page ==> t in s.tuples
    {
      ghost var applied;
      ok, applied := s.Delete(page[i]);
      if !ok {
        lost := if applied then 1 else 0;
        return;
      }
      sum := sum + 1;
    }
  }

  /** DeleteAllRelationshipsForObject: it ends, normally unless a call failed, and then with
      that call's error; it touches no other object's tuples; on a normal return none of
      this object's is left. The count is exactly what went, unless
      the last deletion was reported as failed and carried out all the same. */
  method DeleteAllForObject(s: Service, objectID: string) returns (total: nat, ending: Ending, ghost lost: nat)
    modifies s
    ensures s.unread == old(s.unread) + if ending.CouldNotRead? then 1 else 0
    ensures s.undeleted == old(s.undeleted) + if ending.CouldNotDelete? then 1 else 0
    ensures ending.Clean? ==> s.OfObject(objectID) == {}
    ensures forall t: Tuple :: t.objectID != objectID ==> (t in s.tuples <==> t in old(s.tuples))
    ensures Balance(old(s.tuples), s.tuples, total, lost) && lost <= (if ending.CouldNotDelete? then 1 else 0)
  {
    total, ending, lost := 0, Clean, 0;
    while true
      invariant Balance(old(s.tuples), s.tuples, total, 0)
      invariant s.unread == old(s.unread) && s.undeleted == old(s.undeleted)
      invariant forall t: Tuple :: t.objectID != objectID ==> (t in s.tuples <==> t in old(s.tuples))
      decreases s.tuples
    {
      var page := s.List(objectID);
      if page.None? {
        return total, CouldNotRead, 0;
      }
      if page.value == [] {
        return total, Clean, 0;
      }
      ghost var start := s.tuples;
      var ok;
      total, ok, lost := DeleteEach(s, page.value, total, old(s.tuples));
      if !ok {
        ending := CouldNotDelete;
        return;
      }
      assert page.value[0] in page.value;
      assert page.value[0] in start && page.value[0] !in s.tuples;
    }
  }

  /** readAllTuplesForSubject: every tuple of the subject, once, over any paging. */
  method ReadAllForSubject(s: Service, subject: string) returns (all: seq<Tuple>, ok: bool)
    modifies s`unread
    ensures s.unread == old(s.unread) + if ok then 0 else 1
    ensures Distinct(all) && forall t :: t in all ==> t in s.OfSubject(subject)
    ensures ok ==> forall t :: t in s.OfSubject(subject) ==> t in all
  {
    all, ok := [], true;
    var cursor := Start;
    while true
      invariant !cursor.End? && Distinct(all) && ok && s.unread == old(s.unread)
      invariant forall t :: t in all ==> t in s.OfSubject(subject)
      invariant forall t :: t in all <==> t in Served(cursor)
      decreases if cursor.Start? then 1 else 0, if cursor.At? then cursor.pages else 0
    {
      var page := s.Read(subject, cursor);
      if page.None? {
        return all, false;
      }
      JoinDistinct(all, page.value.tuples);
      all := all + page.value.tuples;
      if page.value.next.End? {
        return;
      }
      cursor := page.value.next;
    }
  }

  lemma JoinDistinct(a: seq<Tuple>, b: seq<Tuple>)
    requires Distinct(a) && Distinct(b) && forall t :: t in b ==> t !in a
    ensures Distinct(a + b)
  {
    forall i, j | 0 <= i < j < |a + b|
      ensures (a + b)[i] != (a + b)[j]
    {
      if i < |a| <= j {
        assert (a + b)[j] in b && (a + b)[i] in a;
      }
    }
  }

  /** DeleteAllRelationshipsForSubject: the same promises, by subject. */
  method DeleteAllForSubject(s: Service, subject: string) returns (total: nat, ending: Ending, ghost lost: nat)
    modifies s
    ensures s.unread == old(s.unread) + if ending.CouldNotRead? then 1 else 0
    ensures s.undeleted == old(s.undeleted) + if ending.CouldNotDelete? then 1 else 0
    ensures ending.Clean? ==> s.OfSubject(subject) == {}
    ensures forall t: Tuple :: t.subject != subject ==> (t in s.tuples <==> t in old(s.tuples))
    ensures Balance(old(s.tuples), s.tuples, total, lost) && lost <= (if ending.CouldNotDelete? then 1 else 0)
  {
    total, ending, lost := 0, Clean, 0;
    while true
      invariant Balance(old(s.tuples), s.tuples, total, 0)
      invariant s.unread == old(s.unread) && s.undeleted == old(s.undeleted)
      invariant forall t: Tuple :: t.subject != subject ==> (t in s.tuples <==> t in old(s.tuples))
      decreases s.tuples
    {
      var all, ok := ReadAllForSubject(s, subject);
      if !ok {
        return total, CouldNotRead, 0;
      }
      if all == [] {
        return total, Clean, 0;
      }
      ghost var start := s.tuples;
      total, ok, lost := DeleteEach(s, all, total, old(s.tuples));
      if !ok {
        ending := CouldNotDelete;
        return;
      }
      assert all[0] in all;
      assert all[0] in start && all[0] !in s.tuples;
    }
  }
}
