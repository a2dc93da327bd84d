/** The command line's typo correction: the two-row distance, what it measures, and the
    suggestion made from it. A char stands for a byte. */
module EditDistance {

  function Min(a: nat, b: nat): nat {
    if a < b then a else b
  }

  /** The recursive definition, on the last byte of each string. */
  function Distance(a: string, b: string): nat
    decreases |a| + |b|
  {
    if a == "" then |b|
    else if b == "" then |a|
    else
      var a', b' := a[..|a| - 1], b[..|b| - 1];
      var cost := if a[|a| - 1] == b[|b| - 1] then 0 else 1;
      Min(Min(Distance(a, b') + 1, Distance(a', b) + 1), Distance(a', b') + cost)
  }

  lemma Unfold(a: string, x: char, b: string, y: char)
    ensures Distance(a + [x], b + [y]) ==
              Min(Min(Distance(a + [x], b) + 1, Distance(a, b + [y]) + 1), Distance(a, b) + if x == y then 0 else 1)
  {
    assert (a + [x])[..|a|] == a && (b + [y])[..|b|] == b;
  }

  /** One cell of the table from its three neighbours. */
  lemma Cell(a: string, b: string, i: nat, j: nat)
    requires 1 <= i <= |a| && 1 <= j <= |b|
    ensures Distance(a[..i], b[..j]) ==
              Min(Min(Distance(a[..i], b[..j - 1]) + 1, Distance(a[..i - 1], b[..j]) + 1),
                  Distance(a[..i - 1], b[..j - 1]) + if a[i - 1] == b[j - 1] then 0 else 1)
  {
    hide Distance, Min;
    Unfold(a[..i - 1], a[i - 1], b[..j - 1], b[j - 1]);
    assert a[..i] == a[..i - 1] + [a[i - 1]] && b[..j] == b[..j - 1] + [b[j - 1]];
  }

  lemma Edges(a: string)
    ensures Distance("", a) == Distance(a, "") == |a|
  {
  }

  /** Two rows, each overwriting the row before last. */
  method Measure(a: string, b: string) returns (d: nat)
    ensures d == Distance(a, b)
  {
    hide Distance, Min;
    var prev := new nat[|b| + 1];
    var cur := new nat[|b| + 1];
    for j := 0 to |b| + 1
      invariant forall k :: 0 <= k < j ==> prev[k] == Distance(a[..0], b[..k])
    {
      Edges(b[..j]);
      prev[j] := j;
    }
    var i := 1;
    while i <= |a|
      invariant 1 <= i <= |a| + 1
      invariant prev != cur && prev.Length == cur.Length == |b| + 1 && fresh(prev) && fresh(cur)
      invariant forall k :: 0 <= k <= |b| ==> prev[k] == Distance(a[..i - 1], b[..k])
    {
      Edges(a[..i]);
      cur[0] := i;
      var j := 1;
      while j <= |b|
        invariant 1 <= j <= |b| + 1
        invariant forall k :: 0 <= k <= |b| ==> prev[k] == Distance(a[..i - 1], b[..k])
        invariant forall k :: 0 <= k < j ==> cur[k] == Distance(a[..i], b[..k])
      {
        var cost := 1;
        if a[i - 1] == b[j - 1] {
          cost := 0;
        }
        Cell(a, b, i, j);
        cur[j] := Min(Min(cur[j - 1] + 1, prev[j] + 1), prev[j - 1] + cost);
        j := j + 1;
      }
      prev, cur := cur, prev;
      i := i + 1;
    }
    d := prev[|b|];
    assert a[..|a|] == a && b[..|b|] == b;
  }

  // ---- what is measured: the fewest single-byte edits from one string to the other ----

  /** q is p with at most one byte inserted, deleted or changed. */
  ghost predicate OneEdit(p: string, q: string) {
    exists u: string, x: string, y: string, v: string :: EditAt(p, q, u, x, y, v)
  }

  predicate EditAt(p: string, q: string, u: string, x: string, y: string, v: string) {
    |x| <= 1 && |y| <= 1 && p == u + x + v && q == u + y + v
  }

  /** A way from a to b, one edit at a time. */
  ghost predicate IsWalk(w: seq<string>, a: string, b: string) {
    && w != [] && w[0] == a && w[|w| - 1] == b
    && forall i :: 0 < i < |w| ==> OneEdit(w[i - 1], w[i])
  }

  /** An alignment of two strings, byte by byte. */
  datatype Edit = Insert(y: char) | Delete(x: char) | Change(from: char, to: char)

  function Cost(s: seq<Edit>): nat {
    if s == [] then 0
    else
      var e := s[|s| - 1];
      Cost(s[..|s| - 1]) + if e.Change? && e.from == e.to then 0 else 1
  }

  function Taken(e: Edit): string {
    if e.Insert? then "" else if e.Delete? then [e.x] else [e.from]
  }

  function Made(e: Edit): string {
    if e.Delete? then "" else if e.Insert? then [e.y] else [e.to]
  }

  function Source(s: seq<Edit>): string {
    if s == [] then "" else Source(s[..|s| - 1]) + Taken(s[|s| - 1])
  }

  function Target(s: seq<Edit>): string {
    if s == [] then "" else Target(s[..|s| - 1]) + Made(s[|s| - 1])
  }

  /** Neighbouring prefixes are at most one apart. */
  lemma {:induction false} Neighbours(a: string, b: string)
    ensures b != "" ==> Distance(a, b) <= Distance(a, b[..|b| - 1]) + 1
    ensures a != "" ==> Distance(a, b) <= Distance(a[..|a| - 1], b) + 1
    ensures a != "" && b != "" ==>
              Distance(a, b) <= Distance(a[..|a| - 1], b[..|b| - 1]) + if a[|a| - 1] == b[|b| - 1] then 0 else 1
  {
  }

  /** No alignment is cheaper than the distance. */
  lemma {:induction false} DistanceIsLeast(s: seq<Edit>)
    ensures Distance(Source(s), Target(s)) <= Cost(s)
  {
    if s != [] {
      var n := |s| - 1;
      var a, b := Source(s), Target(s);
      DistanceIsLeast(s[..n]);
      Neighbours(a, b);
      assert Taken(s[n]) != "" ==> a[..|a| - 1] == Source(s[..n]);
      assert Made(s[n]) != "" ==> b[..|b| - 1] == Target(s[..n]);
      assert Taken(s[n]) == "" ==> a == Source(s[..n]);
      assert Made(s[n]) == "" ==> b == Target(s[..n]);
    }
  }

  /** The alignment the table's minima trace out. */
  function Best(a: string, b: string): (s: seq<Edit>)
    decreases |a| + |b|
  {
    if a == "" && b == "" then []
    else if a == "" then Best(a, b[..|b| - 1]) + [Insert(b[|b| - 1])]
    else if b == "" then Best(a[..|a| - 1], b) + [Delete(a[|a| - 1])]
    else
      var a', b' := a[..|a| - 1], b[..|b| - 1];
      if Distance(a, b) == Distance(a, b') + 1 then Best(a, b') + [Insert(b[|b| - 1])]
      else if Distance(a, b) == Distance(a', b) + 1 then Best(a', b) + [Delete(a[|a| - 1])]
      else Best(a', b') + [Change(a[|a| - 1], b[|b| - 1])]
  }

  /** Some last edit accounts for the last step of the distance. */
  lemma BestLast(a: string, b: string) returns (a': string, b': string, e: Edit)
    requires a != "" || b != ""
    ensures |a'| + |b'| < |a| + |b| && Best(a, b) == Best(a', b') + [e]
    ensures a == a' + Taken(e) && b == b' + Made(e)
    ensures Distance(a, b) == Distance(a', b') + if e.Change? && e.from == e.to then 0 else 1
  {
    hide Distance, Best;
    if a == "" {
      a', b', e := a, b[..|b| - 1], Insert(b[|b| - 1]);
      BestOfOne(b);
    } else if b == "" {
      a', b', e := a[..|a| - 1], b, Delete(a[|a| - 1]);
      BestOfOne(a);
    } else {
      a', b', e := BestLastBoth(a[..|a| - 1], a[|a| - 1], b[..|b| - 1], b[|b| - 1]);
      assert a == a[..|a| - 1] + [a[|a| - 1]] && b == b[..|b| - 1] + [b[|b| - 1]];
    }
  }

  lemma BestOfOne(a: string)
    requires a != ""
    ensures a == a[..|a| - 1] + [a[|a| - 1]]
    ensures Best(a, "") == Best(a[..|a| - 1], "") + [Delete(a[|a| - 1])]
    ensures Best("", a) == Best("", a[..|a| - 1]) + [Insert(a[|a| - 1])]
    ensures Distance(a, "") == Distance(a[..|a| - 1], "") + 1
    ensures Distance("", a) == Distance("", a[..|a| - 1]) + 1
  {
    hide Distance;
    Edges(a);
    Edges(a[..|a| - 1]);
  }

  lemma BestLastBoth(a0: string, x: char, b0: string, y: char) returns (a': string, b': string, e: Edit)
    ensures |a'| + |b'| < |a0| + |b0| + 2 && Best(a0 + [x], b0 + [y]) == Best(a', b') + [e]
    ensures a0 + [x] == a' + Taken(e) && b0 + [y] == b' + Made(e)
    ensures Distance(a0 + [x], b0 + [y]) == Distance(a', b') + if e.Change? && e.from == e.to then 0 else 1
  {
    hide Distance, Min;
    var a, b := a0 + [x], b0 + [y];
    assert a[..|a| - 1] == a0 && b[..|b| - 1] == b0;
    Unfold(a0, x, b0, y);
    if Distance(a, b) == Distance(a, b0) + 1 {
      a', b', e := a, b0, Insert(y);
    } else if Distance(a, b) == Distance(a0, b) + 1 {
      a', b', e := a0, b, Delete(x);
    } else {
      a', b', e := a0, b0, Change(x, y);
      Middle(Distance(a, b0) + 1, Distance(a0, b) + 1, Distance(a0, b0) + if x == y then 0 else 1);
    }
  }

  lemma Middle(p: nat, q: nat, r: nat)
    ensures Min(Min(p, q), r) in {p, q, r}
  {
  }

  lemma {:induction false} BestIsBest(a: string, b: string)
    ensures Source(Best(a, b)) == a && Target(Best(a, b)) == b && Cost(Best(a, b)) == Distance(a, b)
    decreases |a| + |b|
  {
    hide Source, Target, Cost;
    NoEdits();
    if a != "" || b != "" {
      hide Best, Distance;
      var a', b', e := BestLast(a, b);
      BestIsBest(a', b');
      Peel(Best(a', b'), e);
    }
  }

  lemma NoEdits()
    ensures Source([]) == Target([]) == "" && Cost([]) == 0
  {
  }

  lemma Peel(s: seq<Edit>, e: Edit)
    ensures Source(s + [e]) == Source(s) + Taken(e) && Target(s + [e]) == Target(s) + Made(e)
    ensures Cost(s + [e]) == Cost(s) + if e.Change? && e.from == e.to then 0 else 1
  {
    assert (s + [e])[..|s|] == s;
  }

  /** Two alignments through the same middle string make one, at no more cost. */
  function Compose(s: seq<Edit>, t: seq<Edit>): seq<Edit>
    decreases |s| + |t|
  {
    if s == [] then t
    else if t == [] then s
    else
      var e, f := s[|s| - 1], t[|t| - 1];
      var s', t' := s[..|s| - 1], t[..|t| - 1];
      if e.Delete? then Compose(s', t) + [e]
      else if f.Insert? then Compose(s, t') + [f]
      else if e.Insert? && f.Delete? then Compose(s', t')
      else if e.Insert? then Compose(s', t') + [Insert(f.to)]
      else if f.Delete? then Compose(s', t') + [Delete(e.from)]
      else Compose(s', t') + [Change(e.from, f.to)]
  }

  lemma {:induction false} Composes(s: seq<Edit>, t: seq<Edit>)
    requires Target(s) == Source(t)
    ensures Source(Compose(s, t)) == Source(s)
    ensures Target(Compose(s, t)) == Target(t)
    ensures Cost(Compose(s, t)) <= Cost(s) + Cost(t)
    decreases |s| + |t|
  {
    hide Source, Target, Cost;
    NoEdits();
    if s != [] && t != [] {
      var e, f := s[|s| - 1], t[|t| - 1];
      var s', t' := s[..|s| - 1], t[..|t| - 1];
      assert s == s' + [e] && t == t' + [f];
      Peel(s', e);
      Peel(t', f);
      if e.Delete? {
        Composes(s', t);
        Peel(Compose(s', t), e);
      } else if f.Insert? {
        Composes(s, t');
        Peel(Compose(s, t'), f);
      } else {
        SameLast(Target(s'), Made(e)[0], Source(t'), Taken(f)[0]);
        Composes(s', t');
        ComposesLast(s', e, t', f);
      }
    }
  }

  lemma SameLast(a: string, x: char, b: string, y: char)
    requires a + [x] == b + [y]
    ensures a == b && x == y
  {
    assert a == (a + [x])[..|a|] && b == (b + [y])[..|b|];
  }

  /** Two edits through the same byte: nothing, an insertion, a deletion or a change. */
  lemma ComposesLast(s: seq<Edit>, e: Edit, t: seq<Edit>, f: Edit)
    requires !e.Delete? && !f.Insert? && Made(e) == Taken(f)
    ensures
      var u, u' := Compose(s, t), Compose(s + [e], t + [f]);
      && Source(u') == Source(u) + Taken(e)
      && Target(u') == Target(u) + Made(f)
      && Cost(u') <= Cost(u) + (if e.Change? && e.from == e.to then 0 else 1) + (if f.Change? && f.from == f.to then 0 else 1)
  {
    hide Source, Target, Cost;
    var u := Compose(s, t);
    assert (s + [e])[..|s|] == s && (t + [f])[..|t|] == t;
    if e.Insert? && f.Change? {
      Peel(u, Insert(f.to));
    } else if e.Change? && f.Delete? {
      Peel(u, Delete(e.from));
    } else if e.Change? && f.Change? {
      Peel(u, Change(e.from, f.to));
    }
  }

  lemma {:induction false} DistanceIsSymmetric(a: string, b: string)
    ensures Distance(a, b) == Distance(b, a)
    decreases |a| + |b|
  {
    if a != "" && b != "" {
      DistanceIsSymmetric(a, b[..|b| - 1]);
      DistanceIsSymmetric(a[..|a| - 1], b);
      DistanceIsSymmetric(a[..|a| - 1], b[..|b| - 1]);
    }
  }

  lemma {:induction false} ZeroIffEqual(a: string, b: string)
    ensures Distance(a, b) == 0 <==> a == b
    decreases |a| + |b|
  {
    if a != "" && b != "" {
      ZeroIffEqual(a[..|a| - 1], b[..|b| - 1]);
      assert a == a[..|a| - 1] + [a[|a| - 1]] && b == b[..|b| - 1] + [b[|b| - 1]];
    }
  }

  lemma {:induction false} Triangle(a: string, b: string, c: string)
    ensures Distance(a, c) <= Distance(a, b) + Distance(b, c)
  {
    BestIsBest(a, b);
    BestIsBest(b, c);
    Composes(Best(a, b), Best(b, c));
    DistanceIsLeast(Compose(Best(a, b), Best(b, c)));
  }

  function Same(s: string): (r: seq<Edit>) {
    if s == "" then [] else Same(s[..|s| - 1]) + [Change(s[|s| - 1], s[|s| - 1])]
  }

  /** Keeping `s` after an alignment costs nothing. */
  lemma {:induction false} ThenSame(t: seq<Edit>, s: string)
    ensures Source(t + Same(s)) == Source(t) + s && Target(t + Same(s)) == Target(t) + s && Cost(t + Same(s)) == Cost(t)
  {
    hide Source, Target, Cost;
    if s == "" {
      assert t + Same(s) == t;
    } else {
      var s', c := s[..|s| - 1], s[|s| - 1];
      ThenSame(t, s');
      assert t + Same(s) == (t + Same(s')) + [Change(c, c)];
      Peel(t + Same(s'), Change(c, c));
      assert s == s' + [c];
    }
  }

  function Swap(x: string, y: string): seq<Edit>
    requires |x| <= 1 && |y| <= 1
  {
    if x == "" && y == "" then []
    else if x == "" then [Insert(y[0])]
    else if y == "" then [Delete(x[0])]
    else [Change(x[0], y[0])]
  }

  /** One edit moves the distance by at most one. */
  lemma OneEditIsNear(p: string, q: string)
    requires OneEdit(p, q)
    ensures Distance(p, q) <= 1
  {
    hide Source, Target, Cost, Same, Distance;
    NoEdits();
    var u, x, y, v :| EditAt(p, q, u, x, y, v);
    ThenSame([], u);
    assert [] + Same(u) == Same(u) && "" + u == u;
    var s := Same(u) + Swap(x, y);
    if Swap(x, y) == [] {
      assert s == Same(u) && p == q == u + v;
    } else {
      assert Swap(x, y) == [Swap(x, y)[0]] && (x == "" || x == [x[0]]) && (y == "" || y == [y[0]]);
      Peel(Same(u), Swap(x, y)[0]);
    }
    ThenSame(s, v);
    DistanceIsLeast(s + Same(v));
  }

  /** Every way from a to b takes at least Distance(a, b) edits. */
  lemma {:induction false} NoShorterWalk(w: seq<string>, a: string, b: string)
    requires IsWalk(w, a, b)
    ensures Distance(a, b) <= |w| - 1
    decreases |w|
  {
    if |w| == 1 {
      ZeroIffEqual(a, b);
    } else {
      var n := |w| - 1;
      assert IsWalk(w[..n], a, w[n - 1]);
      NoShorterWalk(w[..n], a, w[n - 1]);
      OneEditIsNear(w[n - 1], b);
      Triangle(a, w[n - 1], b);
    }
  }

  /** The edits of an alignment made one after another. */
  lemma {:induction false} WalkOf(s: seq<Edit>) returns (w: seq<string>)
    ensures IsWalk(w, Source(s), Target(s)) && |w| - 1 == Cost(s)
  {
    if s == [] {
      return [""];
    }
    var n := |s| - 1;
    var e := s[n];
    var before := WalkOf(s[..n]);
    w := seq(|before|, i requires 0 <= i < |before| => before[i] + Taken(e));
    forall i | 0 < i < |w|
      ensures OneEdit(w[i - 1], w[i])
    {
      assert OneEdit(before[i - 1], before[i]);
      var u, x, y, v :| EditAt(before[i - 1], before[i], u, x, y, v);
      assert EditAt(w[i - 1], w[i], u, x, y, v + Taken(e));
    }
    if Taken(e) != Made(e) {
      assert EditAt(w[|w| - 1], Target(s), Target(s[..n]), Taken(e), Made(e), "");
      w := w + [Target(s)];
    }
  }

  /** ... and some way takes exactly that many. */
  lemma ShortestWalk(a: string, b: string) returns (w: seq<string>)
    ensures IsWalk(w, a, b) && |w| - 1 == Distance(a, b)
  {
    BestIsBest(a, b);
    w := WalkOf(Best(a, b));
  }

  /** The nearest command, and the first of those equally near; nothing unless fewer than
      three edits away. */
  method Suggest(name: string, commands: seq<string>) returns (best: string)
    ensures (forall i :: 0 <= i < |commands| ==> Distance(name, commands[i]) >= 3) ==> best == ""
    ensures (exists i :: 0 <= i < |commands| && Distance(name, commands[i]) < 3) ==>
              exists i :: 0 <= i < |commands| && IsSuggestion(name, commands, i) && best == commands[i]
  {
    var bestD := 3;
    best := "";
    ghost var at := 0;
    for i := 0 to |commands|
      invariant bestD <= 3 && forall j :: 0 <= j < i ==> Distance(name, commands[j]) >= bestD
      invariant bestD == 3 ==> best == ""
      invariant bestD < 3 ==> at < i && best == commands[at] && bestD == Distance(name, best)
      invariant bestD < 3 ==> forall j :: 0 <= j < at ==> Distance(name, commands[j]) > bestD
    {
      var d := Measure(name, commands[i]);
      if d < bestD {
        best, bestD := commands[i], d;
        at := i;
      }
    }
    assert bestD < 3 ==> IsSuggestion(name, commands, at);
  }

  ghost predicate IsSuggestion(name: string, commands: seq<string>, i: nat)
    requires i < |commands|
  {
    && Distance(name, commands[i]) < 3
    && (forall j :: 0 <= j < |commands| ==> Distance(name, commands[j]) >= Distance(name, commands[i]))
    && (forall j :: 0 <= j < i ==> Distance(name, commands[j]) > Distance(name, commands[i]))
  }
}
