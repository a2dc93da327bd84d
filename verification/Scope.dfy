/** normalizeScope: a scope is an unordered set of words, so every spelling of the same
    set becomes the same string. Here a char is a rune; the byte order of UTF-8 strings,
    by which Go sorts, is the order of their runes. */
module Scope {

  /** unicode.IsSpace, as strings.Fields uses it. */
  predicate IsSpace(c: char) {
    var n := c as int;
    || 0x09 <= n <= 0x0d || n == 0x20 || n == 0x85 || n == 0xa0 || n == 0x1680
    || 0x2000 <= n <= 0x200a || n == 0x2028 || n == 0x2029 || n == 0x202f || n == 0x205f || n == 0x3000
  }

  predicate IsWord(w: string) {
    w != "" && forall c :: c in w ==> !IsSpace(c)
  }

  function WordLen(s: string): (n: nat)
    ensures n <= |s|
    ensures forall i :: 0 <= i < n ==> !IsSpace(s[i])
  {
    if s != "" && !IsSpace(s[0]) then 1 + WordLen(s[1..]) else 0
  }

  /** strings.Fields */
  function Fields(s: string): (ws: seq<string>)
    ensures forall w :: w in ws ==> IsWord(w)
    decreases |s|
  {
    if s == "" then []
    else if IsSpace(s[0]) then Fields(s[1..])
    else
      var n := WordLen(s);
      [s[..n]] + Fields(s[n..])
  }

  /** strings.Join(ws, " ") */
  function Join(ws: seq<string>): string {
    if ws == [] then ""
    else if |ws| == 1 then ws[0]
    else ws[0] + " " + Join(ws[1..])
  }

  lemma {:induction false} WordLenOf(w: string, rest: string)
    requires forall c :: c in w ==> !IsSpace(c)
    requires rest == "" || IsSpace(rest[0])
    ensures WordLen(w + rest) == |w|
  {
    if w == "" {
      assert w + rest == rest;
    } else {
      assert (w + rest)[1..] == w[1..] + rest;
      WordLenOf(w[1..], rest);
    }
  }

  /** Splitting undoes joining. */
  lemma {:induction false} FieldsOfJoin(ws: seq<string>)
    requires forall w :: w in ws ==> IsWord(w)
    ensures Fields(Join(ws)) == ws
  {
    if |ws| == 1 {
      assert IsWord(ws[0]) && ws[0] + "" == ws[0];
      WordLenOf(ws[0], "");
    } else if ws != [] {
      var rest := " " + Join(ws[1..]);
      var s := Join(ws);
      assert IsWord(ws[0]) && s == ws[0] + rest;
      WordLenOf(ws[0], rest);
      assert s[..|ws[0]|] == ws[0] && s[|ws[0]|..] == rest;
      assert rest[1..] == Join(ws[1..]);
      FieldsOfJoin(ws[1..]);
    }
  }

  /** What strings.Fields takes for white space: space, tab, line feed, vertical tab, form
      feed, carriage return, next line, no-break space and the Unicode spaces. */
  lemma SpacesAre(c: char)
    ensures IsSpace(c) <==>
              || c in " \t\n\r\U{000B}\U{000C}\U{0085}\U{00A0}\U{1680}\U{2028}\U{2029}\U{202F}\U{205F}\U{3000}"
              || '\U{2000}' <= c <= '\U{200A}'
  {
  }

  /** It separates, wherever it stands ... */
  lemma {:induction false} FieldsSplit(a: string, c: char, b: string)
    requires IsSpace(c)
    ensures Fields(a + [c] + b) == Fields(a) + Fields(b)
    decreases |a|
  {
    hide IsSpace, Fields, WordLen, IsWord;
    if a == "" {
      LeadingSpace(c, b);
      assert a + [c] + b == [c] + b;
      FieldsOfNothing();
    } else if IsSpace(a[0]) {
      LeadingSpace(a[0], a[1..]);
      LeadingSpace(a[0], a[1..] + [c] + b);
      assert a == [a[0]] + a[1..] && a + [c] + b == [a[0]] + (a[1..] + [c] + b);
      FieldsSplit(a[1..], c, b);
    } else {
      var w, rest := TakeWord(a);
      FieldsSplit(rest, c, b);
      FirstWord(w, rest);
      FirstWord(w, rest + [c] + b);
      assert a + [c] + b == w + (rest + [c] + b);
    }
  }

  lemma FieldsOfNothing()
    ensures Fields("") == []
  {
  }

  lemma LeadingSpace(c: char, s: string)
    requires IsSpace(c)
    ensures Fields([c] + s) == Fields(s)
  {
    hide IsSpace;
    assert ([c] + s)[1..] == s;
  }

  lemma TakeWord(s: string) returns (w: string, rest: string)
    requires s != "" && !IsSpace(s[0])
    ensures s == w + rest && IsWord(w) && (rest == "" || IsSpace(rest[0]))
  {
    hide IsSpace;
    WordLenStops(s);
    w, rest := s[..WordLen(s)], s[WordLen(s)..];
  }

  lemma FirstWord(w: string, rest: string)
    requires IsWord(w) && (rest == "" || IsSpace(rest[0]))
    ensures Fields(w + rest) == [w] + Fields(rest)
  {
    hide IsSpace;
    WordLenOf(w, rest);
    assert (w + rest)[..|w|] == w && (w + rest)[|w|..] == rest;
  }

  lemma {:induction false} WordLenStops(s: string)
    ensures WordLen(s) == |s| || IsSpace(s[WordLen(s)])
  {
    if s != "" && !IsSpace(s[0]) {
      WordLenStops(s[1..]);
    }
  }

  /** ... and what has none of it is one word. */
  lemma FieldsOfWord(w: string)
    requires IsWord(w)
    ensures Fields(w) == [w]
  {
    FieldsOfJoin([w]);
  }

  // ---- the order of sort.Strings ----

  predicate Less(a: string, b: string) {
    b != "" && (a == "" || a[0] < b[0] || (a[0] == b[0] && Less(a[1..], b[1..])))
  }

  lemma {:induction false} LessTrichotomy(a: string, b: string)
    ensures a == b || Less(a, b) || Less(b, a)
    ensures !(Less(a, b) && Less(b, a)) && !Less(a, a)
  {
    if a != "" && b != "" && a[0] == b[0] {
      LessTrichotomy(a[1..], b[1..]);
      assert a == [a[0]] + a[1..] && b == [b[0]] + b[1..];
    }
    if a != "" {
      LessTrichotomy(a[1..], a[1..]);
    }
  }

  lemma {:induction false} LessTransitive(a: string, b: string, c: string)
    requires Less(a, b) && Less(b, c)
    ensures Less(a, c)
  {
    if a != "" && a[0] == b[0] == c[0] {
      LessTransitive(a[1..], b[1..], c[1..]);
    }
  }

  /** The dictionary order: at the first difference the smaller rune comes first, and a
      prefix comes before what extends it. */
  lemma LessIff(a: string, b: string)
    ensures Less(a, b) <==> exists n :: FirstDifference(a, b, n)
  {
    if Less(a, b) {
      var n := DifferenceOf(a, b);
    }
    if n: nat :| FirstDifference(a, b, n) {
      LessByDifference(a, b, n);
    }
  }

  lemma {:induction false} DifferenceOf(a: string, b: string) returns (n: nat)
    requires Less(a, b)
    ensures FirstDifference(a, b, n)
  {
    if a == "" || a[0] < b[0] {
      n := 0;
    } else {
      n := DifferenceOf(a[1..], b[1..]);
      assert a[..n + 1] == [a[0]] + a[1..][..n] && b[..n + 1] == [b[0]] + b[1..][..n];
      n := n + 1;
    }
  }

  lemma {:induction false} LessByDifference(a: string, b: string, n: nat)
    requires FirstDifference(a, b, n)
    ensures Less(a, b)
  {
    if n > 0 {
      assert a[0] == a[..n][0] && b[0] == b[..n][0];
      assert a[1..][..n - 1] == a[..n][1..] && b[1..][..n - 1] == b[..n][1..];
      LessByDifference(a[1..], b[1..], n - 1);
    }
  }

  predicate FirstDifference(a: string, b: string, n: nat) {
    n <= |a| && n < |b| && a[..n] == b[..n] && (n == |a| || a[n] < b[n])
  }

  predicate AtMost(a: string, b: string) {
    a == b || Less(a, b)
  }

  ghost predicate Sorted(ws: seq<string>) {
    forall i, j :: 0 <= i < j < |ws| ==> AtMost(ws[i], ws[j])
  }

  ghost predicate StrictlySorted(ws: seq<string>) {
    forall i, j :: 0 <= i < j < |ws| ==> Less(ws[i], ws[j])
  }

  function Insert(w: string, ws: seq<string>): (r: seq<string>)
    ensures multiset(r) == multiset(ws) + multiset{w}
  {
    if ws == [] || AtMost(w, ws[0]) then [w] + ws
    else
      assert ws == [ws[0]] + ws[1..];
      [ws[0]] + Insert(w, ws[1..])
  }

  /** What sort.Strings leaves in the slice. */
  function SortStrings(ws: seq<string>): (r: seq<string>)
    ensures multiset(r) == multiset(ws)
  {
    if ws == [] then []
    else
      assert ws == [ws[0]] + ws[1..];
      Insert(ws[0], SortStrings(ws[1..]))
  }

  lemma InElements(ws: seq<string>, w: string)
    ensures w in ws <==> w in multiset(ws)
  {
  }

  lemma {:induction false} InsertSorted(w: string, ws: seq<string>)
    requires Sorted(ws)
    ensures Sorted(Insert(w, ws))
  {
    var r := Insert(w, ws);
    if ws == [] {
    } else if AtMost(w, ws[0]) {
      forall j | 0 < j < |r|
        ensures AtMost(r[0], r[j])
      {
        if j > 1 && w != ws[0] && ws[0] != ws[j - 1] { LessTransitive(w, ws[0], ws[j - 1]); }
      }
    } else {
      LessTrichotomy(w, ws[0]);
      InsertSorted(w, ws[1..]);
      forall j | 0 < j < |r|
        ensures AtMost(r[0], r[j])
      {
        InElements(Insert(w, ws[1..]), r[j]);
        InElements(ws[1..], r[j]);
      }
    }
  }

  lemma {:induction false} SortStringsSorted(ws: seq<string>)
    ensures Sorted(SortStrings(ws))
  {
    if ws != [] {
      SortStringsSorted(ws[1..]);
      InsertSorted(ws[0], SortStrings(ws[1..]));
    }
  }

  // ---- removing repeats ----

  /** The slice after the de-duplication loop has looked at `ws`. */
  function Dedup(ws: seq<string>): (r: seq<string>)
    ensures |r| <= |ws| && (ws != [] ==> r != [] && r[|r| - 1] == ws[|ws| - 1])
  {
    if |ws| <= 1 then ws
    else
      var r := Dedup(ws[..|ws| - 1]);
      if ws[|ws| - 1] == r[|r| - 1] then r else r + [ws[|ws| - 1]]
  }

  lemma {:induction false} DedupStrict(ws: seq<string>)
    requires Sorted(ws)
    ensures StrictlySorted(Dedup(ws))
    ensures forall w :: w in Dedup(ws) <==> w in ws
  {
    if |ws| > 1 {
      var front, last := ws[..|ws| - 1], ws[|ws| - 1];
      DedupStrict(front);
      var r := Dedup(front);
      assert ws == front + [last];
      assert AtMost(front[|front| - 1], last);
      if last != r[|r| - 1] {
        forall i | 0 <= i < |r|
          ensures Less(r[i], last)
        {
          if i < |r| - 1 { LessTransitive(r[i], r[|r| - 1], last); }
        }
      }
    }
  }

  /** A strictly sorted list is determined by its elements. */
  lemma {:induction false} StrictlySortedUnique(a: seq<string>, b: seq<string>)
    requires StrictlySorted(a) && StrictlySorted(b)
    requires forall w :: w in a <==> w in b
    ensures a == b
  {
    assert b != [] ==> b[0] in a;
    assert a != [] ==> a[0] in b;
    if a != [] && b != [] {
      SmallestAgree(a, b);
      forall w
        ensures w in a[1..] <==> w in b[1..]
      {
        TailElements(a, w);
        TailElements(b, w);
      }
      StrictlySortedUnique(a[1..], b[1..]);
      assert a == [a[0]] + a[1..] && b == [b[0]] + b[1..];
    }
  }

  lemma SmallestAgree(a: seq<string>, b: seq<string>)
    requires a != [] && b != [] && StrictlySorted(a) && StrictlySorted(b)
    requires forall w :: w in a <==> w in b
    ensures a[0] == b[0]
  {
    assert a[0] in b && b[0] in a;
    var i :| 0 <= i < |b| && b[i] == a[0];
    var j :| 0 <= j < |a| && a[j] == b[0];
    LessTrichotomy(a[0], b[0]);
  }

  lemma TailElements(a: seq<string>, w: string)
    requires a != [] && StrictlySorted(a)
    ensures w in a[1..] <==> w in a && w != a[0]
  {
    LessTrichotomy(a[0], a[0]);
    assert a == [a[0]] + a[1..];
    if w in a[1..] {
      var i :| 0 <= i < |a[1..]| && a[1..][i] == w;
      assert Less(a[0], a[i + 1]);
    }
  }

  // ---- normalizeScope ----

  function Normalize(s: string): string {
    Join(Dedup(SortStrings(Fields(s))))
  }

  /** The de-duplication loop: `out` and the ranged-over slice share one array, and
      writing through `out` never overtakes the reading. */
  method DedupInPlace(f: array<string>) returns (n: nat)
    requires f.Length >= 1
    modifies f
    ensures n <= f.Length && f[..n] == Dedup(old(f[..]))
  {
    n := 1;
    var i := 1;
    assert f[..1] == old(f[..])[..1];
    while i < f.Length
      invariant 1 <= n <= i <= f.Length
      invariant f[..n] == Dedup(old(f[..])[..i])
      invariant forall k :: i <= k < f.Length ==> f[k] == old(f[k])
    {
      var v := f[i];
      assert v == old(f[..])[i];
      assert old(f[..])[..i + 1][..i] == old(f[..])[..i];
      if v != f[n - 1] {
        f[n] := v;
        n := n + 1;
      }
      i := i + 1;
    }
    assert old(f[..])[..i] == old(f[..]);
  }

  method NormalizeScope(s: string) returns (r: string)
    ensures r == Normalize(s)
  {
    var ws := Fields(s);
    if |ws| <= 1 {
      assert SortStrings(ws) == ws by {
        if |ws| == 1 { assert SortStrings(ws[1..]) == []; }
      }
      return Join(ws);
    }
    var sorted := SortStrings(ws);
    assert |sorted| == |multiset(sorted)| == |multiset(ws)| == |ws|;
    var f := new string[|sorted|](i requires 0 <= i < |sorted| => sorted[i]);
    assert f[..] == sorted;
    var n := DedupInPlace(f);
    r := Join(f[..n]);
  }

  lemma {:induction false} JoinAddsBlanks(ws: seq<string>)
    requires forall w :: w in ws ==> IsWord(w)
    ensures forall c :: c in Join(ws) && IsSpace(c) ==> c == ' '
  {
    hide IsSpace;
    if ws != [] {
      assert IsWord(ws[0]);
      JoinAddsBlanks(ws[1..]);
    }
  }

  /** The normal form: the words of the scope, each once, in order, and no white space but
      blanks. */
  lemma NormalizedWords(s: string)
    ensures forall c :: c in Normalize(s) && IsSpace(c) ==> c == ' '
    ensures Fields(Normalize(s)) == Dedup(SortStrings(Fields(s)))
    ensures StrictlySorted(Fields(Normalize(s)))
    ensures forall w :: w in Fields(Normalize(s)) <==> w in Fields(s)
  {
    var ws := Fields(s);
    SortStringsSorted(ws);
    DedupStrict(SortStrings(ws));
    forall w
      ensures w in Dedup(SortStrings(ws)) <==> w in ws
    {
      InElements(SortStrings(ws), w);
      InElements(ws, w);
    }
    FieldsOfJoin(Dedup(SortStrings(ws)));
    JoinAddsBlanks(Dedup(SortStrings(ws)));
  }

  /** Canonical: two scopes normalise alike exactly when they name the same set. */
  lemma NormalizeIsCanonical(a: string, b: string)
    ensures Normalize(a) == Normalize(b) <==> forall w :: w in Fields(a) <==> w in Fields(b)
  {
    NormalizedWords(a);
    NormalizedWords(b);
    if forall w :: w in Fields(a) <==> w in Fields(b) {
      StrictlySortedUnique(Fields(Normalize(a)), Fields(Normalize(b)));
    }
  }

  lemma NormalizeIsIdempotent(s: string)
    ensures Normalize(Normalize(s)) == Normalize(s)
  {
    NormalizedWords(s);
    NormalizeIsCanonical(Normalize(s), s);
  }
}
