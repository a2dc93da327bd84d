/** Cache keys: the length-prefixed field encoding that both caches hash, the
    validation key built from it, and the fixed-length credential prefix that
    InvalidateValidation matches on.

    SHA-256 (with hex encoding) is a parameter `h`. It is only assumed to give 64
    characters; where two inputs would have to collide for a statement to fail, the
    statement says so, since no fixed-length function is injective on all strings. */
module CacheKeys {

  type Hash = string -> string

  /** hex.EncodeToString of a SHA-256 sum always has 64 characters. */
  ghost predicate HexDigest(h: Hash) {
    forall s :: |h(s)| == 64
  }

  ghost predicate Collide(h: Hash, x: string, y: string) {
    x != y && h(x) == h(y)
  }

  // ---- decimal lengths ----

  function Digit(d: nat): (c: char)
    requires d < 10
    ensures '0' <= c <= '9'
  {
    ('0' as int + d) as char
  }

  predicate IsDigit(c: char) {
    '0' <= c <= '9'
  }

  /** strconv.Itoa on a length. */
  function Itoa(n: nat): (s: string)
    ensures s != [] && forall c :: c in s ==> IsDigit(c)
  {
    if n < 10 then [Digit(n)] else Itoa(n / 10) + [Digit(n % 10)]
  }

  /** The number a string of digits spells, most significant digit first. */
  function Atoi(s: string): nat
    requires forall c :: c in s ==> IsDigit(c)
  {
    if s == [] then 0
    else
      assert IsDigit(s[|s| - 1]);
      10 * Atoi(s[..|s| - 1]) + (s[|s| - 1] as int - '0' as int)
  }

  lemma {:induction false} AtoiItoa(n: nat)
    ensures Atoi(Itoa(n)) == n
  {
    if n < 10 {
      assert Itoa(n)[..0] == [];
    } else {
      AtoiItoa(n / 10);
      assert Itoa(n)[..|Itoa(n)| - 1] == Itoa(n / 10);
    }
  }

  // ---- fields ----

  const RECORD_SEPARATOR: char := 0x1e as char

  /** One length-prefixed field, as `writeField` emits it. */
  function Field(s: string): string {
    Itoa(|s|) + ":" + s + [RECORD_SEPARATOR]
  }

  function EncodeFields(fields: seq<string>): string {
    if fields == [] then "" else Field(fields[0]) + EncodeFields(fields[1..])
  }

  /** Number of leading digits of `s`. */
  function DigitRun(s: string): (n: nat)
    ensures n <= |s|
    ensures forall i :: 0 <= i < n ==> IsDigit(s[i])
  {
    if s != [] && IsDigit(s[0]) then 1 + DigitRun(s[1..]) else 0
  }

  datatype Split = NoField | Split(field: string, rest: string)

  /** Reads one length-prefixed field off the front of `s`. */
  function SplitField(s: string): (r: Split)
    ensures r.Split? ==> |r.rest| < |s|
  {
    var d := DigitRun(s);
    if d == |s| || s[d] != ':' then NoField
    else
      assert forall c :: c in s[..d] ==> IsDigit(c);
      var n := Atoi(s[..d]);
      var body := s[d + 1..];
      if n < |body| && body[n] == RECORD_SEPARATOR then Split(body[..n], body[n + 1..]) else NoField
  }

  datatype Parsed = Parsed(fields: seq<string>) | Malformed

  /** A decoder for EncodeFields; the program never decodes, it exists to show that
      the encoding determines the fields. */
  function DecodeFields(s: string): Parsed
    decreases |s|
  {
    if s == [] then Parsed([])
    else match SplitField(s)
      case NoField => Malformed
      case Split(f, rest) =>
        match DecodeFields(rest)
        case Malformed => Malformed
        case Parsed(fs) => Parsed([f] + fs)
  }

  lemma {:induction false} DigitRunOfDigits(ds: string, rest: string)
    requires forall c :: c in ds ==> IsDigit(c)
    requires rest != [] && !IsDigit(rest[0])
    ensures DigitRun(ds + rest) == |ds|
  {
    if ds == [] {
      assert ds + rest == rest;
    } else {
      assert (ds + rest)[1..] == ds[1..] + rest;
      DigitRunOfDigits(ds[1..], rest);
    }
  }

  /** Where SplitField looks: the digits, the colon, and what follows. */
  lemma SplitFieldAt(ds: string, body: string)
    requires forall c :: c in ds ==> IsDigit(c)
    ensures SplitField(ds + [':'] + body) ==
              var n := Atoi(ds);
              if n < |body| && body[n] == RECORD_SEPARATOR then Split(body[..n], body[n + 1..]) else NoField
  {
    hide Atoi;
    var s := ds + [':'] + body;
    assert s == ds + ([':'] + body);
    DigitRunOfDigits(ds, [':'] + body);
    assert s[..|ds|] == ds && s[|ds|] == ':' && s[|ds| + 1..] == body;
  }

  lemma SplitPrefixed(ds: string, f: string, tail: string)
    requires forall c :: c in ds ==> IsDigit(c)
    requires Atoi(ds) == |f|
    ensures SplitField(ds + [':'] + f + [RECORD_SEPARATOR] + tail) == Split(f, tail)
  {
    hide SplitField, Atoi;
    var body := f + [RECORD_SEPARATOR] + tail;
    assert ds + [':'] + f + [RECORD_SEPARATOR] + tail == ds + [':'] + body;
    SplitFieldAt(ds, body);
    assert body[..|f|] == f && body[|f| + 1..] == tail;
  }

  /** The encoding decodes uniquely: nothing is lost and no two field lists serialize
      to the same bytes. */
  lemma {:induction false} DecodeEncode(fields: seq<string>)
    ensures DecodeFields(EncodeFields(fields)) == Parsed(fields)
  {
    if fields != [] {
      var f := fields[0];
      DecodeEncode(fields[1..]);
      AtoiItoa(|f|);
      SplitPrefixed(Itoa(|f|), f, EncodeFields(fields[1..]));
      assert fields == [f] + fields[1..];
    }
  }

  lemma EncodeFieldsInjective(a: seq<string>, b: seq<string>)
    requires EncodeFields(a) == EncodeFields(b)
    ensures a == b
  {
    DecodeEncode(a);
    DecodeEncode(b);
  }

  // ---- the validation key ----

  datatype Endpoint = ValidateToken | ValidateAPIKey | AuthorizeResource

  function KindName(e: Endpoint): string {
    match e
    case ValidateToken => "validate-token"
    case ValidateAPIKey => "validate-api-key"
    case AuthorizeResource => "authorize-resource"
  }

  /** Everything that can change the auth service's answer. */
  datatype Question = Question(
    kind: Endpoint,
    cred: string,
    audience: string,
    perms: seq<string>,
    includePerms: bool)

  function CredentialPreimage(cred: string): string {
    "ab0t-auth-sdk/cred\0" + cred
  }

  function CredentialFingerprint(h: Hash, cred: string): string {
    h(CredentialPreimage(cred)) + "|"
  }

  function FormatBool(b: bool): string {
    if b then "true" else "false"
  }

  function ShapeFields(q: Question): seq<string> {
    [KindName(q.kind), q.audience, Itoa(|q.perms|)] + q.perms + [FormatBool(q.includePerms)]
  }

  function ValidationKey(h: Hash, q: Question): string {
    CredentialFingerprint(h, q.cred) + h(EncodeFields(ShapeFields(q)))
  }

  /** Two questions are confused only if SHA-256 collides on what they hash. */
  ghost predicate Confusable(h: Hash, a: Question, b: Question) {
    || Collide(h, CredentialPreimage(a.cred), CredentialPreimage(b.cred))
    || Collide(h, EncodeFields(ShapeFields(a)), EncodeFields(ShapeFields(b)))
  }

  lemma ShapeDeterminesQuestion(a: Question, b: Question)
    requires ShapeFields(a) == ShapeFields(b)
    ensures a.(cred := b.cred) == b
  {
    var f, g := ShapeFields(a), ShapeFields(b);
    assert f[0] == KindName(a.kind) && g[0] == KindName(b.kind);
    assert KindName(a.kind)[0..10] != "" && a.kind == b.kind by {
      assert |"validate-token"| == 14 && |"validate-api-key"| == 16 && |"authorize-resource"| == 18;
    }
    assert f[1] == a.audience && g[1] == b.audience;
    assert f[3..|f| - 1] == a.perms && g[3..|g| - 1] == b.perms;
    assert f[|f| - 1] == FormatBool(a.includePerms) && g[|g| - 1] == FormatBool(b.includePerms);
  }

  /** Equal keys come from equal questions, unless SHA-256 collides. The permission
      list is ordered: two orderings are two questions. */
  lemma ValidationKeyInjective(h: Hash, a: Question, b: Question)
    requires HexDigest(h)
    ensures ValidationKey(h, a) == ValidationKey(h, b) && !Confusable(h, a, b) ==> a == b
  {
    if ValidationKey(h, a) == ValidationKey(h, b) && !Confusable(h, a, b) {
      var ka, kb := ValidationKey(h, a), ValidationKey(h, b);
      assert ka[..64] == h(CredentialPreimage(a.cred)) && kb[..64] == h(CredentialPreimage(b.cred));
      assert CredentialPreimage(a.cred)[19..] == a.cred && CredentialPreimage(b.cred)[19..] == b.cred;
      assert ka[65..] == h(EncodeFields(ShapeFields(a))) && kb[65..] == h(EncodeFields(ShapeFields(b)));
      EncodeFieldsInjective(ShapeFields(a), ShapeFields(b));
      ShapeDeterminesQuestion(a, b);
    }
  }

  /** InvalidateValidation's prefix test selects exactly the keys of that credential,
      whatever question they answer (unless SHA-256 collides on two credentials). */
  lemma PrefixSelectsCredential(h: Hash, cred: string, q: Question)
    requires HexDigest(h)
    requires !Collide(h, CredentialPreimage(cred), CredentialPreimage(q.cred))
    ensures CredentialFingerprint(h, cred) <= ValidationKey(h, q) <==> cred == q.cred
  {
    var p, k := CredentialFingerprint(h, cred), ValidationKey(h, q);
    assert k[..65] == CredentialFingerprint(h, q.cred);
    if p <= k {
      assert p == k[..65];
      assert h(CredentialPreimage(cred)) == p[..64] == h(CredentialPreimage(q.cred));
      assert CredentialPreimage(cred)[19..] == cred && CredentialPreimage(q.cred)[19..] == q.cred;
    }
  }

  // ---- the TokenFor key ----

  function TokenCacheKey(h: Hash, parts: seq<string>): string {
    h(EncodeFields(parts))
  }

  lemma TokenCacheKeyInjective(h: Hash, a: seq<string>, b: seq<string>)
    ensures TokenCacheKey(h, a) == TokenCacheKey(h, b) && !Collide(h, EncodeFields(a), EncodeFields(b)) ==> a == b
  {
    if TokenCacheKey(h, a) == TokenCacheKey(h, b) && !Collide(h, EncodeFields(a), EncodeFields(b)) {
      EncodeFieldsInjective(a, b);
    }
  }
}
