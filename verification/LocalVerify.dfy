/** Local verification of an access token: its shape and spelling, its stages in order,
    and when it is accepted. JSON parsing, the key set's answer and the RSA check are
    parameters. */
module LocalVerify {
  import opened ValidationPolicy
  import opened Base64Url
  import KeySet

  // ---- shape ----

  /** strings.Split(s, ".") */
  function Split(s: string): (parts: seq<string>)
    ensures |parts| >= 1
  {
    if s == "" then [""]
    else if s[0] == '.' then [""] + Split(s[1..])
    else var rest := Split(s[1..]); [[s[0]] + rest[0]] + rest[1..]
  }

  function Joined(parts: seq<string>): string
    requires |parts| >= 1
  {
    if |parts| == 1 then parts[0] else parts[0] + "." + Joined(parts[1..])
  }

  lemma JoinedCons(head: string, tail: seq<string>)
    requires |tail| >= 1
    ensures Joined([head] + tail) == head + "." + Joined(tail)
  {
    assert ([head] + tail)[1..] == tail;
  }

  lemma {:induction false} JoinedSplit(s: string)
    ensures Joined(Split(s)) == s
  {
    if s != "" {
      var rest := Split(s[1..]);
      JoinedSplit(s[1..]);
      assert s == [s[0]] + s[1..];
      if s[0] == '.' {
        JoinedCons("", rest);
      } else if |rest| > 1 {
        JoinedCons(rest[0], rest[1..]);
        JoinedCons([s[0]] + rest[0], rest[1..]);
        assert rest == [rest[0]] + rest[1..];
      }
    }
  }

  lemma {:induction false} SplitAddsNothing(s: string, i: nat, c: char)
    requires i < |Split(s)| && c in Split(s)[i]
    ensures c in s
  {
    if s != "" {
      var rest := Split(s[1..]);
      assert s == [s[0]] + s[1..];
      if s[0] == '.' {
        SplitAddsNothing(s[1..], i - 1, c);
      } else if i > 0 {
        assert Split(s)[i] == rest[i];
        SplitAddsNothing(s[1..], i, c);
      } else if c != s[0] {
        assert Split(s)[0] == [s[0]] + rest[0];
        SplitAddsNothing(s[1..], 0, c);
      }
    }
  }

  predicate LooksLikeJWT(cred: string) {
    && cred != ""
    && ' ' !in cred && '\t' !in cred && '\r' !in cred && '\n' !in cred
    && |Split(cred)| == 3
    && forall i :: 0 <= i < 3 ==> Split(cred)[i] != ""
  }

  function TokenSegment(s: string): Option<seq<Byte>> {
    if '=' in s then None else Decode(true, s)
  }

  /** Shape test and all three segments. */
  function Segments(token: string): Option<(seq<Byte>, seq<Byte>, seq<Byte>)> {
    if !LooksLikeJWT(token) then None
    else
      var parts := Split(token);
      match (TokenSegment(parts[0]), TokenSegment(parts[1]), TokenSegment(parts[2]))
      case (Some(header), Some(payload), Some(sig)) => Some((header, payload, sig))
      case _ => None
  }

  lemma SegmentDetermines(s: string, t: string)
    requires TokenSegment(s).Some? && TokenSegment(s) == TokenSegment(t)
    requires '\n' !in s && '\r' !in s && '\n' !in t && '\r' !in t
    ensures s == t
  {
    DecodesIff(s, TokenSegment(s).value);
    DecodesIff(t, TokenSegment(t).value);
    NothingToSkip(s);
    NothingToSkip(t);
  }

  /** One spelling per token: two strings that pass the shape test and decode to the same
      bytes, segment by segment, are the same string. */
  lemma OneSpellingPerToken(a: string, b: string)
    requires Segments(a).Some? && Segments(a) == Segments(b)
    ensures a == b
  {
    JoinedSplit(a);
    JoinedSplit(b);
    var p, q := Split(a), Split(b);
    forall i | 0 <= i < 3
      ensures p[i] == q[i]
    {
      forall c: char | c in p[i] ensures c in a { SplitAddsNothing(a, i, c); }
      forall c: char | c in q[i] ensures c in b { SplitAddsNothing(b, i, c); }
      SegmentDetermines(p[i], q[i]);
    }
    assert p == q;
  }

  /** A segment alone has many spellings: any CR or LF strewn in goes unnoticed... */
  lemma SegmentsIgnoreNewlines(s: string, t: string)
    requires TokenSegment(s).Some?
    ensures TokenSegment(t) == TokenSegment(s) <==> SkipNewlines(t) == SkipNewlines(s)
  {
    DecodesIff(s, TokenSegment(s).value);
    DecodesIff(t, TokenSegment(s).value);
    if '=' in t {
      SkippedIsSubset(t);
      SkippedIsSubset(s);
      PaddingRefused(true, SkipNewlines(t));
    }
  }

  /** ... so the whitespace test is needed: without it these are two spellings of one
      segment. */
  lemma NewlineSpelling()
    ensures TokenSegment("QQ\n").Some? && TokenSegment("QQ\n") == TokenSegment("QQ") && "QQ\n" != "QQ"
  {
    assert SkipNewlines("QQ\n") == "QQ" by {
      assert "QQ\n"[1..] == "Q\n" && "Q\n"[1..] == "\n" && "\n"[1..] == "";
      assert SkipNewlines("") == "" && SkipNewlines("\n") == "" && SkipNewlines("Q\n") == "Q";
    }
    NothingToSkip("QQ");
    assert Value('Q') == Some(16);
    assert |"QQ\n"| == 3 && |"QQ"| == 2;
  }

  /** And so is the strict decoder: the lenient one reads both of these as one byte. */
  lemma LenientSpelling()
    ensures Decode(false, "QQ").Some? && Decode(false, "QQ") == Decode(false, "QR") && Decode(true, "QR").None?
  {
    NothingToSkip("QQ");
    NothingToSkip("QR");
    assert Value('Q') == Some(16) && Value('R') == Some(17);
  }

  // ---- the stages ----

  const MAX_TOKEN_BYTES: nat := 16 * 1024
  const DEFAULT_LEEWAY: int := 30 * SECOND
  const MAX_LEEWAY: int := 60 * SECOND
  const LEGACY_ISSUER: string := "ab0t-auth-service"

  datatype Header = Header(alg: Option<string>, kid: string, typ: string, crit: bool)

  /** A NumericDate claim: absent or null, a time, or something else. */
  datatype Date = NoDate | At(time: Time) | NotADate

  datatype Text = NoText | Text(text: string) | NotText

  datatype Act = NoAct | Party | NotAParty

  datatype Claims = Claims(
    exp: Date, nbf: Date, iat: Date,
    iss: Text, sub: Text, typ: Text, others: seq<Text>,
    aud: Option<seq<string>>, scopeOk: bool, act: Act)

  /** What is not modelled: JSON, rsaPublicKey, and the RSA check of a key, the signed
      text and a signature. */
  datatype Env = Env(
    parseHeader: seq<Byte> -> Option<Header>,
    parseClaims: seq<Byte> -> Option<Claims>,
    rsaKey: KeySet.JWK -> Option<nat>,
    signed: (nat, string, seq<Byte>) -> bool)

  datatype Options = Options(audience: string, issuers: seq<string>, leeway: int, allowDelegation: bool)

  datatype Defaults = Defaults(jwtAudience: string, baseURL: string)

  datatype Verdict = Accepted(kid: string, claims: Claims) | Invalid(reason: string) | Unavailable

  function Leeway(o: Options): int {
    if o.leeway == 0 then DEFAULT_LEEWAY
    else if o.leeway < 0 then 0
    else if o.leeway > MAX_LEEWAY then MAX_LEEWAY
    else o.leeway
  }

  function Read(t: Text): string {
    if t.Text? then t.text else ""
  }

  function Issuers(d: Defaults, o: Options): seq<string> {
    if o.issuers == [] then [LEGACY_ISSUER, d.baseURL] else o.issuers
  }

  function WantedAudience(d: Defaults, o: Options): string {
    if o.audience == "" then d.jwtAudience else o.audience
  }

  /** strings.ToLower, as far as it matters: besides the Latin capitals, only two runes
      have a lower case among ASCII letters. */
  function LowerRune(c: char): char {
    if 'A' <= c <= 'Z' then c - 'A' + 'a'
    else if c == '\U{0130}' then 'i'
    else if c == '\U{212A}' then 'k'
    else c
  }

  function ToLower(s: string): string {
    seq(|s|, i requires 0 <= i < |s| => LowerRune(s[i]))
  }

  predicate IsTokenType(typ: string) {
    ToLower(typ) in ["", "jwt", "at+jwt", "application/at+jwt"]
  }

  function HeaderOf(env: Env, token: string): Option<Header> {
    if Segments(token).Some? then env.parseHeader(Segments(token).value.0) else None
  }

  function ClaimsOf(env: Env, token: string): Option<Claims> {
    if Segments(token).Some? then env.parseClaims(Segments(token).value.1) else None
  }

  function KidOf(env: Env, token: string): string {
    if HeaderOf(env, token).Some? then HeaderOf(env, token).value.kid else ""
  }

  /** The key named in the header signed the first two segments as they are spelled. */
  predicate IsSigned(env: Env, key: KeySet.JWK, token: string) {
    && Segments(token).Some? && env.rsaKey(key).Some?
    && env.signed(env.rsaKey(key).value, Split(token)[0] + "." + Split(token)[1], Segments(token).value.2)
  }

  /** `typ` is `word`, in any case. Besides the capitals there is one rune that Go lowers to
      a letter of these words: the dotted capital I. */
  predicate SpelledAs(typ: string, word: string) {
    && |typ| == |word|
    && forall i :: 0 <= i < |typ| ==>
         || typ[i] == word[i]
         || ('a' <= word[i] <= 'z' && typ[i] as int == word[i] as int - 32)
         || (word[i] == 'i' && typ[i] == '\U{0130}')
  }

  /** Size, shape and header are acceptable. */
  predicate HeaderOk(env: Env, token: string) {
    && |token| <= 16384 && Segments(token).Some? && HeaderOf(env, token).Some?
    && var h := HeaderOf(env, token).value;
       && h.alg == Some("RS256") && !h.crit && h.kid != ""
       && (h.typ == "" || SpelledAs(h.typ, "jwt") || SpelledAs(h.typ, "at+jwt") || SpelledAs(h.typ, "application/at+jwt"))
  }

  /** The claims' own part in acceptance, time apart: issuers given replace the usual two,
      an audience given replaces the configured one, and a delegation needs the option and
      an act claim. */
  predicate ClaimsOk(d: Defaults, o: Options, c: Claims) {
    && c.exp.At? && !c.nbf.NotADate? && !c.iat.NotADate?
    && NotText !in c.others
    && c.iss.Text? && c.iss.text != ""
    && (if o.issuers == [] then c.iss.text == "ab0t-auth-service" || c.iss.text == d.baseURL else c.iss.text in o.issuers)
    && c.aud.Some?
    && (if o.audience != "" then o.audience in c.aud.value else d.jwtAudience == "" || d.jwtAudience in c.aud.value)
    && c.sub.Text? && c.sub.text != ""
    && (match c.typ
        case NoText => true
        case Text(typ) => typ == "" || typ == "access" || (typ == "delegation" && o.allowDelegation && c.act.Party?)
        case NotText => false)
    && c.scopeOk && !c.act.NotAParty?
  }

  /** The leeway given: 30 s unless set, none if negative, at most a minute. */
  function Allowance(o: Options): int {
    if o.leeway < 0 then 0
    else if o.leeway == 0 then 30_000_000_000
    else if o.leeway < 60_000_000_000 then o.leeway
    else 60_000_000_000
  }

  predicate InWindow(o: Options, c: Claims, now: Time)
    requires c.exp.At?
  {
    && now < c.exp.time + Allowance(o)
    && (c.nbf.At? ==> c.nbf.time - Allowance(o) <= now)
    && (c.iat.At? ==> c.iat.time - Allowance(o) <= now)
  }

  /** A check, and the reason given when it fails. */
  datatype Check = Check(holds: bool, otherwise: string)

  /** The checks on size, shape and header, in order. */
  function HeaderChecks(env: Env, token: string): seq<Check> {
    var h := HeaderOf(env, token);
    [ Check(|token| <= MAX_TOKEN_BYTES, "too_large"),
      Check(Segments(token).Some?, "malformed"),
      Check(h.Some?, "malformed"),
      Check(h.Some? ==> h.value.alg == Some("RS256"), "unsupported_alg"),
      Check(h.Some? ==> !h.value.crit, "unsupported_header"),
      Check(h.Some? ==> IsTokenType(h.value.typ), "unsupported_header"),
      Check(h.Some? ==> h.value.kid != "", "missing_kid") ]
  }

  /** The checks on the key found, the signature and the claims' shape, in order. */
  function KeyChecks(env: Env, found: KeySet.Lookup, token: string): seq<Check> {
    [ Check(found.Found?, "unknown_kid"),
      Check(found.Found? ==> env.rsaKey(found.key).Some?, "unsupported_key"),
      Check(found.Found? ==> IsSigned(env, found.key, token), "bad_signature"),
      Check(ClaimsOf(env, token).Some?, "malformed") ]
  }

  /** The checks on exp, nbf and iat, in order. */
  function TimeChecks(o: Options, c: Claims, now: Time): seq<Check> {
    [ Check(!c.exp.NotADate?, "malformed"),
      Check(!c.exp.NoDate?, "missing_claim"),
      Check(c.exp.At? ==> now < c.exp.time + Leeway(o), "expired"),
      Check(!c.nbf.NotADate?, "malformed"),
      Check(c.nbf.At? ==> c.nbf.time <= now + Leeway(o), "not_yet_valid"),
      Check(!c.iat.NotADate?, "malformed"),
      Check(c.iat.At? ==> c.iat.time <= now + Leeway(o), "not_yet_valid") ]
  }

  /** The checks on who the token is from, for and about, in order. */
  function PartyChecks(d: Defaults, o: Options, c: Claims): seq<Check> {
    [ Check(!c.iss.NotText? && !c.sub.NotText? && !c.typ.NotText? && NotText !in c.others, "malformed"),
      Check(Read(c.iss) != "" && Read(c.iss) in Issuers(d, o), "issuer"),
      Check(c.aud.Some?, "malformed"),
      Check(c.aud.Some? && WantedAudience(d, o) != "" ==> WantedAudience(d, o) in c.aud.value, "audience"),
      Check(Read(c.sub) != "", "missing_claim"),
      Check(Read(c.typ) in ["", "access"] || (Read(c.typ) == "delegation" && o.allowDelegation), "token_type"),
      Check(c.scopeOk && !c.act.NotAParty?, "malformed"),
      Check(Read(c.typ) == "delegation" ==> !c.act.NoAct?, "missing_claim") ]
  }

  /** `why` is the reason of the first check that fails; None when none does. */
  ghost predicate Blames(checks: seq<Check>, why: Option<string>) {
    match why
    case None => forall i :: 0 <= i < |checks| ==> checks[i].holds
    case Some(reason) =>
      exists i :: 0 <= i < |checks| && FirstToFail(checks, i) && checks[i].otherwise == reason
  }

  predicate FirstToFail(checks: seq<Check>, i: nat)
    requires i < |checks|
  {
    !checks[i].holds && forall j :: 0 <= j < i ==> checks[j].holds
  }

  lemma BlameIsNotPraise(checks: seq<Check>, reason: string)
    ensures Blames(checks, Some(reason)) ==> !Blames(checks, None)
  {
  }

  lemma BlamesNext(a: seq<Check>, b: seq<Check>, why: Option<string>)
    ensures why.Some? && Blames(a, why) ==> Blames(a + b, why)
    ensures Blames(a, None) && Blames(b, why) ==> Blames(a + b, why)
  {
    if why.Some? && Blames(a, why) {
      var i :| 0 <= i < |a| && FirstToFail(a, i) && a[i].otherwise == why.value;
      assert FirstToFail(a + b, i);
    }
    if why.Some? && Blames(a, None) && Blames(b, why) {
      var i :| 0 <= i < |b| && FirstToFail(b, i) && b[i].otherwise == why.value;
      assert FirstToFail(a + b, |a| + i);
    }
  }

  method CheckTimes(o: Options, c: Claims, now: Time) returns (why: Option<string>)
    ensures Blames(TimeChecks(o, c, now), why)
  {
    ghost var checks := TimeChecks(o, c, now);
    var leeway := o.leeway;
    if leeway == 0 {
      leeway := DEFAULT_LEEWAY;
    } else if leeway < 0 {
      leeway := 0;
    } else if leeway > MAX_LEEWAY {
      leeway := MAX_LEEWAY;
    }
    if c.exp.NotADate? {
      assert FirstToFail(checks, 0);
      return Some("malformed");
    }
    if c.exp.NoDate? {
      assert FirstToFail(checks, 1);
      return Some("missing_claim");
    }
    if !(now < c.exp.time + leeway) {
      assert FirstToFail(checks, 2);
      return Some("expired");
    }
    if c.nbf.NotADate? {
      assert FirstToFail(checks, 3);
      return Some("malformed");
    }
    if c.nbf.At? && now + leeway < c.nbf.time {
      assert FirstToFail(checks, 4);
      return Some("not_yet_valid");
    }
    if c.iat.NotADate? {
      assert FirstToFail(checks, 5);
      return Some("malformed");
    }
    if c.iat.At? && now + leeway < c.iat.time {
      assert FirstToFail(checks, 6);
      return Some("not_yet_valid");
    }
    return None;
  }

  method CheckParties(d: Defaults, o: Options, c: Claims) returns (why: Option<string>)
    ensures Blames(PartyChecks(d, o, c), why)
  {
    ghost var checks := PartyChecks(d, o, c);
    if c.iss.NotText? || c.sub.NotText? || c.typ.NotText? || NotText in c.others {
      assert FirstToFail(checks, 0);
      return Some("malformed");
    }
    var issuers := o.issuers;
    if |issuers| == 0 {
      issuers := [LEGACY_ISSUER, d.baseURL];
    }
    if Read(c.iss) == "" || Read(c.iss) !in issuers {
      assert FirstToFail(checks, 1);
      return Some("issuer");
    }
    if c.aud.None? {
      assert FirstToFail(checks, 2);
      return Some("malformed");
    }
    var wantAud := o.audience;
    if wantAud == "" {
      wantAud := d.jwtAudience;
    }
    if wantAud != "" && wantAud !in c.aud.value {
      assert FirstToFail(checks, 3);
      return Some("audience");
    }
    if Read(c.sub) == "" {
      assert FirstToFail(checks, 4);
      return Some("missing_claim");
    }
    if Read(c.typ) == "delegation" {
      if !o.allowDelegation {
        assert FirstToFail(checks, 5);
        return Some("token_type");
      }
    } else if Read(c.typ) != "" && Read(c.typ) != "access" {
      assert FirstToFail(checks, 5);
      return Some("token_type");
    }
    if !c.scopeOk || c.act.NotAParty? {
      assert FirstToFail(checks, 6);
      return Some("malformed");
    }
    if Read(c.typ) == "delegation" && c.act.NoAct? {
      assert FirstToFail(checks, 7);
      return Some("missing_claim");
    }
    return None;
  }

  /** The checks all hold exactly when the claims are acceptable and the time is right. */
  lemma AllHoldIff(d: Defaults, o: Options, c: Claims, now: Time)
    ensures Blames(TimeChecks(o, c, now) + PartyChecks(d, o, c), None) <==> ClaimsOk(d, o, c) && InWindow(o, c, now)
  {
    var a, b := TimeChecks(o, c, now), PartyChecks(d, o, c);
    assert forall i :: 0 <= i < |a + b| ==> (a + b)[i] == if i < |a| then a[i] else b[i - |a|];
    assert Blames(a + b, None) <==> Blames(a, None) && Blames(b, None) by {
      assert forall i :: 0 <= i < |a| ==> a[i] == (a + b)[i];
      assert forall i :: 0 <= i < |b| ==> b[i] == (a + b)[|a| + i];
    }
    TimesHoldIff(o, c, now);
    PartiesHoldIff(d, o, c);
  }

  lemma TokenTypesIff(typ: string)
    ensures IsTokenType(typ)
            <==> typ == "" || SpelledAs(typ, "jwt") || SpelledAs(typ, "at+jwt") || SpelledAs(typ, "application/at+jwt")
  {
    hide SpelledAs, ToLower;
    SpelledIff(typ, "");
    SpelledIff(typ, "jwt");
    SpelledIff(typ, "at+jwt");
    SpelledIff(typ, "application/at+jwt");
    EmptySpelling(typ);
  }

  lemma EmptySpelling(typ: string)
    ensures SpelledAs(typ, "") <==> typ == ""
  {
  }

  lemma SpelledIff(typ: string, word: string)
    requires forall i :: 0 <= i < |word| ==> ('a' <= word[i] <= 'z' && word[i] != 'k') || word[i] == '+' || word[i] == '/'
    ensures ToLower(typ) == word <==> SpelledAs(typ, word)
  {
    if |typ| == |word| {
      forall i | 0 <= i < |typ|
        ensures LowerRune(typ[i]) == word[i] <==>
                  || typ[i] == word[i]
                  || ('a' <= word[i] <= 'z' && typ[i] as int == word[i] as int - 32)
                  || (word[i] == 'i' && typ[i] == '\U{0130}')
      {
      }
      assert ToLower(typ) == word <==> forall i :: 0 <= i < |typ| ==> ToLower(typ)[i] == word[i];
    }
  }

  lemma HeaderHoldsIff(env: Env, token: string)
    ensures Blames(HeaderChecks(env, token), None) <==> HeaderOk(env, token)
  {
    hide IsTokenType, SpelledAs, Segments, HeaderOf;
    var a := HeaderChecks(env, token);
    assert Blames(a, None) <==> a[0].holds && a[1].holds && a[2].holds && a[3].holds && a[4].holds && a[5].holds && a[6].holds;
    if HeaderOf(env, token).Some? {
      TokenTypesIff(HeaderOf(env, token).value.typ);
    }
  }

  lemma TimesHoldIff(o: Options, c: Claims, now: Time)
    ensures Blames(TimeChecks(o, c, now), None) <==> c.exp.At? && !c.nbf.NotADate? && !c.iat.NotADate? && InWindow(o, c, now)
  {
    LeewayIsAllowance(o);
    hide Leeway, Allowance;
    var a := TimeChecks(o, c, now);
    assert Blames(a, None) <==> a[0].holds && a[1].holds && a[2].holds && a[3].holds && a[4].holds && a[5].holds && a[6].holds;
  }

  lemma LeewayIsAllowance(o: Options)
    ensures Leeway(o) == Allowance(o)
  {
  }

  lemma PartiesHoldIff(d: Defaults, o: Options, c: Claims)
    ensures c.exp.At? && !c.nbf.NotADate? && !c.iat.NotADate? ==> (Blames(PartyChecks(d, o, c), None) <==> ClaimsOk(d, o, c))
  {
    var b := PartyChecks(d, o, c);
    assert Blames(b, None) <==>
           b[0].holds && b[1].holds && b[2].holds && b[3].holds && b[4].holds && b[5].holds && b[6].holds && b[7].holds;
    assert |"access"| != |"delegation"|;
  }

  /** All checks for a token whose key look-up brought `found`, in order. */
  function Checks(env: Env, found: KeySet.Lookup, d: Defaults, o: Options, token: string, now: Time): seq<Check> {
    var c := ClaimsOf(env, token);
    HeaderChecks(env, token) + KeyChecks(env, found, token)
    + if c.Some? then TimeChecks(o, c.value, now) + PartyChecks(d, o, c.value) else []
  }

  /** Size, shape and header. */
  datatype Parts = Parts(header: Header, payload: seq<Byte>, sig: seq<Byte>, text: string) | Bad(reason: string)

  method CheckHeader(env: Env, token: string) returns (p: Parts)
    ensures Blames(HeaderChecks(env, token), if p.Bad? then Some(p.reason) else None)
    ensures p.Parts? ==>
              && Segments(token).Some? && HeaderOf(env, token) == Some(p.header)
              && p.payload == Segments(token).value.1 && p.sig == Segments(token).value.2
              && p.text == Split(token)[0] + "." + Split(token)[1]
  {
    hide TokenSegment, LooksLikeJWT, Split, IsTokenType;
    ghost var checks := HeaderChecks(env, token);
    if |token| > MAX_TOKEN_BYTES {
      assert FirstToFail(checks, 0);
      return Bad("too_large");
    }
    if !LooksLikeJWT(token) {
      assert FirstToFail(checks, 1);
      return Bad("malformed");
    }
    ThreeParts(token);
    var parts := Split(token);
    var headerJSON := TokenSegment(parts[0]);
    if headerJSON.None? {
      assert FirstToFail(checks, 1);
      return Bad("malformed");
    }
    var payloadJSON := TokenSegment(parts[1]);
    if payloadJSON.None? {
      assert FirstToFail(checks, 1);
      return Bad("malformed");
    }
    var sig := TokenSegment(parts[2]);
    if sig.None? {
      assert FirstToFail(checks, 1);
      return Bad("malformed");
    }
    var hdr := env.parseHeader(headerJSON.value);
    if hdr.None? {
      assert FirstToFail(checks, 2);
      return Bad("malformed");
    }
    if hdr.value.alg != Some("RS256") {
      assert FirstToFail(checks, 3);
      return Bad("unsupported_alg");
    }
    if hdr.value.crit {
      assert FirstToFail(checks, 4);
      return Bad("unsupported_header");
    }
    if !IsTokenType(hdr.value.typ) {
      assert FirstToFail(checks, 5);
      return Bad("unsupported_header");
    }
    if hdr.value.kid == "" {
      assert FirstToFail(checks, 6);
      return Bad("missing_kid");
    }
    return Parts(hdr.value, payloadJSON.value, sig.value, parts[0] + "." + parts[1]);
  }

  lemma ThreeParts(token: string)
    requires LooksLikeJWT(token)
    ensures |Split(token)| == 3
  {
  }

  /** Key, signature and claims, once there is a key set. */
  method CheckKeyed(env: Env, found: KeySet.Lookup, d: Defaults, o: Options, token: string, p: Parts, now: Time)
      returns (v: Verdict)
    requires !found.NoSet? && p.Parts? && Segments(token).Some? && HeaderOf(env, token) == Some(p.header)
    requires p.payload == Segments(token).value.1 && p.sig == Segments(token).value.2
    requires p.text == Split(token)[0] + "." + Split(token)[1]
    requires Blames(HeaderChecks(env, token), None)
    ensures !v.Unavailable?
    ensures Blames(Checks(env, found, d, o, token, now), if v.Invalid? then Some(v.reason) else None)
    ensures v.Accepted? ==> v.kid == KidOf(env, token) && Some(v.claims) == ClaimsOf(env, token)
  {
    hide Blames, HeaderChecks, TimeChecks, PartyChecks, Segments, Split;
    ghost var keyChecks := KeyChecks(env, found, token);
    ghost var before := HeaderChecks(env, token);
    if found.NoKey? {
      v := Invalid("unknown_kid");
      BlamesAt(keyChecks, 0);
    } else {
      var key := env.rsaKey(found.key);
      if key.None? {
        v := Invalid("unsupported_key");
        BlamesAt(keyChecks, 1);
      } else if !env.signed(key.value, p.text, p.sig) {
        v := Invalid("bad_signature");
        BlamesAt(keyChecks, 2);
      } else {
        var parsed := env.parseClaims(p.payload);
        if parsed.None? {
          v := Invalid("malformed");
          BlamesAt(keyChecks, 3);
        } else {
          var c := parsed.value;
          BlamesNone(keyChecks);
          BlamesNext(before, keyChecks, None);
          var why := CheckTimes(o, c, now);
          BlamesNext(TimeChecks(o, c, now), PartyChecks(d, o, c), why);
          if why.None? {
            why := CheckParties(d, o, c);
            BlamesNext(TimeChecks(o, c, now), PartyChecks(d, o, c), why);
          }
          BlamesNext(before + keyChecks, TimeChecks(o, c, now) + PartyChecks(d, o, c), why);
          return if why.None? then Accepted(p.header.kid, c) else Invalid(why.value);
        }
      }
    }
    BlamesNext(before, keyChecks, Some(v.reason));
    BlamesNext(before + keyChecks, Checks(env, found, d, o, token, now)[|before + keyChecks|..], Some(v.reason));
  }

  lemma BlamesAt(checks: seq<Check>, i: nat)
    requires i < |checks| && FirstToFail(checks, i)
    ensures Blames(checks, Some(checks[i].otherwise))
  {
  }

  lemma BlamesNone(checks: seq<Check>)
    requires forall i :: 0 <= i < |checks| ==> checks[i].holds
    ensures Blames(checks, None)
  {
  }

  /** The key look-up of a verification that gets that far, while others may call in
      between its two calls. */
  ghost function FoundFor(env: Env, e: KeySet.Entry, again: Option<KeySet.Entry>, visit: KeySet.Visit, between: seq<KeySet.Op>,
                          token: string): KeySet.Lookup
  {
    KeySet.LookUp(e, KeySet.Met(e, again, visit, between), visit, KidOf(env, token))
  }

  /** VerifyAccessTokenLocal, on the key-set entry its look-ups find. The token is refused
      for the first check that fails, and cannot be judged exactly when its header is in
      order and there is no key set. A bad header costs no look-up. */
  method Verify(env: Env, d: Defaults, o: Options, entry: KeySet.EntryObject, again: KeySet.EntryObject, visit: KeySet.Visit,
                between: seq<KeySet.Op>, token: string, now: Time) returns (v: Verdict)
    requires visit.Valid()
    modifies entry, again
    ensures
      var found := FoundFor(env, old(entry.View()), if again == entry then None else Some(old(again.View())), visit, between, token);
      && (v.Unavailable? <==> Blames(HeaderChecks(env, token), None) && found.NoSet?)
      && (!v.Unavailable? ==> Blames(Checks(env, found, d, o, token, now), if v.Invalid? then Some(v.reason) else None))
      && (v.Accepted? ==> v.kid == KidOf(env, token) && Some(v.claims) == ClaimsOf(env, token))
    ensures !Blames(HeaderChecks(env, token), None) ==> entry.View() == old(entry.View()) && again.View() == old(again.View())
  {
    hide Blames, HeaderChecks, KeyChecks, TimeChecks, PartyChecks, Segments, Split, KeySet.LookUp, KeySet.Next, KeySet.Met;
    var p := CheckHeader(env, token);
    if p.Bad? {
      BlameIsNotPraise(HeaderChecks(env, token), p.reason);
      ghost var found := FoundFor(env, entry.View(), if again == entry then None else Some(again.View()), visit, between, token);
      ghost var all := Checks(env, found, d, o, token, now);
      BlamesNext(HeaderChecks(env, token), all[|HeaderChecks(env, token)|..], Some(p.reason));
      assert HeaderChecks(env, token) + all[|HeaderChecks(env, token)|..] == all;
      return Invalid(p.reason);
    }
    var found, _ := KeySet.FindForToken(entry, again, visit, between, p.header.kid);
    if found.NoSet? {
      return Unavailable;
    }
    v := CheckKeyed(env, found, d, o, token, p, now);
  }

  /** Everything but time: the header is in order, the key found signed the token, and its
      claims are acceptable. */
  ghost predicate Trusts(env: Env, found: KeySet.Lookup, d: Defaults, o: Options, token: string) {
    && HeaderOk(env, token)
    && found.Found? && IsSigned(env, found.key, token)
    && ClaimsOf(env, token).Some? && ClaimsOk(d, o, ClaimsOf(env, token).value)
  }

  /** All checks hold exactly when the token is trusted and the time is in its window. */
  lemma AcceptedIff(env: Env, found: KeySet.Lookup, d: Defaults, o: Options, token: string, now: Time)
    ensures Blames(Checks(env, found, d, o, token, now), None)
            <==> Trusts(env, found, d, o, token) && InWindow(o, ClaimsOf(env, token).value, now)
  {
    hide Segments, Split;
    var a, b := HeaderChecks(env, token), KeyChecks(env, found, token);
    assert Blames(b, None) <==> found.Found? && IsSigned(env, found.key, token) && ClaimsOf(env, token).Some? by {
      assert Blames(b, None) <==> b[0].holds && b[1].holds && b[2].holds && b[3].holds;
    }
    PraiseJoin(a, b);
    HeaderHoldsIff(env, token);
    if ClaimsOf(env, token).Some? {
      var c := ClaimsOf(env, token).value;
      PraiseJoin(a + b, TimeChecks(o, c, now) + PartyChecks(d, o, c));
      AllHoldIff(d, o, c, now);
    } else {
      assert a + b + [] == a + b;
    }
  }

  lemma PraiseJoin(a: seq<Check>, b: seq<Check>)
    ensures Blames(a + b, None) <==> Blames(a, None) && Blames(b, None)
  {
    assert forall i :: 0 <= i < |a| ==> a[i] == (a + b)[i];
    assert forall i :: 0 <= i < |b| ==> b[i] == (a + b)[|a| + i];
  }

  predicate IsAboutClaims(reason: string) {
    reason in ["expired", "not_yet_valid", "issuer", "audience", "token_type", "missing_claim"]
  }

  /** Nothing is said about the claims of a token that is not signed by the key found. */
  lemma SignatureComesFirst(env: Env, found: KeySet.Lookup, d: Defaults, o: Options, token: string, now: Time, reason: string)
    requires Blames(Checks(env, found, d, o, token, now), Some(reason)) && IsAboutClaims(reason)
    ensures HeaderOk(env, token) && found.Found? && IsSigned(env, found.key, token)
  {
    hide Segments, Split, HeaderOk, IsSigned, TimeChecks, PartyChecks, IsAboutClaims;
    var a, b := HeaderChecks(env, token), KeyChecks(env, found, token);
    var all := Checks(env, found, d, o, token, now);
    var i :| 0 <= i < |all| && FirstToFail(all, i) && all[i].otherwise == reason;
    EarlyReasons(env, found, token);
    assert forall j :: 0 <= j < |a + b| ==> all[j] == (a + b)[j];
    assert i >= |a + b|;
    assert Blames(a + b, None) by {
      forall j | 0 <= j < |a + b| ensures (a + b)[j].holds { assert all[j].holds; }
    }
    PraiseJoin(a, b);
    HeaderHoldsIff(env, token);
    assert b[0].holds && b[2].holds;
  }

  lemma EarlyReasons(env: Env, found: KeySet.Lookup, token: string)
    ensures
      var early := HeaderChecks(env, token) + KeyChecks(env, found, token);
      forall i :: 0 <= i < |early| ==> !IsAboutClaims(early[i].otherwise)
  {
    hide Segments, Split, IsSigned, IsTokenType;
    var a, b := HeaderChecks(env, token), KeyChecks(env, found, token);
    assert forall i :: 0 <= i < |a + b| ==> (a + b)[i] == if i < |a| then a[i] else b[i - |a|];
    LateReasons();
  }

  lemma LateReasons()
    ensures
      var early := ["too_large", "malformed", "unsupported_alg", "unsupported_header", "missing_kid", "unknown_kid",
                    "unsupported_key", "bad_signature"];
      forall r :: r in early ==> !IsAboutClaims(r)
  {
    assert |"too_large"| == 9 && |"malformed"| == 9 && |"unsupported_alg"| == 15 && |"unsupported_header"| == 18;
    assert |"missing_kid"| == 11 && |"unknown_kid"| == 11 && |"unsupported_key"| == 15 && |"bad_signature"| == 13;
    assert |"expired"| == 7 && |"not_yet_valid"| == 13 && |"issuer"| == 6 && |"audience"| == 8;
    assert |"token_type"| == 10 && |"missing_claim"| == 13;
    assert "bad_signature"[0] == 'b' && "not_yet_valid"[0] == 'n' && "missing_claim"[0] == 'm';
  }

  /** Whatever the options, nobody accepts a token a minute or more past its exp. */
  lemma NeverAMinutePastExp(env: Env, found: KeySet.Lookup, d: Defaults, o: Options, token: string, now: Time)
    requires Blames(Checks(env, found, d, o, token, now), None)
    ensures
      && ClaimsOf(env, token).Some? && ClaimsOf(env, token).value.exp.At?
      && var exp := ClaimsOf(env, token).value.exp.time;
         now < exp + 60 * SECOND && (o.leeway < 0 ==> now < exp)
  {
    hide Blames, Segments, Checks;
    AcceptedIff(env, found, d, o, token, now);
  }

  /** Between two times at which a token is accepted, and with whatever the key set
      answers then, it is accepted exactly when the key that set has for it signed it:
      time and claims never interrupt acceptance, a changing key set can. Once the time
      has run out it never comes back, whatever the key set does. */
  lemma OnlyKeysInterrupt(env: Env, d: Defaults, o: Options, token: string, first: Time, middle: Time, last: Time,
                          k1: KeySet.Lookup, k2: KeySet.Lookup, k3: KeySet.Lookup)
    requires first <= middle <= last && Blames(Checks(env, k1, d, o, token, first), None)
    ensures ClaimsOf(env, token).Some? && ClaimsOf(env, token).value.exp.At?
    ensures Blames(Checks(env, k3, d, o, token, last), None) ==>
              (Blames(Checks(env, k2, d, o, token, middle), None) <==> k2.Found? && IsSigned(env, k2.key, token))
    ensures !InWindow(o, ClaimsOf(env, token).value, middle) ==> !Blames(Checks(env, k3, d, o, token, last), None)
  {
    hide Blames, Segments, Checks, HeaderChecks, IsSigned;
    AcceptedIff(env, k1, d, o, token, first);
    AcceptedIff(env, k2, d, o, token, middle);
    AcceptedIff(env, k3, d, o, token, last);
  }

  /** Two different strings are never both accepted for one signed message: same header
      bytes, same payload bytes and same signature bytes mean the same token. */
  lemma AcceptedSpellingIsUnique(env: Env, d: Defaults, o: Options, a: string, b: string, now: Time, later: Time,
                                 ka: KeySet.Lookup, kb: KeySet.Lookup)
    requires Blames(Checks(env, ka, d, o, a, now), None) && Blames(Checks(env, kb, d, o, b, later), None) && a != b
    ensures Segments(a) != Segments(b)
  {
    hide Checks, Segments;
    AcceptedIff(env, ka, d, o, a, now);
    if Segments(a) == Segments(b) {
      OneSpellingPerToken(a, b);
    }
  }

  /** `token` cut at its last dot. */
  predicate IsCut(token: string, text: string, sig: string) {
    token == text + "." + sig && '.' !in sig
  }

  lemma LastDot(token: string, text: string, sig: string, text': string, sig': string)
    requires IsCut(token, text, sig) && IsCut(token, text', sig')
    ensures |text| <= |text'|
  {
    forall i | |text'| < i < |token|
      ensures token[i] != '.'
    {
      assert token[i] == sig'[i - |text'| - 1];
    }
    assert token[|text|] == '.';
  }

  lemma CutIsUnique(token: string, text: string, sig: string, text': string, sig': string)
    requires IsCut(token, text, sig) && IsCut(token, text', sig')
    ensures text == text' && sig == sig'
  {
    LastDot(token, text, sig, text', sig');
    LastDot(token, text', sig', text, sig);
    assert text == token[..|text|] && sig == token[|text| + 1..];
    assert text' == token[..|text'|] && sig' == token[|text'| + 1..];
  }

  lemma {:induction false} NoDotsInParts(s: string, i: nat)
    requires i < |Split(s)|
    ensures '.' !in Split(s)[i]
  {
    if s != "" {
      var rest := Split(s[1..]);
      if s[0] == '.' {
        if i > 0 { NoDotsInParts(s[1..], i - 1); }
      } else {
        NoDotsInParts(s[1..], i);
        assert i > 0 ==> Split(s)[i] == rest[i];
      }
    }
  }

  /** The signature is over everything before the last dot, exactly as it is spelled. */
  lemma SignatureCovers(env: Env, key: KeySet.JWK, token: string)
    requires Segments(token).Some? && env.rsaKey(key).Some?
    ensures IsSigned(env, key, token) <==>
              exists text, sig :: IsCut(token, text, sig) && Decode(true, sig).Some?
                                  && env.signed(env.rsaKey(key).value, text, Decode(true, sig).value)
  {
    var p := Split(token);
    JoinedSplit(token);
    JoinedCons(p[0], p[1..]);
    assert p == [p[0]] + p[1..] && p[1..] == [p[1], p[2]];
    assert Joined([p[1], p[2]]) == p[1] + "." + p[2] by { assert [p[1], p[2]][1..] == [p[2]]; }
    NoDotsInParts(token, 2);
    assert IsCut(token, p[0] + "." + p[1], p[2]);
    forall text, sig | IsCut(token, text, sig)
      ensures text == p[0] + "." + p[1] && sig == p[2]
    {
      CutIsUnique(token, text, sig, p[0] + "." + p[1], p[2]);
    }
  }

  // ---- the key's public exponent ----

  function Pow256(n: nat): nat {
    if n == 0 then 1 else 256 * Pow256(n - 1)
  }

  /** The number some bytes spell, most significant first. */
  function BigEndian(b: seq<Byte>): nat {
    if b == [] then 0 else b[0] * Pow256(|b| - 1) + BigEndian(b[1..])
  }

  lemma DigitFits(d: Byte, p: nat)
    ensures d * p <= 255 * p
  {
  }

  lemma {:induction false} BigEndianFits(b: seq<Byte>)
    ensures BigEndian(b) < Pow256(|b|)
  {
    if b != [] {
      BigEndianFits(b[1..]);
      DigitFits(b[0], Pow256(|b| - 1));
    }
  }

  /** rsaPublicKey's fold: the bytes' value, when it is an odd number of at least 3 and at
      most four bytes, so that the machine integer never overflows. */
  method Exponent(eb: seq<Byte>) returns (e: Option<nat>)
    ensures e.Some? <==> 1 <= |eb| <= 4 && BigEndian(eb) >= 3 && BigEndian(eb) % 2 == 1
    ensures e.Some? ==> e.value == BigEndian(eb) < 0x1_0000_0000
  {
    if |eb| == 0 || |eb| > 4 {
      return None;
    }
    var sum := 0;
    for i := 0 to |eb|
      invariant sum * Pow256(|eb| - i) + BigEndian(eb[i..]) == BigEndian(eb)
    {
      assert eb[i..][1..] == eb[i + 1..];
      Horner(sum, eb[i], Pow256(|eb| - i - 1));
      sum := sum * 256 + eb[i];
    }
    BigEndianFits(eb);
    assert Pow256(|eb|) <= Pow256(4) == 0x1_0000_0000;
    e := if sum < 3 || sum % 2 == 0 then None else Some(sum);
  }

  lemma Horner(sum: int, b: int, p: int)
    ensures sum * (256 * p) + b * p == (sum * 256 + b) * p
  {
  }
}
