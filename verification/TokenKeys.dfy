/** What TokenFor asks for, and which calls share a cache entry. */
module TokenKeys {
  import opened CacheKeys
  import opened ValidationPolicy
  import Scope

  /** `session` as TokenFor finds it: nil, failing, or yielding the person's token. */
  datatype Session = NoSession | BrokenSession | Person(token: string)

  datatype Client = Client(h: Hash, id: string, secret: string, legacy: bool, legacyAudience: string, jwtExpiry: string -> Time)

  /** The four kinds of token the cache holds. ActorToken is the bridge's own token,
      asked for only from inside an Exchange. */
  datatype Request =
    | AsItself(resource: string, scope: string)
    | ForPerson(resource: string, scope: string, subject: string)
    | Exchange(resource: string, scope: string, audience: string, subject: string)
    | ActorToken

  function SubjectPreimage(subject: string): string {
    "ab0t-auth-sdk/subject\0" + subject
  }

  function KeyParts(c: Client, r: Request): seq<string> {
    match r
    case AsItself(res, scope) => ["p2", c.id, res, scope, "", ""]
    case ForPerson(res, scope, subject) => ["p3", c.id, res, scope, "", c.h(SubjectPreimage(subject))]
    case Exchange(res, scope, aud, subject) => ["p3-legacy", c.id, res, scope, aud, c.h(SubjectPreimage(subject))]
    case ActorToken => ["actor", c.id, "", "", "", ""]
  }

  function Key(c: Client, r: Request): string {
    TokenCacheKey(c.h, KeyParts(c, r))
  }

  /** The person's own expiry, when it can be read, bounds the derived token. */
  function CapAt(c: Client, r: Request): Time {
    if r.ForPerson? || r.Exchange? then c.jwtExpiry(r.subject) else ZERO_TIME
  }

  datatype Refusal = NeedsClientCredentials | SessionFailed | Reauthenticate | NeedsAudience | NeedsResource

  datatype Plan = Refused(why: Refusal) | Ask(request: Request)

  /** TokenFor up to the cache. */
  function TokenFor(c: Client, resource: string, scope: string, session: Session): Plan {
    if c.id == "" || c.secret == "" then Refused(NeedsClientCredentials)
    else
      var scope := Scope.Normalize(scope);
      match session
      case NoSession => Ask(AsItself(resource, scope))
      case BrokenSession => Refused(SessionFailed)
      case Person(subject) =>
        if subject == "" then Refused(Reauthenticate)
        else if c.legacy then
          var audience := if c.legacyAudience == "" then resource else c.legacyAudience;
          if audience == "" then Refused(NeedsAudience) else Ask(Exchange(resource, scope, audience, subject))
        else if resource == "" then Refused(NeedsResource)
        else Ask(ForPerson(resource, scope, subject))
  }

  ghost predicate KeysCollide(c: Client, a: Request, b: Request) {
    || Collide(c.h, EncodeFields(KeyParts(c, a)), EncodeFields(KeyParts(c, b)))
    || ((a.ForPerson? || a.Exchange?) && (b.ForPerson? || b.Exchange?)
        && Collide(c.h, SubjectPreimage(a.subject), SubjectPreimage(b.subject)))
  }

  /** Equal keys come from equal requests, so no token ever crosses persons or patterns. */
  lemma KeyDeterminesRequest(c: Client, a: Request, b: Request)
    requires Key(c, a) == Key(c, b) && !KeysCollide(c, a, b)
    ensures a == b
  {
    TokenCacheKeyInjective(c.h, KeyParts(c, a), KeyParts(c, b));
    var p, q := KeyParts(c, a), KeyParts(c, b);
    assert p[0] == q[0] && p[2] == q[2] && p[3] == q[3] && p[4] == q[4] && p[5] == q[5];
    assert |"p2"| == 2 && |"p3"| == 2 && |"p3-legacy"| == 9 && |"actor"| == 5 && "p2"[1] != "p3"[1];
    if (a.ForPerson? && b.ForPerson?) || (a.Exchange? && b.Exchange?) {
      assert SubjectPreimage(a.subject)[22..] == a.subject && SubjectPreimage(b.subject)[22..] == b.subject;
    }
  }

  /** When TokenFor goes to the cache at all: with client credentials, and, for a person,
      with a session that yields a token and something to aim the new one at. */
  lemma AsksExactlyWhen(c: Client, resource: string, scope: string, session: Session)
    ensures TokenFor(c, resource, scope, session).Ask? <==>
              && c.id != "" && c.secret != ""
              && (session == NoSession
                  || (session.Person? && session.token != ""
                      && (resource != "" || (c.legacy && c.legacyAudience != ""))))
  {
  }

  /** Otherwise, which refusal: the checks in order, so that without client credentials
      the session is not even looked at. */
  lemma RefusedBecause(c: Client, resource: string, scope: string, session: Session)
    ensures
      var plan := TokenFor(c, resource, scope, session);
      && (plan == Refused(NeedsClientCredentials) <==> c.id == "" || c.secret == "")
      && (plan == Refused(SessionFailed) <==> c.id != "" && c.secret != "" && session == BrokenSession)
      && (plan == Refused(Reauthenticate) <==> c.id != "" && c.secret != "" && session == Person(""))
      && (plan == Refused(NeedsAudience) <==>
            c.id != "" && c.secret != "" && session.Person? && session.token != ""
            && c.legacy && c.legacyAudience == "" && resource == "")
      && (plan == Refused(NeedsResource) <==>
            c.id != "" && c.secret != "" && session.Person? && session.token != "" && !c.legacy && resource == "")
  {
  }

  /** What a request that was let through says of the call it came from. */
  lemma AsksFor(c: Client, resource: string, scope: string, session: Session)
    requires TokenFor(c, resource, scope, session).Ask?
    ensures
      var r := TokenFor(c, resource, scope, session).request;
      && !r.ActorToken? && r.resource == resource && r.scope == Scope.Normalize(scope)
      && (r.AsItself? <==> session.NoSession?)
      && (session.Person? ==> r == if c.legacy then
            Exchange(resource, r.scope, if c.legacyAudience == "" then resource else c.legacyAudience, session.token)
            else ForPerson(resource, r.scope, session.token))
      && !session.BrokenSession?
  {
  }

  lemma SameRequestIff(c: Client, res1: string, scope1: string, s1: Session, res2: string, scope2: string, s2: Session)
    requires TokenFor(c, res1, scope1, s1).Ask? && TokenFor(c, res2, scope2, s2).Ask?
    ensures
      TokenFor(c, res1, scope1, s1).request == TokenFor(c, res2, scope2, s2).request
      <==>
      s1 == s2 && res1 == res2 && Scope.Normalize(scope1) == Scope.Normalize(scope2)
  {
    hide TokenFor, Scope.Normalize;
    AsksFor(c, res1, scope1, s1);
    AsksFor(c, res2, scope2, s2);
  }

  /** Two calls on one client share an entry exactly when they act for the same person
      (or both for nobody), on the same resource, with the same set of scopes. */
  lemma SharedEntryIff(c: Client, res1: string, scope1: string, s1: Session, res2: string, scope2: string, s2: Session)
    requires TokenFor(c, res1, scope1, s1).Ask? && TokenFor(c, res2, scope2, s2).Ask?
    requires !KeysCollide(c, TokenFor(c, res1, scope1, s1).request, TokenFor(c, res2, scope2, s2).request)
    ensures
      Key(c, TokenFor(c, res1, scope1, s1).request) == Key(c, TokenFor(c, res2, scope2, s2).request)
      <==>
      s1 == s2 && res1 == res2 && forall w :: w in Scope.Fields(scope1) <==> w in Scope.Fields(scope2)
  {
    hide TokenFor, KeysCollide, Key;
    var a, b := TokenFor(c, res1, scope1, s1).request, TokenFor(c, res2, scope2, s2).request;
    Scope.NormalizeIsCanonical(scope1, scope2);
    SameRequestIff(c, res1, scope1, s1, res2, scope2, s2);
    if Key(c, a) == Key(c, b) {
      KeyDeterminesRequest(c, a, b);
    }
  }
}
