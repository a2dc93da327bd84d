/** The three places that call the validation cache, with what each passes to it. */
module CallSites {
  import opened CacheKeys
  import opened ValidationPolicy

  datatype Audiences = Audiences(general: string, jwt: string)

  /** jwtAudience */
  function JwtAudience(a: Audiences): string {
    if a.jwt != "" then a.jwt else a.general
  }

  datatype Resource = Resource(kind: string, id: string)

  datatype Request =
    | ValidateTokenWith(token: string, audience: string, perms: seq<string>, includePerms: bool)
    | ValidateKey(apiKey: string, audience: string, perms: seq<string>)
    | CheckOnResource(cred: string, credAudience: string, action: string, resource: Resource, subject: Actor)

  /** The arguments of get and getWith: the key, the class, the cap, and whether a
      classifier for definite negatives comes with it. */
  datatype CacheCall = CacheCall(key: string, ttlClass: CacheClass, notAfter: Time, classifies401: bool)

  /** An empty audience in a request means the configured one. */
  function OrElse(audience: string, configured: string): string {
    if audience == "" then configured else audience
  }

  /** What each site computes, argument by argument. */
  function Passed(c: Config, a: Audiences, r: Request): CacheCall {
    match r
    case ValidateTokenWith(token, audience, perms, includePerms) =>
      CacheCall(
        ValidationKey(c.h, Question(ValidateToken, token, OrElse(audience, JwtAudience(a)), perms, includePerms)),
        if |perms| > 0 then DecisionClass else TokenClass,
        c.jwtExpiry(token),
        true)
    case ValidateKey(apiKey, audience, perms) =>
      CacheCall(
        ValidationKey(c.h, Question(ValidateAPIKey, apiKey, OrElse(audience, a.general), perms, false)),
        if |perms| > 0 then DecisionClass else APIKeyClass,
        ZERO_TIME,
        false)
    case CheckOnResource(cred, credAudience, action, resource, subject) =>
      CacheCall(
        ValidationKey(c.h, Question(AuthorizeResource, cred, credAudience,
                                    [action, resource.kind, resource.id, subject.userID, subject.orgID], false)),
        DecisionClass,
        c.jwtExpiry(cred),
        false)
  }

  /** The question a request puts to the service. */
  function QuestionOf(a: Audiences, r: Request): Question {
    match r
    case ValidateTokenWith(token, audience, perms, includePerms) =>
      Question(ValidateToken, token, OrElse(audience, JwtAudience(a)), perms, includePerms)
    case ValidateKey(apiKey, audience, perms) =>
      Question(ValidateAPIKey, apiKey, OrElse(audience, a.general), perms, false)
    case CheckOnResource(cred, credAudience, action, resource, subject) =>
      Question(AuthorizeResource, cred, credAudience,
               [action, resource.kind, resource.id, subject.userID, subject.orgID], false)
  }

  /** What a site passes is what the question alone determines, so the cache may be
      modelled by questions; and the question is the request's, field by field, with an
      empty audience filled in. */
  lemma QuestionFixesCall(c: Config, a: Audiences, r: Request)
    ensures
      var q := QuestionOf(a, r);
      Passed(c, a, r) == CacheCall(ValidationKey(c.h, q), ClassOf(q), NotAfter(c, q), q.kind.ValidateToken?)
    ensures
      var q := QuestionOf(a, r);
      match r
      case ValidateTokenWith(token, audience, perms, includePerms) =>
        && q.kind == ValidateToken && q.cred == token && q.perms == perms && q.includePerms == includePerms
        && q.audience == (if audience != "" then audience else if a.jwt != "" then a.jwt else a.general)
        && Passed(c, a, r).notAfter == c.jwtExpiry(token)
      case ValidateKey(apiKey, audience, perms) =>
        && q.kind == ValidateAPIKey && q.cred == apiKey && q.perms == perms
        && q.audience == (if audience != "" then audience else a.general)
        && Passed(c, a, r).notAfter == ZERO_TIME
      case CheckOnResource(cred, _, action, resource, subject) =>
        && q.kind == AuthorizeResource && q.cred == cred
        && q.perms == [action, resource.kind, resource.id, subject.userID, subject.orgID]
        && Passed(c, a, r).notAfter == c.jwtExpiry(cred)
  {
  }

  /** Calls from any two sites that share an entry pass the same class, the same cap and
      the same classifier, unless SHA-256 collides on what their keys hash. */
  lemma SharedEntrySharesPolicy(c: Config, a: Audiences, r: Request, r': Request)
    requires HexDigest(c.h) && Passed(c, a, r).key == Passed(c, a, r').key
    requires !Confusable(c.h, QuestionOf(a, r), QuestionOf(a, r'))
    ensures Passed(c, a, r) == Passed(c, a, r')
    ensures r.ValidateTokenWith? <==> r'.ValidateTokenWith?
    ensures r.ValidateKey? <==> r'.ValidateKey?
  {
    QuestionFixesCall(c, a, r);
    QuestionFixesCall(c, a, r');
    ValidationKeyInjective(c.h, QuestionOf(a, r), QuestionOf(a, r'));
  }

  /** The kind in the key is what keeps the sites apart: the same credential, audience and
      strings from two sites are two keys. */
  lemma SitesAreApart(c: Config, a: Audiences, r: Request, r': Request)
    requires HexDigest(c.h) && QuestionOf(a, r).kind != QuestionOf(a, r').kind
    requires !Confusable(c.h, QuestionOf(a, r), QuestionOf(a, r'))
    ensures Passed(c, a, r).key != Passed(c, a, r').key
  {
    QuestionFixesCall(c, a, r);
    QuestionFixesCall(c, a, r');
    ValidationKeyInjective(c.h, QuestionOf(a, r), QuestionOf(a, r'));
  }
}
