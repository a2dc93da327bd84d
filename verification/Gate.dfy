/** The route gate over the cached client: which questions a request asks, what the gate
    makes of the answers, and what it means, end to end, that a handler ran. */
module Gate {
  import opened CacheKeys
  import opened CallSites
  import opened ValidationPolicy
  import opened ValidationMachine
  import opened ValidationInvariants
  import opened ValidationTheorems

  // ---- the client's questions ----

  predicate IsAPIKey(cred: string) {
    "ab0t_sk_" <= cred
  }

  predicate IsZero(r: Resource) {
    r.kind == "" && r.id == ""
  }

  /** Is this credential valid, holding these permissions? */
  function CredentialRequest(a: Audiences, cred: string, perms: seq<string>, includePerms: bool): Request {
    if IsAPIKey(cred) then ValidateKey(cred, a.general, perms)
    else ValidateTokenWith(cred, JwtAudience(a), perms, includePerms)
  }

  function CredentialQuestion(a: Audiences, cred: string, perms: seq<string>, includePerms: bool): Question {
    QuestionOf(a, CredentialRequest(a, cred, perms, includePerms))
  }

  /** May this subject do this to this resource? */
  function ResourceQuestion(a: Audiences, cred: string, action: string, r: Resource, subject: Actor): Question {
    QuestionOf(a, CheckOnResource(cred, if IsAPIKey(cred) then a.general else JwtAudience(a), action, r, subject))
  }

  datatype Verdict = Allowed | Denied | Undecided(err: Failure)

  function Reading(ans: Answer): Verdict {
    match ans
    case Said(actor) => if actor.valid then Allowed else Denied
    case Failed(err) => Undecided(err)
    case Nothing => Denied
  }

  /** Authorize, given what its one or two questions were answered. */
  function Authorize(r: Resource, first: Answer, second: Answer): Verdict {
    if IsZero(r) || Reading(first) != Allowed then Reading(first) else Reading(second)
  }

  // ---- the gate ----

  datatype Outcome = Ran | RanAs(actor: Actor) | Refused(status: int)

  function Require(hasAuthorizer: bool, failOpen: bool, cred: string, v: Verdict): Outcome {
    if cred == "" then Refused(401)
    else if !hasAuthorizer then if failOpen then Ran else Refused(503)
    else
      match v
      case Allowed => Ran
      case Denied => Refused(403)
      case Undecided(err) =>
        if IsUnauthorized(err) then Refused(401)
        else if IsForbidden(err) then Refused(403)
        else if failOpen then Ran
        else Refused(503)
  }

  predicate DefiniteNo(err: Failure) {
    IsUnauthorized(err) || IsForbidden(err)
  }

  /** The service's own refusal, in whichever form it comes. */
  predicate SaysNo(ans: Answer) {
    match ans
    case Said(actor) => !actor.valid
    case Failed(err) => StatusCode(err) in {401, 403}
    case Nothing => true
  }

  /** identify: Authenticate when `required` is off, RequireIdentity when it is on. */
  function Identify(hasValidator: bool, failOpen: bool, required: bool, cred: string, ans: Answer): Outcome {
    if cred == "" then if required then Refused(401) else Ran
    else if !hasValidator then if !required || failOpen then Ran else Refused(503)
    else
      match ans
      case Failed(err) =>
        if DefiniteNo(err) then Refused(401) else if failOpen then Ran else Refused(503)
      case Nothing => Refused(401)
      case Said(actor) => if actor.valid then RanAs(actor) else Refused(401)
  }

  // ---- end to end ----

  /** The service said yes to `q`, less than `span` before the clock read `reading`. */
  ghost predicate SaidYesWithin(log: seq<Event>, q: Question, reading: Time, span: int) {
    exists k :: 0 <= k < |log| && YesAt(log, k, q, reading, span)
  }

  ghost predicate YesAt(log: seq<Event>, k: int, q: Question, reading: Time, span: int)
    requires 0 <= k < |log|
  {
    log[k].Answered? && log[k].q == q && SaysValid(log[k].answer) && reading < log[k].at + span
  }

  /** Call `i` of the history asked `q` and was answered `ans`. */
  ghost predicate WasAnswered(log: seq<Event>, i: nat, q: Question, ans: Answer) {
    i < |log| && log[i].Returned? && log[i].q == q && log[i].answer == ans
  }

  /** From the cache or not, a yes is backed by the service's own yes within the life
      its class allows. */
  lemma YesIsRecent(c: Config, s0: State, steps: seq<Step>, i: nat, q: Question, ans: Answer)
    requires c.Valid() && Init(s0) && IsRun(c, s0, steps)
    requires WasAnswered(Final(c, s0, steps).log, i, q, ans) && SaysValid(ans)
    requires NoCollision(c, Final(c, s0, steps).log, q)
    ensures SaidYesWithin(Final(c, s0, steps).log, q, Final(c, s0, steps).log[i].reading, TTLOf(c, q).pos)
  {
    var log := Final(c, s0, steps).log;
    AnswersTheQuestionAsked(c, s0, steps, i);
    if log[i].hit {
      HitsAreJustified(c, s0, steps, i);
    } else {
      InvInit(c, s0);
      InvRun(c, s0, steps);
      assert EventOk(c, log, i);
      ClassIsDocumented(c, q);
    }
    assert YesAt(log, log[i].source, q, log[i].reading, TTLOf(c, q).pos);
  }

  /** With the default cache and FailOpen off, a handler gated on an action ran only if
      the service said, less than 15 s before, that this credential holds it: asked at the
      endpoint for its kind, for the configured audience, with that action as the one
      permission required. */
  lemma HandlerRanMeansRecentYes(c: Config, s0: State, steps: seq<Step>, a: Audiences, hasAuthorizer: bool,
                                 cred: string, action: string, i: nat, ans: Answer)
    requires c == DefaultConfig(c.h, c.jwtExpiry, c.parseExpiry) && HexDigest(c.h)
    requires Init(s0) && c.Valid() && IsRun(c, s0, steps)
    requires
      var log := Final(c, s0, steps).log;
      var q := CredentialQuestion(a, cred, [action], false);
      WasAnswered(log, i, q, ans) && NoCollision(c, log, q)
    requires Require(hasAuthorizer, false, cred, Authorize(Resource("", ""), ans, Nothing)) == Ran
    ensures
      var log := Final(c, s0, steps).log;
      var asked := if "ab0t_sk_" <= cred then Question(ValidateAPIKey, cred, a.general, [action], false)
                   else Question(ValidateToken, cred, if a.jwt != "" then a.jwt else a.general, [action], false);
      SaidYesWithin(log, asked, log[i].reading, 15 * SECOND)
  {
    YesIsRecent(c, s0, steps, i, CredentialQuestion(a, cred, [action], false), ans);
  }

  /** The same on a resource: the service said who the credential is (within 15 s for a
      token, 60 s for an API key) and, less than 15 s before, that this very user, in this
      very organisation, may do this to this resource. */
  lemma HandlerRanOnResource(c: Config, s0: State, steps: seq<Step>, a: Audiences, hasAuthorizer: bool,
                             cred: string, action: string, r: Resource, i: nat, first: Answer, j: nat, second: Answer)
    requires c == DefaultConfig(c.h, c.jwtExpiry, c.parseExpiry) && HexDigest(c.h)
    requires Init(s0) && c.Valid() && IsRun(c, s0, steps) && (r.kind != "" || r.id != "")
    requires
      var log := Final(c, s0, steps).log;
      var who := CredentialQuestion(a, cred, [], false);
      WasAnswered(log, i, who, first) && NoCollision(c, log, who)
    requires first.Said? && first.actor.valid ==>
               var log := Final(c, s0, steps).log;
               var may := ResourceQuestion(a, cred, action, r, first.actor);
               WasAnswered(log, j, may, second) && NoCollision(c, log, may)
    requires Require(hasAuthorizer, false, cred, Authorize(r, first, second)) == Ran
    ensures
      var log := Final(c, s0, steps).log;
      var isKey := "ab0t_sk_" <= cred;
      var audience := if isKey || a.jwt == "" then a.general else a.jwt;
      && first.Said?
      && SaidYesWithin(log, Question(if isKey then ValidateAPIKey else ValidateToken, cred, audience, [], false),
                       log[i].reading, (if isKey then 60 else 15) * SECOND)
      && j < |log| && log[j].Returned?
      && SaidYesWithin(log, Question(AuthorizeResource, cred, audience,
                                     [action, r.kind, r.id, first.actor.userID, first.actor.orgID], false),
                       log[j].reading, 15 * SECOND)
  {
    YesIsRecent(c, s0, steps, i, CredentialQuestion(a, cred, [], false), first);
    YesIsRecent(c, s0, steps, j, ResourceQuestion(a, cred, action, r, first.actor), second);
  }

  /** An identity in a handler's context is one the service vouched for, as recently. */
  lemma IdentityIsRecent(c: Config, s0: State, steps: seq<Step>, a: Audiences, hasValidator: bool, failOpen: bool,
                         required: bool, includePerms: bool, cred: string, i: nat, ans: Answer, actor: Actor)
    requires c == DefaultConfig(c.h, c.jwtExpiry, c.parseExpiry) && HexDigest(c.h)
    requires Init(s0) && c.Valid() && IsRun(c, s0, steps)
    requires
      var log := Final(c, s0, steps).log;
      var q := CredentialQuestion(a, cred, [], includePerms);
      WasAnswered(log, i, q, ans) && NoCollision(c, log, q)
    requires Identify(hasValidator, failOpen, required, cred, ans) == RanAs(actor)
    ensures
      var log := Final(c, s0, steps).log;
      && ans == Said(actor)
      && SaidYesWithin(log, if "ab0t_sk_" <= cred then Question(ValidateAPIKey, cred, a.general, [], false)
                            else Question(ValidateToken, cred, if a.jwt != "" then a.jwt else a.general, [], includePerms),
                       log[i].reading, (if "ab0t_sk_" <= cred then 60 else 15) * SECOND)
  {
    YesIsRecent(c, s0, steps, i, CredentialQuestion(a, cred, [], includePerms), ans);
  }

  /** Off the happy path: a handler runs without a yes only with FailOpen on, and then
      only if nobody was wired to decide or the decider failed to answer; a 401, a 403 or
      "not allowed" from either question stops it whatever FailOpen says. */
  lemma RunsWithoutAYesIff(hasAuthorizer: bool, failOpen: bool, cred: string, r: Resource, first: Answer, second: Answer)
    ensures
      var v := Authorize(r, first, second);
      Require(hasAuthorizer, failOpen, cred, v) == Ran && !(hasAuthorizer && v == Allowed)
      <==>
      && failOpen && cred != ""
      && (!hasAuthorizer || (v.Undecided? && StatusCode(v.err) !in {401, 403}))
    ensures
      hasAuthorizer && (SaysNo(first) || (!IsZero(r) && SaysValid(first) && SaysNo(second))) ==>
        Require(hasAuthorizer, failOpen, cred, Authorize(r, first, second)).Refused?
    ensures
      hasAuthorizer && cred != "" && SaysValid(first) && ((r.kind == "" && r.id == "") || SaysValid(second)) ==>
        Require(hasAuthorizer, failOpen, cred, Authorize(r, first, second)) == Ran
  {
  }

  /** The status tells which it was: 401 the credential, 403 the permission, 503 nobody
      able to decide; and FailOpen changes the last one only. */
  lemma DenialsSayWhy(hasAuthorizer: bool, failOpen: bool, cred: string, r: Resource, first: Answer, second: Answer)
    ensures
      var v := Authorize(r, first, second);
      var out := Require(hasAuthorizer, failOpen, cred, v);
      && (out == Refused(401) <==> cred == "" || (hasAuthorizer && v.Undecided? && StatusCode(v.err) == 401))
      && (out == Refused(403) <==> cred != "" && hasAuthorizer && (v.Denied? || (v.Undecided? && StatusCode(v.err) == 403)))
      && (out == Refused(503) <==>
            cred != "" && !failOpen && (!hasAuthorizer || (v.Undecided? && StatusCode(v.err) !in {401, 403})))
      && (out != Require(hasAuthorizer, !failOpen, cred, v) ==>
            {out, Require(hasAuthorizer, !failOpen, cred, v)} == {Ran, Refused(503)})
  {
  }

  /** When a handler runs with nobody in its context: never behind RequireIdentity with
      FailOpen off; and a credential the service refused never gets past either
      middleware. */
  lemma NoHandlerWithoutIdentity(hasValidator: bool, failOpen: bool, required: bool, cred: string, ans: Answer)
    ensures required && !failOpen ==> !Identify(hasValidator, failOpen, required, cred, ans).Ran?
    ensures
      Identify(hasValidator, failOpen, required, cred, ans) == Ran <==>
        || (cred == "" && !required)
        || (cred != "" && !hasValidator && (!required || failOpen))
        || (cred != "" && hasValidator && failOpen && ans.Failed? && StatusCode(ans.err) !in {401, 403})
    ensures
      Identify(hasValidator, failOpen, required, cred, ans) == Refused(503) <==>
        && cred != "" && !failOpen
        && if hasValidator then ans.Failed? && StatusCode(ans.err) !in {401, 403} else required
    ensures cred != "" && hasValidator && SaysNo(ans) ==>
              Identify(hasValidator, failOpen, required, cred, ans) == Refused(401)
    ensures cred != "" && hasValidator && SaysValid(ans) ==>
              Identify(hasValidator, failOpen, required, cred, ans) == RanAs(ans.actor)
  {
  }
}
