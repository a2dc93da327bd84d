# Verified model of the auth SDK's caches, key handling and retry loops

This project models the parts of the Go SDK that carry state, concurrency or arithmetic,
and proves what they keep. `dafny verify dfyconfig.toml` checks all of it.

The modules follow the program:

- `CacheKeys` – the length-prefixed encodings and the two cache keys. SHA-256 is a
  parameter `h` of type `string -> string` with 64-character results; no function of that
  type is injective on all strings, so each theorem that relies on it names the collision
  it excludes.
- `ValidationPolicy` – what one validation-cache slot serves and what an answer leaves in
  it, the TTL classes, and the order of eviction. Shared by the step system, the heap model and the gate.
- `ValidationMachine`, `ValidationInvariants`, `ValidationTheorems` – the validation cache
  under concurrency. A step is one stretch of code that no other goroutine can see inside:
  a section under the map mutex, taking or releasing a flight lock, one clock reading, the
  service's answer. Entries have identity, so a detached entry whose fetch is running stays
  visible to its own callers. The service may answer anything at any time.
- `ValidationEviction`, `ValidationDetached` – one whole eviction among other callers, and
  what becomes of an entry that has left the map.
- `ValidationHits` – what one call stores is served to later ones, and Stats counts it.
- `CallSites` – the three call sites of the cache, with the arguments each passes.
- `ValidationCache` – the same cache as heap objects used by one caller at a time: arrays
  behind the four slices of an actor, `*APIError` objects, the in-place scan, sort and
  deletion of an eviction. `answers` is the ghost set of objects stored answers are made
  of, `lent` of those callers can reach. `ValidationSession` runs it over any sequence of
  calls, invalidations and caller writes.
- `Scope`, `TokenKeys` – scope normalisation (with its in-place de-duplication) and the
  choice of pattern and key in `TokenFor`.
- `TokenMachine`, `TokenInvariants`, `TokenTheorems` – the TokenFor cache under
  concurrency: LRU list, map, in-flight table, leaders, waiters, retries, and the bridge's
  call nested inside another call. `TokenOutcomes` – how calls end that do not end with a
  token of their own.
- `TokenCache` – the two mutex sections of `cachedToken` on a list and a map of elements,
  proved against the store of `TokenMachine`.
- `KeySet` – the key-set cache: an entry's state machine, its fetch budget, the bounded map.
- `Base64Url`, `LocalVerify` – the strict base64url decoder of section 2 of RFC 7515 and
  sections 3.5 and 5 of RFC 4648 with Go's CR/LF skipping; the shape, key and claim stages
  of local verification. JSON and RSA are parameters.
- `Transport` – the backoff ceiling in wrapping 64-bit arithmetic and both retry loops.
- `EditDistance` – the two-row Levenshtein distance and the suggestion made from it.
- `BulkCleanup` – the list-and-delete loops against a service with arbitrary paging and
  failures.
- `Gate` – the route gate on top of the cached client, end to end.

Times are integers, nanoseconds from the zero instant. Strings are sequences of characters
that stand for bytes, except in `Scope` and in a token's `typ`, where they are runes.
`LocalVerify.Exponent` is for a Go `int` of 64 bits; with one of 32 bits an exponent of 2^31
or more turns negative and is refused.

Some results are that a promise does not hold everywhere; then a
concrete input shows it and the exact condition is proved: `CeilingCanCollapse` with
`CeilingIsExactIff`, `NoBudgetWhileFailing` with `FetchBudget`, `WrappedErrorIsShared`
with the condition in `GetWith`, `NewlineSpelling` and `LenientSpelling` with `DecodesIff`,
`EvictionHidesFailure` with `FailureIsHiddenIff` and `RefreshAfterGet`, `HeldKeyIsRefused`
with `HeldKeyIsRefusedIff` and `CurrentKeyIsFoundIff`, `NoFinalEvent` with
`OneFinalEventIff`.

The wrapped error of `WrappedErrorIsShared` comes from outside the SDK: a `RoundTripper`
given with `WithHTTPClient` may return an `*APIError` of its own, `http.Client` wraps it in
a `*url.Error`, `send` returns that (`transport.go:147-165`), and `IsUnauthorized` sees
through it (`errors.go:187-206`).

`jwks.go:190-195` presumes that the set handed out inside the cooldown lacks the kid. It may
hold it: when another verification has just fetched the renewed set, `localverify.go:269-274`
does not look in it and refuses a valid token as `unknown_kid` (`HeldKeyIsRefused`).

Two comments in the program say more than its code does, and the model follows the code:
`observe.go:48` promises exactly one event without `Retrying` per call, but a call whose
wait is cut short ends with all its events marked `Retrying` (`OneFinalEventIff`); and
`transport.go:234` says the delay is `base * 2^attempt` capped, which fails when the product
overflows to a small positive number (`CeilingCanCollapse`).

## Model

| member | source | states |
|---|---|---|
| CacheKeys.DecodeEncode | validationcache.go:400-415 | The length-prefixed encoding can be decoded: no two field lists serialise to the same bytes |
| CacheKeys.ValidationKeyInjective | validationcache.go:384-417 | Equal keys come from equal questions: same endpoint, credential, audience, ordered permission list and include flag, unless SHA-256 collides on what they hash |
| CacheKeys.PrefixSelectsCredential | validationcache.go:299-315 | InvalidateValidation's prefix test selects exactly the keys of that credential, whatever they ask |
| CacheKeys.TokenCacheKeyInjective | tokenfor.go:508-518 | Equal token-cache keys come from equal component lists, unless SHA-256 collides |
| CallSites.QuestionFixesCall | operations.go:266-279 | At each of the three call sites the key, class, cap and classifier passed are those the question alone determines; the question is the request's field by field, with an empty audience filled in; the cap is the exp of a token and none for an API key |
| CallSites.SharedEntrySharesPolicy | operations.go:266-449 | Calls from any two sites that share an entry pass the same class, cap and classifier, unless SHA-256 collides |
| CallSites.SitesAreApart | operations.go:270-444 | Two sites never share an entry, whatever credential, audience and strings they are given |
| ValidationPolicy.ConfigurationsAreValid | validationcache.go:197-252 | Every way of switching the cache on gives positive TTLs and a positive bound (4096 unless given), never remembers a "no" longer than a "yes", and a non-positive TTL is exactly what switches it off |
| ValidationPolicy.StoreIsBacked | validationcache.go:519-568 | After a fetch the slot holds that fetch's own answer inside every cap, or nothing, or (only after a failure that decides nothing, or no answer) exactly what it held before |
| ValidationPolicy.ServeIsWithinLife | validationcache.go:506-516 | A served answer is the stored one, read strictly before its TTL, the token's exp and the reported expiry, and never past a bypass |
| ValidationPolicy.ServedExactlyUntil | validationcache.go:506-568 | How long an answer is served, both ways: a yes until the first of TTL, the token's own exp (never for an API key) and reported expiry; a no or validate-token's 401, wrapped or not, for the negative TTL; after any other failure, what was there before |
| ValidationPolicy.DefaultLives | validationcache.go:238-250 | The default cache in nanoseconds, both ways: 60 s and 10 s for a bare API key question, 15 s and 5 s for everything else |
| ValidationPolicy.ExplicitLives | validationcache.go:204-236 | A configured cache, both ways: `ttl` for a yes; for a no the negative TTL, 5 s if 0 is given, never longer than `ttl`, and not at all if negative |
| ValidationPolicy.ExpiredIffNotServed | validationcache.go:454-468 | Eviction calls an entry expired exactly when it would be served to nobody |
| ValidationInvariants.InvStep | validationcache.go:420-589 | Every step of every caller keeps the invariant: justified history, slots backed by answers to their own key, flight locks held by exactly their callers, the size bound even in the middle of an eviction |
| ValidationInvariants.InvRun | validationcache.go:420-589 | Hence every state of every run satisfies it |
| ValidationTheorems.AnswersTheQuestionAsked | validationcache.go:384-569 | No run returns an answer fetched for one question to a caller asking another; an uncached answer is that caller's own fetch's |
| ValidationTheorems.HitsAreJustified | validationcache.go:500-569 | Every hit comes from one earlier answer to the same question, given less than its TTL ago (a decision's if permissions or a resource are asked about, else the credential kind's); a positive hit is before the token's exp and the reported expiry; a cached error is a 401 from validate-token |
| ValidationTheorems.RevocationLatency | validationcache.go:500-569 | If from time r the service never again says yes to a question, no hit whose clock reading is at least r plus the documented positive TTL of such questions says yes, over every interleaving |
| ValidationTheorems.DefaultHitsAreRecent | validationcache.go:238-250 | Over every interleaving of the default cache a hit is less than 60 s, 10 s, 15 s or 5 s old, by what was asked and answered, and there are never more than 4096 entries |
| ValidationTheorems.ExplicitHitsAreRecent | validationcache.go:204-236 | The same for one configured TTL, negative TTL and bound |
| ValidationTheorems.InvalidationIsACut | validationcache.go:299-325 | A caller that looks up its entry after InvalidateValidation or ResetValidationCache only ever gets an answer whose fetch began after it, whatever was in flight |
| ValidationTheorems.EveryCallIsAnsweredOnce | validationcache.go:480-569 | A call that ends was answered exactly once, for its own question; one made with WithFreshValidation by its own fetch, begun after it looked its entry up |
| ValidationHits.KeptThenServed | validationcache.go:500-569 | What one call stores is served: over any run of all callers in which nobody stores another answer there, a call that finds the entry is given it exactly as long as TTL, exp and reported expiry allow and it did not ask for a fresh one |
| ValidationHits.StatsAreExact | validationcache.go:500-569 | Hits and misses are exact over any interleaving: once all calls have ended, as many hits as answers served from the cache, and every other call a miss |
| ValidationTheorems.NeverMoreThanMaxEntries | validationcache.go:432-478 | MaxEntries is never exceeded in any reachable state |
| ValidationTheorems.SingleFlightPerEntry | validationcache.go:500-519 | At most one fetch runs per entry object |
| ValidationTheorems.EvictionLeavesEntriesAlone | validationcache.go:444-478 | Eviction changes no entry object, no history and no other caller |
| ValidationDetached.DetachedEntryIsItsOwners | validationcache.go:437-443 | Over any run of all callers: an entry out of the map stays out, only the calls that had it ever have it, and their answers and its slot are those of a run in which nobody but they moves |
| ValidationDetached.RemovedIsDetached | validationcache.go:299-325 | Whatever takes a key out of the map, eviction or invalidation, leaves its entry detached |
| ValidationEviction.WholeEviction | validationcache.go:420-478 | From a look-up that needs room to its insert, with any steps of other callers in between: every entry is classed once, on one clock reading; the expired idle ones go, then live ones in expiry order, in-flight ones only when no live one is left, no more than make room; the rest are the same objects |
| ValidationTheorems.ChooseVictims | validationcache.go:469-477 | Victims that respect the order (live ones by expiry, in-flight ones only when no live one is left) can always be chosen |
| ValidationTheorems.SomeCallCanMove | validationcache.go:444-519 | Deadlock freedom: in every reachable state with an unfinished caller some caller can take a step, given that fetches return |
| ValidationTheorems.WorkIsBounded | validationcache.go:420-589 | Every schedule drains: a run has at most the work of the present callers plus maxEntries + 8 steps for each later one |
| ValidationTheorems.Drains | validationcache.go:420-589 | From every reachable state all callers can run to completion |
| ValidationCache.CopyActor | validationcache.go:591-614 | The copy reads the same and shares no memory with the original, all four slices included |
| ValidationCache.CopyError | validationcache.go:571-579 | An *APIError is copied; any other error is returned as it is |
| ValidationCache.SortByExpiry | validationcache.go:469 | The live keys, each once, in order of expiry |
| ValidationCache.PrefixIsAChoice | validationcache.go:469-477 | Deleting from the front of "live by expiry, then in flight" respects the eviction order |
| ValidationCache.DropInOrder | validationcache.go:470-477 | The deletion loop removes exactly the first keys of the order, no more than make room |
| ValidationCache.ScanEntries | validationcache.go:454-468 | One pass deletes the expired, idle entries and classes the rest, changing no entry it keeps |
| ValidationCache.EvictFrom | validationcache.go:444-478 | Room for one is made: nothing goes while there is room; otherwise all expired entries, then live ones in expiry order, then in-flight ones only when no live one is left |
| ValidationCache.ServeFrom | validationcache.go:506-516 | The read half serves what the policy says, as a copy |
| ValidationCache.Remember | validationcache.go:519-568 | The write half leaves the slot the policy says, made of fresh objects, except that an error wrapping an *APIError is kept as it is |
| ValidationCache.ValidationCache.EvictIfFullLocked | validationcache.go:444-478 | In place: the map afterwards is a sub-map with at least one place free, chosen in the eviction order |
| ValidationCache.ValidationCache.EntryFor | validationcache.go:420-430 | The entry there is, or a new empty one after making room; all other entries keep their objects |
| ValidationCache.ValidationCache.DropPrefix | validationcache.go:299-325 | Exactly the keys with the prefix are removed |
| ValidationCache.ValidationCache.GetWith | validationcache.go:500-569 | One call: a hit or a miss as the policy says, the slot it leaves, all other slots as they were, the counters; and callers stay unable to reach anything the cache will serve exactly unless the call misses and keeps a definite negative that wraps an *APIError |
| ValidationCache.ValidationCache.CallerWrites | validationcache.go:488-490 | No writes at all to anything callers can reach change what is served next, and they can be repeated |
| ValidationSession.Session | validationcache.go:488-579 | Over any sequence of calls, invalidations and caller writes to everything any caller can reach, every hit is what the last call with its key left, and every miss its own answer; while at most maxEntries keys were asked for, hit, answer and slot are decided by the last call with that key |
| ValidationSession.WrappedErrorIsShared | validationcache.go:571-579 | The one kind of answer kept without a copy, received through a RoundTripper: its caller alters it and the next hit returns the altered error |
| Scope.FieldsOfJoin | tokenfor.go:522-534 | Joining words with spaces and splitting again gives the words back |
| Scope.FieldsSplit | tokenfor.go:522-534 | A white-space character separates wherever it stands |
| Scope.SpacesAre | tokenfor.go:522-534 | Which characters those are |
| Scope.LessIff | tokenfor.go:525-526 | The order of the words is the dictionary order: the first difference decides, a prefix comes first |
| Scope.DedupInPlace | tokenfor.go:527-533 | The de-duplication that writes into the array it reads from leaves the de-duplicated words in its front |
| Scope.NormalizeScope | tokenfor.go:522-535 | The code computes the normal form, with its short cut for fewer than two words |
| Scope.NormalizedWords | tokenfor.go:520-535 | The normal form has the words of the scope, each once, strictly in order, and no white space but blanks |
| Scope.NormalizeIsCanonical | tokenfor.go:520-535 | Two scopes have the same normal form exactly when they name the same set |
| Scope.NormalizeIsIdempotent | tokenfor.go:520-535 | Normalising twice changes nothing |
| TokenKeys.KeyDeterminesRequest | tokenfor.go:299-344 | A key fixes pattern, resource, scope, audience and person, unless SHA-256 collides |
| TokenKeys.AsksExactlyWhen | tokenfor.go:299-344 | TokenFor gets as far as the cache exactly with client credentials and, for a person, with a session that yields a token and something to aim the new one at |
| TokenKeys.RefusedBecause | tokenfor.go:299-339 | Otherwise, exactly when which of the five refusals is given |
| TokenKeys.AsksFor | tokenfor.go:303-343 | What it asks for: as itself exactly without a session; for a person that person's token, the bridge's audience being the resource unless one is set |
| TokenKeys.SharedEntryIff | tokenfor.go:299-344 | Two calls share an entry exactly when they act for the same person (or both for nobody) on the same resource with the same set of scopes |
| TokenInvariants.LruTrim | tokenfor.go:648-652 | Dropping from the back of the list drops keys used before every key that stays |
| TokenInvariants.InvStep | tokenfor.go:608-676 | Every step keeps the invariant: map and list in bijection, recency order, no key both cached and in flight, one leader per flight, settled flights stay settled, no foreign cancellation |
| TokenInvariants.InvRun | tokenfor.go:608-676 | Hence every state of every run satisfies it |
| TokenTheorems.CacheIsWellFormed | tokenfor.go:562-676 | In every reachable state list and map agree key by key, no key is cached and in flight at once, and the length is at most max |
| TokenTheorems.DropsLeastRecentlyUsed | tokenfor.go:647-652 | A key dropped for room was used before every key that stays, and only a full cache drops one |
| TokenTheorems.HitMakesMostRecent | tokenfor.go:617-622 | A hit makes its key the most recently used and leaves the order of the others alone |
| TokenTheorems.ItemsLeaveOnly | tokenfor.go:615-652 | A token leaves the cache only when a look-up of its own key finds it expired, or a full cache drops it as least recently used |
| TokenTheorems.PublishedIsCachedIff | tokenfor.go:640-653 | A fetched token is cached exactly when it says when it ends, has more than 30 s left and the person's own token, if it is for a person, has not ended |
| TokenTheorems.PublishedThenServed | tokenfor.go:612-655 | Over any run in which its key is not dropped, a call with that key is given the token exactly as long as it has more than 30 s left and the person's own token has not ended |
| TokenTheorems.SingleFlightPerKey | tokenfor.go:608-676 | At most one fetch per key runs at a time |
| TokenTheorems.NobodyInheritsACancellation | tokenfor.go:579-586 | A caller is told that a context ended only if it is the caller's own and it did |
| TokenTheorems.OneRetryPerCancelledLeader | tokenfor.go:625-631 | Each extra turn of a waiter's loop is paid for by a different leader of the same key that failed with its context ended |
| TokenTheorems.HitsAreFreshAndOwn | tokenfor.go:613-655 | A hit was minted for the very request of the caller, has more than 30 s left, and, on either exchange, is before the exp of the person's own token |
| TokenTheorems.EveryTokenIsOwn | tokenfor.go:608-676 | Every token a call ends with, fetched, waited for or cached, was fetched by a call for the very same request, so none ever crosses persons or scopes |
| TokenOutcomes.EveryErrorIsOwn | tokenfor.go:579-676 | Every error a call ends with is that of its own context, which ended, or what a fetch for its own key brought |
| TokenOutcomes.WaiterTakesOrRetries | tokenfor.go:625-657 | However long a waiter sleeps, it takes its leader's result, token or error, unless the leader failed with its context ended; then it starts over |
| TokenOutcomes.ExchangeNeedsActorToken | tokenfor.go:384-401 | On the bridge no exchange is asked for before a call for the app's own token has ended with one, and a failure of that call is the exchange's result |
| TokenTheorems.ActorKeyIsApart | tokenfor.go:384-394 | The bridge's inner key is never its outer key |
| TokenTheorems.SomeCallCanMove | tokenfor.go:384-394 | Deadlock freedom, with one call nested in another: some unfinished caller can always go on |
| TokenTheorems.StepMakesProgress | tokenfor.go:608-676 | Every step finishes a call or brings one closer to finishing, retries included |
| TokenTheorems.WorkIsBounded | tokenfor.go:608-676 | No schedule keeps the calls going longer than a budget fixed by the calls present and the number that arrive, whichever contexts end |
| TokenTheorems.StepsOfArrivals | tokenfor.go:579-676 | From the start, n calls take at most 88n^2 + 24n steps in all, retries after cancelled leaders and nested calls included |
| TokenTheorems.Drains | tokenfor.go:608-676 | From every reachable state all calls, waiting and nested ones alike, can run to completion |
| TokenCache.TokenCache.MoveToFront | tokenfor.go:618 | ll.MoveToFront on the real list is the promotion of the store |
| TokenCache.TokenCache.Begin | tokenfor.go:612-636 | The first section: hit, wait or lead as the store and the in-flight table say, and the store it leaves |
| TokenCache.TokenCache.TrimBack | tokenfor.go:648-652 | The trimming loop cuts the list to its first max elements and the map to the same elements |
| TokenCache.TokenCache.Publish | tokenfor.go:638-657 | The second section: the store it leaves, the flight settled, the key out of the in-flight table |
| KeySet.EntryObject.GetKeys | jwks.go:159-188 | get on one entry, with fetchLocked: what it returns and the entry it leaves |
| KeySet.EntryObject.RefreshForUnknownKid | jwks.go:190-212 | The same for refreshForUnknownKid, with the cooldown that starts at the attempt |
| KeySet.FindKey | jwks.go:37-45 | The first key of that name, or none when there is none |
| KeySet.EntryTracksLastGood | jwks.go:159-212 | Over any sequence of calls an entry holds the last good set, and an error only while there never was one |
| KeySet.NeverFailsAgain | jwks.go:170-188 | Once a fetch has succeeded, neither call ever fails again: each returns the set it fetched, or else the last good one |
| KeySet.AsksIff | jwks.go:159-212 | Over any history, get asks exactly when the last success is ttl old or missing, and an unknown kid asks exactly when the last attempt is a cooldown old or missing |
| KeySet.DefaultAsksIff | jwks.go:98-103 | The same with the 10 minutes and the one minute a client sets |
| KeySet.FailureIsHiddenIff | jwks.go:202-211 | While nothing was ever fetched, a refresh with the service down reports an empty set and no error exactly inside the cooldown of an earlier attempt; get always reports the failure |
| KeySet.RefreshAfterGet | localverify.go:257-275 | After a get that returned a set, a refresh on the same entry always returns a set some fetch brought, whatever happens in between |
| KeySet.EvictionHidesFailure | localverify.go:257-275 | So the hidden failure takes an eviction between the two calls of one verification; a sequence of calls that reaches it in a cache of any size, 512 included |
| KeySet.FindForToken | localverify.go:257-275 | The key stage of one verification, whatever others do to the entry between its two calls and even if it is evicted there: what it finds, at most two requests, and the entries it leaves |
| KeySet.CurrentKeyIsFoundIff | localverify.go:257-275 | Over any history, with anything others do in between, an eviction included: a key the service has at the second call is found unless the held set lacks it and the last unknown kid is less than a cooldown ago, and exactly then it is refused without asking |
| KeySet.HeldKeyIsRefusedIff | localverify.go:264-274 | A token is refused although the entry holds its key exactly when get's set lacks it, another call brought it between the two calls and the last unknown kid is less than a cooldown ago; never when nobody else calls in between |
| KeySet.HeldKeyIsRefused | localverify.go:264-274 | It happens: a history from the empty entry in which the second of two verifications is handed the set that holds its key and answers unknown_kid |
| KeySet.NotJudgedIff | localverify.go:259-268 | There is no verdict exactly when get failed, or the entry was evicted between the two calls and the service, asked for the kid, fails and has not answered there since |
| KeySet.FetchBudget | jwks.go:159-212 | Whatever the service answers, calls within a span D cause at most D/ttl + D/cooldown + 2 fetches and one more for each get it fails, however many kids appear |
| KeySet.DefaultBudget | jwks.go:98-103 | At most 68 requests in an hour while the service answers |
| KeySet.ForcedBudget | jwks.go:190-212 | Fetches forced by unknown kids stay within D/cooldown + 1 whatever the service answers |
| KeySet.NoBudgetWhileFailing | jwks.go:159-168 | The term for failed gets is needed: every get on a stale entry asks again, any number at one instant |
| KeySet.Cache.EvictIfFull | jwks.go:124-156 | Only a full map loses an entry, one, the stalest that nobody is fetching for |
| KeySet.Cache.EntryFor | jwks.go:110-122 | A map below its bound loses nothing; a full one loses the stalest idle entry and no other, and entries being fetched for stay; the bound survives unless all were being fetched for |
| Base64Url.DecodeOfEncode | localverify.go:418-423 | Decoding an encoding gives the bytes back, strict or not |
| Base64Url.DecodesIff | localverify.go:412-423 | The strict decoder yields some bytes from exactly their encoding, with CR and LF strewn in at will |
| Base64Url.AlphabetIsStandard | localverify.go:418-423 | The 64 letters have the values of table 2 of RFC 4648, and no other character has one |
| Base64Url.QuantumIsBigEndian | localverify.go:418-423 | Letters are the base-64 digits of the bytes, most significant first |
| LocalVerify.JoinedSplit | localverify.go:215-217 | Splitting at dots and joining again gives the token back |
| LocalVerify.OneSpellingPerToken | localverify.go:206-225 | Two strings that pass the shape test and decode to the same bytes, segment by segment, are the same string |
| LocalVerify.SegmentsIgnoreNewlines | localverify.go:412-423 | A segment alone is determined only up to CR and LF |
| LocalVerify.NewlineSpelling | authclient.go:59-62 | Two spellings of one segment that only the whitespace test keeps apart |
| LocalVerify.LenientSpelling | localverify.go:412-423 | Two spellings that only the strict decoder keeps apart |
| LocalVerify.CheckHeader | localverify.go:206-255 | Among the checks on size, shape and header, in order, the reason of the first that fails; otherwise the decoded parts |
| LocalVerify.CheckKeyed | localverify.go:270-401 | Among all checks, for the key that was found, the reason of the first that fails |
| LocalVerify.CheckTimes | localverify.go:192-324 | Among the checks on exp, nbf and iat, in order and with the clamped leeway, the reason of the first that fails |
| LocalVerify.CheckParties | localverify.go:326-400 | The same for issuer, audience, subject, type, scope and act |
| LocalVerify.AllHoldIff | localverify.go:287-401 | All checks hold exactly when the claims are acceptable and the time is inside the token's window |
| LocalVerify.Verify | localverify.go:191-402 | On the key-set entry itself, whatever others do to it between the two look-ups: refused for the first check that fails, from the size of the token to its claims; not judged exactly when the header is in order and there is no key set; a bad header costs no look-up |
| LocalVerify.NeverAMinutePastExp | localverify.go:192-204 | Whatever the options, no token is accepted a minute or more past its exp |
| LocalVerify.AcceptedIff | localverify.go:206-401 | All checks hold exactly when size, header, key, signature, claims and time are in order, with the options written out: issuers given replace the usual two, an audience given replaces the configured one, the four token types hold in any case, the leeway is 30 s unless set and at most a minute |
| LocalVerify.SignatureCovers | localverify.go:281-285 | The signature is over everything before the last dot as it is spelled |
| LocalVerify.SignatureComesFirst | localverify.go:281-288 | A token is refused for what its claims say only if its header is in order and it is signed by the key found |
| LocalVerify.OnlyKeysInterrupt | localverify.go:257-325 | Between two acceptances a token is accepted exactly when the key set of that moment has a key that signed it; once its time has run out it is never accepted again |
| LocalVerify.AcceptedSpellingIsUnique | localverify.go:412-423 | No two different strings are accepted for the same header, payload and signature bytes |
| LocalVerify.Exponent | localverify.go:447-461 | The fold gives the bytes' big-endian value, accepted exactly when it is odd, at least 3 and at most four bytes, and never overflows a 64-bit int |
| Transport.CeilingIsExactIff | transport.go:235-239 | The ceiling is min(base * 2^attempt, max) unless the product overflows and the remaining bits read as a smaller positive number |
| Transport.CeilingIsExact | transport.go:235-239 | It is exact for every attempt when base is o * 2^t with o * max below 2^63 |
| Transport.SquareFits | transport.go:235-239 | In particular when base is at most max and max squared is below 2^63 |
| Transport.DefaultsAreExact | authclient.go:269-270 | And for the defaults of 200 ms and 5 s, whose square does not fit |
| Transport.CeilingCanCollapse | transport.go:235-239 | A pair for which it is not: 2^33 + 1 ns with a cap of 2^34 ns at attempt 31 |
| Transport.ExactNeverFalls | transport.go:234-239 | The documented ceiling is positive, nondecreasing in the attempt and at most max |
| Transport.JitterBoundPositiveIff | transport.go:240-241 | The bound given to the random draw is positive unless the ceiling is the largest 64-bit integer |
| Transport.Send | transport.go:125-187 | send stops at the first attempt that is not retried or whose wait is cut, with that outcome, one event per attempt and one sleep per retry; what it delivers is the first success |
| Transport.DoRaw | transport.go:60-107 | doRaw makes the same attempts, sleeps the same and ends the same |
| Transport.SleepWithin | transport.go:214-232 | No sleep exceeds the cap, whatever Retry-After says, even when its seconds overflow |
| Transport.CallIsBounded | transport.go:125-187 | At most maxRetries + 1 attempts numbered from 0, at most maxRetries * max asleep, all but the last event marked Retrying and the last only when its wait was cut; a POST or PATCH, or anything but GET, HEAD, OPTIONS, PUT and DELETE, is never repeated after a failure without a response, and after one only a 429 or 5xx is |
| Transport.GoesOn | transport.go:155-183 | And it does not give up early: while retries are left and no wait is cut, a 429, a 5xx, and for GET, HEAD, OPTIONS, PUT and DELETE a failure with the context alive are followed by another attempt |
| Transport.EndsWith | transport.go:144-186 | How the last attempt decides the result: success for 200 to 299, a cut wait for what would have been retried, else the refusal or the failure |
| Transport.RetryAfterIsHonoured | transport.go:216-271 | A positive Retry-After, in seconds or as a date, is slept up to the cap, unless its seconds overflow |
| Transport.AnySleepCanBeDrawn | transport.go:216-241 | Without one any sleep from 0 up to the ceiling can be drawn, and no other |
| Transport.OneFinalEventIff | observe.go:46-49 | Exactly one event of a call is without Retrying, unless its wait was cut short, and then none is |
| Transport.NoFinalEvent | transport.go:178-185 | A call whose only event announces a retry |
| EditDistance.Measure | cmd/ab0t-auth/main.go:305-323 | The two swapped rows compute the recursive distance |
| EditDistance.NoShorterWalk | cmd/ab0t-auth/main.go:305-323 | No sequence of single-byte edits from one string to the other is shorter than the distance |
| EditDistance.ShortestWalk | cmd/ab0t-auth/main.go:305-323 | And one is exactly that long |
| EditDistance.DistanceIsLeast | cmd/ab0t-auth/main.go:305-323 | No alignment of the two strings is cheaper |
| EditDistance.ZeroIffEqual | cmd/ab0t-auth/main.go:305-323 | The distance is zero exactly for equal strings |
| EditDistance.DistanceIsSymmetric | cmd/ab0t-auth/main.go:305-323 | It is symmetric |
| EditDistance.Triangle | cmd/ab0t-auth/main.go:305-323 | It obeys the triangle inequality |
| EditDistance.Suggest | cmd/ab0t-auth/main.go:293-303 | The first of the nearest commands when one is fewer than three edits away, and nothing otherwise |
| BulkCleanup.DeleteAllForObject | authzmodel.go:364-391 | It ends, normally exactly when no call failed, otherwise with the kind of call that failed; on a normal return no tuple of the object is left; no other tuple is touched; initial count = deleted + remaining exactly, save for a last deletion reported as failed and carried out all the same |
| BulkCleanup.ReadAllForSubject | authzmodel.go:476-500 | Over any paging the cursor loop ends with each of the subject's tuples once, and fails exactly when a read failed |
| BulkCleanup.DeleteAllForSubject | authzmodel.go:502-528 | The promises of DeleteAllForObject, by subject |
| Gate.YesIsRecent | validationcache.go:240-250 | Cached or not, a yes is backed by the service's own yes to that question within the positive TTL of its class |
| Gate.HandlerRanMeansRecentYes | authmw/authmw.go:308-356 | With the default cache and FailOpen off, a handler gated on an action ran only if the service said yes less than 15 s before to this credential, at the endpoint for its kind, for the configured audience, with that action required |
| Gate.HandlerRanOnResource | operations.go:351-412 | On a resource: only if it said who the credential is, and less than 15 s before that this user in this organisation may do this to this resource |
| Gate.IdentityIsRecent | authmw/authmw.go:235-275 | An identity in a handler's context was vouched for by the service within 15 s for a token, 60 s for an API key |
| Gate.RunsWithoutAYesIff | authmw/authmw.go:316-356 | A handler runs without a yes exactly with FailOpen on and nobody able to decide; a 401, a 403 or "not allowed" from either question always stops it, and a yes to all that is asked always runs it |
| Gate.DenialsSayWhy | authmw/authmw.go:308-356 | 401 means the credential, 403 the permission, 503 nobody able to decide, and FailOpen turns only the last into a run |
| Gate.NoHandlerWithoutIdentity | authmw/authmw.go:235-307 | Exactly when a handler runs without an identity, or is refused with 503; never the first behind RequireIdentity with FailOpen off, and a refused credential never gets past |

## Left out

- SHA-256, RSA, JSON, URLs and HTTP: parameters, or replies given to the model.
- `parseActorExpiry`, `unverifiedJWTExpiry` and `numericDate`: their results are parameters (a time, or none); floating point does not appear.
- `retrievedAt` and the JSON shape of an actor: not part of any decision the cache takes.
- A disabled cache: every call is then its own fetch. Under an explicit configuration the resource decision is asked every time.
- Panics inside a fetch or an observer, and a clock that runs backwards.
- ValidationTheorems.SingleFlightPerEntry: per entry object, not per key, because a caller between look-up and lock can have its entry evicted.
- KeySet.Cache.EntryFor: the bound is conditional, because an insert never evicts an entry being fetched for and evicts one at most.
- ValidationCache.ValidationCache.GetWith: one caller at a time; interleavings are in ValidationMachine, over values instead of objects. A fetch's result is given to the call and looked at only on a miss.
- TokenCache.TokenCache.Publish: closing the channel and the waiters' select are steps of TokenMachine; the class has no goroutines.
- Gate.HandlerRanMeansRecentYes: "within 15 s" counts from the clock reading of the cached call, not from the moment the handler's first line runs.
- BulkCleanup.DeleteAllForObject: nobody else writes, and a page never repeats a tuple.
- LocalVerify.Verify: JSON, `rsaPublicKey` beyond the exponent, and the RSA check are parameters.
- ValidationSession.Session: leaves out answers that are definite negatives wrapping an *APIError, because those are kept as they are.
- Transport.Send: building the request, reading the body and decoding it are not modelled; a response is a status and a Retry-After.
- The wording of errors, `classifyTokenError` and consent errors: a refusal is a code.
- `hoistLeadingFlags`, `partitionArgs`, help, colour and profile files of the command line.
- Endpoint wrappers and wire structs: no logic beyond a call.
