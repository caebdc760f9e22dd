# webhookd, verified

webhookd receives signed Jira Service Management webhooks, turns a ticket in its trigger status into a
`SAMLGroupMapping` custom resource, applies it to a Kubernetes cluster and answers once the operator reports the
resource Ready. This Dafny 4.11 project models that service and proves what it promises. `dafny verify dfyconfig.toml`
checks everything.

## What is modelled

- `Basics`, `Resource`, `Results`: text helpers, the custom resource with its schema, name and readiness check,
  executor outcomes.
- `Jsm`: decoding a parsed body, extracting the three custom fields, deciding (`Handle`).
- `Signature`: timestamp window in Go's 64-bit time arithmetic, base16, HMAC header, canonical message.
- `Cluster`: the API server as an append-only log of object versions, with namespace watches.
- `Executor`: `apply` on a mutable object and the sequential `waitForSync` loop.
- `Protocol`: a step system. Any number of requests on any number of replicas interleave with the operator, foreign
  writers, the clock, cancellation, lost replies and API errors. A step that is not enabled changes nothing, so every
  sequence of steps is a run, and theorems about `Exec(c, steps)` are about every run.
- `Safety`, `Waits`, `Answers`, `Convergence`, `Counters`: theorems over all runs of that system. `Witness` exhibits a run that
  is answered Ready.
- `Deployment`: the protocol wired to the real admission checks and the JSM provider.
- `Idempotency`: the tracker as a class over a map and a list, and its histories.
- `TokenBucket`, `Limiters`: the token bucket and the concurrent per-provider limiter map. Cancelling one reservation
  can give back more than the token it took, so the rate bound rests on a convex weight of bucket and reservations
  that no reserve or cancel can raise.
- `Middleware`, `Routing`, `Lifecycle`: chain, status recorders and request accounting; provider list to routes;
  two-listener shutdown.

## Assumptions

- Cluster reads are linearizable; a generation rises only with a spec change; the status is a subresource; nothing is
  deleted; a watch without a resource version first shows the current objects and then every later version.
- A server-side apply replaces the whole spec and the metadata webhookd sends.
- The operator writes the observed generation and the conditions together, for a version it has seen, and reports
  Ready=True only for a version it has reconciled.
- HMAC-SHA256 and Go's JSON parser are function parameters. Clock readings, API replies, select choices and the
  counts the network reports are inputs.
- `golang.org/x/time/rate` is modelled from its documented operations, with exact real arithmetic.
- All routes lead to the one provider there is, JSM.

## Results that correct the documentation

- The timestamp check is not always the documented window. A stamp more than about 292 years ahead, up to
  where the second count itself wraps, saturates the difference at the minimum Duration, whose negation is itself, and
  is accepted for every skew
  (`Signature.TimestampWindow`, `Signature.FarFutureIsAccepted`).
- `Retry-After` is not always sufficient, and computing it is not always free. The temporary reservation costs the
  token when it is cancelled after its time to act, and when the bucket refilled since the refusal that time has come
  at once. A client that waits as told is then refused exactly while what the reservation left has not refilled to a
  token, which never happens at one token a second or more and can happen at every lower rate
  (`TokenBucket.RetryAfterSuffices`, `TokenBucket.SlowRateCanRefuse`, `TokenBucket.RefilledProbeSpendsTheToken`,
  `TokenBucket.LateCancelRefusesTheRetry`).
- A recorder logs a wrong status exactly when the handler's first call is an informational header
  (`Middleware.RecordedIsSent`).
- Issue keys that differ in letter case only share one object (`Resource.NameCollisions`), canonical messages and
  composite keys are ambiguous when the left part may hold the separator (`Signature.CanonicalCollisions`,
  `Idempotency.CompositeKeyCollisions`).
- A clean exit hides a listener failure exactly when the signal won the select and both drains succeeded
  (`Lifecycle.HiddenFailure`, `Lifecycle.CleanExitCanHideAFailure`).

## Model

| member | source | states |
|---|---|---|
| Safety.ReadyIsSound | internal/webhook/executor.go:132-272 | for every run: a Ready answer means the operator reconciled a version of the request's own object and reported it Ready at a generation at least the one the request's own Patch produced; that version has the request's spec or was committed after its Patch, and has exactly its spec if no differing spec followed the Patch |
| Safety.OutcomeFrame | internal/webhook/dispatcher.go:104-178 | for every run: 404, 413, 401, 400 and noop answers wrote nothing; Ready and 504 prove the Patch took effect; 500, 503 and 504 name the object; an answer with a body has 200 exactly for Noop and Ready, 400 for BadRequest, 422 for Unprocessable, 500 for InternalError, 503 for TransientFailure, 504 for Timeout |
| Safety.SpecsAreComplete | deploy/crds/samlgroupmapping.yaml:61-88 | for every run: every stored spec, whoever wrote it, has its required members and none is empty |
| Answers.AnswerIsExplained | internal/webhook/dispatcher.go:104-178 | for every run: 404, 413, 400 and 401 are the failed admission check; else the status is the one of the request's decision, of the API error its apply met, or of what its wait met: a ready read or event 200, a failed watch or closed channel 503, an ended context 504 |
| Answers.PatchErrorIsAnswered | internal/webhook/executor.go:396-422 | for every run: Forbidden and unclassified Patch errors are answered 500, Invalid and schema violations 422, ServerTimeout, ServiceUnavailable, TooManyRequests and Conflict 503, lost replies included, whatever happens afterwards |
| Answers.EndedSelectIsAnswered | internal/webhook/executor.go:245-256 | for every run: a watching request that finds its context ended reports Timeout and is answered 504, one whose channel closes TransientFailure and 503 |
| Safety.WaitNeverReportsNoop | internal/webhook/executor.go:198-272 | for every run: the wait only reports Ready, Timeout or TransientFailure, with the object's identity, after its Patch took effect |
| Safety.WriteProvenance | internal/webhook/executor.go:132-163 | for every run: each version webhookd wrote belongs to an admitted request whose body asked for that object and spec, with the executor's stamps |
| Safety.SpecsHaveWriters | internal/webhook/executor.go:147-163 | every spec ever held was put there by a request or a foreign writer, never by the operator |
| Safety.GetSeesPatch | internal/webhook/executor.go:165-178 | the post-apply Get returns a generation at least the one of the request's own Patch, whatever was written in between |
| Safety.Always | internal/webhook/executor.go:109-272 | the protocol invariant holds in every reachable state of every interleaving |
| Deployment.AdmissionTellsInput | internal/webhook/dispatcher.go:104-140 | which input each check stops, in order; a routed, small enough, unbroken request whose stamp is accepted and whose header spells the MAC passes, and no other |
| Deployment.RejectionsTellInput | internal/webhook/dispatcher.go:104-140 | for every run: 404 exactly without a route, 413 exactly over the size limit, 401 exactly when not authentic, 400 without a result exactly on a broken body |
| Deployment.TimeoutIsConfigured | internal/webhook/executor.go:198-200 | for every run of the wired service: a request that starts to wait gets a deadline the configured timeout away, and none waits longer |
| Deployment.UnparsedBodyIsBadRequest | internal/webhook/jsm/payload.go:114-128 | for every run: an authentic request whose body is empty or no JSON is answered 400 and writes nothing |
| Deployment.WritesComeFromVerifiedTickets | internal/webhook/dispatcher.go:104-140 | for every run of the wired service: each written version comes from a routed, size-checked request whose stamp is in the window (or so far off that the difference saturates) and whose header spells the MAC of "v0:", stamp, ":" and body; its ticket is triggered and filled, its spec is the one built from that ticket's three texts, the configured identity provider and the issue key, it carries that ticket's name and issue key and the executor's labels, and it fits the CRD schema |
| Deployment.DeliveriesOfOneBody | internal/webhook/executor_test.go:298-339 | any number of deliveries of one body, with lost replies and in any interleaving, write under one key only; what is there is at generation 1 with that body's spec, and it is there once one Patch took effect |
| Convergence.RetriesConverge | internal/webhook/executor.go:154-168 | from any reachable state, while all requests for an object ask for one spec, its generation rises at most once and it holds that spec once one of their Patches took effect, acknowledged or not |
| Convergence.RetryIsReadyAtOnce | internal/webhook/executor.go:224-235 | after the operator reconciled, every later delivery keeps the generation and, if its first read succeeds, ends Ready at that generation without opening a watch |
| Waits.WaitRefinesSequential | internal/webhook/executor.go:220-271 | for every run: what a wait returned is what the sequential loop computes from the first read, the watch and the select arms it took |
| Waits.FirstReadDecides | internal/webhook/executor.go:224-235 | for every run: a first read that succeeds sees the current object and returns Ready at its observed generation exactly when it is ready, else goes on to the watch |
| Waits.CaughtUpMeansNotReady | internal/webhook/executor.go:220-271 | a loop that has caught up still waits only if its object is not ready now, so readiness before the read, between read and watch, or later is never missed |
| Waits.NoMissedReadiness | internal/webhook/executor.go:220-271 | an uninterrupted wait whose events are delivered and whose object is ready has returned Ready |
| Waits.ReadyIsDelivered | internal/webhook/executor.go:245-271 | from every reachable state in which an event showing the object ready is on a request's watch, any continuation with more deliveries to that request than the event is ahead, interleaved with any other steps, ends its wait, Ready unless the continuation interrupts it |
| Waits.ReadyNowIsDelivered | internal/webhook/executor.go:237-271 | an object that is ready now is on the watch, so as many deliveries as the watch is behind end the wait, in any interleaving |
| Waits.WaitEnds | internal/webhook/executor.go:198-272 | from every reachable state in which a request waits, before its first read, before its watch or in its select, any continuation in which it takes those moves and then looks at its context, cancelled by then or the sync timeout past, leaves the wait returned, whatever else is interleaved |
| Waits.InOrderIsProgress | internal/webhook/executor.go:198-250 | a continuation holding the read, the watch and the look at the context at any three positions in that order, the context ended before the last, is such a continuation |
| Waits.MoveSetsDeadline | internal/webhook/executor.go:198-200 | a request enters its wait once, with the deadline that moment plus the sync timeout, and keeps it |
| Waits.TimeoutIsEarned | internal/webhook/executor.go:247-250 | for every run: a Timeout means outside cancellation or a passed deadline |
| Witness.ReadyIsReachable | internal/webhook/executor_test.go:165-205 | every admitted request with an applicable ticket has a run that reaches a Ready answer, status 200, through the watch |
| Counters.CountersBalance | internal/webhook/jsm/provider.go:105-172 | for every run: noops + parse errors + applies - responses is the number of requests classified and not answered; applies - failed applies - sync observations is the number of requests inside the wait |
| Counters.CountersTally | internal/webhook/executor.go:372-382 | for every run: each counter equals the number of requests it stands for: noops, parse errors, failed applies, created (generation 1), updated (above 1), finished waits, responses |
| Counters.IdleCountersAgree | internal/webhook/executor.go:109-124 | when all requests are answered, responses are the noops, parse errors and applies, and applies are the failures and the sync observations |
| Counters.FetchedGenerationIsPositive | internal/webhook/executor.go:372-382 | the generation an apply fetched is never 0, so the error label counts failed applies only |
| Cluster.CommitIsLawful | deploy/crds/samlgroupmapping.yaml:61-88 | a permitted write keeps generations ordered per object, one spec per generation, and Ready backed by a reconcile |
| Cluster.PatchIsIdempotent | internal/webhook/executor.go:154-163 | applying the same object again makes no new version |
| Cluster.CurrentIsVisible | internal/webhook/executor.go:237-243 | a watch shows the current version of every object of its namespace, whether written before or after it opened |
| Executor.WaitForSync | internal/webhook/executor.go:198-272 | reports Ready on a ready first read, else TransientFailure on a failed watch, else by the first arm that ends the loop: Timeout on an ended context, TransientFailure on a closed channel, Ready on an event showing the named object ready; nothing before that; identity set, observed generation at least the applied one |
| Executor.WaitTellsKind | internal/webhook/executor.go:198-272 | every correct report has exactly that kind |
| Executor.StampsAre | internal/webhook/executor.go:284-300 | exactly which annotations are stamped, each from its own value, empty ids left out |
| Executor.WaitIsDetermined | internal/webhook/executor.go:198-272 | two correct reports of one wait are equal |
| Executor.Object.Apply | internal/webhook/executor.go:132-179 | sends the object with the executor's labels and annotations winning every key and all others kept; ends with the server's copy exactly when Patch and Get succeed, else with the first error |
| Jsm.AppliesExactlyFilledTickets | internal/webhook/jsm/provider.go:105-150 | for every JSON tree: Apply exactly when the ticket is named, in the trigger status and all three fields are non-blank strings; key, whole spec, annotations and source of the action are those texts; the spec fits the schema exactly when an identity provider is configured |
| Jsm.FirstBadFieldDecides | internal/webhook/jsm/provider.go:198-226 | on a triggered ticket the first unfilled field decides, 422 exactly when it holds a non-null non-string, with the reason type, empty or missing |
| Jsm.UntriggeredIsNoopOrBadRequest | internal/webhook/jsm/provider.go:105-118 | off the trigger: no action exactly on decodable tickets, else 400, with the reason missing exactly when every member has its type; unparsed bytes are 400 |
| Jsm.DecodeReadsTree | internal/webhook/jsm/payload.go:114-145 | decoding succeeds exactly on a non-empty text key and status name, and reads those two texts |
| Jsm.DecodeReadsFields | internal/webhook/jsm/payload.go:95-108 | custom fields are the tree's members with the status left out |
| Jsm.ExtractReadsTree | internal/webhook/jsm/extract.go:43-61 | extraction succeeds exactly on a non-blank string, reports a type error exactly on a non-null non-string and emptiness exactly on a blank string |
| Jsm.ExtractTrims | internal/webhook/jsm/extract.go:56-60 | what is extracted is the stretch of the member's text between its outer blanks |
| Basics.TrimIsDetermined | internal/webhook/jsm/extract.go:56-56 | the trimmed text is the only stretch between blanks without blank ends |
| Resource.IsReady | internal/webhook/jsm/cr.go:81-95 | ready exactly for a mapping with observed generation at least the applied one and a condition of type Ready with status True; returns the observed generation |
| Resource.NameReads | internal/webhook/jsm/cr.go:71-73 | a name is "jsm-" and the key, capital letters lowered |
| Resource.NameCollisions | internal/webhook/jsm/cr.go:71-73 | two keys give one name exactly when they differ in letter case only |
| Resource.NameIsDnsLabel | internal/webhook/jsm/cr.go:67-73 | exactly which keys give a legal label |
| Resource.IssueKeysNameDistinctObjects | docs/design/0002-jsm-webhook-to-samlmapping-provisioning-phase-2.md:275-278 | on documented issue keys the name is injective, and legal exactly up to 59 characters |
| Resource.NamesCanCollide | internal/webhook/jsm/cr.go:71-73 | two keys outside the documented shape that share a name |
| Results.StatusTellsKind | internal/webhook/result.go:84-101 | the status of every kind by number; every status but 200 belongs to one kind, and 200 to noop and ready |
| Signature.TimestampWindow | internal/webhook/signature.go:76-94 | with wrapping and saturating int64 arithmetic, acceptance is the documented window exactly when the stamp is not so far ahead that the difference saturates (and, for the maximal skew, not so far behind); too far ahead is always accepted |
| Signature.FarFutureIsAccepted | internal/webhook/signature.go:84-93 | a concrete stamp outside a five-minute window that is accepted |
| Signature.VerifyAcceptsExactlySigned | internal/webhook/signature.go:96-123 | both checks accept exactly when the stamp is accepted and the header is "sha256=" and base16, either case, of the MAC of "v0:", stamp, ":" and body; a stamp that fails is reported first |
| Signature.AcceptsExactlyStamps | internal/webhook/signature.go:76-94 | a stamp is accepted exactly when it is a signed decimal numeral in the window or so far off that the difference saturates |
| Signature.TimestampVerdicts | internal/webhook/signature.go:76-94 | missing exactly when empty, malformed exactly when no int64 numeral |
| Signature.ParsesExactlyNumerals | internal/webhook/signature.go:80-83 | a header is read exactly as an optional sign and decimal digits of that positional value within an int64 |
| Signature.AcceptsExactlySpellings | internal/webhook/signature.go:51-69 | a header is accepted exactly when it is the prefix followed by base16, either case, of the MAC, and malformed exactly when it spells no bytes |
| Signature.HexValReads | internal/webhook/signature.go:57-60 | the value of every base16 digit in both cases |
| Signature.HexDecodeInvertsSpelling | internal/webhook/signature.go:57-60 | decoding yields bytes exactly when the text spells them |
| Signature.SignedIsAccepted | internal/webhook/signature.go:100-112 | the documented signing recipe is accepted for every secret, body and in-window timestamp |
| Signature.SignedBytesAreUnambiguous | internal/webhook/signature.go:96-123 | among accepted timestamps equal signed bytes mean equal timestamp and body |
| Signature.CanonicalCollisions | internal/webhook/signature.go:117-123 | exactly when two canonical messages coincide |
| Signature.CanonicalAloneIsAmbiguous | internal/webhook/signature.go:117-123 | two different pairs with one canonical message |
| Signature.ParseInvertsFormat | internal/webhook/signature.go:80-83 | every int64 survives formatting and parsing |
| Idempotency.IdempotencyWindow | docs/demo/08-dispatcher.md:148-181 | between two successful claims of one composite key the TTL elapsed, the key was released, or at least the capacity of other claims were made |
| Idempotency.ClaimsStayBounded | docs/demo/08-dispatcher.md:168-181 | every history keeps at most the capacity of claims, with distinct keys |
| Idempotency.Replay | docs/demo/08-dispatcher.md:148-205 | a tracker driven through any history holds exactly that history's claims and grants exactly what the history grants |
| Idempotency.IdempotencyTracker.constructor | docs/demo/08-dispatcher.md:127-140 | empty, with capacity 10000 when none is given |
| Idempotency.IdempotencyTracker.Acquire | docs/demo/08-dispatcher.md:148-181 | granted exactly when every claim on instance, bar and key has expired or there is none; the new claim, expiring a TTL later, goes in front of the others in their order, oldest evicted first; refused changes nothing |
| Idempotency.IdempotencyTracker.MakeRoom | docs/demo/08-dispatcher.md:168-175 | drops oldest claims exactly until there is room for one |
| Idempotency.IdempotencyTracker.Release | docs/demo/08-dispatcher.md:185-195 | no claim on the key is left and every other claim stays in its place; an empty key changes nothing |
| Idempotency.RefusalHasClaim | docs/demo/08-dispatcher.md:148-166 | for every history: a refused claim has an earlier grant of its key within the TTL and no release since, so an absent, released or expired claim is always granted |
| Idempotency.ReleasedIsGranted | docs/demo/08-dispatcher.md:185-195 | for every history: a released key with no grant since is granted |
| Idempotency.IdempotencyTracker.RemoveLocked | docs/demo/08-dispatcher.md:197-201 | removes one element from list and map and keeps them in bijection |
| Idempotency.CompositeKeyCollisions | docs/demo/08-dispatcher.md:203-205 | exactly when two pairs share a claim; never when instance ids hold no bar |
| Idempotency.CompositeKeysCanCollide | docs/demo/08-dispatcher.md:203-205 | two different pairs with one composite key |
| Limiters.OneLimiterPerProvider | internal/httpx/ratelimit.go:48-60 | for every run, racing first requests included: two handlers share a limiter exactly when they serve one provider |
| Limiters.RateBound | internal/httpx/ratelimit.go:62-80 | for every run: all admissions of a provider are on one record, and any stretch of it within T seconds holds at most burst + rate * T, temporary reservations included, cancelled at any moment, the instant they were made included |
| Limiters.BurstIsAdmittedFirst | internal/httpx/ratelimit.go:48-80 | for every run: a request is turned away only after burst requests of its provider were admitted |
| Limiters.PathChargesOneSegment | internal/httpx/ratelimit.go:87-96 | a path is charged to exactly the segment after the prefix |
| TokenBucket.CancelReach | internal/httpx/ratelimit.go:101-104 | a cancel never raises the bound on what the bucket can come to hold, also when it gives back more than the token its reservation took |
| TokenBucket.ReserveReach | internal/httpx/ratelimit.go:101-104 | a reservation, in debt or not, never raises that bound, and keeps it within the burst |
| TokenBucket.CancelKeeps | internal/httpx/ratelimit.go:101-104 | giving a reservation back at any time, ties included, keeps the budget of every stretch of admissions |
| TokenBucket.RetryAfterIsTight | internal/httpx/ratelimit.go:101-116 | the estimate is the smallest positive number of whole seconds covering the delay, less than one second above it |
| TokenBucket.ProbeLeavesBucket | internal/httpx/ratelimit.go:98-104 | after a refusal, refilled since or not: computing the estimate leaves the level as it was exactly when the cancel is in time or what the reservation left has refilled to the burst |
| TokenBucket.NestedProbesLeaveBucket | internal/httpx/ratelimit.go:98-104 | two nested estimates cancelled in time leave the level as it was exactly unless the bucket held more than one and less than two tokens at the first |
| TokenBucket.RetryIsAdmitted | internal/httpx/ratelimit.go:69-78 | after a refusal, refilled since or not: a returning client is admitted exactly from the time to act on if the cancel was in time, else exactly once what the reservation left has refilled to a token |
| TokenBucket.RetryAfterSuffices | internal/httpx/ratelimit.go:69-116 | for the sequence refuse, reserve, ask, cancel, answer with no other traffic: a client that waits out the seconds it was told is admitted exactly when the cancel was in time or what was left has refilled to a token, and always at one token a second or more |
| TokenBucket.SlowRateCanRefuse | internal/httpx/ratelimit.go:101-107 | at every lower rate there is a sequence in which that client is refused, and would have been admitted without the reservation |
| TokenBucket.RefilledProbeSpendsTheToken | internal/httpx/ratelimit.go:101-107 | a bucket that refills between the refusal and the reservation: the estimate spends the token |
| TokenBucket.LateCancelRefusesTheRetry | internal/httpx/ratelimit.go:101-104 | a late cancel that costs the client its token |
| Middleware.Chain | internal/httpx/middleware.go:57-62 | each stage is its middleware applied to the next, the first outermost, the bare handler last |
| Middleware.ChainsNest | internal/httpx/middleware.go:53-62 | chaining a list is chaining its front around the chain of its back |
| Middleware.StatusRecorder.WriteHeader | internal/httpx/middleware.go:210-217 | effect on the whole stack of nested recorders and the wire |
| Middleware.StatusRecorder.Write | internal/httpx/middleware.go:219-226 | effect on the whole stack of nested recorders and the wire |
| Middleware.RecordedIsSent | internal/httpx/middleware.go:195-226 | for every call sequence and depth: recorders agree with each other and hold the sum of the bytes sent and the code of the first call if it is a header, else 200; the status agrees with the wire exactly when the first call is no informational header |
| Middleware.BooksBalance | internal/httpx/middleware.go:64-183 | for every interleaving: the in-flight gauge is the number of requests inside Metrics, and the request, rate-limit and panic counters are each the number of requests that were handled, limited, or panicked |
| Routing.Csv | internal/config/config.go:400-422 | the loop yields first occurrences of trimmed, lowercased, non-empty entries, or the fallback |
| Routing.ListReads | internal/config/config.go:400-422 | an entry is in the list exactly when some non-blank piece gives it, trimmed and with capitals lowered; no entry holds a capital |
| Routing.FirstsKeepOrder | internal/config/config.go:400-422 | entries stand in the order of their first occurrence |
| Routing.ReparseIsIdentity | internal/config/config.go:400-422 | a parsed list written back with commas parses to itself |
| Routing.SplitInvertsJoin | internal/config/config.go:410-410 | splitting inverts joining on comma-free entries |
| Routing.JoinInvertsSplit | internal/config/config.go:410-410 | joining inverts splitting on every text |
| Routing.Registry.Register | internal/webhook/registry.go:71-78 | adds exactly once, refuses a second registration and changes nothing then |
| Routing.Registry.Build | internal/webhook/registry.go:86-103 | succeeds exactly when every enabled name is registered and builds, in list order |
| Routing.NewDispatcher | internal/webhook/dispatcher.go:79-101 | panics exactly on duplicate names, else routes exactly the given providers |
| Routing.Wire | cmd/webhookd/main.go:199-228 | with factories true to their names: starts exactly when every enabled name builds, never panics on duplicates, and routes exactly the enabled set |
| Lifecycle.SendNeverBlocks | cmd/webhookd/main.go:233-248 | for every run: a returned listener can always complete its send |
| Lifecycle.MessagesAreSent | cmd/webhookd/main.go:233-270 | for every run: with the one received, the channel holds one message per listener that sent and one failure per listener that failed and sent |
| Lifecycle.NotReadyWhileDraining | cmd/webhookd/main.go:116-274 | for every run: readiness is on only after both listeners were started, always while the select waits, and never once draining begins |
| Lifecycle.CleanExit | cmd/webhookd/main.go:262-284 | for every run that ends: the exit is nil exactly when the select took the signal and both drains succeeded, so only after a signal; any other exit has a failed drain or a failed listener behind it |
| Lifecycle.HiddenFailure | cmd/webhookd/main.go:233-284 | for every run that ends: a listener failure goes with a nil exit exactly when the select took the signal and both drains succeeded |
| Lifecycle.CleanExitCanHideAFailure | cmd/webhookd/main.go:262-270 | a run with a failed listener and a nil exit |

## Left out

- Limiters.RateBound: operations on limiters happen in clock order; x/time/rate reads the clock before taking its lock, and stamps that arrive out of order are not modelled.
- TokenBucket.RetryAfterSuffices: float rounding and nanosecond truncation of durations are not modelled; arithmetic is exact.
- Signature.TimestampWindow: assumes a wall clock between year 1 and 2^62 seconds later.
- Signature.AcceptsExactlySpellings: assumes a non-empty MAC, which HMAC-SHA256 always produces.
- Resource.NameCollisions: lower-casing is exact on ASCII only; Unicode case folding is not modelled.
- Safety.ReadyIsSound: deletion and recreation of objects, and field-level merging with other managers, are not modelled.
- Reason strings, the response body shape, header names and Content-Type.
- Go's byte-level JSON parsing, case-insensitive member names and duplicate keys.
- Timing safety of the MAC comparison and the internals of HMAC-SHA256.
- Spans, logs, histograms' values and metric labels beyond the counters named above.
- The 503 answer of the public mux when no provider is enabled, percent-encoded paths, and mux matching.
- Configuration checks, and the parsing of durations and numbers.
- Whether a long wait fits the server's write timeout: nothing in the code relates the two.
- Kubernetes client construction, the admin mux, tracing set-up, charts and manifests: wiring only.
