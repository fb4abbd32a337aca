# Verified model of mcp-awareness

mcp-awareness is a Python server that keeps shared context for AI agents in PostgreSQL. Most of
it is SQL and protocol plumbing, but it also holds several small protocols and algorithms whose
correctness depends on whole runs. This project models those in Dafny 4.11 and proves what they
are for. `dafny verify dfyconfig.toml` checks everything.

| file | what it models |
|---|---|
| `EditDistance.dfy` | the two-row edit distance and the "did you mean" search, against edit scripts |
| `OrderedDicts.dfy` | the ordered dictionaries of the two limiters |
| `RateLimiting.dfy` | the pruned, bounded per-IP rate limiter with bans, against a limiter that never forgets |
| `OAuthProxy.dfy` | the order of the ban and the rate check, with one limiter for each route |
| `InflightSlots.dfy` | the per-owner concurrency counter with eviction, against the requests truly in flight |
| `RateLimitRuns.dfy`, `InflightRuns.dfy` | runs in which dropping entries of the two limiters costs as much as it can |
| `JwksRefresh.dfy` | the double-checked refresh of the signing-key client, any number of threads |
| `Options.dfy`, `Counting.dfy`, `Entries.dfy` | optional values, sizes, and rows of the entry table |
| `LockedUpserts.dfy` | alert and preference upserts under advisory locks, any number of transactions |
| `Changelogs.dfy` | in-place updates with a changelog, and the upsert by logical key |
| `SessionProtocol.dfy` | the session registry as interleaved handlers: owner binding and the session cap |
| `SessionCapRuns.dfy` | runs that attain the bound on sessions in every one of its terms |
| `SessionRelay.dfy` | the session middleware message by message: buffering, re-initialisation, replay |
| `RelayLaws.dfy` | what each request through that middleware does to the calls, the answer and the registry, and that the handlers of `SessionProtocol.dfy` do the same |
| `EmbeddingFreshness.dfy` | background embedding, staleness by hash, and the backfill |
| `SchemaRecords.dfy` | composite schema keys, pinned records, and the delete guard |
| `LanguageBackfill.dfy` | the batch loop of the language backfill script and migration |
| `Suppressions.dfy`, `Briefings.dfy` | alert suppression and the briefing |

Classes carry the fields that the Python objects update, and each of their methods is proved
against a specification function of the old state; the theorems are about those functions, over
all inputs and all runs. Concurrent code is a state machine whose events are single shared
accesses. Time is a number given to each step that never decreases. Hashing, embedding, language
detection, language validation, case folding, pattern matching and the inner application are
arbitrary functions.

## What the proofs found

Eight natural claims do not hold of the code as it stands. Each is proved in the exact form that
does hold, with the failing case.

- **Session cap.** A re-initialisation whose old session dies before it is invalidated (expiry or
  DELETE while the inner app answers) adds a session. `SessionCap` bounds the load in every run,
  and `SessionCapAttained` gives, for every number of overlapping initialises, half-done
  re-initialisations and dead old sessions, a run that attains that bound; `CapExceeded` is its
  simplest case. No hypothesis about overlapping re-initialisations of one session is needed: the
  later one finds its old session dead and is counted there.
- **Owner check.** The middleware compares the owner of the session it looks up, which is the one
  in the last session header, while the app is called with the first. `CallsAreOwnedIff` and
  `DispatchIsOwnedIff` say exactly which requests reach the app only under ids that are nobody
  else's, and `SecondHeaderHidesFirst` gives the requests with two headers that do not.
  `OneHeaderIsOwned` proves the claim for a GET or POST with one session header. A DELETE is
  compared with no owner at all: `EndsIff` lists exactly what ends a live session, and
  `ForeignDelete` is a run in which another owner's DELETE does.
- **Schema delete guard.** `register_schema` accepts versions that contain a colon, but the guard
  splits the key at its last colon and then looks for records pinned to another pair. The guard
  works for versions without a colon and for those ending in one. `IntegrityIff` proves that no run
  from any intact store breaks integrity exactly when all pinned versions are of these kinds,
  `DeleteIntactIff` says which deletes break it, and `GuardWorksIff` gives the failing run.
- **Valid content.** A record's content is not always valid under the schema its own pin resolves
  to: created again with another pin, a record keeps its pin and gets content validated against
  the other one (`RecreatedRun`), and an own schema registered later shadows the system's
  (`ShadowedIsInvalid`). `StepValidIff` says for any one call whether it does harm, and
  `ContentValidIff` that content is valid throughout a run exactly if no call does.
- **Stale repair.** The backfill is described as re-embedding whatever changed, but its limit cuts
  the rows before staleness is tested. `RepairedIff` says exactly which stale entries a backfill
  repairs, `RepairedAtOnceOrNever` that the others are never repaired by any number of backfills,
  and `StarvedForever` exhibits one, for every limit, while all other entries are current.
- **Bans.** Bans are said to be bounded by the ban duration, but a ban is removed only when the
  same IP checks again after it expired. `BanKeptIff` says exactly which IPs have a stored ban, and
  `ExpiredBansStay` gives runs with any number of bans that expired any time ago.
- **Rate limiter space.** With `max_requests` below 1 the refusal branch tracks IPs and never
  drops one (`SpaceBoundedIff`; `FloodGrows` is the failing run).
- **Updates that only fill empty fields.** `update_entry` returns the new values but writes
  nothing (`ShownButNotStoredIff`; `FirstDescriptionIsLost` is the failing case).

Where the two limiters drop a counter for space they forget requests on purpose. The proofs say
what that costs: `OverrunBounded` and `DropsBoundOverrun` bound the excess by the number of drops,
and in both cases `OverrunAttained` gives a run that attains the bound, for every limit and every
number of drops.

One more comment differs from the code, and the model follows the code: the language migration's
comment says that a batch without updates means all remaining rows are `simple`, which holds only
below the threshold of `CompleteIff`.

## Assumptions

- Ids that the code makes up are new. In the session protocol a new session id is also carried by
  no request already under way.
- `LockedUpserts`: the data of an upsert repeats its own key, as `report_alert` and
  `set_preference` see to; `FoundAgainIff` shows why this is needed. No other writer touches the
  same rows.
- `JwksRefresh`: the TTL is not negative. `InflightSlots`: only admitted requests finish, and each
  finishes once.
- `EmbeddingFreshness`: the provider returns the vectors of the first texts in order, perhaps of
  fewer texts than it was given or of none.
- `SchemaRecords`: system schemas are fixed during a run, and the validation of content against a
  schema body is a function of the two.
- `SessionRelay`: the request body ends, and the inner app answers with one start message and a
  finished body. An answer may depend on the whole call and on the number of earlier calls.
- `SessionProtocol`: a request carries at most one session header. `SessionRelay`: the app takes its
  session id from the first one.
- `SessionProtocol`, `SessionRelay`: the registry database does not fail. Registering a known id
  does fail, as its primary key makes it.

## Model

| member | source | states |
|---|---|---|
| `EditDistance.Levenshtein` | src/mcp_awareness/helpers.py:216-234 | the two-row, argument-swapping loop returns the length of a shortest script of insertions, deletions and substitutions from `a` to `b` |
| `EditDistance.EntryIsDistance` | src/mcp_awareness/helpers.py:223-234 | the value held for two prefixes is attained by some edit script and beaten by none |
| `EditDistance.EntryOneEdit` | src/mcp_awareness/helpers.py:223-234 | no single edit, at any position, lowers the table entry by more than one |
| `EditDistance.EntryIsAttained` | src/mcp_awareness/helpers.py:223-234 | an explicit edit script of exactly the table entry's length exists |
| `EditDistance.RowStep` | src/mcp_awareness/helpers.py:225-233 | one turn of the inner loop extends a correct row prefix to a correct longer one |
| `EditDistance.DistanceZeroIffEqual` | src/mcp_awareness/helpers.py:216-234 | the distance is zero exactly for equal strings |
| `EditDistance.DistanceSymmetric` | src/mcp_awareness/helpers.py:218-219 | the distance is symmetric, which is what makes swapping the arguments sound |
| `EditDistance.DistanceTriangle` | src/mcp_awareness/helpers.py:216-234 | the distance satisfies the triangle inequality |
| `EditDistance.Suggest` | src/mcp_awareness/helpers.py:237-253 | None exactly when the value is valid already or nothing lies within two case-folded edits; otherwise the first of the nearest valid values |
| `EditDistance.DistancesAreDistances` | src/mcp_awareness/helpers.py:249 | the distances the search compares are the edit distances of the case-folded strings, and no other number is |
| `OrderedDicts.PutLastValid` | src/mcp_awareness/oauth_proxy.py:173-174 | assigning and moving to the end keeps the keys distinct and adds at most one |
| `OrderedDicts.PutLastRanked` | src/mcp_awareness/oauth_proxy.py:173-176 | moving to the end keeps the keys in order of last use |
| `RateLimiting.RateLimiter.CheckRequest` | src/mcp_awareness/oauth_proxy.py:149-177 | the verdict and the whole new state (windows, order, bans, counter) of one check |
| `RateLimiting.RateLimiter.BanIp` | src/mcp_awareness/oauth_proxy.py:179-183 | a ban stores its expiry and leaves every window alone |
| `RateLimiting.Refinement` | src/mcp_awareness/oauth_proxy.py:149-177 | in every run, for an IP never dropped for space, the decision equals that of an independent limiter that never forgets a request |
| `RateLimiting.FewIpsRefine` | src/mcp_awareness/oauth_proxy.py:149-177 | if no more IPs than the cap were seen, every decision of the run equals the unbounded limiter's |
| `RateLimiting.DropMattersIff` | src/mcp_awareness/oauth_proxy.py:161-177 | in every run a decision differs from that of the IP's whole log exactly when the window is full but was not filled since the IP was last dropped; one window after a drop it never differs |
| `RateLimiting.RefusalHasReason` | src/mcp_awareness/oauth_proxy.py:153-170 | in every run, whatever was forgotten, a refused IP is banned or truly has `max_requests` allowed requests in the window |
| `RateLimiting.NoWindowOverfull` | src/mcp_awareness/oauth_proxy.py:161-177 | since an IP was last dropped, no half-open interval of the window's length holds more than `max_requests` allowed requests; nor does any later interval of its whole log |
| `RateLimiting.OverrunBounded` | src/mcp_awareness/oauth_proxy.py:161-177 | in every run an interval of the window's length holds at most `max_requests` allowed requests of an IP for each of its drops in that interval, and once more |
| `RateLimitRuns.SomeDropMatters` | src/mcp_awareness/oauth_proxy.py:175-176 | for every positive limit, a run after which a dropped IP is allowed although its window is full |
| `RateLimiting.RunInvariant` | src/mcp_awareness/oauth_proxy.py:149-183 | what is kept for an IP is always the end of its log since it was last dropped, complete up to the window, and IPs are in order of last check |
| `RateLimiting.RunBounded` | src/mcp_awareness/oauth_proxy.py:165-176 | with `max_requests` at least 1, at most the cap many IPs are tracked, each with a sorted list of one to `max_requests` times |
| `RateLimiting.SpaceBoundedIff` | src/mcp_awareness/oauth_proxy.py:165-176 | the cap on tracked IPs holds in every run exactly when `max_requests` is at least 1 |
| `RateLimiting.FloodGrows` | src/mcp_awareness/oauth_proxy.py:165-170 | a limiter that allows nothing tracks every IP it refuses, without bound |
| `RateLimiting.ForgettingIsEarned` | src/mcp_awareness/oauth_proxy.py:175-176 | an IP is dropped only after at least the cap many other IPs completed a check since its own last one |
| `RateLimiting.BanRefuses` | src/mcp_awareness/oauth_proxy.py:153-157 | after a ban every check before its expiry is refused and changes nothing, in every continuation of the run |
| `RateLimiting.BanKeptIff` | src/mcp_awareness/oauth_proxy.py:153-157 | after any run an IP has a stored ban exactly when it was banned and has not been checked since the ban expired |
| `RateLimiting.ExpiredBansStay` | src/mcp_awareness/oauth_proxy.py:179-183 | for any number and any time, a run after which that many bans are stored that have all expired by then |
| `RateLimitRuns.OverrunAttained` | src/mcp_awareness/oauth_proxy.py:161-177 | for every positive limit and every number of drops, a run in which one IP gets exactly as many requests into a window as `OverrunBounded` allows |
| `OAuthProxy.OAuthProxyMiddleware.Admit` | src/mcp_awareness/oauth_proxy.py:379-404 | a 403 exactly for a bogus request, which bans its IP on its route and is not counted; any other is checked there; the other routes' limiters are untouched |
| `OAuthProxy.RoutesAreIndependent` | src/mcp_awareness/oauth_proxy.py:312-328 | after any requests to all routes each limiter is where its own route's requests alone take it |
| `OAuthProxy.ForwardedIff` | src/mcp_awareness/oauth_proxy.py:379-404 | in every run a bogus request gets a 403; any other is forwarded if a limiter of its route that never forgets would allow it and gets a 429 if not, unless its IP was dropped |
| `OAuthProxy.BogusBansItsRoute` | src/mcp_awareness/oauth_proxy.py:379-404 | after a bogus request every other request of the IP to that route gets a 429 until the ban expires, whatever happens in between |
| `InflightSlots.OwnerSlots.TryAdmit` | src/mcp_awareness/middleware.py:257-264 | the verdict and the new table of the admission section |
| `InflightSlots.OwnerSlots.Release` | src/mcp_awareness/middleware.py:277-284 | the new table of the release section |
| `InflightSlots.RunSound` | src/mcp_awareness/middleware.py:255-284 | in every interleaving, even with evictions, each stored count lies between 1 and the limit and is at most the owner's true in-flight number |
| `InflightSlots.RefusalIsGenuine` | src/mcp_awareness/middleware.py:258-267 | a 429 is never spurious: the refused owner truly has the limit in flight |
| `InflightSlots.RunExact` | src/mcp_awareness/middleware.py:257-284 | if no more owners than the cap are ever live at once, stored counts are exact and no owner exceeds the limit |
| `InflightSlots.ExactIffFewOwners` | src/mcp_awareness/middleware.py:257-284 | the counts are exact after every step of a run exactly when never more owners than the cap are live at once |
| `InflightSlots.DropLetsOwnerExceed` | src/mcp_awareness/middleware.py:263-264 | from any exact full table one more owner lets the owner admitted longest ago exceed the limit |
| `InflightSlots.DropsBoundOverrun` | src/mcp_awareness/middleware.py:257-284 | in every interleaving an owner has at most the limit in flight for each time its counter was dropped, and once more |
| `InflightRuns.OverrunAttained` | src/mcp_awareness/middleware.py:257-264 | for every positive limit and every number of drops, a run from the start in which one owner has exactly as many requests in flight as `DropsBoundOverrun` allows |
| `JwksRefresh.OAuthTokenValidator.PassGate` | src/mcp_awareness/oauth.py:125-134 | undisturbed, the gate refreshes exactly when the fetch is older than the TTL and leaves a fetch fresh enough for the caller |
| `JwksRefresh.RefreshGate` | src/mcp_awareness/oauth.py:125-134 | for any number of interleaved threads refreshes are strictly more than the TTL apart, a thread past the gate uses a client at least as recent as a fetch no older than its own time minus the TTL, and the lock excludes |
| `JwksRefresh.NextKeepsInv` | src/mcp_awareness/oauth.py:127-132 | every single shared access keeps the invariant that ties client, timestamps, lock and captured times |
| `LockedUpserts.Linearizable` | src/mcp_awareness/postgres_store.py:302-392 | every interleaving under any lock hash, from any table with at most one row per key, leaves exactly the rows of the committed upserts run one after the other in commit order, each the fold of its upserts over the row it had, and all rows without an upsert key unchanged; each transaction returned its sequential result |
| `LockedUpserts.NextKeepsInv` | src/mcp_awareness/postgres_store.py:318-346 | each step (lock, read, write, commit, abort) keeps what other transactions have read or written valid |
| `LockedUpserts.RowIsFold` | src/mcp_awareness/postgres_store.py:327-346 | from any table, a key's row keeps everything but tags, data and update time of the row it had, or else is the first insert field by field (the alert's source, the preference's scope as source, language `simple`, no changelog); it has the last tags, and its data is the left fold of all merges over the data it had |
| `LockedUpserts.LastWriterStays` | src/mcp_awareness/postgres_store.py:332 | no lost update: a field holds what the last committed upsert that wrote it put there |
| `LockedUpserts.FoundAgainIff` | src/mcp_awareness/sql/select_alert_for_update.sql:6-9 | an inserted row is found again under its key exactly when the data repeats that key |
| `LockedUpserts.KeyOfSays` | src/mcp_awareness/sql/select_alert_for_update.sql:6-9 | the key of a row: an alert's owner, source and alert id, a preference's owner, name and scope |
| `LockedUpserts.EntryTable.UpsertRow` | src/mcp_awareness/postgres_store.py:323-346 | one undisturbed transaction updates the row of the key or inserts one, the table stands for the sequential result, and rows without an upsert key are unchanged |
| `Changelogs.AssignFields` | src/mcp_awareness/postgres_store.py:650-655 | the loop over the tracked fields assigns exactly the differing ones and collects exactly their non-null old values |
| `Changelogs.Diff` | src/mcp_awareness/postgres_store.py:641-655 | the new field values and the changelog record of one update |
| `Changelogs.CollectUpdates` | src/mcp_awareness/postgres_store.py:724-732 | the upsert's own loop collects exactly the non-null values that differ from the stored row |
| `Changelogs.ApplyUpdates` | src/mcp_awareness/postgres_store.py:737-749 | the upsert's own inline code applies what was collected and records the old values |
| `Changelogs.EntryStore.UpdateInPlace` | src/mcp_awareness/postgres_store.py:724-767 | for an existing row the collecting loop, the early return and the inline code leave the row and the table that an update with the same differences leaves |
| `Changelogs.EntryStore.UpdateEntry` | src/mcp_awareness/postgres_store.py:628-675 | the outcome and the whole new table, including refusals, and the unique slot is kept |
| `Changelogs.UpdateRedoes` | src/mcp_awareness/postgres_store.py:628-675 | if something is recorded, the entry returned is the row stored: every requested value is in it, the language as validated if it differs, everything else as before, and one more record |
| `Changelogs.UpdateRecordSays` | src/mcp_awareness/postgres_store.py:641-667 | the record holds the time and the old value of exactly what changed and was there |
| `Changelogs.UpdateSays` | src/mcp_awareness/postgres_store.py:628-640 | refused exactly for a missing or foreign row or an immutable type; a violation exactly if a recorded change of source meets another row in the slot; otherwise the table changes exactly if something is recorded |
| `Changelogs.UpsertFieldsSay` | src/mcp_awareness/postgres_store.py:724-749 | what an upsert of an existing row returns: the given tags, every given value that is not null, and everything else as before |
| `Changelogs.EntryStore.UpsertByLogicalKey` | src/mcp_awareness/postgres_store.py:677-767 | inserts exactly when the slot is free; otherwise, for a mutable type, leaves exactly the table and returns exactly the entry of `update_entry` with the differing tags and non-null fields, though by separate code |
| `Changelogs.UpsertIsUpdate` | src/mcp_awareness/postgres_store.py:633-635 | given the differences an upsert asks for, `update_entry` never collides and goes through exactly for mutable types |
| `Changelogs.UpsertTwice` | src/mcp_awareness/postgres_store.py:724-735 | repeating an upsert at once leaves the stored row unchanged |
| `Changelogs.UnrecordedIsUnstored` | src/mcp_awareness/postgres_store.py:657-658 | an update that records no old value leaves the stored row unchanged, and only such an update adds no record |
| `Changelogs.ShownButNotStoredIff` | src/mcp_awareness/postgres_store.py:650-658 | the returned entry differs from the stored one exactly when every requested change is a first value for an empty field |
| `Changelogs.FirstDescriptionIsLost` | src/mcp_awareness/postgres_store.py:650-658 | the failing case: a first description is returned to the caller and not stored |
| `Changelogs.ChangelogUndoes` | src/mcp_awareness/postgres_store.py:628-675 | after any non-null updates, undoing the records newest first restores everything but the time of the last update, and except exactly the tracked fields that were empty before and are filled now |
| `SessionProtocol.OwnerBinding` | src/mcp_awareness/session_registry.py:343-390 | in every interleaved run each redirect joins two sessions of one owner, and a request inside the inner app under a live registered id belongs to that session's owner |
| `SessionProtocol.RedirectsAcyclic` | src/mcp_awareness/session_registry.py:514-526 | in every run redirects never lead back, and a whole chain stays with one owner |
| `SessionProtocol.NextKeepsBound` | src/mcp_awareness/session_registry.py:343-574 | every registry operation and clock step keeps what each handler's position promises |
| `SessionProtocol.SessionCap` | src/mcp_awareness/session_registry.py:268-291 | with at most k overlapping initialises, active plus admitted sessions exceed max + k - 1 only by half-done re-inits and by completed ones whose old session had died |
| `SessionProtocol.SessionCapHolds` | src/mcp_awareness/session_registry.py:268-332 | if every re-init finds its old session still live, the load is at most max + k - 1 whenever none is half done |
| `SessionCapRuns.OrphanedReinit` | src/mcp_awareness/session_registry.py:514-526 | from any reachable state, completing a re-init whose old session has died takes the owner one session further |
| `SessionCapRuns.SessionCapAttained` | src/mcp_awareness/session_registry.py:268-332 | for every positive cap and every number of overlapping initialises, of half-done re-inits and of dead old sessions, a run attains the bound of `SessionCap` exactly |
| `SessionCapRuns.CapExceeded` | src/mcp_awareness/session_registry.py:514-526 | for every positive cap, a run with one initialise at a time ends one session above it |
| `SessionProtocol.ReinitStepCounts` | src/mcp_awareness/session_registry.py:514-526 | in every interleaving the steps of a re-init add one session, change nothing, and end one exactly if the old session is still live at that moment |
| `SessionProtocol.ReinitCount` | src/mcp_awareness/session_registry.py:514-526 | an undisturbed re-init leaves the active count unchanged exactly when the old session is still live, and otherwise adds one |
| `SessionProtocol.DeadStaysDead` | src/mcp_awareness/session_registry.py:557-574 | a session that has died, by expiry, DELETE or migration, is never live again in any run |
| `SessionProtocol.EndsIff` | src/mcp_awareness/session_registry.py:343-574 | in every interleaving a live session ends exactly by the clock, by a re-init of its own owner, or by a DELETE that names it, whoever sent that |
| `SessionCapRuns.ForeignDelete` | src/mcp_awareness/session_registry.py:557-566 | a run in which another owner's DELETE ends a live session |
| `SessionRelay.ReadBody` | src/mcp_awareness/session_registry.py:621-630 | reads up to the first last body message and no further, and joins the parts |
| `SessionRelay.BufferBody` | src/mcp_awareness/session_registry.py:611-644 | what the replaying receiver yields is exactly the stream as it was before buffering |
| `SessionRelay.ReplayReceiver.Receive` | src/mcp_awareness/session_registry.py:636-642 | yields the remaining stream message by message, buffered chunks first |
| `SessionRelay.ResponseGate.SendAll` | src/mcp_awareness/session_registry.py:400-417 | a success streams through whole and at once; anything else is held back whole |
| `SessionRelay.SessionRegistryMiddleware.HandleInitialize` | src/mcp_awareness/session_registry.py:268-341 | a 429 at the limit, otherwise the app's answer, and its offered session is registered |
| `SessionRelay.SessionRegistryMiddleware.HandleSubsequent` | src/mcp_awareness/session_registry.py:343-443 | the registry, the calls made to the app, the messages sent and the times of the last touches, for every path of a request with a session id |
| `SessionRelay.SessionRegistryMiddleware.Reinitialize` | src/mcp_awareness/session_registry.py:445-555 | until a replay is certain nothing reaches the client and the registry is untouched; then the same body is replayed |
| `SessionRelay.SessionRegistryMiddleware.HandleTerminate` | src/mcp_awareness/session_registry.py:557-574 | the app's answer is relayed, the session invalidated and redirects to it dropped |
| `SessionRelay.SessionRegistryMiddleware.DebouncedTouch` | src/mcp_awareness/session_registry.py:576-586 | a live session is touched when thirty seconds have passed since the last touch, and then only |
| `SessionRelay.PersistReinit` | src/mcp_awareness/session_registry.py:514-530 | registers, redirects and invalidates, or changes nothing when the id is already known |
| `SessionRelay.RewrittenNamesSession` | src/mcp_awareness/session_registry.py:588-596 | rewritten headers name exactly the new session, keep all others, and forget earlier rewrites |
| `SessionRelay.ExactlyOneResponse` | src/mcp_awareness/session_registry.py:392-443 | exactly one response is sent, as one start message, first, and one final message, last: an error made here, the app's answer to the request, or its relabelled answer to a replay of the same body under the new id |
| `SessionRelay.SessionRegistryMiddleware.Dispatch` | src/mcp_awareness/session_registry.py:256-266 | by method and the last session header, an empty one counting as none, a request is handled as an initialise, a tracked request, a DELETE or passed through |
| `SessionRelay.CallsAreOwnedIff` | src/mcp_awareness/session_registry.py:343-390 | a GET or POST calls the app only under ids that are not those of another owner's live session, before and after, exactly when it is redirected, refused, or its first session header names no such session |
| `SessionRelay.CallsAreOwned` | src/mcp_awareness/session_registry.py:381-390 | so no GET or POST whose first session header is the one looked up calls the app under the id of another owner's live session, neither before nor after |
| `SessionRelay.DispatchIsOwnedIff` | src/mcp_awareness/session_registry.py:256-266 | the same exact condition for every request that arrives, with DELETE and requests that name no session |
| `SessionRelay.OneHeaderIsOwned` | src/mcp_awareness/session_registry.py:381-390 | a GET or POST that names one session only never calls the app under the id of another owner's live session |
| `SessionRelay.SecondHeaderHidesFirst` | src/mcp_awareness/session_registry.py:256-257 | the failing requests: with a second session header that names no session, an own one or nothing, the app is called under the first one, whoever's it is |
| `SessionRelay.MigrationIsOneHop` | src/mcp_awareness/session_registry.py:358-373 | after a migration the id the client used still reaches its session exactly when it was not itself a redirected id |
| `SessionRelay.TerminatedIsForgotten` | src/mcp_awareness/session_registry.py:561-566 | after a DELETE no other id leads to the session any more, and ids that did not lead to it lead where they did |
| `RelayLaws.WhatIsRetried` | src/mcp_awareness/session_registry.py:419-430 | for a live session of the requester's own, a second call is made exactly if the app answers 400 or 404: an initialise without session headers; and a third exactly if that is answered with a success that offers a non-empty id without a row |
| `RelayLaws.WithReplay` | src/mcp_awareness/session_registry.py:499-555 | after a replay the new session is live for the owner from now, the old one ends now and is redirected to it, and nothing else changes; the replay has the new id, the other headers and the same body, and its answer reaches the client under the new id |
| `RelayLaws.WithoutReplay` | src/mcp_awareness/session_registry.py:432-443 | otherwise the app's first answer is relayed, and the registry is unchanged except that a success extends the session when a touch is due |
| `RelayLaws.WhoIsAsked` | src/mcp_awareness/session_registry.py:343-390 | the app is not asked at all exactly if the session is live and somebody else's, who gets a 403; for a session that is not live its answer is relayed; headers are rewritten exactly if the request was redirected |
| `RelayLaws.WhatIsRegistered` | src/mcp_awareness/session_registry.py:270-341 | a POST without a session id is refused with 429 exactly if the owner has as many live sessions as the limit; otherwise the session the answer offers is registered for the owner from now, and nothing else changes |
| `RelayLaws.WhatIsDeleted` | src/mcp_awareness/session_registry.py:557-566 | a DELETE is passed on; then exactly the named session ends now and exactly the redirects to it are gone |
| `RelayLaws.TouchEveryThirtySeconds` | src/mcp_awareness/session_registry.py:576-582 | after a touch the next is due exactly thirty seconds later or more, and other sessions are not affected |
| `RelayLaws.OffersIff` | src/mcp_awareness/session_registry.py:499-504 | an answer offers an id exactly if it is a success (200 to 299) whose first session header holds that id, not empty |
| `RelayLaws.StrippedAt` | src/mcp_awareness/session_registry.py:588-596 | removing session headers leaves every other header in its place |
| `RelayLaws.LastHeader` | src/mcp_awareness/session_registry.py:256-257 | the id looked up is the value of the last session header, unless that is empty |
| `RelayLaws.BodiesJoin` | src/mcp_awareness/session_registry.py:621-630 | the body of a request is the concatenation of the parts of its request messages |
| `RelayLaws.HandlerIsHandled` | src/mcp_awareness/session_registry.py:343-555 | the handlers of `SessionProtocol` and the middleware agree: a handler of a GET or POST with a session id that runs undisturbed ends with the registry `HandleSubsequent` leaves, whatever the app answers |
| `RelayLaws.InitialiserIsInitialized` | src/mcp_awareness/session_registry.py:268-341 | likewise for a POST without a session id and `HandleInitialize` |
| `RelayLaws.TerminatorIsDeleted` | src/mcp_awareness/session_registry.py:557-574 | likewise for a DELETE and `HandleTerminate` |
| `EmbeddingFreshness.IndexIsLastStored` | src/mcp_awareness/server.py:227-272 | in every interleaving of writes and of jobs that snapshot, hash, embed and store in separate steps, what is stored for an entry is the vector and the hash of the text carried by the last job that stored one |
| `EmbeddingFreshness.RunKeepsPaired` | src/mcp_awareness/tools.py:1577-1583 | in every interleaving a stored vector is the embedding of the very text whose hash is stored beside it, although both are matched by position in lists of different lengths |
| `EmbeddingFreshness.CurrentIffLastStored` | src/mcp_awareness/postgres_store.py:1289-1294 | in every interleaving an entry is current exactly when the last job that stored its embedding carried its present text, and reported stale exactly when that job carried another one |
| `EmbeddingFreshness.StaysCurrent` | src/mcp_awareness/server.py:264-272 | once an entry is current and no job holds another of its texts, it stays current in every continuation until its text changes |
| `EmbeddingFreshness.EmbeddingStore.GetStale` | src/mcp_awareness/postgres_store.py:1268-1295 | exactly the stale entries among the first `limit` embedded ones, in order |
| `EmbeddingFreshness.EmbeddingStore.EmbedRows` | src/mcp_awareness/tools.py:1571-1590 | stores the vector and hash of its own text for exactly the entries whose vector arrived and whose write succeeded, and counts them |
| `EmbeddingFreshness.EmbeddingStore.Backfill` | src/mcp_awareness/tools.py:1550-1619 | the whole index after both phases whatever fails, the numbers added and refreshed, and a remaining count that is zero exactly when nothing is missing |
| `EmbeddingFreshness.PhaseRefreshes` | src/mcp_awareness/tools.py:1571-1590 | an undisturbed job of the interleaved model leaves the index that one phase of the backfill leaves |
| `EmbeddingFreshness.SelectedIff` | src/mcp_awareness/sql/get_stale_embeddings.sql:8 | a row is selected exactly when it passes the test and fewer than `limit` rows before it do |
| `EmbeddingFreshness.FirstPhaseRows` | src/mcp_awareness/tools.py:1567-1569 | the first phase takes exactly the live entries without an embedding, suppressions excepted, that have fewer than `limit` such entries before them |
| `EmbeddingFreshness.SecondPhaseRows` | src/mcp_awareness/postgres_store.py:1268-1295 | the second phase takes exactly the live entries whose stored hash is not that of their text and that have fewer than `limit` live embedded entries before them |
| `EmbeddingFreshness.RowsByPosition` | src/mcp_awareness/tools.py:1571-1590 | the row at a position gets hash and vector of its own text exactly if its vector came and its write succeeded; no other row changes |
| `EmbeddingFreshness.BackfillRepairs` | src/mcp_awareness/tools.py:1567-1608 | after any run, a fully successful backfill whose limit covers the live entries makes every embeddable entry current |
| `EmbeddingFreshness.BackfillSettles` | src/mcp_awareness/tools.py:1550-1619 | as steps of the interleaved model, and once no job holds another text of an entry, such a backfill makes it current for good: in every continuation, until its text changes |
| `EmbeddingFreshness.RepairedIff` | src/mcp_awareness/tools.py:1567-1608 | a whole backfill makes a stale entry current exactly when it is live and fewer than `limit` live entries before it have an embedding or get one in the first phase |
| `EmbeddingFreshness.RepairedAtOnceOrNever` | src/mcp_awareness/tools.py:1567-1608 | the first backfill repairs a stale entry or no number of backfills ever does, under the same condition |
| `EmbeddingFreshness.StarvedForever` | src/mcp_awareness/sql/get_stale_embeddings.sql:8 | for every limit, a table with one stale live entry that stays stale for ever while all others are current |
| `SchemaRecords.RoundTripIff` | src/mcp_awareness/validation.py:34-40 | splitting a composed key recovers family and version exactly when the version has no colon |
| `SchemaRecords.SplitComposes` | src/mcp_awareness/postgres_store.py:1408-1411 | what is split off is colon-free and composes back to the key; only colon-free keys do not split |
| `SchemaRecords.SchemaStore.RegisterSchema` | src/mcp_awareness/tools.py:566-632 | refused for empty parts, an invalid body or a taken slot; otherwise one new schema row |
| `SchemaRecords.SchemaStore.FindSchema` | src/mcp_awareness/sql/find_schema.sql:8-15 | an own live schema with the key, or else the system's, or nothing exactly when neither exists |
| `SchemaRecords.SchemaStore.CreateRecord` | src/mcp_awareness/tools.py:663-736 | refused unless the pinned schema resolves and accepts the content; a row already in the slot keeps its pin and gets the content |
| `SchemaRecords.SchemaStore.UpdateEntry` | src/mcp_awareness/tools.py:782-845 | schemas are immutable, record content is validated against its own pin, pins never change |
| `SchemaRecords.SchemaStore.DeleteById` | src/mcp_awareness/tools.py:1012-1033 | a schema is deleted only when its key splits and no live record of the owner is pinned to the parts |
| `SchemaRecords.CreateSays` | src/mcp_awareness/tools.py:663-736 | a record is created exactly if a schema was found and the content conforms to it; in a free slot it is then one new row |
| `SchemaRecords.CreateInTakenSlotSays` | src/mcp_awareness/postgres_store.py:724-749 | in a taken slot only the content changes, and not if it is null, the row is a schema, or nothing is recorded |
| `SchemaRecords.FoundSays` | src/mcp_awareness/sql/find_schema.sql:8-15 | the schema found is live, has the composed key and is the caller's own or, if the caller has none, the system's; nothing is found exactly if there is neither |
| `SchemaRecords.RegisterSays` | src/mcp_awareness/tools.py:566-632 | registered exactly if both parts are non-empty, the body is a schema and no live row of the owner has the source and key |
| `SchemaRecords.UpdateSays` | src/mcp_awareness/tools.py:782-845 | goes through exactly for the owner's live row of a mutable type, if new content of a record conforms to the schema found and no other live row has the new slot; the pin stays |
| `SchemaRecords.DeleteSays` | src/mcp_awareness/tools.py:1012-1033 | goes through exactly for the owner's live row and, for a keyed schema, if its key splits at the last colon into two non-empty parts that no live record of the owner is pinned to |
| `SchemaRecords.IntegrityOfRuns` | src/mcp_awareness/validation.py:117-121 | over every run of the four calls with pinned versions that are colon-free or end in a colon, every live record's pin still resolves to an own or system schema |
| `SchemaRecords.IntegrityIff` | src/mcp_awareness/validation.py:117-121 | for any allowed versions: no run from any intact store breaks integrity exactly when each of them is colon-free or ends in a colon |
| `SchemaRecords.DeleteIntactIff` | src/mcp_awareness/postgres_store.py:1394-1421 | an accepted delete from any intact store keeps integrity exactly when no live record with an unguarded pin has the schema as its only one |
| `SchemaRecords.GuardWorksIff` | src/mcp_awareness/postgres_store.py:1394-1421 | register, pin and delete leave the record resolving exactly when the version has no colon or ends in one |
| `SchemaRecords.StepValidIff` | src/mcp_awareness/tools.py:566-736 | from any table in which every record's content is valid under its own pin, an accepted call keeps it so exactly if it does not spoil any, which the table and the arguments tell beforehand |
| `SchemaRecords.ContentValidIff` | src/mcp_awareness/tools.py:566-736 | in every run content is valid throughout exactly if no call spoils any |
| `SchemaRecords.FreeCreateNeverSpoils` | src/mcp_awareness/tools.py:663-736 | a create into a free slot never spoils content while all candidates for its key agree |
| `SchemaRecords.SpoilersAre` | src/mcp_awareness/tools.py:566-845 | then the only calls that spoil content are registering or deleting a schema that changes which is preferred, and creating a record again in the slot of one with another pin |
| `SchemaRecords.RecreatedRun` | src/mcp_awareness/postgres_store.py:724-749 | a run from an empty store in which creating a record again with another pin leaves content that is invalid under its own pin |
| `SchemaRecords.ShadowedIsInvalid` | src/mcp_awareness/sql/find_schema.sql:8-15 | registering an own schema under the key of a system's makes the content of records it does not accept invalid |
| `LanguageBackfill.Fetch` | scripts/backfill_language.py:95-101 | exactly the candidates of the page, in creation order |
| `LanguageBackfill.UpdateBatch` | scripts/backfill_language.py:106-126 | one batch updates exactly the resolvable rows among the first hundred candidates and counts them |
| `LanguageBackfill.Backfill` | alembic/versions/l7g8h9i0j1k2_backfill_entry_language.py:72-107 | the loop terminates with exactly the resolvable rows updated that have fewer than a hundred genuinely simple rows before them, and returns their number |
| `LanguageBackfill.BackfillOwners` | scripts/backfill_language.py:88-139 | the rows after the passes of all owners |
| `LanguageBackfill.DryRun` | scripts/backfill_language.py:92-131 | changes nothing and counts every resolvable row once |
| `LanguageBackfill.BatchKeepsFinal` | scripts/backfill_language.py:92-135 | no batch changes where the whole pass ends |
| `LanguageBackfill.BatchCounts` | scripts/backfill_language.py:126-127 | the updates of a batch and those still to come add up to those of the pass |
| `LanguageBackfill.OnlyResolvedLanguages` | scripts/backfill_language.py:112-125 | a pass sets the resolved language in exactly those live `simple` rows it sees whose language is resolved and that have fewer than a hundred unresolved ones before them; every other row stays as it was |
| `LanguageBackfill.UpdatedIsChanged` | scripts/backfill_language.py:122-127 | the number a pass returns is that of the rows it changes |
| `LanguageBackfill.DryRunIsResolvable` | scripts/backfill_language.py:128-131 | the number a dry run returns is that of the live `simple` rows it sees whose language is resolved |
| `LanguageBackfill.PassIsIdempotent` | scripts/backfill_language.py:31-32 | a second pass changes nothing |
| `LanguageBackfill.CompleteIff` | scripts/backfill_language.py:132-135 | no resolvable row is left exactly when none has a full batch of genuinely simple rows before it |
| `LanguageBackfill.DryRunBounds` | scripts/backfill_language.py:128-135 | the dry run's count bounds the real one, with equality exactly when the pass is complete |
| `LanguageBackfill.OwnersIndependent` | scripts/backfill_language.py:88-99 | each row ends as its own owner's pass over the original rows leaves it |
| `Suppressions.FirstMatchDecides` | src/mcp_awareness/collator.py:55-98 | an alert is suppressed exactly when the first unexpired matching suppression is not broken through |
| `Suppressions.FirstDecides` | src/mcp_awareness/collator.py:69-96 | an unexpired first suppression with the alert's source or none, its metric or none, and no tags, a shared or a mentioned one decides: the alert is hidden unless the suppression escalates and the alert is more severe, info before warning before critical |
| `Suppressions.OtherSourceNeverMatters` | src/mcp_awareness/collator.py:75-77 | a suppression for another source can be removed anywhere |
| `Suppressions.OtherMetricNeverMatters` | src/mcp_awareness/collator.py:79-82 | so can one for another metric |
| `Suppressions.OtherTagsNeverMatter` | src/mcp_awareness/collator.py:34-52 | so can one with tags of which the alert shares none and mentions none in its id, message or metric |
| `Suppressions.RaisingNeverHides` | src/mcp_awareness/collator.py:91-96 | raising an alert's severity never turns it from surfaced to suppressed |
| `Suppressions.AppendingNeverMatters` | src/mcp_awareness/collator.py:298 | suppressions appended, as global ones are, decide only when nothing before them matches |
| `Suppressions.ExpiredNeverMatters` | src/mcp_awareness/collator.py:70-72 | so can one whose time of expiry is now or before |
| `Briefings.Evaluate` | src/mcp_awareness/collator.py:302-348 | a source's status, headline alert and counters, each counter by its own test |
| `Briefings.EntrySays` | src/mcp_awareness/collator.py:302-348 | a source is stale by its age; otherwise its status and headline alert are those of its alerts that no own or global suppression hides and no pattern expects |
| `Briefings.TraceSays` | src/mcp_awareness/collator.py:310-336 | a source's counters are the numbers of its alerts hidden, of the others expected, and of those neither |
| `Briefings.EvaluateAll` | src/mcp_awareness/collator.py:294-348 | entries and trace of all sources; attention so far exactly when something is stale or surfaced |
| `Briefings.TopAlert` | src/mcp_awareness/collator.py:338-341 | an alert of the highest severity |
| `Briefings.TraceBalances` | src/mcp_awareness/collator.py:392-400 | alerts checked are those suppressed, pattern-matched and surfaced, counted independently |
| `Briefings.CountersAgree` | src/mcp_awareness/collator.py:316-324 | the length differences before and after each filter are the counts of alerts by test |
| `Briefings.Collator.FireDue` | src/mcp_awareness/collator.py:356-360 | exactly the pending intentions with a delivery time that has passed become fired, with the time and the old state in the changelog, and no other changes |
| `Briefings.Collator.GenerateBriefing` | src/mcp_awareness/collator.py:260-405 | attention exactly when a source is stale, an alert surfaced or an intention is fired; the counts are the numbers of fired and pending intentions, and the parts of the summary those of sources by status |
| `Briefings.AllClearIff` | src/mcp_awareness/collator.py:199-227 | the summary is all-clear exactly when attention is not needed |
| `Briefings.ListedAreTheTop` | src/mcp_awareness/collator.py:366-384 | the listed items are fired intentions, at most ten, and none ranks below an omitted one |
| `Briefings.NoLaterSays` | src/mcp_awareness/collator.py:366-371 | the order of the list: high before normal and unknown, those before low, then the one touched last |
| `Briefings.FiringOnce` | src/mcp_awareness/postgres_store.py:1211-1226 | after firing, exactly the due and the already fired intentions are fired, and firing again does nothing |

## Left out

- SQL execution, pooling, row-level security and DDL: tables are maps with the meaning of the
  statements in `src/mcp_awareness/sql/`. In particular the language backfill here sees an owner's
  own rows only. Under the policy of `alembic/versions/n9i0j1k2l3m4_rls_allow_system_schema_reads.py`
  every owner also reads `_system` schemas but may not write them, so that the script's UPDATE of a
  `simple` system schema with a resolvable language would raise; that is not modelled.
- Store failures in the session middleware and its fall-through on them, requests for other paths
  or by other methods, and the content of the synthetic initialise request.
- `SessionRelay` handles one request at a time and relays an answer once the inner app has given
  it; other requests in between are the subject of `SessionProtocol`. The text of the error
  bodies made here is left empty.
- Wall-clock strings kept for the health endpoint (`_last_rate_limited`, `_last_ban`) and proxy
  statistics: output only.
- `upsert_status`, `update_entry` and `update_intention_state` under concurrency: nothing spans
  their read and write, so they are modelled one call at a time.
- JSON parsing, JSON Schema validation, JWT checks, OIDC discovery and HTTP proxying: library code; a verdict is
  a parameter where one is needed.
- Bulk deletes, restores and the purge of expired entries, except that embedding rows may be
  purged with their entry.
- Pattern conditions, headlines and suggested mentions of the briefing: pattern matching is a
  parameter, and the summary is given by its parts.
- Hybrid search, pagination, intentions other than firing, the command line, prompts, resources and
  benchmarks: they would add only easy members.
- LanguageBackfill.Backfill: rows with equal creation times are taken in one fixed order, because
  the query leaves their order open.
- Briefings.Collator.GenerateBriefing: equally ranked intentions keep the order of the list, not
  the order the query returns after firing.
- SchemaRecords.SchemaStore.CreateRecord: the tags and description that an existing row in the slot
  receives are not modelled, except for whether their change is recorded, because neither pins nor
  the validity of content depend on them.
- EmbeddingFreshness.EmbeddingStore.Backfill: runs undisturbed between its steps; the interleaved
  steps are those of the jobs of the same module.
