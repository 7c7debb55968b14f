# Verified model of the base API service

A Dafny model of the parts of the service that carry an algorithm or a protocol, with proofs of what
they promise. `dafny verify dfyconfig.toml` checks all of it.

| files | what they model |
|---|---|
| `token_bucket`, `bucket_run`, `denied_requests`, `valkey_store` | the Lua token-bucket script, its runs on one key, what denials leave behind, and the Go store with key expiry |
| `rate_limit_headers`, `rate_limit_middleware` | the 429 headers (`Retry-After` is section 10.2.3 of RFC 9110) and the middleware over traffic from many clients |
| `audit_queue`, `audit_invariant`, `audit_results`, `audit_outcomes` | the asynchronous audit repository as interleaved atomic steps, its invariant, what follows for every run, and its counters against what the steps themselves say |
| `audit_repository` | the same repository's methods and loops as one goroutine runs them |
| `server_lifecycle`, `shutdown` | the cleanup stack, the order of `Run`, and the two audit queues against the database pool |
| `notes_table`, `notes_repository`, `notes_service`, `text` | the notes table and its keyset page query, the repository, validation and the service operations |
| `notes_scan`, `notes_coherence`, `notes_inputs`, `interrupted_updates` | a client following `NextCursor` while the table changes; create, update and delete calls cut at their reads and writes; what a stored note has to do with its request; what an update keeps when others run in between |
| `startup_retry` | the database startup loop, its 64-bit backoff and the ownership of the pool |
| `capture`, `round_trip` | the bounded body capture, and the round trip with its finalize-once body and in-flight gauge |
| `redaction_keys`, `redaction`, `audited_body` | the two JSON redactors and what an audit record keeps of a body |
| `rounding`, `wrappers` | ceilings and 64-bit wrap-around; `Option` and `Result` |

Protocols between goroutines, clients or calls are state machines: `Enabled` says when an atomic step can
be taken, `Apply` what it does, and a run is any sequence of enabled steps. Theorems about runs hold for
every run. Code that updates fields in place is a class whose methods are proved against functions of the
old state, and the theorems are about those functions. What the outside world does (clock readings,
generated ids, answers of the weather client, how many bytes a read yields, whether a write succeeds, when
a timer fires) is a parameter or a step, so the theorems hold for every behaviour of it.

Some promises hold only under a condition. Each of these is proved to be the exact one, with an input on
which the promise fails:

- `Retry-After` is the least number of seconds that suffices if and only if the wait fits the 64-bit
  nanosecond duration it passes through (`RetryAfterExactIffItFits`); at one request per 100 billion seconds
  it does not (`SlowRateHeaderWraps`).
- No run of later requests starting at a reading t can tell that a request was denied at d, on a pair stored
  at u, if and only if u <= d <= t, or u = d, or t <= d < u, or the bucket is full again at t anyway
  (`DenialInvisibleToRunsIffInOrder`); with one clock that never steps back it is always so.
- The truncation flag of the outbound audit is right for every body consistent with what was observed if and
  only if EOF was seen, the limit exceeded or the length announced (`FlagRightIffEndKnown`,
  `UnfinishedReadLooksTruncated`). A content length of 0 announces an empty response, but on a request with a
  body it means an unknown length, so a request body that was never read passes for an empty one
  (`UnreadRequestLooksWhole`).
- The flag of the request audit, which looks at less, is right if and only if EOF was seen, the limit exceeded
  or all announced bytes read (`RequestFlagRightIffReadThrough`, `HalfReadRequestCountsAsWhole`).
- Two servers' routes can share a rate-limit key if and only if the labels of one, with their colons, are a
  start of the other's and the rest of those, put before some client, is a client again
  (`LabelsCollideIffRestJoinsClients`, `ColonInRouteCollides`).
- What others write to a field that an update leaves out survives the update if and only if they left it at
  the value the update had read (`LeftOutFieldSurvivesIffUntouched`, `ConcurrentUpdateLosesTitle`).

## Model

| member | source | states |
|---|---|---|
| `TokenBucket.RefillReaches` | internal/ratelimit/valkey.go:40-51 | milliseconds earn an amount of tokens exactly when they are at least the rounded-up wait the script computes |
| `TokenBucket.LevelBounds` | internal/ratelimit/valkey.go:33-56 | the bucket stays between nothing and the burst, and what is stored stays so |
| `TokenBucket.LevelAfter` | internal/ratelimit/valkey.go:36-56 | the next request sees what was left plus the refill of the clock's forward step only |
| `TokenBucket.ExpiredBucketIsFull` | internal/ratelimit/valkey.go:54-57 | a key past its lifetime would have been full: the script answers as on a missing key |
| `TokenBucket.ScriptTtlCoversIdleTtl` | internal/ratelimit/valkey.go:159-168 | the script's lifetime in nanoseconds is at least `IdleTTL` and less than 1 ms longer |
| `TokenBucket.IdleTtlHasMinimum` | internal/ratelimit/valkey.go:159-168 | no policy gets less than a second, an invalid one exactly that |
| `BucketRun.LevelWithinEveryWindow` | internal/ratelimit/valkey.go:33-56 | for any stored start and any clock the level is at most the unspent budget of every window ending here |
| `BucketRun.LevelMeetsSomeWindow` | internal/ratelimit/valkey.go:33-56 | from an empty key space some window has exactly that much unspent |
| `BucketRun.DeniedIffSomeWindowIsSpent` | internal/ratelimit/valkey.go:29-56 | request n is denied if and only if one more would overspend burst plus rate over the forward time of some window, for any clock |
| `BucketRun.DeniedIffSomeElapsedWindowIsSpent` | internal/ratelimit/valkey.go:29-56 | with a clock that never steps back, the same in elapsed time |
| `BucketRun.BucketRefinesWindows` | internal/ratelimit/valkey.go:29-56 | the one stored pair allows exactly what a reference limiter allows that keeps the whole history and checks all windows |
| `BucketRun.WindowBound` | internal/ratelimit/valkey.go:33-48 | between any two requests at most burst plus rate times the positive clock increments are allowed, whatever the clock does |
| `BucketRun.ElapsedWindowBound` | internal/ratelimit/valkey.go:33-56 | with a monotone clock the bound is burst plus rate times elapsed time |
| `BucketRun.RetryHintIsExact` | internal/ratelimit/valkey.go:46-52 | after a denial with retry m a next call is allowed if and only if it comes at m milliseconds or later; m is at least 1 |
| `BucketRun.RemainingIsExact` | internal/ratelimit/valkey.go:46-59 | the reported remaining count is exactly how many more calls at that instant are allowed |
| `BucketRun.ExpiryLeavesNoTrace` | internal/ratelimit/valkey.go:54-57 | with one clock, dropping the key after its lifetime changes no reply of any run |
| `BucketRun.RepliesAreTheRun` | internal/ratelimit/valkey.go:56-59 | the sequence of replies is the one of the step-by-step run |
| `DeniedRequests.DenialInvisibleIffInOrder` | internal/ratelimit/valkey.go:36-59 | for every stored reading u, denial d and later reading t, in any order, the later call finds, answers and stores the same as without the denial if and only if the three are in order or the bucket is full again at t |
| `DeniedRequests.ReplySameIffInOrder` | internal/ratelimit/valkey.go:44-59 | its reply alone is the same if and only if they are in order, or it is let through anyway with the same whole number of tokens |
| `DeniedRequests.DenialInvisibleToRunsIffInOrder` | internal/ratelimit/valkey.go:36-59 | no run of later requests starting at t can tell, under the same exact condition |
| `DeniedRequests.DenialBehindStoredReadingShows` | internal/ratelimit/valkey.go:36-38 | a denial behind the stored reading that shortens a later wait |
| `DeniedRequests.DenialAheadOfLaterReadingsShows` | internal/ratelimit/valkey.go:36-56 | a denial ahead of later readings that turns one of them from denied to allowed |
| `DeniedRequests.DeniedRequestLeavesNoTrace` | internal/ratelimit/valkey.go:40-57 | for any clock, removing or inserting a denied request whose reading is in order with its neighbours' changes no other decision, remaining count or wait |
| `DeniedRequests.OnlyAllowedRequestsMatter` | internal/ratelimit/valkey.go:40-57 | with a monotone clock, dropping all denied requests at once leaves the allowed ones their replies |
| `ValkeyStore.Store.Allow` | internal/ratelimit/valkey.go:102-152 | an invalid policy or a lost command touches nothing; otherwise exactly the request's key holds the script's hash and expiry, even when the reply is lost |
| `RateLimitHeaders.AcceptedOverridesResolveValid` | internal/ratelimit/types.go:38-80 | overrides the configuration accepts never resolve to a policy the store rejects, and switch limiting off exactly where they say so |
| `RateLimitHeaders.OverrideReplacesFieldByField` | internal/ratelimit/types.go:61-80 | each field an override sets replaces the default's, each it leaves out keeps it, a disabled one switches limiting off, and other routes see nothing of it |
| `RateLimitHeaders.DecisionIsTheReply` | internal/ratelimit/valkey.go:147-151 | the Go side keeps the script's verdict and remaining count |
| `RateLimitHeaders.DenialHeaders` | internal/ratelimit/types.go:94-102 | the headers of a denial say that nothing remains and name the burst as the quota |
| `RateLimitHeaders.HeadersHaveMinimum` | internal/ratelimit/types.go:94-123 | for any reply and policy both durations are at least a second and no count is negative |
| `RateLimitHeaders.RetryAfterExactIffItFits` | internal/ratelimit/types.go:94-110 | waiting n seconds suffices exactly from the header's value on, if and only if the wait fits 64 bits of nanoseconds |
| `RateLimitHeaders.SlowRateHeaderWraps` | internal/ratelimit/valkey.go:147-151 | an accepted policy whose header says 7766279632 seconds when 100 billion are needed |
| `RateLimitHeaders.UsualRatesFit` | internal/ratelimit/valkey.go:147-151 | from 0.00000001 requests per second on it always fits |
| `RateLimitHeaders.WrappedDelayIsShort` | internal/ratelimit/valkey.go:147-151 | a wait that does not fit wraps to a header that is too short |
| `RateLimitHeaders.DelayOfMilliseconds` | internal/ratelimit/types.go:104-110 | rounding nanoseconds up to seconds equals rounding the milliseconds up |
| `RateLimitHeaders.PolicyWindowIsLeastFullRefill` | internal/ratelimit/types.go:112-123 | idling for the advertised window refills any bucket, and no shorter whole number of seconds refills an empty one |
| `RateLimitMiddleware.ServeHTTP` | internal/middleware/rate_limit.go:49-104 | which requests are limited, and that each gets exactly one of the handler, a 429 and a 503: the script decides when it ran and answered, with its remaining count, wait and burst in the headers, otherwise failing open or closed does; unlimited requests touch no key |
| `RateLimitMiddleware.RateLimitKeyInjective` | internal/middleware/rate_limit.go:116-118 | with colon-free server and route labels keys are equal only for equal triples, whatever colons an address has |
| `RateLimitMiddleware.LabelsCollideIffRestJoinsClients` | internal/middleware/rate_limit.go:116-118 | for all labels and any set of clients: some clients of two servers' routes share a key if and only if one label part is a prefix of the other and its rest plus some client is a client |
| `RateLimitMiddleware.LabelsCollideIffPrefix` | internal/middleware/rate_limit.go:62-118 | for non-empty clients of any text, which is what the middleware limits at most: if and only if one label part is a prefix of the other |
| `RateLimitMiddleware.ColonInRouteCollides` | internal/middleware/rate_limit.go:116-118 | with a colon in a route label two IPv6 clients share a key |
| `RateLimitMiddleware.BucketFollowsOwnTimes` | internal/middleware/rate_limit.go:68-70 | a client's key holds exactly what its own script runs left there, through other traffic, lost replies and expiry |
| `RateLimitMiddleware.OutcomeFollowsOwnTimes` | internal/middleware/rate_limit.go:68-101 | a limited request's outcome is a function of its own client's earlier script runs |
| `RateLimitMiddleware.OutcomeIsSettled` | internal/middleware/rate_limit.go:68-101 | in any traffic the outcome is the one the backend and the script on the client's own history say |
| `RateLimitMiddleware.FailOpenRejectsExactlyDenied` | internal/middleware/rate_limit.go:71-95 | when failing open a client is turned away exactly where its own script run answered and denied |
| `RateLimitMiddleware.OtherClientsAreInvisible` | internal/middleware/rate_limit.go:49-118 | erasing everyone else's traffic changes neither outcome nor headers |
| `RateLimitMiddleware.HandlerCallsWithinAllowed` | internal/middleware/rate_limit.go:71-95 | when not failing open, every handler call of a limited client was allowed by the script |
| `RateLimitMiddleware.MiddlewareWindowBound` | internal/middleware/rate_limit.go:49-104 | handler calls of one client on one route in any stretch obey the window bound for any clock |
| `RateLimitMiddleware.MiddlewareElapsedBound` | internal/middleware/rate_limit.go:49-104 | with a monotone clock: burst plus rate times the duration of the stretch |
| `AuditInvariant.StepKeepsInv` | internal/asyncaudit/async.go:111-261 | every step of every producer, closer and the worker keeps the invariant on lock, once, flags, records and counters |
| `AuditInvariant.RunKeepsInv` | internal/asyncaudit/async.go:111-261 | so does every run |
| `AuditResults.ChannelSafety` | internal/asyncaudit/async.go:121-161 | no send and no second close reaches the closed channel, it never overflows, the drain loop never takes its default branch, and readers exclude the closer |
| `AuditResults.ConservationAndOrder` | internal/asyncaudit/async.go:127-138 | accepted records are, in order, the written, the one in flight, the drained and the queued ones, none twice |
| `AuditResults.EveryRecordHasOneOutcome` | internal/asyncaudit/async.go:111-261 | once all Store calls and a Close have returned, each record has exactly one of stored, write_error, dropped_queue_full, dropped_shutdown, the one that happened to it |
| `AuditOutcomes.OutcomeIsWhatHappened` | internal/asyncaudit/async.go:111-261 | read off the steps of the run: stored if and only if the record's write returned no error, write_error if and only if it returned one, dropped_queue_full if and only if its Store found no room, dropped_shutdown if and only if it found the flag set or the record was queued and never written |
| `AuditOutcomes.WriteResultIsRecorded` | internal/asyncaudit/async.go:208-221 | over every run a record is written, and counts as succeeded, exactly as its write step returned |
| `AuditOutcomes.RunDecides` | internal/asyncaudit/async.go:121-138 | over every run a Store call goes the way that what it found under the lock says |
| `AuditResults.CloseWaitsForWorker` | internal/asyncaudit/async.go:150-185 | Close returns only with the worker stopped and the queue empty |
| `AuditResults.AtMostOneLateWrite` | internal/asyncaudit/async.go:192-240 | after the stop signal at most one write completes |
| `AuditResults.WorkerMeasure` | internal/asyncaudit/async.go:192-261 | from Close's call of Lock on, each worker step lowers a measure of queue length, worker phase, closer phase and the last readers' work |
| `AuditResults.CloserMeasure` | internal/asyncaudit/async.go:150-185 | so does each step of the Close call in charge |
| `AuditResults.ReaderMeasure` | internal/asyncaudit/async.go:121-138 | so does each step of a Store call that holds the read lock, and no new one gets in |
| `AuditResults.OthersKeepMeasure` | internal/asyncaudit/async.go:111-147 | nobody else's step raises it |
| `AuditResults.ShutdownNeverStuck` | internal/asyncaudit/async.go:150-185 | until Close returns the worker, the closer or a reader it waits for can step |
| `AuditResults.CloseFinishes` | internal/asyncaudit/async.go:150-185 | in every run from the call of Lock with as many such steps as the measure says, Close has finished |
| `AuditResults.LockCallNeverBlocked` | internal/asyncaudit/async.go:155-157 | inside closeOnce nothing keeps Close from calling Lock |
| `AuditResults.CallerEntersOrReturns` | internal/asyncaudit/async.go:155-155 | a Close call outside it enters, or returns at once after another has finished |
| `AuditResults.ReaderNeverBlocks` | internal/asyncaudit/async.go:121-138 | a Store call that holds the read lock can always go on |
| `AuditResults.NoDeadlock` | internal/asyncaudit/async.go:111-185 | while a Close call has not returned some running call or the worker can step |
| `AuditRepository.Repository.constructor` | internal/asyncaudit/async.go:61-91 | the queue starts empty with the configured or the default capacity |
| `AuditRepository.Repository.Store` | internal/asyncaudit/async.go:111-147 | the record is appended, or dropped, and counted accordingly; accepted records stay written, drained and queued ones in order |
| `AuditRepository.Repository.DropQueuedJobs` | internal/asyncaudit/async.go:242-261 | the loop empties the queue and counts every record in it as dropped, in order |
| `AuditRepository.Repository.ShouldStopWorker` | internal/asyncaudit/async.go:226-240 | it drains exactly when the stop signal is there |
| `AuditRepository.Repository.RunWorker` | internal/asyncaudit/async.go:192-224 | with Store calls, the close and the stop signal arriving on any schedule, it leaves an empty closed channel; what it wrote and then drained is what was accepted, in order, each counted one by one, stored if and only if its own write succeeds; nothing is drained without a signal, and on a closed channel exactly the records taken before it are written |
| `AuditRepository.Repository.Close` | internal/asyncaudit/async.go:150-185 | the first call closes the channel and leaves only after the worker has written or dropped everything; later calls do nothing |
| `AuditRepository.StoreAloneIsTheMethod` | internal/asyncaudit/async.go:111-147 | the steps of a Store call that nobody interrupts do to queue and counters what the method does |
| `AuditRepository.WorkerAloneEmptiesTheQueue` | internal/asyncaudit/async.go:192-261 | from any reachable state with a closed channel the worker alone empties the queue: everything written without a signal, nothing new with one |
| `ServerLifecycle.CleanupStack.Add` | internal/server/lifecycle.go:44-51 | pushes a callback, ignores nil |
| `ServerLifecycle.CleanupStack.Run` | internal/server/lifecycle.go:53-64 | the first call runs everything once in reverse order, later calls nothing |
| `ServerLifecycle.SetupRateLimiter` | internal/server/server.go:242-273 | registers the Valkey client exactly when it was created, also when the store then fails; a failed client is an error unless failing open |
| `ServerLifecycle.Acquire` | internal/server/server.go:62-105 | which resources come into being by how far the startup gets, each registered when it is created |
| `ServerLifecycle.RunBody` | internal/server/server.go:62-186 | on each exit path the stack holds the cleanup of every resource created, in the order of creation, and has run only after a full startup |
| `ServerLifecycle.Run` | internal/server/server.go:27-186 | on every exit path the cleanup of each resource that was created has run exactly once, in reverse order of creation |
| `ServerLifecycle.RegisteredDistinct` | internal/server/server.go:62-102 | no cleanup is registered twice |
| `ServerLifecycle.RegisteredIsWhatExists` | internal/server/server.go:62-102 | a cleanup is registered if and only if its resource exists |
| `ServerLifecycle.PoolClosesAfterAudits` | internal/server/server.go:84-100 | in that order no audit queue is closed after the pool, and nothing registered is left out |
| `Shutdown.StepKeepsInv` | internal/server/lifecycle.go:53-64 | each step of either queue or of the cleanup keeps: once an audit cleanup is done its worker is idle, and the pool closes after both |
| `Shutdown.NoAuditWriteAfterPoolClosed` | internal/server/server.go:156-160 | over all interleavings no audit write starts or is under way from the moment the pool begins to close |
| `NotesTable.Page` | internal/dbsqlc/notes.sql.go:109-118 | the answer holds matching rows in strictly descending key order, at most the limit, leaving a match out only for that many greater ones |
| `NotesTable.PageIsUnique` | internal/dbsqlc/notes.sql.go:109-118 | that determines the answer |
| `NotesTable.PageIsNewestFirst` | internal/dbsqlc/notes.sql.go:109-118 | newest first, among equal times by falling id, and after a cursor only what comes later in that order |
| `NotesTable.PageExists` | internal/dbsqlc/notes.sql.go:109-118 | every table has such an answer for every cursor and limit |
| `NotesRepository.Repository.CreateNote` | internal/notes/postgres.go:28-48 | inserts the whole row under the generated id, or nothing when a constraint rejects it |
| `NotesRepository.Repository.GetNote` | internal/notes/postgres.go:50-60 | the row, or not found |
| `NotesRepository.Repository.ListNotesPage` | internal/notes/postgres.go:62-84 | the row-by-row loop returns the page query's answer for the clamped limit |
| `NotesRepository.Repository.UpdateNote` | internal/dbsqlc/notes.sql.go:158-201 | replaces every column but id and creation time, or nothing |
| `NotesRepository.Repository.DeleteNote` | internal/notes/postgres.go:108-118 | removes the row, not found when there was none |
| `Text.TrimSpaceCutsBlankEnds` | internal/notes/service.go:241-251 | what trimming cuts is blank, what it leaves has no blank ends |
| `Text.SomeSpaces` | internal/notes/service.go:241-251 | characters that are cut and characters that are not |
| `NotesService.ValidateRequiredExact` | internal/notes/service.go:241-251 | a value is accepted exactly when a trimmed, non-empty, short enough text lies between blank ends, and becomes that text |
| `NotesService.CursorRoundTrip` | internal/notes/cursor.go:22-55 | a cursor is encoded exactly when it is valid, and decodes to itself |
| `NotesService.CursorVerdict` | internal/notes/cursor.go:35-55 | a raw cursor stands for a key exactly when its trimmed text decodes to it and time and id are real |
| `NotesService.BadCursorIsRefused` | internal/notes/service.go:79-86 | exactly a cursor that is not empty and stands for no key is refused |
| `NotesService.NormalizeLimit` | internal/notes/service.go:233-239 | 20 for a limit that is not positive, 100 above 100, the limit itself in between |
| `NotesService.Service.CreateNote` | internal/notes/service.go:34-74 | the result and the new table, with every error leaving the table alone; the returned note is the stored row |
| `NotesInputs.CreateStoresItsInput` | internal/notes/service.go:34-74 | a create succeeds if and only if its three trimmed texts are there and short enough, the place was found and the answer passes the column checks; the note is these texts, each in its column, that answer, and now twice |
| `NotesInputs.CreateReportsFirstProblem` | internal/notes/service.go:34-52 | the first wrong field is reported, then what the weather client said |
| `NotesInputs.CreateReturnsItsInput` | internal/notes/service.go:34-74 | however calls interleave, a create that returns has asked for the trimmed location of its own request and returns the note of its own request, that answer and its own insert |
| `NotesService.Service.ListNotes` | internal/notes/service.go:76-113 | the page of the decoded cursor cut at the normalized limit, with a next cursor exactly when the probe found one more row |
| `NotesService.Service.UpdateNote` | internal/notes/service.go:124-183 | the result and the new table in every case; a lookup happens exactly when the location changes |
| `NotesInputs.UpdateStoresItsInput` | internal/notes/service.go:124-183 | for any combination of given fields, from the stored row, the request and the answer alone: when the update succeeds and the note it makes |
| `NotesInputs.UpdateWritesItsInput` | internal/notes/service.go:134-167 | each given field becomes its trimmed text, the others stay as read, and weather and place are the client's own answer exactly when the location changes |
| `NotesService.Service.DeleteNote` | internal/notes/service.go:185-187 | exactly this row goes, a missing one is reported as not found |
| `NotesScan.FetchFollowsCursor` | internal/notes/service.go:76-113 | a call with the cursor string of the last page never fails and continues right after the last row handed out |
| `NotesScan.ScanStrictlyDescends` | internal/notes/service.go:76-113 | under arbitrary changes between pages and any limit per call the notes come in strictly descending key order, none twice |
| `NotesScan.ScanIsComplete` | internal/notes/service.go:76-113 | a finished scan has handed out every note present throughout exactly once |
| `NotesScan.ScanNeverFails` | internal/notes/service.go:76-113 | no call of such a scan fails |
| `NotesScan.StillScanIsSortedTable` | internal/notes/service.go:76-113 | over a still table the first k pages are the first k times limit rows of the sorted table, and the scan ends when they reach its end |
| `NotesScan.StillScanCallCount` | internal/notes/service.go:76-113 | it takes max(1, ceil(rows / limit)) calls, no fewer |
| `NotesScan.ListingExists` | internal/dbsqlc/notes.sql.go:109-118 | every table has a sorted listing with as many rows |
| `NotesCoherence.StepKeepsInv` | internal/notes/service.go:34-187 | every half of every create, update and delete call keeps rows and pending writes coherent |
| `NotesCoherence.StoredNotesStayCoherent` | internal/notes/service.go:34-183 | however calls interleave, each stored note has good texts and the weather and place of one answer to its own location query |
| `NotesCoherence.IdentityNeverChanges` | internal/dbsqlc/notes.sql.go:158-172 | a note still there has the id and creation time it had |
| `NotesCoherence.WriteReturnsStoredRow` | internal/notes/service.go:124-183 | the note a call returns is the row its write left |
| `NotesCoherence.CreateAloneIsTheMethod` | internal/notes/service.go:34-74 | the steps of a create call that nobody interrupts end in the method's result and table |
| `NotesCoherence.UpdateAloneIsTheMethod` | internal/notes/service.go:124-183 | so do those of an update call, with or without a lookup |
| `InterruptedUpdates.WritesWhatItRead` | internal/notes/service.go:124-183 | whatever other calls do between an update's read and its write, it writes the row it read with the input and its own lookup put in |
| `InterruptedUpdates.WritesItsInput` | internal/notes/service.go:124-183 | the same, said from the row read, the request and the answer |
| `InterruptedUpdates.UnchangedRowMakesItAtomic` | internal/notes/service.go:124-183 | if the row is then what was read, or gone, the call ends as the method run alone at the moment of the write |
| `InterruptedUpdates.LeftOutFieldSurvivesIffUntouched` | internal/notes/service.go:124-183 | a successful update, with or without a lookup, keeps what others wrote to a field it leaves out if and only if they left it at the value read |
| `InterruptedUpdates.ConcurrentUpdateLosesTitle` | internal/notes/service.go:124-183 | a whole run of two updates of different fields that both succeed and of which the first one's new title is lost |
| `StartupRetry.BackoffIsMonotone` | internal/postgres/runtime.go:189-206 | the delay never shrinks from one attempt to a later one |
| `StartupRetry.BackoffDoublesToCap` | internal/postgres/runtime.go:189-206 | the closed form starts at the initial delay and doubles up to the cap |
| `StartupRetry.StartupRetryDelay` | internal/postgres/runtime.go:189-206 | for all 64-bit inputs the loop returns min(initial * 2^(attempt-1), max(maxDelay, initial)) over the integers without overflow, 0 without an initial delay |
| `StartupRetry.Open` | internal/postgres/pool.go:19-43 | either a new open pool or the error and no pool |
| `StartupRetry.StartupAttempt` | internal/postgres/runtime.go:83-102 | a failed migration closes the pool; the retry verdict is the one of the error |
| `StartupRetry.SetupRuntime` | internal/postgres/runtime.go:19-70 | at most max(attempts, 1) attempts, going on exactly while they fail retryably, sleeping between them only; the end reason and the pools created are exact, the last return unreachable, and one more pool is open if and only if it succeeded |
| `StartupRetry.EndIsUnique` | internal/postgres/runtime.go:28-69 | the environment determines the attempt and the result |
| `StartupRetry.CallerGoneEndsSetup` | internal/postgres/runtime.go:28-69 | once the caller's context is done when an attempt has failed, no further attempt is made and no further pool created: the setup fails there, or at the next look at the context |
| `StartupRetry.LateDatabaseIsReached` | internal/postgres/runtime.go:28-69 | a database that does not answer the first k-1 attempts and then comes up is reached at attempt k, if so many are configured |
| `StartupRetry.SilentDatabaseExhaustsAttempts` | internal/postgres/runtime.go:26-47 | one that never answers gets exactly the configured number of attempts, at least one |
| `StartupRetry.PassingClassesGoOn` | internal/postgres/runtime.go:172-187 | every SQL state of classes 08, 40, 53 and 58 is retried |
| `StartupRetry.PassingCodesGoOn` | internal/postgres/runtime.go:177-183 | so are the four listed codes |
| `StartupRetry.LastingFailureEndsSetup` | internal/postgres/runtime.go:134-187 | any other SQL state, a cancellation and a wrong URL end the setup at that attempt |
| `Capture.CaptureIsHonestPrefix` | internal/httpcapture/buffer.go:20-45 | for every split of a stream the buffer holds its first min(total, limit) bytes and truncated means total exceeds the limit |
| `Capture.FreshCaptureIsHonestPrefix` | internal/httpcapture/buffer.go:15-45 | in particular for a new buffer |
| `Capture.Buffer.Capture` | internal/httpcapture/buffer.go:20-45 | the in-place update keeps the buffer the summary of all bytes shown |
| `Capture.Buffer.MarkComplete` | internal/httpcapture/buffer.go:63-66 | only the completed flag changes |
| `Capture.CapturingReadCloser.Read` | internal/httpcapture/capturing_read_closer.go:22-32 | the caller gets what the body gave, all of it is captured, EOF and nothing else completes |
| `Capture.FlagRightWhenEndKnown` | internal/httpclient/client.go:640-658 | for requests and responses: with EOF seen, the length announced or the limit exceeded, captureTruncated is false if and only if the capture is the whole body |
| `Capture.FlagRightIffEndKnown` | internal/httpclient/client.go:640-658 | and only then can it be relied on; of a request a length of 0 announces nothing |
| `Capture.UnreadRequestLooksWhole` | internal/httpclient/client.go:580-658 | a request body of unknown length, not read at all, whose empty capture counts as whole |
| `Capture.UnfinishedReadLooksTruncated` | internal/httpclient/client.go:640-658 | a body read to its last byte but not to EOF that is flagged |
| `RoundTrips.GaugeCountsInFlight` | internal/httpclient/client.go:303-383 | over any interleaving the gauge of each label set is the number of its started, unfinalized round trips |
| `RoundTrips.StepKeepsGauge` | internal/httpclient/client.go:303-383 | every step keeps that |
| `RoundTrips.FinalizedOnceByFirstTrigger` | internal/httpclient/client.go:331-362 | a round trip is finalized at most once, and exactly once, with the first of error, missing body, EOF or Close, as soon as one occurred |
| `RoundTrips.FinalizedWithFirstReport` | internal/httpclient/client.go:331-476 | a trip is finalized with what its first reporting step reports: EOF as no error, a failed read, a Close, an error, a nil response or a missing body each as itself |
| `RoundTrips.Transport.Finalize` | internal/httpclient/client.go:366-384 | one decrement of its own gauge and one record |
| `RoundTrips.Transport.RoundTrip` | internal/httpclient/client.go:303-364 | takes exactly the start and response steps of the system; a body is returned exactly when the round trip stays in flight |
| `RoundTrips.AuditedResponseBody.RunFinalize` | internal/httpclient/client.go:478-484 | the once: finalizes when the system has not, otherwise nothing |
| `RoundTrips.AuditedResponseBody.Read` | internal/httpclient/client.go:459-470 | takes exactly the read step; bytes pass through and are captured |
| `RoundTrips.AuditedResponseBody.Close` | internal/httpclient/client.go:472-476 | takes exactly the close step and closes the body underneath |
| `RedactionKeys.NormalizeKey` | internal/httpclient/redact.go:242-252 | the loop keeps letters and digits, lower-cased, in order |
| `RedactionKeys.NormalizedJoins` | internal/httpclient/redact.go:242-252 | normalizing goes character by character |
| `RedactionKeys.NormalizedCharacter` | internal/httpclient/redact.go:245-248 | a letter or digit is lower-cased, anything else dropped |
| `RedactionKeys.SharedWordsAreSensitive` | internal/httpclient/redact.go:191-202 | a key that normalizes to anything ending in one of the eleven words is hidden by both rules |
| `RedactionKeys.HeaderWordsAreSensitive` | internal/middleware/request_audit.go:414-416 | one ending in authorization or cookie by the request rule, and by the outbound rule only on its own or as setcookie |
| `RedactionKeys.OtherNamesAreNotSensitive` | internal/httpclient/redact.go:180-205 | any other key by neither |
| `RedactionKeys.MixedCaseKeyIsSensitive` | internal/httpclient/redact.go:242-252 | neither case nor punctuation keeps a password key from being hidden |
| `RedactionKeys.UserNameIsNotSensitive` | internal/httpclient/redact.go:180-205 | a user name is not |
| `RedactionKeys.RequestRuleHidesMore` | internal/middleware/request_audit.go:398-421 | every key the outbound rule hides the request rule hides; the difference is exactly the further names ending in authorization or cookie |
| `RedactionKeys.OutboundMissesProxyAuthorization` | internal/httpclient/redact.go:180-205 | a key that only the request rule hides |
| `Redaction.RedactJSONValue` | internal/httpclient/redact.go:154-178 | the recursive loops over maps and slices compute the redaction of the tree |
| `Redaction.RedactorsUnite` | internal/httpclient/redact.go:154-178 | one redaction after another is the redaction for the union of their keys |
| `Redaction.RedactIsIdempotent` | internal/httpclient/redact.go:154-178 | redacting twice is redacting once, for both rules |
| `Redaction.RequestRedactorAbsorbsOutbound` | internal/middleware/request_audit.go:372-396 | the two redactors in either order equal the request redactor alone |
| `Redaction.RedactShowsExactly` | internal/httpclient/redact.go:154-178 | at every path: the original node where no sensitive key is passed, the marker right at a sensitive key, nothing below |
| `Redaction.NodesDetermineTree` | internal/httpclient/redact.go:154-178 | trees with the same node at every path are equal, so that description is complete |
| `Redaction.RedactionHidesExactlySecrets` | internal/middleware/request_audit.go:372-396 | two trees are redacted alike if and only if they agree everywhere outside sensitive keys |
| `Redaction.UnchangedIffClean` | internal/httpclient/redact.go:154-178 | redaction leaves a tree alone if and only if each sensitive key in it holds the marker, and makes every tree so |
| `AuditedBody.RecordedJSONIsOfWholeBody` | internal/httpclient/client.go:403-404 | for requests and responses: with the end of the body known, an outbound record holds JSON exactly when all of the body was captured and decodes, and then it is its redaction |
| `AuditedBody.PlaceholderSaysWhy` | internal/httpclient/redact.go:108-133 | blank, cut off, not JSON by type and not JSON by text each have their own record, in that order |
| `AuditedBody.RequestFlagRightIffReadThrough` | internal/middleware/request_audit.go:443-449 | the request audit's flag is right for every body consistent with what it observed if and only if EOF was seen, the limit exceeded or all announced bytes read |
| `AuditedBody.HalfReadRequestCountsAsWhole` | internal/middleware/request_audit.go:443-449 | a half-read body that is recorded as whole |

## Left out

- Floating point: token counts, rates and header durations are real numbers; the rounding of Lua and Go
  floats and of their conversion to strings and integers is not modelled.
- `TokenBucket.ScriptTtlCoversIdleTtl`: does not model the conversion of a lifetime beyond 64-bit
  nanoseconds, which Go leaves to the platform.
- `RateLimitHeaders.PolicyWindowIsLeastFullRefill`: does not model the conversion of a window beyond 64
  bits, for the same reason.
- `RateLimitMiddleware.OtherClientsAreInvisible`: takes the SHA-256 in `bucketKey` as injective, and the
  service and Valkey as reading one clock.
- Valkey's own script and memory management: a script is one atomic step, an expired key is gone at its
  next access.
- The text of headers, error bodies, log lines and metric labels, and the nil receivers and nil metrics
  that switch an observation off.
- Malformed script replies: they are the same error as a lost reply.
- The contexts and timeouts inside a write: a write returns, with or without error, at any later time.
- Gauge of the queue depth and write durations of the audit repository: they would add one-line facts.
- `AuditRepository.Repository.RunWorker`: other calls act between two steps of its loop; the finer
  interleavings are those of the step system.
- PostgreSQL: statements are atomic; a statement's clock and generated id are parameters; database errors
  other than constraints and missing rows are not modelled.
- `NotesService.CursorRoundTrip`: takes JSON and unpadded base64url (section 5 of RFC 4648) as an inverse
  pair on valid keys, with non-empty output that trimming leaves alone.
- Invalid UTF-8: texts and keys are sequences of characters.
- Pool metrics, migrations and connection settings: each succeeds or fails as a parameter says.
- `Capture.Buffer.Capture`: counts bytes without the 64-bit limit of the source.
- `RoundTrips.Transport.RoundTrip`: leaves out the request's own capture, tracing, and a transport below it
  that panics; `Read` and its report to finalize are one step.
- Redaction of headers, query strings and URLs, and the recognition of JSON media types: library patterns
  and parsers.
- `AuditedBody.RecordedJSONIsOfWholeBody`: takes trimming and JSON decoding as given functions, and encoding
  a decoded value as never failing.
- Configuration, CORS, CSRF, client addresses, generated API code, telemetry and the weather client: no
  state or protocol to speak of.
