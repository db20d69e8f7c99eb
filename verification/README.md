# Verified model of the URL shortener

This project models the distributed core of the URL shortener and proves what it guarantees in every
run. Replicas share one Postgres primary, lagging read replicas and one Redis; every statement is one
atomic step and the steps of all requests interleave freely.

* **Short-key allocation** (`ShortKeys`, `UrlTable`, `ShortenProtocol`, `AllocationTheorems`,
  `DeleteFreeRuns`, `Linearizability`,
  `SequentialShorten`, `CallFailures`, `UrlSplits`, `SevenRows`, `AllocationLimits`, `UrlService`). `ShortenURL` probes six slots
  and inserts into the seventh unseen. Lookups may read any earlier state of the primary; any call may
  fail, with or without having taken effect; redirects stamp rows in the background; cleanup sweeps.
* **Rate limiter** (`Decimal`, `RateLimiter`, `RateLimiterInvariant`, `RateLimiterTheorems`,
  `RateLimiterPeak`, `RateLimiterLimits`, `RateLimitMiddleware`). INCR, EXPIRE and the answer are separate steps of many replicas, with time
  passing between any two.
* **Leader gate** (`LeaderLock`, `LeaderGate`). Re-entrant advisory locks held by pooled sessions, with
  failing statements and dying sessions.
* **Breaker and router** (`Breaker`, `BreakerCycle`, `PoolRouter`). The repository's error classes, trip rule and
  routing over a closed / open / half-open machine with overlapping calls.

Each protocol is a total step function `Next` over a state; an action that is not enabled changes
nothing, so every list of actions is a run and the theorems quantify over all lists. The classes have
the program's own form, loops and field updates included. Their `Valid()` says that the object's state
is the one reached by the recorded list of actions, and every method takes the actions that other
replicas perform between its statements, so a method call is a participant in an arbitrary run and every
theorem about runs applies to it.

Nothing is assumed about the hash: it is a parameter and may collide. Of the surroundings the model
assumes: one SQL statement is atomic; the partial unique index refuses a second live row for a key; INCR
and EXPIRE are atomic and EXPIRE with the window keeps a key for at least the bucket's width; a session
lock is re-entrant and ends with its session; the breaker keeps its counters per generation and asks the
trip rule after a counted failure while closed.

## Where the code and its documentation differ

The model follows the code.

* `internal/platform/leader/locker.go:62-63` says that a failed unlock is made good when the connection
  is released. Releasing returns the connection to the pool and its session lives on, holding the lock
  until it ends: `LeaderLock.FailedUnlockShutsOut`, `LeaderLock.ReleaseKeepsLeakedLock`.
  `LeaderLock.WinsIff` says exactly who wins.
* `internal/platform/databse/router.go:36-38` says the replica is read when its breaker is closed. The
  code reads it unless it is open; while a half-open replica is being probed, reads are refused even if
  the primary is healthy: `PoolRouter.ProbedReplicaStarvesReads`, and exactly when in
  `PoolRouter.ReadRefusedIff`.
* `internal/platform/databse/router.go:103-108` says the outcome of a call is reported to the breaker. An
  error met while the row is read is not. Report and result have the same class exactly when the query
  itself failed or the read met no error that counts (`PoolRouter.ReportAgreesIff`); cursors that break never
  move the breaker (`PoolRouter.BrokenCursorsNeverTrip`), although the same failure, met by five queries in
  a row, opens it (`PoolRouter.SameFailureUnheard`).
* Cleanup is documented to remove URLs unused for a threshold. A new row carries the zero time
  (`internal/model/url.go:14-20`), so until its first redirect is stamped any sweep removes it, and a
  late stamp with an older clock reading can undo a newer one: `AllocationTheorems.SweepKeepsIff`,
  `AllocationLimits.OlderStampRewinds`.
* A URL is promised one deterministic key. Without cleanup that holds in every run
  (`DeleteFreeRuns.OneKeyPerUrl`). With cleanup a URL can get a second live row, up to seven in all
  (`AllocationTheorems.TableOfEveryRun`, `SevenRows.SevenIsAttained`), and two keys. `UrlSplits.SplitsIff` gives the exact condition,
  which depends on the hash and the submitted URLs alone: both happen exactly when two of the URLs share
  their first slot and one of them has a slot different from it. When a repeated call gives the same key
  is settled by `SequentialShorten.ReturnsRowIff` and `SequentialShorten.RepeatsIff`.
* At most twice the limit in any one window length, and ceil(L/W)+1 limits in any interval of length L, holds
  for the instants at which Redis counts the requests (`RateLimiterTheorems.QuotaOverCounted`). An answer
  comes after its INCR, and for the answers the promise holds exactly when the delay D keeps L+D at most one
  nanosecond above the next multiple of W (`RateLimiterPeak.CeilPromiseIff`); for one window length, exactly
  when D is at most one nanosecond (`RateLimiterPeak.TwicePromiseIff`). Two nanoseconds already admit three
  limits (`RateLimiterPeak.ThreeQuotasInOneWindow`). What does hold for every delay is the sharp bound of
  `RateLimiterTheorems.QuotaOverInterval`, attained by `RateLimiterPeak.PeakIsReached`; with no bound on the
  delay there is none on the answers (`RateLimiterLimits.SlowAnswersPileUp`).

## Model

| member | source | states |
|---|---|---|
| ShortKeys.ShortKeyFromURL | internal/service/url_service_impl.go:17-36 | the divide-and-append loop gives eleven letters, the i-th being the alphabet's at base-62 digit i of the hash, so that the key is the hash modulo 62^11 |
| ShortKeys.LetterIsAlphabet | internal/service/url_service_impl.go:18 | the letters are those of the literal alphabet, in its order |
| ShortKeys.SlotTexts | internal/service/url_service_impl.go:48-66 | the texts hashed are the URL and then the URL with :1 to :6 |
| ShortKeys.DecodeEncode | internal/service/url_service_impl.go:27-35 | reading the letters back, lowest digit first, gives the hash modulo 62 to the number of letters |
| ShortKeys.EncodeDecode | internal/service/url_service_impl.go:27-35 | every word over the alphabet is the encoding of its own value |
| ShortKeys.SameKeyIffCongruent | internal/service/url_service_impl.go:23-36 | two URLs share a key exactly when their hashes agree modulo 62^11 |
| ShortKeys.EveryKeyIsReached | internal/service/url_service_impl.go:23-36 | every eleven-letter word is the key of some digest below 62^11 |
| SequentialShorten.SaltedUrlSharesSlot | internal/service/url_service_impl.go:66 | for every hash, the salted text of a URL is another URL whose first slot is the first one's later slot |
| ShortenProtocol.ReadIsSound | internal/repository/url_repo_impl.go:48-66 | a row found in any earlier state is still on the primary under the same URL and key |
| ShortenProtocol.NextKeepsInv | internal/service/url_service_impl.go:47-126 | every step of every call, goroutine and sweep keeps the whole system invariant |
| ShortenProtocol.Reachable | internal/service/url_service_impl.go:47-126 | the invariant holds after any interleaving |
| AllocationTheorems.TableOfEveryRun | migrations/20260503120000_create_urls_table.up.sql:12-14 | in every reachable state live keys are unique, is_active agrees with not deleted, rows sit on their URL's probe sequence, and a URL has at most seven live rows |
| AllocationTheorems.BooksOfEveryRun | internal/repository/request_repo_impl.go:21-57 | in every reachable state logs name existing rows and are exactly the rows returned by calls whose insert arrived; a successful call tries one log, any other none; sweep counts add up to the deleted rows |
| CallFailures.FailedIff | internal/service/url_service_impl.go:72-88 | in every run a call has failed for a reason exactly when its lookup failed, its insert failed, or its insert found the key occupied |
| CallFailures.FailedForGood | internal/service/url_service_impl.go:72-88 | a failed call stays failed in every run, and none of its steps inserts a row or writes a log |
| CallFailures.FailingStepEffect | internal/service/url_service_impl.go:72-88 | the failing step leaves the tables alone, unless a failed insert took effect on a free key |
| AllocationTheorems.RunEvolves | internal/repository/url_repo_impl.go:30-98 | no run rewrites a row's URL or key or revives a deleted row |
| AllocationTheorems.RedirectStaysRight | internal/service/url_service_impl.go:100-127 | after a call returned a key, at every later point of every run a redirect of it gives the URL and starts one stamp of its row, from the primary or any replica state that has the row live |
| AllocationTheorems.FaultedRedirectIsHarmless | internal/service/url_service_impl.go:100-110 | a redirect whose lookup fails changes nothing |
| AllocationTheorems.SweepKeepsIff | internal/repository/url_repo_impl.go:68-98 | a sweep keeps a live row exactly when the last executed stamp is not older than the cutoff; an unstamped row counts as the zero time |
| AllocationTheorems.StampedRowSurvives | internal/repository/url_repo_impl.go:68-98 | a live row stamped at t survives any run in which no older stamp is executed and no cutoff exceeds t |
| AllocationTheorems.OverlappingSweepsMerge | internal/service/cleanup_service_impl.go:24-44 | in any run in which no insert or stamp reaches the table, with any other steps and faults, the sweeps leave live what one sweep at the largest executed cutoff would, and delete as many rows |
| UrlTable.SweepsMerge | internal/repository/url_repo_impl.go:84-98 | the same on tables, for any stamps of deletion |
| UrlTable.DeadRowsSweep | internal/repository/url_repo_impl.go:84-98 | one sweep deletes exactly as many rows as it reports |
| UrlTable.SweepSweeps | internal/repository/url_repo_impl.go:84-98 | a sweep marks the live rows older than the cutoff deleted at its time and inactive, and touches nothing else |
| UrlTable.StaleRowsAreCounted | internal/repository/url_repo_impl.go:84-98 | the reported number is the number of live rows older than the cutoff |
| UrlTable.ZeroTimeIsYearOne | internal/model/url.go:14-20 | the zero time of a new row lies 1969 calendar years before the epoch |
| DeleteFreeRuns.NextTidy | internal/service/url_service_impl.go:47-98 | without cleanup every step keeps: the slots before a row's or a call's own are other URLs' |
| DeleteFreeRuns.OneRowPerUrl | internal/service/url_service_impl.go:47-98 | two rows of one URL are the same row |
| DeleteFreeRuns.OneKeyPerUrl | internal/service/url_service_impl.go:47-98 | without cleanup, in every interleaving and with arbitrarily stale lookups, a URL has one row and all calls that return for it return that row and key |
| Linearizability.Linearizable | internal/service/url_service_impl.go:47-98 | in every run without cleanup each call that succeeds takes effect at one of its own steps, where the primary and the answer change as the sequential specification says of the primary at that instant |
| Linearizability.InsertDecides | internal/service/url_service_impl.go:80-88 | an insert that succeeds is the one the specification makes on the primary of that instant |
| Linearizability.LookupDecides | internal/service/url_service_impl.go:51-60 | a lookup that finds the URL's own row in an old state returns what the specification returns on the primary of that instant |
| DeleteFreeRuns.KeyIsForever | internal/service/url_service_impl.go:100-127 | without cleanup a returned key redirects to its URL at every later point |
| SequentialShorten.FirstOpen | internal/service/url_service_impl.go:50-78 | the slot settled on is open and other URLs hold every earlier one |
| SequentialShorten.SoloRefines | internal/service/url_service_impl.go:47-98 | the protocol running one call alone, its lookups served by the primary or by one earlier state, ends with the specified table and answer |
| SequentialShorten.OutcomeCases | internal/service/url_service_impl.go:50-98 | the outcome of a call by what it meets at the first slot where it does not move on: a failed lookup, its own row, a failed insert with or without effect, an occupied or a free key |
| SequentialShorten.FailsIff | internal/service/url_service_impl.go:50-88 | without faults a call fails exactly when other URLs hold six slots and the seventh is occupied |
| SequentialShorten.ReturnsRowIff | internal/service/url_service_impl.go:50-60 | shortening a stored URL gives its row back exactly when the row is on a looked-up slot behind only other URLs' rows |
| SequentialShorten.AddsRowIff | internal/service/url_service_impl.go:69-81 | a call adds a row exactly when a slot is free behind only other URLs' rows |
| SequentialShorten.RepeatsIff | internal/service/url_service_impl.go:47-98 | repeating a successful call changes nothing exactly when one of the six slots was open; otherwise the repetition is a conflict |
| UrlSplits.SplitsIff | internal/service/url_service_impl.go:47-98 | some run submitting only these URLs leaves one with two live rows exactly when two of them share their first slot and one has another slot; the same condition decides whether two calls of one URL return different keys |
| UrlSplits.NoSplitKeepsKeys | internal/service/url_service_impl.go:47-98 | without such a pair every row and every answer of every run, cleanup included, carries its URL's first key, and a URL has one live row at most |
| UrlSplits.CleanupSplitsUrl | internal/repository/url_repo_impl.go:84-98 | for every such pair, a run from the empty system of three calls, one redirect and one sweep, without faults or stale reads, that leaves a URL with two live rows and two keys |
| UrlSplits.CallAlone | internal/service/url_service_impl.go:47-98 | a call that runs alone, reading the primary or one earlier state, is a run that ends with the specified table and answer and leaves all other calls as they were |
| UrlSplits.SplittingHash | internal/service/url_service_impl.go:23-36 | a hash with such a pair and seven different slots |
| SevenRows.SevenIsAttained | internal/service/url_service_impl.go:48-67 | whenever a URL has seven different slots and shares the first with another, a run from the empty system leaves it with seven live rows |
| AllocationLimits.OlderStampRewinds | internal/service/url_service_impl.go:112-124 | for every hash, URL and times, a run from the empty system with one call and two visits after which a sweep between the two stamps keeps the row, and deletes it once the older stamp was executed last |
| AllocationLimits.LaggingReplicaConflicts | internal/service/url_service_impl.go:51-88 | a whole faultless call whose lookups see an earlier state fails exactly when its probe ends there on a free slot, or on the seventh, that is occupied on the primary |
| AllocationLimits.StaleFirstSlotConflicts | internal/service/url_service_impl.go:51-88 | with the URL's own row on its first slot, such a call conflicts exactly when the state it sees is from before the slot was taken |
| AllocationLimits.OneCollisionExhausts | internal/service/url_service_impl.go:50-88 | for every hash, two URLs sharing their first slot suffice for a run after which one of them, never shortened before, fails with a conflict |
| UrlService.Service.ShortenURL | internal/service/url_service_impl.go:47-98 | the loop, under any interference and faults, takes part in a protocol run, returns a row of its URL, logs once, and fails exactly for a cause in its own steps; undisturbed, its outcome is that of OutcomeCases for any faults and states served, a reached lookup that fails being an error that adds no row |
| UrlService.Service.Redirect | internal/service/url_service_impl.go:100-127 | a failed lookup is an error; else the answer is a live row of the key in the state that serves the read, or not-found if that state has none, and one stamp is started for a row found |
| UrlService.Service.RunCleanup | internal/service/cleanup_service_impl.go:24-44 | exactly the live rows idle for longer than the threshold are marked deleted, and their number is reported |
| UrlService.Database.GetByShortKey | internal/repository/url_repo_impl.go:48-66 | a lookup is one protocol step; a fault is an error, else it finds a live row of the key in the state that serves it, or that there is none |
| UrlService.Database.Create | internal/repository/url_repo_impl.go:30-46 | an insert is one protocol step and adds the row unless its key is live or the call is lost |
| UrlService.Database.LogCreateRequest | internal/repository/request_repo_impl.go:21-57 | the log insert is one protocol step and leaves the urls table alone |
| UrlService.Database.UpdateLastUsed | internal/repository/url_repo_impl.go:68-82 | the stamp changes the last use of one row, deleted or not, and nothing else |
| UrlService.Database.DeleteUnusedSince | internal/repository/url_repo_impl.go:84-98 | the live rows older than the cutoff are marked deleted, nothing else changes, their number is reported, and the books stay balanced |
| RateLimiter.WindowSec | internal/service/ratelimit_service.go:55-58 | the window in whole seconds, one for anything shorter |
| RateLimiter.Configured | internal/service/ratelimit_service.go:35-71 | a limiter has the given limit, and its counters live as long as its buckets exactly when its window is positive |
| RateLimiter.BucketContains | internal/service/ratelimit_service.go:51-59 | the bucket of a request is the window its clock reading falls into |
| RateLimiter.RedisKeyInjective | internal/service/ratelimit_service.go:60 | requests share a Redis key only with the same client and bucket, colons in addresses included |
| RateLimiter.RedisKeyFormat | internal/service/ratelimit_service.go:60 | the key is rl:, the client, a colon and the bucket in decimal |
| Decimal.SuffixInjective | internal/service/ratelimit_service.go:60 | a number printed after the last colon can be split off unambiguously |
| RateLimiterInvariant.IncrBucket | internal/service/ratelimit_service.go:62-75 | an INCR counts one more than the bucket's last hit or starts again at one; an on-time INCR meets the bucket's own counter |
| RateLimiterInvariant.NextKeepsInv | internal/service/ratelimit_service.go:44-91 | every step of every replica keeps counters and answers consistent |
| RateLimiterTheorems.QuotaPerBucket | internal/service/ratelimit_service.go:62-90 | in every interleaving at most the quota is allowed per bucket, exactly min(requests, quota) once all are answered without fault, remaining values fall strictly, and the counter outlives the bucket |
| RateLimiterTheorems.BuiltLimiterAllows | internal/service/ratelimit_service.go:35-90 | a limiter built with a limit and a positive window allows of a bucket's requests, all answered, exactly the smaller of their number and that limit |
| RateLimiterTheorems.QuotaPerCounter | internal/service/ratelimit_service.go:62-90 | however late INCRs arrive, a bucket allows at most one quota for each time its counter was created; if once, the guarantees above hold |
| RateLimiterTheorems.RankedIffOneCounter | internal/service/ratelimit_service.go:62-75 | the counts of a bucket run 1, 2, 3, … exactly when its counter was created once at most |
| RateLimiterTheorems.ExpiresPerCreation | internal/service/ratelimit_service.go:67-74 | in every run the EXPIREs sent for a bucket, and those about to be sent, are no more than the creations of its counter |
| RateLimiterTheorems.OnlyFirstHitExpires | internal/service/ratelimit_service.go:67-74 | with on-time INCRs one EXPIRE at most is sent for a bucket in the whole run, by the first request it counted |
| RateLimiterTheorems.QuotaOverCounted | internal/service/ratelimit_service.go:51-90 | any interval of length L holds the INCRs of allowed requests of at most as many quotas as L instants can touch windows, which is at most ceil(L/W)+1 |
| RateLimiterTheorems.QuotaOverInterval | internal/service/ratelimit_service.go:51-90 | when answers follow their INCRs within D, any interval of length L holds at most as many quotas of allow answers as L+D instants can touch windows |
| RateLimiterTheorems.TwiceTheQuota | internal/service/ratelimit_service.go:51-90 | one window length, and a nanosecond more, holds the INCRs of at most two quotas; an interval whose length and delay exceed the window by a nanosecond at most holds two quotas of answers |
| RateLimiterPeak.PeakIsReached | internal/service/ratelimit_service.go:51-90 | for every positive limit, length and delay a run attains the bound of QuotaOverInterval |
| RateLimiterPeak.PromisedIff | internal/service/ratelimit_service.go:51-90 | a number of quotas bounds the answers of every interval in every run exactly when L+D instants touch no more windows |
| RateLimiterPeak.CeilPromiseIff | internal/service/ratelimit_service.go:51-90 | ceil(L/W)+1 quotas bound the answers of every run exactly when L+D is at most ceil(L/W)*W+1 |
| RateLimiterPeak.TwicePromiseIff | internal/service/ratelimit_service.go:51-90 | two quotas bound the answers of one window length exactly when no answer is more than a nanosecond late |
| RateLimiterPeak.ThreeQuotasInOneWindow | internal/service/ratelimit_service.go:51-90 | a run with on-time INCRs and answers two nanoseconds late that gives three quotas of allow answers in one window length |
| RateLimiterTheorems.PassesBounded | internal/api/middleware/ratelimit.go:47-75 | requests passed for one client and bucket number at most the quota plus the limiter errors |
| RateLimiterTheorems.DecisionsCountRequests | internal/api/middleware/ratelimit.go:29-75 | every arrived request is allowed, denied, failed or still open, exactly once |
| RateLimiterTheorems.RetryAfterWorks | internal/api/middleware/ratelimit.go:60-67 | waiting the announced seconds lands in a later bucket, the header is between one and the window, and a second less would not do |
| RateLimiterTheorems.ClientsAreIndependent | internal/service/ratelimit_service.go:59-60 | what a client sees in any run equals what it would see alone |
| RateLimiterLimits.LateIncrBreaksQuota | internal/service/ratelimit_service.go:59-75 | for every positive limit and every number, INCRs delayed past their counter's life let a bucket allow that many requests |
| RateLimiterLimits.SlowAnswersPileUp | internal/service/ratelimit_service.go:62-90 | for every number a run with on-time INCRs that gives that many allow answers in one nanosecond |
| RateLimitMiddleware.RedisRateLimiter.Allow | internal/service/ratelimit_service.go:44-91 | under any interference the call takes part in a run; it is refused exactly when Redis counted it above the limit, then told a wait that reaches a later bucket, and otherwise told what is left; it is unavailable exactly when its INCR or its own EXPIRE failed |
| RateLimitMiddleware.RedisRateLimiter.SetExpiry | internal/service/ratelimit_service.go:67-74 | EXPIRE gives a counter that is still there the limiter's window to live, counted from when it runs; a fault makes the request an error |
| RateLimitMiddleware.Middleware.RateLimit | internal/api/middleware/ratelimit.go:28-77 | skipped paths touch nothing; every other request adds one to its own decision's counter and nothing else; what the limiter cannot decide is served; turned away is exactly what was counted above the limit, and waiting the seconds of its header reaches a later bucket while a second less does not |
| LeaderLock.NextKeepsInv | internal/platform/leader/locker.go:40-73 | every step keeps: what a live session holds is its active Run plus its leaks |
| LeaderLock.AtMostOneLeader | internal/platform/leader/locker.go:40-73 | at most one Run per key is inside fn on a live session in every reachable state |
| LeaderLock.WinsIff | internal/platform/leader/locker.go:47-56 | a Run wins exactly when no other live session has a Run inside or a leak for the key |
| LeaderLock.LoserChangesNothing | internal/platform/leader/locker.go:47-56 | from taking its connection to releasing it, with other Runs acting before and after its try, a Run that loses or fails without effect is at no moment inside fn, and its session holds every lock as often as before |
| LeaderLock.FnCallsAreWins | internal/platform/leader/locker.go:47-72 | in every run fn was called exactly once for each faultless try on a live session that met no rival |
| LeaderLock.RunRestoresLock | internal/platform/leader/locker.go:47-72 | a Run whose try succeeds and whose unlock takes effect leaves its session's hold on every lock as it found it |
| LeaderLock.DeadHoldNothing | internal/platform/leader/locker.go:33-36 | every held lock belongs to a live session; a dead replica holds none |
| LeaderLock.LeakShutsOut | internal/platform/leader/locker.go:59-70 | a lock leaked on a session is held by it at every later point of every run until the session ends: no other session is inside and all their tries lose |
| LeaderLock.FailedUnlockShutsOut | internal/platform/leader/locker.go:59-70 | after a failed unlock all other sessions are shut out, however the run goes on, until that session ends, which frees the lock |
| LeaderLock.ReleaseKeepsLeakedLock | internal/platform/leader/locker.go:62-70 | returning the connection does not free the lock: nobody uses the session any more and the others still lose |
| LeaderLock.UnansweredTryShutsOut | internal/platform/leader/locker.go:47-51 | a try that took the lock but failed returns without fn and without unlocking, and shuts the others out until its session ends |
| LeaderGate.Locker.Run | internal/platform/leader/locker.go:40-73 | under any interference Run takes part in a protocol run and returns its connection; undisturbed, its result, the calls of fn and all locks are determined by the faults of acquire, try and unlock, as Does says case by case |
| LeaderGate.QuietRunIff | internal/platform/leader/locker.go:40-73 | without faults on a live session fn runs exactly when the lock can be taken, and all locks stay as they were |
| Breaker.ClassOfTree | internal/platform/databse/breaker.go:87-131 | for error trees of any shape: a signal leaf silences, else a timeout leaf counts, else the first Postgres leaf decides by its class, else it counts |
| Breaker.WrappingKeepsClass | internal/platform/databse/breaker.go:87-131 | wrapping an error any number of times never changes whether it counts |
| Breaker.JoinedClass | internal/platform/databse/breaker.go:91-107 | a signal in either of two joined errors silences both; else a timeout in either counts; two counting errors joined count |
| Breaker.FloatTestIsExact | internal/platform/databse/breaker.go:58-62 | for all 32-bit counters the rounded quotient exceeds one half exactly when twice the failures exceed the requests |
| Breaker.ClosedIsBelowThreshold | internal/platform/databse/breaker.go:54-57 | in every run with overlapping calls a closed breaker has fewer counted failures in a row than the threshold, and its counters match the reports |
| Breaker.OpensIff | internal/platform/databse/breaker.go:28-65 | with the default settings a counted failure opens the breaker exactly when it is the fifth in a row or more than half of at least twenty calls failed |
| BreakerCycle.TripsIff | internal/platform/databse/breaker.go:53-65 | the same for any settings; and no success opens a closed breaker |
| BreakerCycle.RequestsAreCallsLetIn | internal/platform/databse/breaker.go:58-59 | in every run the requests counted are the calls let in during the present generation |
| BreakerCycle.ProbeDecides | internal/platform/databse/breaker.go:28-41 | in every run a half-open breaker opens for its timeout on a failed probe, and closes with fresh counters exactly on its last successful one |
| BreakerCycle.DefaultCycle | internal/platform/databse/breaker.go:31-41 | with the default settings: thirty seconds of refusal, then one probe, then closed or thirty seconds more |
| BreakerCycle.DefaultInterval | internal/platform/databse/breaker.go:31-41 | with the default settings a closed breaker forgets its counters after sixty seconds |
| BreakerCycle.StaleReportsIgnored | internal/platform/databse/router.go:103-108 | the report of a call let in during an earlier generation changes nothing |
| Breaker.OpenRefuses | internal/platform/databse/router.go:103-108 | until its timeout an open breaker is unchanged by any events and refuses every call |
| Breaker.TripsForTimeout | internal/platform/databse/breaker.go:28-36 | a tripping breaker stays open and refuses for the whole timeout |
| Breaker.UncountedNeverTrip | internal/platform/databse/breaker.go:79-131 | a run without counted failures never leaves closed nor counts a failure |
| PoolRouter.BreakerDB.Exec | internal/platform/databse/router.go:127-151 | a refused call reads as ErrCircuitOpen and does not reach the pool; any other passes the pool's answer on, and the breaker hears of it once |
| PoolRouter.BreakerDB.QueryRow | internal/platform/databse/router.go:153-168 | a refused call does not reach the pool; the breaker hears only how Query began; errors are deferred to Scan |
| PoolRouter.Scan | internal/platform/databse/router.go:182-200 | the first record, the stored error, or ErrNoRows for an empty cursor; the cursor is closed on every path |
| PoolRouter.ReportAgreesIff | internal/platform/databse/router.go:153-200 | the class the breaker hears is the class of what the caller gets exactly when the query failed to begin or the read met no error that counts |
| PoolRouter.BrokenCursorsNeverTrip | internal/platform/databse/router.go:153-200 | in every run whose queries begin without a counted error the breaker stays closed, counts no failure and refuses no call, however the cursors end |
| PoolRouter.SameFailureUnheard | internal/platform/databse/router.go:153-200 | five server failures in a row open the breaker when queries meet them; any number leaves it closed when cursors do |
| PoolRouter.ReadRefusedIff | internal/platform/databse/router.go:39-49 | in every run of the two breakers, exactly when a routed read is turned away: a half-open replica with its probes let in and one still running, or no usable replica and a primary in that state or open |
| PoolRouter.ProbedReplicaStarvesReads | internal/platform/databse/router.go:36-44 | once a half-open replica's probes are all out every read is refused though the primary would serve it |
| PoolRouter.Router.Reader | internal/platform/databse/router.go:39-44 | the replica unless absent or open, else the primary |
| PoolRouter.Router.Read | internal/platform/databse/router.go:39-44 | a read is QueryRow on the chosen side and Scan: one pool is called at most; a failing replica never touches the primary |
| PoolRouter.Router.Write | internal/platform/databse/router.go:46-49 | writes go to the primary only and never fall back |

## Left out

- SHA-256, UUIDs and clocks: the hash is an uninterpreted parameter, a row's position stands for its id, times are inputs.
- Query deadlines and cancellation beyond "a call may fail at any step, with or without effect".
- Rate-limit windows that are not positive (for them EXPIRE deletes the counter, and RateLimiter.Configured is not sound), and clocks that differ between replicas.
- RateLimiterTheorems.QuotaPerBucket: assumes the INCRs of the bucket land inside its window; RateLimiterLimits.LateIncrBreaksQuota shows why, and QuotaPerCounter gives the bound without it.
- RateLimiterTheorems.RetryAfterWorks: rounds exactly; the float of a wait of several months of nanoseconds is not modelled.
- LeaderLock.AtMostOneLeader: speaks of live sessions; a session cut off while fn runs frees the lock, and the overlap is covered by OverlappingSweepsMerge.
- Breaker.OpensIff: counters do not wrap at 32 bits, which a generation of one minute does not reach.
- The internals of the breaker library, the Postgres driver and the Redis client beyond the steps stated above; which idle connection a pool hands out.
- HTTP routing, handlers, JSON envelopes, configuration, logging, tracing, health probes, start-up and shutdown.
- The ticker of the cleanup cron: any replica may start a Run at any step.
